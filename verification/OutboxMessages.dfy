/** What is stored, claimed and sent is what was enqueued, and a claim and a retry come when they are due. */
module OutboxMessages {
  import opened Common
  import opened EmailOutbox
  import opened OutboxProtocol

  // ----- messages

  ghost predicate RowCarries(s: World, i: Id)
    requires i in s.rows
  {
    i in s.origin && s.origin[i] < |s.messages| && s.rows[i].message == s.messages[s.origin[i]]
  }

  ghost predicate CycleCarries(s: World, cy: Cycle) {
    |cy.batch| == |cy.serials| && forall k :: 0 <= k < |cy.batch| ==>
      cy.serials[k] < |s.messages| && cy.batch[k].message == s.messages[cy.serials[k]]
  }

  ghost predicate SendCarries(s: World, r: SendRecord) {
    r.serial < |s.messages| && r.message == s.messages[r.serial]
  }

  ghost predicate MessagesOk(s: World) {
    && |s.messages| == s.enqueued
    && (forall i :: i in s.rows ==> RowCarries(s, i))
    && (forall w :: w in s.cycles ==> CycleCarries(s, s.cycles[w]))
    && (forall n :: 0 <= n < |s.sends| ==> SendCarries(s, s.sends[n]))
  }

  lemma EnqueueKeepsMessages(c: Config, s: World, st: Step)
    requires Inv(c, s) && MessagesOk(s) && st.Enqueue? && Enabled(c, s, st)
    ensures MessagesOk(Apply(c, s, st))
  {
    var s' := Apply(c, s, st);
    assert forall x :: 0 <= x < |s.messages| ==> s'.messages[x] == s.messages[x];
    forall i | i in s'.rows ensures RowCarries(s', i) {
      assert i != st.id ==> RowCarries(s, i);
    }
    forall w | w in s'.cycles ensures CycleCarries(s', s'.cycles[w]) {
      assert CycleCarries(s, s.cycles[w]);
    }
    forall n | 0 <= n < |s'.sends| ensures SendCarries(s', s'.sends[n]) {
      assert SendCarries(s, s.sends[n]);
    }
  }

  lemma ClaimKeepsMessages(c: Config, s: World, st: Step)
    requires Inv(c, s) && MessagesOk(s) && st.Claim? && Enabled(c, s, st)
    ensures MessagesOk(ApplyClaim(c, s, st))
  {
    var s' := ApplyClaim(c, s, st);
    SelectionIsFirst(s.rows, st.asOf, c.batchSize);
    forall i | i in s'.rows ensures RowCarries(s', i) {
      assert RowCarries(s, i);
    }
    forall w | w in s'.cycles ensures CycleCarries(s', s'.cycles[w]) {
      if w == st.w && st.order != [] {
        forall k | 0 <= k < |st.order| ensures st.order[k] in s.rows && RowCarries(s, st.order[k]) {
          assert st.order[k] in Elems(st.order);
        }
      } else {
        assert CycleCarries(s, s.cycles[w]);
      }
    }
    assert forall n :: 0 <= n < |s.sends| ==> SendCarries(s, s.sends[n]);
  }

  lemma SendKeepsMessages(c: Config, s: World, st: Step)
    requires Inv(c, s) && MessagesOk(s) && st.Send? && Enabled(c, s, st)
    ensures MessagesOk(ApplySend(s, st))
  {
    var s' := ApplySend(s, st);
    assert CycleCarries(s, s.cycles[st.w]);
    forall i | i in s'.rows ensures RowCarries(s', i) {
      assert RowCarries(s, i);
    }
    forall w | w in s'.cycles ensures CycleCarries(s', s'.cycles[w]) {
      assert CycleCarries(s, s.cycles[w]);
    }
    forall n | 0 <= n < |s'.sends| ensures SendCarries(s', s'.sends[n]) {
      assert n < |s.sends| ==> SendCarries(s, s.sends[n]);
    }
  }

  lemma OtherStepKeepsMessages(c: Config, s: World, st: Step)
    requires Inv(c, s) && MessagesOk(s) && Enabled(c, s, st) && !st.Enqueue? && !st.Claim? && !st.Send?
    ensures MessagesOk(Apply(c, s, st))
  {
    var s' := Apply(c, s, st);
    if st.Mark? {
      var cy := s.cycles[st.w];
      MarkReleases(c, s.rows, cy.batch[cy.next], cy.phase, st.asOf);
    }
    forall i | i in s'.rows ensures RowCarries(s', i) {
      assert RowCarries(s, i);
    }
    forall w | w in s'.cycles ensures CycleCarries(s', s'.cycles[w]) {
      assert CycleCarries(s, s.cycles[w]);
    }
    assert forall n :: 0 <= n < |s.sends| ==> SendCarries(s, s.sends[n]);
  }

  lemma {:induction false} RunKeepsMessages(c: Config, s: World, steps: seq<Step>)
    requires c.Valid() && Inv(c, s) && MessagesOk(s) && Valid(c, s, steps)
    ensures MessagesOk(Run(c, s, steps))
    decreases |steps|
  {
    if steps != [] {
      var st := steps[0];
      match st {
        case Enqueue(_, _, _, _) => EnqueueKeepsMessages(c, s, st);
        case Claim(_, _, _, _, _) => ClaimKeepsMessages(c, s, st);
        case Send(_, _, _, _) => SendKeepsMessages(c, s, st);
        case _ => OtherStepKeepsMessages(c, s, st);
      }
      StepKeepsInv(c, s, st);
      RunKeepsMessages(c, Apply(c, s, st), steps[1..]);
    }
  }

  /** The messages of the enqueues among `steps`, in order. */
  function EnqueuedBy(steps: seq<Step>): seq<Message> {
    if steps == [] then [] else (if steps[0].Enqueue? then [steps[0].message] else []) + EnqueuedBy(steps[1..])
  }

  lemma StepEnqueues(c: Config, s: World, st: Step)
    requires Enabled(c, s, st)
    ensures Apply(c, s, st).messages == s.messages + if st.Enqueue? then [st.message] else []
  {
  }

  lemma {:induction false} MessagesAreEnqueued(c: Config, s: World, steps: seq<Step>)
    requires Valid(c, s, steps)
    ensures Run(c, s, steps).messages == s.messages + EnqueuedBy(steps)
    decreases |steps|
  {
    if steps != [] {
      var s', rest := Apply(c, s, steps[0]), steps[1..];
      var first := if steps[0].Enqueue? then [steps[0].message] else [];
      StepEnqueues(c, s, steps[0]);
      MessagesAreEnqueued(c, s', rest);
      assert (s.messages + first) + EnqueuedBy(rest) == s.messages + (first + EnqueuedBy(rest));
    }
  }

  /**
   In every run each row holds, each worker has at hand and each Send delivers exactly the message
   that was given to the enqueue it comes from.
   */
  lemma NothingIsGarbled(c: Config, now: int, steps: seq<Step>)
    requires c.Valid() && Valid(c, Init(now), steps)
    ensures var s, enqueued := Run(c, Init(now), steps), EnqueuedBy(steps);
            && (forall i :: i in s.rows ==> i in s.origin && s.origin[i] < |enqueued| && s.rows[i].message == enqueued[s.origin[i]])
            && (forall w, k :: w in s.cycles && 0 <= k < |s.cycles[w].batch| == |s.cycles[w].serials| ==>
                  s.cycles[w].serials[k] < |enqueued| && s.cycles[w].batch[k].message == enqueued[s.cycles[w].serials[k]])
            && (forall n :: 0 <= n < |s.sends| ==> s.sends[n].serial < |enqueued| && s.sends[n].message == enqueued[s.sends[n].serial])
  {
    var s := Run(c, Init(now), steps);
    InvInit(c, now);
    RunKeepsMessages(c, Init(now), steps);
    MessagesAreEnqueued(c, Init(now), steps);
    assert s.messages == EnqueuedBy(steps);
    forall i | i in s.rows ensures RowCarries(s, i) {
    }
    forall w | w in s.cycles ensures CycleCarries(s, s.cycles[w]) {
    }
    forall n | 0 <= n < |s.sends| ensures SendCarries(s, s.sends[n]) {
    }
  }

  // ----- due times

  /** `available_at <= now` of a pending row, `claim_expires_at <= now` of one being sent. */
  predicate Due(row: Row, now: int) {
    match row.status
    case Pending => row.availableAt <= now
    case Sending => row.claimExpiresAt.Some? && row.claimExpiresAt.value <= now
    case _ => false
  }

  lemma EligibleIsDue(t: Table, now: int, i: Id)
    ensures i in EligibleIds(t, now) <==> i in t && Due(t[i], now)
  {
  }

  /** What a claim statement takes is due ... */
  lemma ChosenAreDue(t: Table, now: int, limit: nat, order: seq<Id>)
    requires IsOrderOf(order, Selection(t, now, limit))
    ensures forall k :: 0 <= k < |order| ==> order[k] in t && Due(t[order[k]], now)
    ensures |order| <= limit
  {
    SelectionIsFirst(t, now, limit);
    OrderSize(order);
    forall k | 0 <= k < |order| ensures order[k] in t && Due(t[order[k]], now) {
      assert order[k] in Elems(order);
      EligibleIsDue(t, now, order[k]);
    }
  }

  /** ... and it leaves a due row only if it is full, of rows that come before. */
  lemma LeftAreBehind(t: Table, now: int, limit: nat, order: seq<Id>, j: Id)
    requires IsOrderOf(order, Selection(t, now, limit)) && j in t && Due(t[j], now) && j !in order
    ensures |order| == limit
    ensures forall i :: i in order ==> i in t && Precedes(t, i, j)
  {
    var eligible, chosen := EligibleIds(t, now), Elems(order);
    SelectionIsFirst(t, now, limit);
    EligibleIsDue(t, now, j);
    OrderSize(order);
    assert j !in chosen;
    SubsetSize(chosen + {j}, eligible);
    assert |chosen + {j}| == |chosen| + 1;
    assert forall i :: i in order ==> i in chosen;
  }

  predicate IsLease(r: Row, r': Row, now: int, expiresAt: int, token: string) {
    r' == Row(r.message, Sending, r.attempts, r.lastError, r.availableAt, Some(now), Some(expiresAt), token, r.sentAt)
  }

  /** The batch read back: the rows in the order they came, with their messages and attempts. */
  lemma BatchIsRead(t: Table, now: int, limit: nat, order: seq<Id>, token: string)
    requires IsOrderOf(order, Selection(t, now, limit))
    ensures var batch := Snapshots(t, order, token);
            && |batch| == |order|
            && forall k :: 0 <= k < |order| ==>
                 order[k] in t && batch[k] == OutboxEmail(order[k], t[order[k]].message, t[order[k]].attempts, token)
  {
    ChosenAreDue(t, now, limit, order);
  }

  /** What the claim statement writes: the lease of each row it takes, and nothing else. */
  lemma ClaimLeases(t: Table, now: int, limit: nat, order: seq<Id>, expiresAt: int, token: string)
    requires IsOrderOf(order, Selection(t, now, limit))
    ensures var t' := ClaimRows(t, Elems(order), now, expiresAt, token);
            && t'.Keys == t.Keys
            && (forall i :: i in t && i !in order ==> t'[i] == t[i])
            && forall i :: i in order ==> i in t && Due(t[i], now) && IsLease(t[i], t'[i], now, expiresAt, token)
  {
    ChosenAreDue(t, now, limit, order);
    forall i | i in order ensures i in t && i in Elems(order) {
      var k :| 0 <= k < |order| && order[k] == i;
    }
  }

  /**
   A claim takes due rows only, and leaves a due row only if its batch is full of rows that come
   before it by available_at and, where that is equal, by rowid.
   */
  lemma ClaimTakesDue(c: Config, s: World, st: Step)
    requires st.Claim? && Enabled(c, s, st)
    ensures forall k :: 0 <= k < |st.order| ==> st.order[k] in s.rows && Due(s.rows[st.order[k]], st.asOf)
    ensures |st.order| <= c.batchSize
    ensures forall j :: j in s.rows && Due(s.rows[j], st.asOf) && j !in st.order ==>
              && |st.order| == c.batchSize
              && forall i :: i in st.order ==>
                   || s.rows[i].availableAt < s.rows[j].availableAt
                   || (s.rows[i].availableAt == s.rows[j].availableAt && i < j)
  {
    ChosenAreDue(s.rows, st.asOf, c.batchSize, st.order);
    forall j | j in s.rows && Due(s.rows[j], st.asOf) && j !in st.order
      ensures |st.order| == c.batchSize && forall i :: i in st.order ==> i in s.rows && Precedes(s.rows, i, j)
    {
      LeftAreBehind(s.rows, st.asOf, c.batchSize, st.order, j);
    }
  }

  // ----- the retry delay

  /** The mark at hand takes effect on row `i`. */
  ghost predicate Marks(s: World, st: Step, i: Id) {
    && st.Mark? && st.w in s.cycles && s.cycles[st.w].next < |s.cycles[st.w].batch|
    && var m := s.cycles[st.w].batch[s.cycles[st.w].next]; m.id == i && Owns(s.rows, i, m.claimToken)
  }

  ghost predicate NotMarked(c: Config, s: World, steps: seq<Step>, i: Id)
    requires Valid(c, s, steps)
    decreases |steps|
  {
    steps != [] ==> !Marks(s, steps[0], i) && NotMarked(c, Apply(c, s, steps[0]), steps[1..], i)
  }

  /** The message enqueued as number `x` is under rowid `i`, unfinished, and not due before `due`. */
  ghost predicate NotDueBefore(s: World, i: Id, x: nat, due: int) {
    && i in s.rows && i in s.origin && s.origin[i] == x
    && match s.rows[i].status
       case Pending => s.rows[i].availableAt >= due
       case Sending => s.rows[i].claimExpiresAt.Some? && s.rows[i].claimExpiresAt.value >= due
       case _ => false
  }

  lemma StillNotDue(c: Config, s: World, st: Step, i: Id, x: nat, due: int)
    requires c.Valid() && Inv(c, s) && Enabled(c, s, st) && !Marks(s, st, i) && NotDueBefore(s, i, x, due)
    ensures NotDueBefore(Apply(c, s, st), i, x, due)
  {
    match st
    case Claim(_, _, _, _, _) =>
      ChosenAreDue(s.rows, st.asOf, c.batchSize, st.order);
      assert i in Elems(st.order) <==> i in st.order;
    case Mark(_, _, _) =>
      var cy := s.cycles[st.w];
      MarkReleases(c, s.rows, cy.batch[cy.next], cy.phase, st.asOf);
    case _ =>
  }

  lemma {:induction false} RunStillNotDue(c: Config, s: World, steps: seq<Step>, i: Id, x: nat, due: int)
    requires c.Valid() && Inv(c, s) && Valid(c, s, steps) && NotMarked(c, s, steps, i) && NotDueBefore(s, i, x, due)
    ensures NotDueBefore(Run(c, s, steps), i, x, due) && Inv(c, Run(c, s, steps))
    decreases |steps|
  {
    if steps != [] {
      StillNotDue(c, s, steps[0], i, x, due);
      StepKeepsInv(c, s, steps[0]);
      RunStillNotDue(c, Apply(c, s, steps[0]), steps[1..], i, x, due);
    }
  }

  /**
   The retry delay is honoured: after a mark that puts a refused message off, and until it is
   marked again, no claim whose clock is sampled before the delay is over has it in its batch.
   */
  lemma RetryIsDelayed(c: Config, s: World, mark: Step, steps: seq<Step>, claim: Step)
    requires c.Valid() && Reachable(c, s) && mark.Mark? && Enabled(c, s, mark)
    requires var cy := s.cycles[mark.w];
             && cy.next < |cy.batch| && cy.phase.Refused? && cy.batch[cy.next].attempts + 1 < c.maxAttempts
             && Marks(s, mark, cy.batch[cy.next].id)
    requires var i := s.cycles[mark.w].batch[s.cycles[mark.w].next].id;
             Valid(c, Apply(c, s, mark), steps) && NotMarked(c, Apply(c, s, mark), steps, i)
    requires claim.Claim? && Enabled(c, Run(c, Apply(c, s, mark), steps), claim) && claim.asOf < mark.asOf + c.retryDelay
    ensures s.cycles[mark.w].batch[s.cycles[mark.w].next].id !in claim.order
  {
    ReachableIsInv(c, s);
    var cy := s.cycles[mark.w];
    var m := cy.batch[cy.next];
    MarkReleases(c, s.rows, m, cy.phase, mark.asOf);
    StepKeepsInv(c, s, mark);
    RunStillNotDue(c, Apply(c, s, mark), steps, m.id, s.origin[m.id], mark.asOf + c.retryDelay);
    ChosenAreDue(Run(c, Apply(c, s, mark), steps).rows, claim.asOf, c.batchSize, claim.order);
  }
}
