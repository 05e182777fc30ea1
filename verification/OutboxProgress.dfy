/** Progress of the outbox: a terminating work measure, final rows, bounded waiting, harmless pruning. */
module OutboxProgress {
  import opened Common
  import opened EmailOutbox
  import opened OutboxProtocol

  // ----- the work measure

  /** Attempts a row can still use. */
  ghost function RowWork(c: Config, r: Row): int {
    if r.Terminal() then 0 else c.maxAttempts - r.attempts
  }

  ghost function Work(c: Config, t: Table): int
    decreases |t|
  {
    if t == map[] then 0
    else var i := SomeKey(t); assert |t - {i}| < |t| by { Smaller(t, i); } RowWork(c, t[i]) + Work(c, t - {i})
  }

  lemma Smaller(t: Table, i: Id)
    requires i in t
    ensures |t - {i}| == |t| - 1
  {
    assert t.Keys == (t - {i}).Keys + {i};
    assert |t.Keys| == |(t - {i}).Keys| + 1;
  }

  lemma {:induction false} WorkSplit(c: Config, t: Table, i: Id)
    requires i in t
    ensures Work(c, t) == RowWork(c, t[i]) + Work(c, t - {i})
    decreases |t|
  {
    var j := SomeKey(t);
    if j != i {
      Smaller(t, i);
      Smaller(t, j);
      WorkSplit(c, t - {j}, i);
      WorkSplit(c, t - {i}, j);
      assert t - {j} - {i} == t - {i} - {j};
    }
  }

  /** Rows without remaining work may vanish, all others keep theirs. */
  ghost predicate SameWork(c: Config, t: Table, t': Table) {
    && t'.Keys <= t.Keys
    && forall i :: i in t ==> RowWork(c, t[i]) == if i in t' then RowWork(c, t'[i]) else 0
  }

  lemma {:induction false} WorkUnchanged(c: Config, t: Table, t': Table)
    requires SameWork(c, t, t')
    ensures Work(c, t) == Work(c, t')
    decreases |t|
  {
    if t == map[] {
      assert t' == map[];
    } else {
      var i := SomeKey(t);
      Smaller(t, i);
      WorkUnchanged(c, t - {i}, t' - {i});
      WorkSplit(c, t, i);
      if i in t' {
        WorkSplit(c, t', i);
      } else {
        assert t' - {i} == t';
      }
    }
  }

  lemma WorkOfUpdate(c: Config, t: Table, i: Id, r: Row)
    ensures Work(c, t[i := r]) == Work(c, t) - (if i in t then RowWork(c, t[i]) else 0) + RowWork(c, r)
  {
    var t' := t[i := r];
    WorkSplit(c, t', i);
    if i in t {
      WorkSplit(c, t, i);
      assert t' - {i} == t - {i};
    } else {
      assert t' - {i} == t;
    }
  }

  lemma WorkOfMark(c: Config, s: World, st: Step)
    requires c.Valid() && Inv(c, s) && st.Mark? && Enabled(c, s, st)
    ensures var s' := ApplyMark(c, s, st);
            if s'.marks == s.marks then s'.rows == s.rows
            else s'.marks == s.marks + 1 && Work(c, s'.rows) < Work(c, s.rows)
  {
    var cy := s.cycles[st.w];
    var m := cy.batch[cy.next];
    assert Fresh(s, cy, cy.next);
    var t' := MarkRows(c, s.rows, m, cy.phase, st.asOf);
    MarkReleases(c, s.rows, m, cy.phase, st.asOf);
    if Owns(s.rows, m.id, m.claimToken) {
      assert t' == s.rows[m.id := t'[m.id]];
      WorkOfUpdate(c, s.rows, m.id, t'[m.id]);
    }
  }

  lemma WorkOfClaim(c: Config, s: World, st: Step)
    requires c.Valid() && Inv(c, s) && st.Claim? && Enabled(c, s, st)
    ensures Work(c, ApplyClaim(c, s, st).rows) == Work(c, s.rows)
  {
    SelectionIsFirst(s.rows, st.asOf, c.batchSize);
    ClaimedRowsKeepWork(c, s.rows, Elems(st.order), st.asOf, st.asOf + c.claimTTL, st.token);
  }

  lemma ClaimedRowsKeepWork(c: Config, t: Table, ids: set<Id>, now: int, expiresAt: int, token: string)
    requires ids <= EligibleIds(t, now)
    ensures Work(c, ClaimRows(t, ids, now, expiresAt, token)) == Work(c, t)
  {
    var t' := ClaimRows(t, ids, now, expiresAt, token);
    forall i | i in t ensures RowWork(c, t[i]) == RowWork(c, t'[i]) {
      if i in ids {
        assert Eligible(t[i], now);
      }
    }
    WorkUnchanged(c, t, t');
  }

  /** Work changes only by an enqueue, which adds maxAttempts, and by a mark that takes effect, which lowers it. */
  lemma WorkStep(c: Config, s: World, st: Step)
    requires c.Valid() && Inv(c, s) && Enabled(c, s, st)
    ensures var s' := Apply(c, s, st);
            && s'.enqueued == s.enqueued + (if st.Enqueue? then 1 else 0)
            && (st.Enqueue? ==> s'.marks == s.marks && Work(c, s'.rows) == Work(c, s.rows) + c.maxAttempts)
            && (!st.Enqueue? && s'.marks == s.marks ==> Work(c, s'.rows) == Work(c, s.rows))
            && (s'.marks != s.marks ==> s'.marks == s.marks + 1 && Work(c, s'.rows) < Work(c, s.rows))
  {
    match st
    case Enqueue(_, id, message, availableAt) =>
      WorkOfUpdate(c, s.rows, id, NewRow(message, availableAt));
    case Mark(_, _, _) => WorkOfMark(c, s, st);
    case Claim(_, _, _, _, _) => WorkOfClaim(c, s, st);
    case PruneSentRows(_, before) => WorkUnchanged(c, s.rows, PruneSent(s.rows, before));
    case PruneFailedRows(_, before) => WorkUnchanged(c, s.rows, PruneFailed(s.rows, before));
    case _ =>
  }

  ghost predicate WorkOk(c: Config, s: World) {
    0 <= Work(c, s.rows) && s.marks + Work(c, s.rows) <= c.maxAttempts * s.enqueued
  }

  lemma {:induction false} WorkIsNatural(c: Config, t: Table)
    requires forall i :: i in t ==> RowOk(c, t[i])
    ensures Work(c, t) >= 0
    decreases |t|
  {
    if t != map[] {
      var i := SomeKey(t);
      Smaller(t, i);
      WorkIsNatural(c, t - {i});
    }
  }

  lemma StepKeepsWork(c: Config, s: World, st: Step)
    requires c.Valid() && Inv(c, s) && WorkOk(c, s) && Enabled(c, s, st)
    ensures WorkOk(c, Apply(c, s, st))
  {
    var s' := Apply(c, s, st);
    WorkStep(c, s, st);
    StepKeepsInv(c, s, st);
    WorkIsNatural(c, s'.rows);
    OneMore(c.maxAttempts, s.enqueued);
  }

  lemma OneMore(a: int, n: nat)
    ensures a * (n + 1) == a * n + a
  {
  }

  lemma {:induction false} RunKeepsWork(c: Config, s: World, steps: seq<Step>)
    requires c.Valid() && Inv(c, s) && WorkOk(c, s) && Valid(c, s, steps)
    ensures WorkOk(c, Run(c, s, steps))
    decreases |steps|
  {
    if steps != [] {
      StepKeepsWork(c, s, steps[0]);
      StepKeepsInv(c, s, steps[0]);
      RunKeepsWork(c, Apply(c, s, steps[0]), steps[1..]);
    }
  }

  /** In any run the marks that take effect number at most maxAttempts for each row enqueued. */
  lemma MarksAreBounded(c: Config, s: World)
    requires c.Valid() && Reachable(c, s)
    ensures s.marks <= c.maxAttempts * s.enqueued
  {
    var now, steps :| Valid(c, Init(now), steps) && Run(c, Init(now), steps) == s;
    InvInit(c, now);
    RunKeepsWork(c, Init(now), steps);
  }

  // ----- sent and failed rows are final

  /** The row enqueued as number `x` is still the row `r` under rowid `i`, or it is gone for good. */
  ghost predicate StillOrGone(s: World, i: Id, x: nat, r: Row) {
    || (i in s.rows && i in s.origin && s.origin[i] == x && s.rows[i] == r)
    || (x < s.enqueued && forall j :: j in s.origin ==> s.origin[j] != x)
  }

  lemma FinalStep(c: Config, s: World, st: Step, i: Id, x: nat, r: Row)
    requires c.Valid() && Inv(c, s) && Enabled(c, s, st)
    requires StillOrGone(s, i, x, r) && r.Terminal()
    ensures StillOrGone(Apply(c, s, st), i, x, r)
  {
    match st
    case Mark(_, asOf, w) =>
      var cy := s.cycles[w];
      MarkReleases(c, s.rows, cy.batch[cy.next], cy.phase, asOf);
    case Claim(_, _, _, _, _) =>
      SelectionIsFirst(s.rows, st.asOf, c.batchSize);
      assert forall j :: j in Elems(st.order) ==> Eligible(s.rows[j], st.asOf);
    case _ =>
  }

  /** A sent or failed row never changes again; it can only be pruned, and then its message never returns. */
  lemma {:induction false} TerminalRowsAreFinal(c: Config, s: World, steps: seq<Step>, i: Id, x: nat, r: Row)
    requires c.Valid() && Inv(c, s) && Valid(c, s, steps)
    requires StillOrGone(s, i, x, r) && r.Terminal()
    ensures StillOrGone(Run(c, s, steps), i, x, r)
    decreases |steps|
  {
    if steps != [] {
      FinalStep(c, s, steps[0], i, x, r);
      StepKeepsInv(c, s, steps[0]);
      TerminalRowsAreFinal(c, Apply(c, s, steps[0]), steps[1..], i, x, r);
    }
  }

  // ----- the order in which rows wait

  /** The rows that may still be claimed before row `i`. */
  ghost function Ahead(t: Table, i: Id): set<Id>
    requires i in t
  {
    set j | j in t && !t[j].Terminal() && Precedes(t, j, i)
  }

  /** Row `j` is claimed by a cycle in flight that has not marked it yet. */
  ghost predicate Held(s: World, j: Id) {
    exists w, k: nat :: w in s.cycles && HeldAs(s, s.cycles[w], k, j)
  }

  ghost predicate HeldAs(s: World, cy: Cycle, k: nat, j: Id) {
    cy.next <= k < |cy.batch| && cy.batch[k].id == j && Owns(s.rows, j, cy.token)
  }

  ghost function HeldAhead(s: World, i: Id): set<Id>
    requires i in s.rows
  {
    set j | j in Ahead(s.rows, i) && Held(s, j)
  }

  // ----- nothing gets ahead

  /** The mark at hand takes effect on row `i`. */
  ghost predicate Moves(s: World, st: Step, i: Id) {
    && st.Mark? && st.w in s.cycles && s.cycles[st.w].next < |s.cycles[st.w].batch|
    && var m := s.cycles[st.w].batch[s.cycles[st.w].next]; m.id == i && Owns(s.rows, i, m.claimToken)
  }

  /** A step that does not mark row `i`, with clocks sampled after the row fell due. */
  ghost predicate Undisturbed(s: World, st: Step, i: Id)
    requires i in s.rows
  {
    && !Moves(s, st, i)
    && (st.Enqueue? ==> s.rows[i].availableAt <= st.availableAt)
    && (st.Mark? ==> s.rows[i].availableAt <= st.asOf)
  }

  ghost predicate UndisturbedRun(c: Config, s: World, steps: seq<Step>, i: Id)
    requires Valid(c, s, steps)
    decreases |steps|
  {
    steps != [] ==> i in s.rows && Undisturbed(s, steps[0], i) && UndisturbedRun(c, Apply(c, s, steps[0]), steps[1..], i)
  }

  /** Row `i` is the same message in the same place of the order, and no unfinished row has got ahead of it. */
  ghost predicate NothingGotAhead(s: World, s': World, i: Id)
    requires i in s.rows
  {
    && i in s'.rows && !s'.rows[i].Terminal()
    && SerialOf(s', i) == SerialOf(s, i) && s'.rows[i].availableAt == s.rows[i].availableAt
    && Ahead(s'.rows, i) <= Ahead(s.rows, i)
  }

  lemma MarkLetsNothingAhead(c: Config, s: World, st: Step, i: Id)
    requires c.Valid() && Inv(c, s) && st.Mark? && Enabled(c, s, st)
    requires i in s.rows && !s.rows[i].Terminal() && Undisturbed(s, st, i)
    ensures NothingGotAhead(s, Apply(c, s, st), i) && Apply(c, s, st).rows[i] == s.rows[i]
  {
    var s' := Apply(c, s, st);
    var cy := s.cycles[st.w];
    var m := cy.batch[cy.next];
    MarkReleases(c, s.rows, m, cy.phase, st.asOf);
    assert forall j :: j in Ahead(s'.rows, i) ==> j in Ahead(s.rows, i);
  }

  /** A claim finishes no row and moves none in the order. */
  lemma ClaimKeepsPlaces(t: Table, ids: set<Id>, now: int, expiresAt: int, token: string, i: Id)
    requires ids <= EligibleIds(t, now) && i in t
    ensures Ahead(ClaimRows(t, ids, now, expiresAt, token), i) == Ahead(t, i)
  {
    var t' := ClaimRows(t, ids, now, expiresAt, token);
    assert forall j :: j in ids ==> Eligible(t[j], now);
    assert forall j :: j in t ==> (t'[j].Terminal() <==> t[j].Terminal()) && (Precedes(t', j, i) <==> Precedes(t, j, i));
  }

  lemma ClaimLetsNothingAhead(c: Config, s: World, st: Step, i: Id)
    requires st.Claim? && Enabled(c, s, st) && i in s.rows && !s.rows[i].Terminal()
    ensures NothingGotAhead(s, ApplyClaim(c, s, st), i)
  {
    SelectionIsFirst(s.rows, st.asOf, c.batchSize);
    ClaimKeepsPlaces(s.rows, Elems(st.order), st.asOf, st.asOf + c.claimTTL, st.token, i);
  }

  lemma OtherLetsNothingAhead(c: Config, s: World, st: Step, i: Id)
    requires RowsOk(c, s) && Enabled(c, s, st) && !st.Mark? && !st.Claim?
    requires i in s.rows && !s.rows[i].Terminal() && Undisturbed(s, st, i)
    ensures NothingGotAhead(s, Apply(c, s, st), i)
  {
  }

  lemma StepLetsNothingAhead(c: Config, s: World, st: Step, i: Id)
    requires c.Valid() && Inv(c, s) && Enabled(c, s, st)
    requires i in s.rows && !s.rows[i].Terminal() && Undisturbed(s, st, i)
    ensures NothingGotAhead(s, Apply(c, s, st), i)
  {
    match st
    case Mark(_, _, _) => MarkLetsNothingAhead(c, s, st, i);
    case Claim(_, _, _, _, _) => ClaimLetsNothingAhead(c, s, st, i);
    case _ => OtherLetsNothingAhead(c, s, st, i);
  }

  lemma {:induction false} RunLetsNothingAhead(c: Config, s: World, steps: seq<Step>, i: Id)
    requires c.Valid() && Inv(c, s) && Valid(c, s, steps) && UndisturbedRun(c, s, steps, i)
    requires i in s.rows && !s.rows[i].Terminal()
    ensures NothingGotAhead(s, Run(c, s, steps), i)
    decreases |steps|
  {
    if steps != [] {
      StepLetsNothingAhead(c, s, steps[0], i);
      StepKeepsInv(c, s, steps[0]);
      RunLetsNothingAhead(c, Apply(c, s, steps[0]), steps[1..], i);
    }
  }

  /**
   Until a row that has fallen due is itself marked, the unfinished rows before it never gain a
   member: not by claims, reclaims and crashes, not by retries, and not when it is claimed itself.
   */
  lemma AheadNeverGains(c: Config, s: World, steps: seq<Step>, i: Id)
    requires c.Valid() && Reachable(c, s) && Valid(c, s, steps) && UndisturbedRun(c, s, steps, i)
    requires i in s.rows && !s.rows[i].Terminal()
    ensures NothingGotAhead(s, Run(c, s, steps), i)
  {
    ReachableIsInv(c, s);
    RunLetsNothingAhead(c, s, steps, i);
  }

  // ----- bounded waiting

  /** Row `i` waits: the step does not mark it, and if it is a claim does not take it. */
  ghost predicate Waits(s: World, st: Step, i: Id)
    requires i in s.rows
  {
    Undisturbed(s, st, i) && (st.Claim? ==> i !in st.order)
  }

  /** The step is a claim that could take row `i`. */
  ghost predicate CouldTake(s: World, st: Step, i: Id)
    requires i in s.rows
  {
    st.Claim? && Eligible(s.rows[i], st.asOf)
  }

  ghost predicate WaitingRun(c: Config, s: World, steps: seq<Step>, i: Id)
    requires Valid(c, s, steps)
    decreases |steps|
  {
    steps != [] ==> i in s.rows && Waits(s, steps[0], i) && WaitingRun(c, Apply(c, s, steps[0]), steps[1..], i)
  }

  /** How many claims could take row `i`. */
  ghost function Chances(c: Config, s: World, steps: seq<Step>, i: Id): nat
    requires Valid(c, s, steps) && WaitingRun(c, s, steps, i)
    decreases |steps|
  {
    if steps == [] then 0
    else (if CouldTake(s, steps[0], i) then 1 else 0) + Chances(c, Apply(c, s, steps[0]), steps[1..], i)
  }

  /** ... times the size of a batch. */
  ghost function Passing(c: Config, s: World, steps: seq<Step>, i: Id): nat
    requires Valid(c, s, steps) && WaitingRun(c, s, steps, i)
    decreases |steps|
  {
    if steps == [] then 0
    else (if CouldTake(s, steps[0], i) then c.batchSize else 0) + Passing(c, Apply(c, s, steps[0]), steps[1..], i)
  }

  lemma {:induction false} PassingIsProduct(c: Config, s: World, steps: seq<Step>, i: Id)
    requires Valid(c, s, steps) && WaitingRun(c, s, steps, i)
    ensures Passing(c, s, steps, i) == Chances(c, s, steps, i) * c.batchSize
    decreases |steps|
  {
    if steps != [] {
      PassingIsProduct(c, Apply(c, s, steps[0]), steps[1..], i);
      OneMore(c.batchSize, Chances(c, Apply(c, s, steps[0]), steps[1..], i));
    }
  }

  /** The rows ahead of row `i` that a cycle in flight loses: another claim takes them, or it is abandoned. */
  ghost function Lost(s: World, st: Step, i: Id): nat
    requires i in s.rows
  {
    match st
    case Claim(_, _, _, _, order) => |HeldAhead(s, i) * Elems(order)|
    case Abandon(at, w) => |HeldAhead(s, i) - HeldAhead(s.(now := at, cycles := s.cycles - {w}), i)|
    case _ => 0
  }

  ghost function Losses(c: Config, s: World, steps: seq<Step>, i: Id): nat
    requires Valid(c, s, steps) && WaitingRun(c, s, steps, i)
    decreases |steps|
  {
    if steps == [] then 0 else Lost(s, steps[0], i) + Losses(c, Apply(c, s, steps[0]), steps[1..], i)
  }

  lemma ClaimTakesAhead(c: Config, s: World, st: Step, i: Id)
    requires c.Valid() && Inv(c, s) && st.Claim? && Enabled(c, s, st)
    requires i in s.rows && Waits(s, st, i) && Eligible(s.rows[i], st.asOf)
    ensures |Elems(st.order)| == c.batchSize && Elems(st.order) <= Ahead(s.rows, i)
  {
    var chosen, eligible := Elems(st.order), EligibleIds(s.rows, st.asOf);
    SelectionIsFirst(s.rows, st.asOf, c.batchSize);
    assert i in eligible && i !in chosen;
    SubsetSize(chosen + {i}, eligible);
    assert |chosen + {i}| == |chosen| + 1;
    forall j | j in chosen ensures j in Ahead(s.rows, i) {
      assert j in eligible && Precedes(s.rows, j, i);
    }
  }

  lemma ClaimKeepsOrder(c: Config, s: World, st: Step, i: Id)
    requires st.Claim? && Enabled(c, s, st) && i in s.rows && i !in st.order
    ensures var s' := ApplyClaim(c, s, st);
            i in s'.rows && s'.rows[i] == s.rows[i] && Ahead(s'.rows, i) == Ahead(s.rows, i)
  {
    SelectionIsFirst(s.rows, st.asOf, c.batchSize);
    ClaimKeepsPlaces(s.rows, Elems(st.order), st.asOf, st.asOf + c.claimTTL, st.token, i);
  }

  /** A claim leaves in their hands what it does not take ... */
  lemma HeldStaysHeld(c: Config, s: World, st: Step, j: Id)
    requires st.Claim? && Enabled(c, s, st) && j !in Elems(st.order) && Held(s, j)
    ensures Held(ApplyClaim(c, s, st), j)
  {
    var s' := ApplyClaim(c, s, st);
    var w, k: nat :| w in s.cycles && HeldAs(s, s.cycles[w], k, j);
    assert s'.cycles[w] == s.cycles[w] && HeldAs(s', s'.cycles[w], k, j);
  }

  /** ... and holds what it takes. */
  lemma ClaimedIsHeld(c: Config, s: World, st: Step, j: Id)
    requires st.Claim? && Enabled(c, s, st) && j in Elems(st.order) && j in s.rows
    ensures Held(ApplyClaim(c, s, st), j)
  {
    var s' := ApplyClaim(c, s, st);
    var k: nat :| k < |st.order| && st.order[k] == j;
    assert HeldAs(s', s'.cycles[st.w], k, j);
  }

  /** The claim adds what it takes of the rows ahead to what is held of them. */
  lemma ClaimHoldsMore(c: Config, s: World, st: Step, i: Id)
    requires c.Valid() && Inv(c, s) && st.Claim? && Enabled(c, s, st)
    requires i in s.rows && Waits(s, st, i)
    ensures i in ApplyClaim(c, s, st).rows
    ensures HeldAhead(s, i) + Elems(st.order) * Ahead(s.rows, i) <= HeldAhead(ApplyClaim(c, s, st), i)
  {
    ClaimKeepsOrder(c, s, st, i);
    forall j | j in HeldAhead(s, i) + Elems(st.order) * Ahead(s.rows, i) ensures Held(ApplyClaim(c, s, st), j) {
      if j in Elems(st.order) {
        ClaimedIsHeld(c, s, st, j);
      } else {
        HeldStaysHeld(c, s, st, j);
      }
    }
  }

  lemma HeldGrows<T>(held: set<T>, ahead: set<T>, order: set<T>, held': set<T>)
    requires held <= ahead && held + order * ahead <= held'
    ensures |held| + |order * ahead| <= |held'| + |held * order|
  {
    var taken := order * ahead;
    assert held + taken == held + (taken - held) && taken == (taken - held) + held * order;
    SubsetSize(held + taken, held');
  }

  lemma ClaimTakesBatch(c: Config, s: World, st: Step, i: Id)
    requires c.Valid() && Inv(c, s) && st.Claim? && Enabled(c, s, st)
    requires i in s.rows && Waits(s, st, i)
    ensures |Elems(st.order) * Ahead(s.rows, i)| >= if CouldTake(s, st, i) then c.batchSize else 0
  {
    if CouldTake(s, st, i) {
      ClaimTakesAhead(c, s, st, i);
      assert Elems(st.order) * Ahead(s.rows, i) == Elems(st.order);
    }
  }

  lemma ClaimPasses(c: Config, s: World, st: Step, i: Id)
    requires c.Valid() && Inv(c, s) && st.Claim? && Enabled(c, s, st)
    requires i in s.rows && Waits(s, st, i)
    ensures var s' := ApplyClaim(c, s, st);
            && i in s'.rows && s'.rows[i] == s.rows[i]
            && Ahead(s'.rows, i) == Ahead(s.rows, i)
            && |HeldAhead(s, i)| + (if CouldTake(s, st, i) then c.batchSize else 0) <= |HeldAhead(s', i)| + Lost(s, st, i)
  {
    ClaimKeepsOrder(c, s, st, i);
    ClaimHoldsMore(c, s, st, i);
    HeldGrows(HeldAhead(s, i), Ahead(s.rows, i), Elems(st.order), HeldAhead(ApplyClaim(c, s, st), i));
    ClaimTakesBatch(c, s, st, i);
  }

  /** A mark ends the hold on its own row only ... */
  lemma MarkKeepsHolds(c: Config, s: World, st: Step, j: Id)
    requires c.Valid() && Inv(c, s) && st.Mark? && Enabled(c, s, st) && Held(s, j)
    requires var m := s.cycles[st.w].batch[s.cycles[st.w].next]; j != m.id || !Owns(s.rows, m.id, m.claimToken)
    ensures Held(ApplyMark(c, s, st), j)
  {
    var s' := ApplyMark(c, s, st);
    var cy := s.cycles[st.w];
    MarkReleases(c, s.rows, cy.batch[cy.next], cy.phase, st.asOf);
    var w, k: nat :| w in s.cycles && HeldAs(s, s.cycles[w], k, j);
    assert HeldAs(s', s'.cycles[w], k, j);
  }

  /** ... and that row is then no longer ahead. */
  lemma MarkClearsOneRow(c: Config, s: World, st: Step, i: Id)
    requires c.Valid() && Inv(c, s) && st.Mark? && Enabled(c, s, st)
    requires i in s.rows && !s.rows[i].Terminal() && Waits(s, st, i)
    ensures var s' := Apply(c, s, st); var m := s.cycles[st.w].batch[s.cycles[st.w].next];
            && i in s'.rows && s'.rows[i] == s.rows[i]
            && (Owns(s.rows, m.id, m.claimToken) ==> m.id !in Ahead(s'.rows, i))
            && Ahead(s.rows, i) - {m.id} <= Ahead(s'.rows, i) <= Ahead(s.rows, i)
  {
    var cy := s.cycles[st.w];
    MarkLetsNothingAhead(c, s, st, i);
    MarkReleases(c, s.rows, cy.batch[cy.next], cy.phase, st.asOf);
  }

  lemma MarkEndsOneHold(c: Config, s: World, st: Step, i: Id)
    requires c.Valid() && Inv(c, s) && st.Mark? && Enabled(c, s, st)
    requires i in s.rows && !s.rows[i].Terminal() && Waits(s, st, i)
    ensures var s' := Apply(c, s, st); var m := s.cycles[st.w].batch[s.cycles[st.w].next];
            && i in s'.rows
            && (Owns(s.rows, m.id, m.claimToken) ==> HeldAhead(s, i) - {m.id} <= HeldAhead(s', i))
            && (!Owns(s.rows, m.id, m.claimToken) ==> Ahead(s'.rows, i) == Ahead(s.rows, i) && HeldAhead(s, i) <= HeldAhead(s', i))
  {
    var s' := ApplyMark(c, s, st);
    var m := s.cycles[st.w].batch[s.cycles[st.w].next];
    MarkClearsOneRow(c, s, st, i);
    if !Owns(s.rows, m.id, m.claimToken) {
      MarkReleases(c, s.rows, m, s.cycles[st.w].phase, st.asOf);
      assert s'.rows == s.rows;
    }
    forall j | j in HeldAhead(s, i) && (j != m.id || !Owns(s.rows, m.id, m.claimToken)) ensures Held(s', j) {
      MarkKeepsHolds(c, s, st, j);
    }
  }

  lemma MarkPasses(c: Config, s: World, st: Step, i: Id)
    requires c.Valid() && Inv(c, s) && st.Mark? && Enabled(c, s, st)
    requires i in s.rows && !s.rows[i].Terminal() && Waits(s, st, i)
    ensures var s' := Apply(c, s, st);
            && i in s'.rows && s'.rows[i] == s.rows[i]
            && |Ahead(s'.rows, i)| + |HeldAhead(s, i)| <= |Ahead(s.rows, i)| + |HeldAhead(s', i)|
            && Ahead(s'.rows, i) <= Ahead(s.rows, i)
  {
    var s' := Apply(c, s, st);
    var m := s.cycles[st.w].batch[s.cycles[st.w].next];
    MarkClearsOneRow(c, s, st, i);
    MarkEndsOneHold(c, s, st, i);
    HoldsBalance(Ahead(s.rows, i), HeldAhead(s, i), Ahead(s'.rows, i), HeldAhead(s', i), m.id, Owns(s.rows, m.id, m.claimToken));
  }

  lemma HoldsBalance<T>(ahead: set<T>, held: set<T>, ahead': set<T>, held': set<T>, x: T, marked: bool)
    requires held <= ahead && ahead' <= ahead
    requires marked ==> x !in ahead' && held - {x} <= held'
    requires !marked ==> held <= held'
    ensures |ahead'| + |held| <= |ahead| + |held'|
  {
    if marked && x in ahead {
      SubsetSize(ahead', ahead - {x});
      SubsetSize(held - {x}, held');
    } else {
      assert held - {x} == held || !marked;
      SubsetSize(ahead', ahead);
      SubsetSize(held, held');
    }
  }

  lemma OtherPasses(c: Config, s: World, st: Step, i: Id)
    requires c.Valid() && Inv(c, s) && !st.Mark? && !st.Claim? && Enabled(c, s, st)
    requires i in s.rows && !s.rows[i].Terminal() && Waits(s, st, i)
    ensures var s' := Apply(c, s, st);
            && i in s'.rows && s'.rows[i] == s.rows[i]
            && Ahead(s'.rows, i) == Ahead(s.rows, i)
            && (st.Abandon? || HeldAhead(s, i) <= HeldAhead(s', i))
  {
    var s' := Apply(c, s, st);
    forall j | j in HeldAhead(s, i) && !st.Abandon? ensures Held(s', j) {
      var w, k: nat :| w in s.cycles && HeldAs(s, s.cycles[w], k, j);
      assert HeldAs(s', s'.cycles[w], k, j);
    }
  }

  lemma AbandonPasses(c: Config, s: World, st: Step, i: Id)
    requires st.Abandon? && Enabled(c, s, st) && i in s.rows
    ensures |HeldAhead(s, i)| <= |HeldAhead(Apply(c, s, st), i)| + Lost(s, st, i)
  {
    var before, after := HeldAhead(s, i), HeldAhead(Apply(c, s, st), i);
    SubsetSize(before, after + (before - after));
  }

  lemma StepPasses(c: Config, s: World, st: Step, i: Id)
    requires c.Valid() && Inv(c, s) && Enabled(c, s, st)
    requires i in s.rows && !s.rows[i].Terminal() && Waits(s, st, i)
    ensures var s' := Apply(c, s, st);
            && i in s'.rows && s'.rows[i] == s.rows[i]
            && Ahead(s'.rows, i) <= Ahead(s.rows, i)
            && (if CouldTake(s, st, i) then c.batchSize else 0) + |Ahead(s'.rows, i)| + |HeldAhead(s, i)|
               <= |Ahead(s.rows, i)| + |HeldAhead(s', i)| + Lost(s, st, i)
  {
    if st.Claim? {
      ClaimPasses(c, s, st, i);
    } else if st.Mark? {
      MarkPasses(c, s, st, i);
    } else {
      OtherPasses(c, s, st, i);
      if st.Abandon? {
        AbandonPasses(c, s, st, i);
      } else {
        SubsetSize(HeldAhead(s, i), HeldAhead(Apply(c, s, st), i));
      }
    }
  }

  /** Each claim that passes row `i` by uses up batchSize of the rows ahead of it, and losses give some back. */
  lemma {:induction false} WaitingAccount(c: Config, s: World, steps: seq<Step>, i: Id)
    requires c.Valid() && Inv(c, s) && Valid(c, s, steps) && WaitingRun(c, s, steps, i)
    requires i in s.rows && !s.rows[i].Terminal()
    ensures var s' := Run(c, s, steps);
            && i in s'.rows && s'.rows[i] == s.rows[i]
            && Ahead(s'.rows, i) <= Ahead(s.rows, i)
            && Passing(c, s, steps, i) + |Ahead(s'.rows, i)| + |HeldAhead(s, i)|
               <= |Ahead(s.rows, i)| + |HeldAhead(s', i)| + Losses(c, s, steps, i)
    decreases |steps|
  {
    if steps != [] {
      StepPasses(c, s, steps[0], i);
      StepKeepsInv(c, s, steps[0]);
      WaitingAccount(c, Apply(c, s, steps[0]), steps[1..], i);
    }
  }

  /**
   Bounded waiting. Take any unfinished row. The claims that could take it, because it is pending
   and due or its lease has run out, and do not number at most (rank + losses) / batchSize, where rank is the
   number of unfinished rows before it and losses counts those that a cycle in flight fails to
   mark, because it is abandoned or another claim takes them. Nothing gets ahead meanwhile.
   */
  lemma BoundedWaiting(c: Config, s: World, steps: seq<Step>, i: Id)
    requires c.Valid() && Reachable(c, s) && Valid(c, s, steps) && WaitingRun(c, s, steps, i)
    requires i in s.rows && !s.rows[i].Terminal()
    ensures Chances(c, s, steps, i) * c.batchSize <= |Ahead(s.rows, i)| + Losses(c, s, steps, i)
    ensures var s' := Run(c, s, steps); i in s'.rows && s'.rows[i] == s.rows[i] && Ahead(s'.rows, i) <= Ahead(s.rows, i)
  {
    ReachableIsInv(c, s);
    WaitingAccount(c, s, steps, i);
    PassingIsProduct(c, s, steps, i);
    var s' := Run(c, s, steps);
    SubsetSize(HeldAhead(s', i), Ahead(s'.rows, i));
  }

  /** The cycles that hold a row ahead of row `i` are inside their leases, and none of them is abandoned. */
  ghost predicate KeepsLeases(s: World, st: Step, i: Id)
    requires i in s.rows
  {
    forall j :: j in HeldAhead(s, i) ==>
      && (s.rows[j].claimExpiresAt.Some? ==> st.at < s.rows[j].claimExpiresAt.value)
      && (st.Abandon? && st.w in s.cycles ==> s.rows[j].claimToken != s.cycles[st.w].token)
  }

  ghost predicate LeasesKept(c: Config, s: World, steps: seq<Step>, i: Id)
    requires Valid(c, s, steps) && WaitingRun(c, s, steps, i)
    decreases |steps|
  {
    steps != [] ==> KeepsLeases(s, steps[0], i) && LeasesKept(c, Apply(c, s, steps[0]), steps[1..], i)
  }

  lemma KeptLeaseLosesNothing(c: Config, s: World, st: Step, i: Id)
    requires c.Valid() && Inv(c, s) && Enabled(c, s, st) && i in s.rows && KeepsLeases(s, st, i)
    ensures Lost(s, st, i) == 0
  {
    match st
    case Claim(_, _, _, _, order) =>
      SelectionIsFirst(s.rows, st.asOf, c.batchSize);
      assert forall j :: j in Elems(order) ==> Eligible(s.rows[j], st.asOf);
      assert HeldAhead(s, i) * Elems(order) == {};
    case Abandon(at, x) =>
      var rest := s.(now := at, cycles := s.cycles - {x});
      forall j | j in HeldAhead(s, i) ensures Held(rest, j) {
        var w, k: nat :| w in s.cycles && HeldAs(s, s.cycles[w], k, j);
        assert HeldAs(rest, rest.cycles[w], k, j);
      }
      assert HeldAhead(s, i) - HeldAhead(rest, i) == {};
    case _ =>
  }

  lemma {:induction false} KeptLeasesLoseNothing(c: Config, s: World, steps: seq<Step>, i: Id)
    requires c.Valid() && Inv(c, s) && Valid(c, s, steps) && WaitingRun(c, s, steps, i) && LeasesKept(c, s, steps, i)
    ensures Losses(c, s, steps, i) == 0
    decreases |steps|
  {
    if steps != [] {
      KeptLeaseLosesNothing(c, s, steps[0], i);
      StepKeepsInv(c, s, steps[0]);
      KeptLeasesLoseNothing(c, Apply(c, s, steps[0]), steps[1..], i);
    }
  }

  /**
   Where the cycles that hold rows ahead keep their leases there are no losses, so of the claims
   that could take the row number ceil((rank + 1) / batchSize) does at latest.
   */
  lemma PromptWaiting(c: Config, s: World, steps: seq<Step>, i: Id)
    requires c.Valid() && Reachable(c, s) && Valid(c, s, steps) && WaitingRun(c, s, steps, i) && LeasesKept(c, s, steps, i)
    requires i in s.rows && !s.rows[i].Terminal()
    ensures Chances(c, s, steps, i) * c.batchSize <= |Ahead(s.rows, i)|
  {
    ReachableIsInv(c, s);
    KeptLeasesLoseNothing(c, s, steps, i);
    BoundedWaiting(c, s, steps, i);
  }
}
