/** How often a message is delivered: at most once when leases are honoured, more often when not. */
module OutboxDelivery {
  import opened Common
  import opened EmailOutbox
  import opened OutboxProtocol

  /** Successful sends of the message enqueued as number `serial`. */
  ghost function Deliveries(sends: seq<SendRecord>, serial: nat): nat
    decreases |sends|
  {
    if sends == [] then 0
    else
      var last := sends[|sends| - 1];
      Deliveries(sends[..|sends| - 1], serial) + (if last.ok && last.serial == serial then 1 else 0)
  }

  lemma DeliveriesOfAppend(sends: seq<SendRecord>, r: SendRecord, serial: nat)
    ensures Deliveries(sends + [r], serial) == Deliveries(sends, serial) + (if r.ok && r.serial == serial then 1 else 0)
  {
    assert (sends + [r])[..|sends|] == sends;
  }

  lemma {:induction false} DeliveredIsCounted(sends: seq<SendRecord>, serial: nat, id: Id, token: string)
    requires WasDelivered(sends, serial, id, token)
    ensures Deliveries(sends, serial) > 0
    decreases |sends|
  {
    var n :| 0 <= n < |sends| && sends[n].serial == serial && sends[n].id == id && sends[n].token == token && sends[n].ok;
    if n < |sends| - 1 {
      var init := sends[..|sends| - 1];
      assert init[n] == sends[n];
      DeliveredIsCounted(init, serial, id, token);
    }
  }

  // ----- at most once, message by message

  /** Worker `w` has the message enqueued as number `x` at hand. */
  ghost predicate AtHand(s: World, w: int, x: nat) {
    w in s.cycles && s.cycles[w].next < |s.cycles[w].batch| == |s.cycles[w].serials| && s.cycles[w].serials[s.cycles[w].next] == x
  }

  /** ... and its Send has succeeded, but it is not marked yet. */
  ghost predicate DeliveredBy(s: World, w: int, x: nat) {
    AtHand(s, w, x) && s.cycles[w].phase.Delivered?
  }

  /**
   The worker is inside its lease whenever anything happens between its successful Send of
   message `x` and its mark, the Send itself included, and it does not lose the mark by crashing
   or by a store error. Other messages may be late.
   */
  ghost predicate Timely(s: World, st: Step, x: nat) {
    && (forall w :: DeliveredBy(s, w, x) ==> st.at < s.cycles[w].expiresAt)
    && (st.Send? && st.ok && AtHand(s, st.w, x) ==> st.at < s.cycles[st.w].expiresAt)
    && (st.Abandon? ==> !DeliveredBy(s, st.w, x))
  }

  ghost predicate TimelyRun(c: Config, s: World, steps: seq<Step>, x: nat)
    requires Valid(c, s, steps)
    decreases |steps|
  {
    steps != [] ==> Timely(s, steps[0], x) && TimelyRun(c, Apply(c, s, steps[0]), steps[1..], x)
  }

  /** A delivered message that may still be claimed is in the hands of the worker that delivered it. */
  ghost predicate InHand(s: World, i: Id, x: nat) {
    exists w :: InHandOf(s, w, i, x)
  }

  ghost predicate InHandOf(s: World, w: int, i: Id, x: nat) {
    DeliveredBy(s, w, x) && s.cycles[w].batch[s.cycles[w].next].id == i && Owns(s.rows, i, s.cycles[w].token)
  }

  ghost predicate OnceInv(s: World, x: nat) {
    && Deliveries(s.sends, x) <= 1
    && (s.enqueued <= x ==> Deliveries(s.sends, x) == 0)
    && (forall i :: i in s.rows && i in s.origin && s.origin[i] == x && !s.rows[i].Terminal() && Deliveries(s.sends, x) > 0 ==>
          InHand(s, i, x))
    && (forall w :: DeliveredBy(s, w, x) ==> s.now < s.cycles[w].expiresAt)
  }

  /** A claim does not take a row whose holder is inside its lease. */
  lemma ClaimKeepsInHand(c: Config, s: World, st: Step, i: Id, x: nat)
    requires c.Valid() && Inv(c, s) && st.Claim? && Enabled(c, s, st) && Timely(s, st, x) && InHand(s, i, x)
    ensures i in s.rows && InHand(ApplyClaim(c, s, st), i, x)
  {
    var s' := ApplyClaim(c, s, st);
    SelectionIsFirst(s.rows, st.asOf, c.batchSize);
    var w :| InHandOf(s, w, i, x);
    assert Fresh(s, s.cycles[w], s.cycles[w].next);
    assert !Eligible(s.rows[i], st.asOf);
    assert i !in Elems(st.order);
    assert s'.cycles[w] == s.cycles[w] && InHandOf(s', w, i, x);
  }

  lemma ClaimKeepsOnce(c: Config, s: World, st: Step, x: nat)
    requires c.Valid() && Inv(c, s) && OnceInv(s, x) && st.Claim? && Enabled(c, s, st) && Timely(s, st, x)
    ensures OnceInv(Apply(c, s, st), x)
  {
    var s' := ApplyClaim(c, s, st);
    SelectionIsFirst(s.rows, st.asOf, c.batchSize);
    forall i | i in s'.rows && i in s'.origin && s'.origin[i] == x && !s'.rows[i].Terminal() && Deliveries(s'.sends, x) > 0
      ensures InHand(s', i, x)
    {
      assert !s.rows[i].Terminal() && InHand(s, i, x);
      ClaimKeepsInHand(c, s, st, i, x);
    }
  }

  lemma SendKeepsOnce(c: Config, s: World, st: Step, x: nat)
    requires c.Valid() && Inv(c, s) && OnceInv(s, x) && st.Send? && Enabled(c, s, st) && Timely(s, st, x)
    ensures OnceInv(Apply(c, s, st), x)
  {
    var s' := Apply(c, s, st);
    var cy := s.cycles[st.w];
    var m, serial := cy.batch[cy.next], cy.serials[cy.next];
    assert Fresh(s, cy, cy.next) && Leased(s, cy, cy.next);
    DeliveriesOfAppend(s.sends, RecordOf(cy, st.ok, st.at), x);
    if st.ok && serial == x {
      assert AtHand(s, st.w, x);
      assert Owns(s.rows, m.id, cy.token) && s.origin[m.id] == x;
      forall w ensures !InHandOf(s, w, m.id, x) {
      }
      assert Deliveries(s.sends, x) == 0;
      assert InHandOf(s', st.w, m.id, x);
    } else {
      forall i | i in s'.rows && i in s'.origin && s'.origin[i] == x && !s'.rows[i].Terminal() && Deliveries(s'.sends, x) > 0
        ensures InHand(s', i, x)
      {
        var w :| InHandOf(s, w, i, x);
        assert InHandOf(s', w, i, x);
      }
    }
  }

  lemma MarkKeepsOnce(c: Config, s: World, st: Step, x: nat)
    requires c.Valid() && Inv(c, s) && OnceInv(s, x) && st.Mark? && Enabled(c, s, st) && Timely(s, st, x)
    ensures OnceInv(Apply(c, s, st), x)
  {
    var s' := Apply(c, s, st);
    var cy := s.cycles[st.w];
    var m := cy.batch[cy.next];
    assert Fresh(s, cy, cy.next) && Leased(s, cy, cy.next);
    MarkReleases(c, s.rows, m, cy.phase, st.asOf);
    forall i | i in s'.rows && i in s'.origin && s'.origin[i] == x && !s'.rows[i].Terminal() && Deliveries(s'.sends, x) > 0
      ensures InHand(s', i, x)
    {
      assert i in s.rows && !s.rows[i].Terminal() && s.origin[i] == x;
      var w :| InHandOf(s, w, i, x);
      assert w != st.w && s'.cycles[w] == s.cycles[w];
      assert InHandOf(s', w, i, x);
    }
  }

  /** The remaining steps send nothing and mark nothing. */
  lemma OtherStepKeepsOnce(c: Config, s: World, st: Step, x: nat)
    requires c.Valid() && Inv(c, s) && OnceInv(s, x) && Enabled(c, s, st) && Timely(s, st, x)
    requires st.Enqueue? || st.Abandon? || st.PruneSentRows? || st.PruneFailedRows?
    ensures OnceInv(Apply(c, s, st), x)
  {
    var s' := Apply(c, s, st);
    forall i | i in s'.rows && i in s'.origin && s'.origin[i] == x && !s'.rows[i].Terminal() && Deliveries(s'.sends, x) > 0
      ensures InHand(s', i, x)
    {
      assert i in s.rows && s'.rows[i] == s.rows[i] && s'.origin[i] == s.origin[i];
      var w :| InHandOf(s, w, i, x);
      assert InHandOf(s', w, i, x);
    }
  }

  lemma {:induction false} TimelyRunKeepsOnce(c: Config, s: World, steps: seq<Step>, x: nat)
    requires c.Valid() && Inv(c, s) && OnceInv(s, x) && Valid(c, s, steps) && TimelyRun(c, s, steps, x)
    ensures OnceInv(Run(c, s, steps), x)
    decreases |steps|
  {
    if steps != [] {
      var st := steps[0];
      match st {
        case Claim(_, _, _, _, _) => ClaimKeepsOnce(c, s, st, x);
        case Send(_, _, _, _) => SendKeepsOnce(c, s, st, x);
        case Mark(_, _, _) => MarkKeepsOnce(c, s, st, x);
        case _ => OtherStepKeepsOnce(c, s, st, x);
      }
      StepKeepsInv(c, s, st);
      TimelyRunKeepsOnce(c, Apply(c, s, st), steps[1..], x);
    }
  }

  /**
   At-most-once delivery, message by message, over every interleaving of workers, enqueues and
   pruning that is timely for the message, however late others are: it is not sent successfully
   twice, and if its row is marked sent it was delivered once.
   */
  lemma AtMostOnce(c: Config, now: int, steps: seq<Step>, x: nat)
    requires c.Valid() && Valid(c, Init(now), steps) && TimelyRun(c, Init(now), steps, x)
    ensures Deliveries(Run(c, Init(now), steps).sends, x) <= 1
    ensures var s := Run(c, Init(now), steps);
            forall i :: i in s.rows && i in s.origin && s.origin[i] == x && s.rows[i].status.Sent? ==> Deliveries(s.sends, x) == 1
  {
    var s := Run(c, Init(now), steps);
    InvInit(c, now);
    TimelyRunKeepsOnce(c, Init(now), steps, x);
    RunKeepsInv(c, Init(now), steps);
    forall i | i in s.rows && i in s.origin && s.origin[i] == x && s.rows[i].status.Sent? ensures Deliveries(s.sends, x) > 0 {
      DeliveredIsCounted(s.sends, x, i, s.sentUnder[x]);
    }
  }

  // ----- a lease kept to the last moment is not enough

  /** The first delivery: worker 1 claims the only message and sends it at once. */
  lemma FirstDelivery(c: Config, m: Message) returns (timely: seq<Step>)
    requires c.Valid()
    ensures Valid(c, Init(0), timely) && TimelyRun(c, Init(0), timely, 0)
    ensures var s := Run(c, Init(0), timely);
            && DeliveredBy(s, 1, 0) && Deliveries(s.sends, 0) == 1
            && s.now == 0 && s.rows.Keys == {1} && s.origin == map[1 := 0] && s.cycles.Keys == {1} && s.tokens == {"a"}
            && s.rows[1].status.Sending? && s.rows[1].claimExpiresAt == Some(c.claimTTL) && s.cycles[1].expiresAt == c.claimTTL
  {
    var s0 := Init(0);
    var e := Enqueue(0, 1, m, 0);
    var s1 := Apply(c, s0, e);
    var claim := Claim(0, 0, 1, "a", [1]);
    OnlyRowSelected(s1.rows, 1, 0, c.batchSize);
    var s2 := Apply(c, s1, claim);
    var send := Send(0, 1, true, []);
    RunOfTwo(c, s1, claim, send);
    TimelyOfTwo(c, s1, claim, send, 0);
    timely := [e] + [claim, send];
    assert timely[0] == e && timely[1..] == [claim, send];
    DeliveriesOfAppend(s2.sends, SendRecord(0, 1, "a", m, true, 0), 0);
  }

  /** Worker 1 sends the only message inside its lease and does not mark it; worker 2 claims and sends again. */
  lemma LateMarkDeliversTwice(c: Config, m: Message)
    requires c.Valid()
    ensures exists timely: seq<Step>, late: seq<Step> ::
              && Valid(c, Init(0), timely) && TimelyRun(c, Init(0), timely, 0)
              && var s := Run(c, Init(0), timely);
                 && Valid(c, s, late) && DeliveredBy(s, 1, 0) && Deliveries(s.sends, 0) == 1
                 && (forall k :: 0 <= k < |late| ==> late[k].at == s.cycles[1].expiresAt)
                 && Deliveries(Run(c, s, late).sends, 0) == 2
  {
    var timely := FirstDelivery(c, m);
    var s := Run(c, Init(0), timely);
    var claim := Claim(c.claimTTL, c.claimTTL, 2, "b", [1]);
    OnlyRowSelected(s.rows, 1, c.claimTTL, c.batchSize);
    var s' := Apply(c, s, claim);
    var send := Send(c.claimTTL, 2, true, []);
    RunOfTwo(c, s, claim, send);
    DeliveriesOfAppend(s'.sends, SendRecord(0, 1, "b", s.rows[1].message, true, c.claimTTL), 0);
    var late := [claim, send];
    assert Deliveries(Run(c, s, late).sends, 0) == 2;
  }

  lemma TimelyOfTwo(c: Config, s: World, a: Step, b: Step, x: nat)
    requires Enabled(c, s, a) && Enabled(c, Apply(c, s, a), b) && Timely(s, a, x) && Timely(Apply(c, s, a), b, x)
    ensures Valid(c, s, [a, b]) && TimelyRun(c, s, [a, b], x)
  {
    RunOfTwo(c, s, a, b);
    assert [a, b][1..] == [b] && [b][1..] == [];
    assert TimelyRun(c, Apply(c, s, a), [b], x);
  }

  lemma OnlyRowSelected(t: Table, i: Id, now: int, limit: nat)
    requires t.Keys == {i} && Eligible(t[i], now) && limit > 0
    ensures IsOrderOf([i], Selection(t, now, limit))
  {
    SelectionIsFirst(t, now, limit);
    assert EligibleIds(t, now) == {i};
    SubsetOfSameSize(Selection(t, now, limit), {i});
  }

  lemma RunOfTwo(c: Config, s: World, a: Step, b: Step)
    requires Enabled(c, s, a) && Enabled(c, Apply(c, s, a), b)
    ensures Valid(c, s, [a, b]) && Run(c, s, [a, b]) == Apply(c, Apply(c, s, a), b)
  {
    var s1 := Apply(c, s, a);
    assert [a, b][1..] == [b] && [b][1..] == [];
    assert Valid(c, s1, [b]) && Run(c, s1, [b]) == Apply(c, s1, b);
  }
}
