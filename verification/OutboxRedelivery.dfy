/**
 When a message is delivered for good. A message whose row is unfinished, or that a worker still
 has to send, is delivered once more in some continuation; otherwise in none.
 */
module OutboxRedelivery {
  import opened Common
  import opened EmailOutbox
  import opened OutboxProtocol
  import opened OutboxDelivery

  /** Worker `w` has the message enqueued as number `x` in its batch, at `k`, and has not sent it. */
  ghost predicate StillToSend(s: World, w: int, k: nat, x: nat) {
    && w in s.cycles && s.cycles[w].next <= k < |s.cycles[w].batch| == |s.cycles[w].serials|
    && s.cycles[w].serials[k] == x && (k == s.cycles[w].next ==> s.cycles[w].phase.Ready?)
  }

  /** The message was enqueued, its row is sent, failed or gone, and no cycle in flight still has it to send. */
  ghost predicate Settled(s: World, x: nat) {
    && x < s.enqueued
    && (forall i :: i in s.rows && i in s.origin && s.origin[i] == x ==> s.rows[i].Terminal())
    && (forall w, k: nat :: !StillToSend(s, w, k, x))
  }

  // ----- a settled message stays settled

  lemma ClaimLeavesSettled(c: Config, s: World, st: Step, x: nat)
    requires c.Valid() && Inv(c, s) && st.Claim? && Enabled(c, s, st) && Settled(s, x)
    ensures Settled(Apply(c, s, st), x)
  {
    var s' := Apply(c, s, st);
    SelectionIsFirst(s.rows, st.asOf, c.batchSize);
    assert forall i :: i in Elems(st.order) ==> Eligible(s.rows[i], st.asOf);
    forall w, k: nat ensures !StillToSend(s', w, k, x) {
      if w != st.w || st.order == [] {
        assert !StillToSend(s, w, k, x);
      } else if k < |st.order| {
        assert st.order[k] in Elems(st.order) && s'.cycles[w].serials[k] == s.origin[st.order[k]];
      }
    }
  }

  lemma SettledStays(c: Config, s: World, st: Step, x: nat)
    requires c.Valid() && Inv(c, s) && Enabled(c, s, st) && Settled(s, x)
    ensures var s' := Apply(c, s, st); Settled(s', x) && Deliveries(s'.sends, x) == Deliveries(s.sends, x)
  {
    var s' := Apply(c, s, st);
    if st.Claim? {
      ClaimLeavesSettled(c, s, st, x);
    } else {
      if st.Send? {
        var cy := s.cycles[st.w];
        assert !StillToSend(s, st.w, cy.next, x);
        DeliveriesOfAppend(s.sends, RecordOf(cy, st.ok, st.at), x);
      } else if st.Mark? {
        var cy := s.cycles[st.w];
        MarkReleases(c, s.rows, cy.batch[cy.next], cy.phase, st.asOf);
      }
      forall w, k: nat ensures !StillToSend(s', w, k, x) {
        assert !StillToSend(s, w, k, x);
      }
    }
  }

  lemma {:induction false} SettledForGood(c: Config, s: World, steps: seq<Step>, x: nat)
    requires c.Valid() && Inv(c, s) && Valid(c, s, steps) && Settled(s, x)
    ensures Deliveries(Run(c, s, steps).sends, x) == Deliveries(s.sends, x)
    decreases |steps|
  {
    if steps != [] {
      SettledStays(c, s, steps[0], x);
      StepKeepsInv(c, s, steps[0]);
      SettledForGood(c, Apply(c, s, steps[0]), steps[1..], x);
    }
  }

  // ----- a message that is not settled can be delivered again

  lemma RunOfStep(c: Config, s: World, st: Step, rest: seq<Step>)
    requires Enabled(c, s, st) && Valid(c, Apply(c, s, st), rest)
    ensures Valid(c, s, [st] + rest) && Run(c, s, [st] + rest) == Run(c, Apply(c, s, st), rest)
  {
    assert ([st] + rest)[0] == st && ([st] + rest)[1..] == rest;
  }

  /** The worker goes through its batch to the message, and its Send succeeds. */
  lemma {:induction false} SendsNext(c: Config, s: World, w: int, k: nat, x: nat) returns (steps: seq<Step>)
    requires c.Valid() && Inv(c, s) && StillToSend(s, w, k, x)
    ensures Valid(c, s, steps) && Deliveries(Run(c, s, steps).sends, x) > Deliveries(s.sends, x)
    decreases k - s.cycles[w].next, if s.cycles[w].phase.Ready? then 1 else 0
  {
    var cy := s.cycles[w];
    var st, rest;
    if cy.phase.Ready? {
      st := Send(s.now, w, k == cy.next, []);
      DeliveriesOfAppend(s.sends, RecordOf(cy, st.ok, st.at), x);
    } else {
      st := Mark(s.now, s.now, w);
    }
    StepKeepsInv(c, s, st);
    if cy.phase.Ready? && k == cy.next {
      rest := [];
    } else {
      rest := SendsNext(c, Apply(c, s, st), w, k, x);
    }
    RunOfStep(c, s, st, rest);
    steps := [st] + rest;
  }

  lemma {:induction false} AboveAll(s: set<int>) returns (n: int)
    ensures forall i :: i in s ==> i < n
    decreases |s|
  {
    n := 0;
    if s != {} {
      var x := MemberOf(s);
      var rest := AboveAll(s - {x});
      n := Max(rest, x + 1);
      assert forall i :: i in s && i != x ==> i in s - {x};
    }
  }

  lemma NewToken(tokens: set<string>) returns (token: string)
    ensures token != "" && token !in tokens
  {
    var lengths := set t | t in tokens :: |t|;
    var n := AboveAll(lengths);
    token := seq(Max(n, 1), _ => 'a');
    assert token in tokens ==> |token| in lengths;
  }

  /** A claim by a new worker that is possible at time `t`. */
  lemma ClaimAt(c: Config, s: World, t: int) returns (st: Step)
    requires s.now <= t
    ensures st.Claim? && st.at == st.asOf == t && Enabled(c, s, st) && Elems(st.order) == Selection(s.rows, t, c.batchSize)
  {
    var w := AboveAll(s.cycles.Keys);
    var token := NewToken(s.tokens);
    var order := SomeOrder(Selection(s.rows, t, c.batchSize));
    st := Claim(t, t, w, token, order);
  }

  lemma ClaimedIsToSend(c: Config, s: World, st: Step, i: Id) returns (k: nat)
    requires Inv(c, s) && st.Claim? && Enabled(c, s, st) && i in Elems(st.order) && i in s.rows
    ensures StillToSend(ApplyClaim(c, s, st), st.w, k, s.origin[i])
  {
    k :| k < |st.order| && st.order[k] == i;
  }

  /** Claims by new workers, all at time `t`, come to the row. */
  lemma {:induction false} ClaimsNext(c: Config, s: World, i: Id, x: nat, t: int) returns (steps: seq<Step>, w: int, k: nat)
    requires c.Valid() && Inv(c, s) && i in s.rows && s.origin[i] == x && s.now <= t && Eligible(s.rows[i], t)
    ensures Valid(c, s, steps) && StillToSend(Run(c, s, steps), w, k, x)
    ensures Run(c, s, steps).sends == s.sends
    decreases |EligibleIds(s.rows, t)|
  {
    var st := ClaimAt(c, s, t);
    StepKeepsInv(c, s, st);
    var rest := [];
    if i in Elems(st.order) {
      w := st.w;
      k := ClaimedIsToSend(c, s, st, i);
    } else {
      FewerEligible(s.rows, t, c, st.token, i);
      rest, w, k := ClaimsNext(c, Apply(c, s, st), i, x, t);
    }
    RunOfStep(c, s, st, rest);
    steps := [st] + rest;
  }

  /** What a claim takes is not eligible at the same time again. */
  lemma FewerEligible(t: Table, now: int, c: Config, token: string, i: Id)
    requires c.Valid() && i in EligibleIds(t, now)
    ensures |EligibleIds(ClaimRows(t, Selection(t, now, c.batchSize), now, now + c.claimTTL, token), now)| < |EligibleIds(t, now)|
  {
    var chosen, eligible := Selection(t, now, c.batchSize), EligibleIds(t, now);
    SelectionIsFirst(t, now, c.batchSize);
    var t' := ClaimRows(t, chosen, now, now + c.claimTTL, token);
    forall j ensures j in EligibleIds(t', now) <==> j in eligible - chosen {
    }
    assert EligibleIds(t', now) == eligible - chosen;
    assert |eligible| == |eligible - chosen| + |chosen| by {
      assert eligible == (eligible - chosen) + chosen;
    }
    assert |eligible| > 0;
  }

  /** Enqueues come to a message that is not enqueued yet. */
  lemma {:induction false} EnqueuesNext(c: Config, s: World, x: nat) returns (steps: seq<Step>, i: Id)
    requires c.Valid() && Inv(c, s) && s.enqueued <= x
    ensures Valid(c, s, steps) && Run(c, s, steps).sends == s.sends
    ensures var s' := Run(c, s, steps); i in s'.rows && i in s'.origin && s'.origin[i] == x && !s'.rows[i].Terminal()
    decreases x - s.enqueued
  {
    i := AboveAll(s.rows.Keys);
    var st := Enqueue(s.now, i, Message("", "", "", "", ""), s.now);
    StepKeepsInv(c, s, st);
    var rest := [];
    if s.enqueued < x {
      rest, i := EnqueuesNext(c, Apply(c, s, st), x);
    }
    RunOfStep(c, s, st, rest);
    steps := [st] + rest;
  }

  lemma UnfinishedDeliversAgain(c: Config, s: World, i: Id) returns (steps: seq<Step>)
    requires c.Valid() && Inv(c, s) && i in s.rows && !s.rows[i].Terminal()
    ensures Valid(c, s, steps) && Deliveries(Run(c, s, steps).sends, s.origin[i]) > Deliveries(s.sends, s.origin[i])
  {
    var r := s.rows[i];
    var t := Max(s.now, if r.status.Pending? then r.availableAt else r.claimExpiresAt.value);
    var claims, w, k := ClaimsNext(c, s, i, s.origin[i], t);
    RunKeepsInv(c, s, claims);
    var sends := SendsNext(c, Run(c, s, claims), w, k, s.origin[i]);
    RunOfConcat(c, s, claims, sends);
    steps := claims + sends;
  }

  lemma DeliversAgain(c: Config, s: World, x: nat) returns (steps: seq<Step>)
    requires c.Valid() && Inv(c, s) && !Settled(s, x)
    ensures Valid(c, s, steps) && Deliveries(Run(c, s, steps).sends, x) > Deliveries(s.sends, x)
  {
    if s.enqueued <= x {
      var enqueues, i := EnqueuesNext(c, s, x);
      RunKeepsInv(c, s, enqueues);
      var rest := UnfinishedDeliversAgain(c, Run(c, s, enqueues), i);
      RunOfConcat(c, s, enqueues, rest);
      steps := enqueues + rest;
    } else if w, k: nat :| StillToSend(s, w, k, x) {
      steps := SendsNext(c, s, w, k, x);
    } else {
      var i :| i in s.rows && i in s.origin && s.origin[i] == x && !s.rows[i].Terminal();
      steps := UnfinishedDeliversAgain(c, s, i);
    }
  }

  /**
   When a message is delivered for good: from any reachable state its deliveries number no more
   in any continuation if and only if it is settled. So a message delivered once is safe from a
   second delivery exactly when its row is marked (or failed, or gone) and nobody else has it
   left to send.
   */
  lemma DeliveredForGood(c: Config, s: World, x: nat)
    requires c.Valid() && Reachable(c, s)
    ensures Settled(s, x) <==> forall steps :: Valid(c, s, steps) ==> Deliveries(Run(c, s, steps).sends, x) <= Deliveries(s.sends, x)
  {
    ReachableIsInv(c, s);
    if Settled(s, x) {
      forall steps | Valid(c, s, steps) ensures Deliveries(Run(c, s, steps).sends, x) <= Deliveries(s.sends, x) {
        SettledForGood(c, s, steps, x);
      }
    } else {
      var steps := DeliversAgain(c, s, x);
    }
  }
}
