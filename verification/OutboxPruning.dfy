/**
 Pruning of the outbox is unobservable, although the table gives the rowid of a pruned row to a
 later one. A run with pruning, and with rowids reused, is the run without pruning up to a
 renaming of rowids: in the renamed world every row has the number of its enqueue for a rowid.
 */
module OutboxPruning {
  import opened Common
  import opened EmailOutbox
  import opened OutboxProtocol

  // ----- rowids and the order of enqueues

  /** Among the rows present, rowids are in the order of the enqueues. */
  ghost predicate InEnqueueOrder(s: World) {
    forall i, j :: i in s.origin && j in s.origin && i < j ==> s.origin[i] < s.origin[j]
  }

  /** If a message that a cycle claimed is still there, it is under the rowid the cycle has for it. */
  ghost predicate RightlyNamed(s: World, cy: Cycle) {
    forall k, i :: 0 <= k < |cy.batch| == |cy.serials| && i in s.origin && s.origin[i] == cy.serials[k] ==> cy.batch[k].id == i
  }

  ghost predicate WellNamed(s: World) {
    InEnqueueOrder(s) && forall w :: w in s.cycles ==> RightlyNamed(s, s.cycles[w])
  }

  lemma ClaimKeepsNames(c: Config, s: World, st: Step)
    requires c.Valid() && Inv(c, s) && WellNamed(s) && st.Claim? && Enabled(c, s, st)
    ensures WellNamed(ApplyClaim(c, s, st))
  {
    var s' := ApplyClaim(c, s, st);
    SelectionIsFirst(s.rows, st.asOf, c.batchSize);
    forall w | w in s'.cycles ensures RightlyNamed(s', s'.cycles[w]) {
      if w == st.w && st.order != [] {
        forall k | 0 <= k < |st.order| ensures st.order[k] in s.origin && s'.cycles[w].serials[k] == s.origin[st.order[k]] {
          assert st.order[k] in Elems(st.order);
        }
      } else {
        assert RightlyNamed(s, s.cycles[w]);
      }
    }
  }

  lemma EnqueueKeepsNames(c: Config, s: World, st: Step)
    requires c.Valid() && Inv(c, s) && WellNamed(s) && st.Enqueue? && Enabled(c, s, st)
    ensures WellNamed(Apply(c, s, st))
  {
    var s' := Apply(c, s, st);
    forall w | w in s'.cycles ensures RightlyNamed(s', s'.cycles[w]) {
      assert RightlyNamed(s, s.cycles[w]) && CycleOk(s, s.cycles[w]);
    }
  }

  lemma OtherStepKeepsNames(c: Config, s: World, st: Step)
    requires c.Valid() && Inv(c, s) && WellNamed(s) && !st.Claim? && !st.Enqueue? && Enabled(c, s, st)
    ensures WellNamed(Apply(c, s, st))
  {
    var s' := Apply(c, s, st);
    assert forall i :: i in s'.origin ==> i in s.origin && s'.origin[i] == s.origin[i];
    forall w | w in s'.cycles ensures RightlyNamed(s', s'.cycles[w]) {
      assert RightlyNamed(s, s.cycles[w]);
      assert s'.cycles[w].batch == s.cycles[w].batch && s'.cycles[w].serials == s.cycles[w].serials;
    }
  }

  lemma StepKeepsNames(c: Config, s: World, st: Step)
    requires c.Valid() && Inv(c, s) && WellNamed(s) && Enabled(c, s, st)
    ensures WellNamed(Apply(c, s, st))
  {
    if st.Claim? {
      ClaimKeepsNames(c, s, st);
    } else if st.Enqueue? {
      EnqueueKeepsNames(c, s, st);
    } else {
      OtherStepKeepsNames(c, s, st);
    }
  }

  // ----- the renamed world

  ghost predicate HasRow(origin: map<Id, nat>, x: int) {
    exists i :: i in origin && origin[i] == x
  }

  /** `zrows` has the same rows as `rows`, under the numbers of their enqueues. */
  ghost predicate RowsRenamed(rows: Table, origin: map<Id, nat>, zrows: Table, zorigin: map<Id, nat>) {
    && origin.Keys == rows.Keys && zorigin.Keys == zrows.Keys
    && (forall i :: i in origin ==> origin[i] in zrows && zrows[origin[i]] == rows[i])
    && (forall x :: x in zrows ==> HasRow(origin, x) && zorigin[x] == x)
  }

  function RenamedCycle(cy: Cycle): Cycle {
    if |cy.batch| != |cy.serials| then cy
    else cy.(batch := seq(|cy.batch|, k requires 0 <= k < |cy.batch| => cy.batch[k].(id := cy.serials[k])))
  }

  ghost predicate CyclesRenamed(cycles: map<int, Cycle>, zcycles: map<int, Cycle>) {
    zcycles.Keys == cycles.Keys && forall w :: w in cycles ==> zcycles[w] == RenamedCycle(cycles[w])
  }

  ghost predicate SendsRenamed(sends: seq<SendRecord>, zsends: seq<SendRecord>) {
    |zsends| == |sends| && forall k :: 0 <= k < |sends| ==> zsends[k] == sends[k].(id := sends[k].serial)
  }

  predicate SameBooks(s: World, z: World) {
    && z.now == s.now && z.enqueued == s.enqueued && z.messages == s.messages && z.tokens == s.tokens
    && z.sentUnder == s.sentUnder && z.marks == s.marks
  }

  /** World `z` is world `s` up to rowids: its rows have the numbers of their enqueues for rowids. */
  ghost predicate IsRenaming(s: World, z: World) {
    && SameBooks(s, z)
    && RowsRenamed(s.rows, s.origin, z.rows, z.origin)
    && CyclesRenamed(s.cycles, z.cycles)
    && SendsRenamed(s.sends, z.sends)
  }

  /** The rowids that rows have in the renamed world. */
  function Names(s: World, order: seq<Id>): seq<Id> {
    seq(|order|, k requires 0 <= k < |order| => SerialOf(s, order[k]))
  }

  function RenamedStep(s: World, st: Step): Step {
    match st
    case Enqueue(at, _, message, availableAt) => Enqueue(at, s.enqueued, message, availableAt)
    case Claim(at, asOf, w, token, order) => Claim(at, asOf, w, token, Names(s, order))
    case _ => st
  }

  lemma RowOf(origin: map<Id, nat>, x: int) returns (i: Id)
    requires HasRow(origin, x)
    ensures i in origin && origin[i] == x
  {
    i :| i in origin && origin[i] == x;
  }

  // ----- every step of a world is a step of its renaming

  lemma EnqueueIsRenamed(c: Config, s: World, z: World, st: Step)
    requires RowsOk(c, s) && IsRenaming(s, z) && st.Enqueue? && Enabled(c, s, st)
    ensures Enabled(c, z, RenamedStep(s, st)) && IsRenaming(Apply(c, s, st), Apply(c, z, RenamedStep(s, st)))
  {
    forall x | x in z.rows ensures x < s.enqueued {
      var i := RowOf(s.origin, x);
    }
    var s', z' := Apply(c, s, st), Apply(c, z, RenamedStep(s, st));
    assert s'.origin[st.id] == s.enqueued;
    forall x | x in z'.rows ensures HasRow(s'.origin, x) {
      if x != s.enqueued {
        var i := RowOf(s.origin, x);
        assert s'.origin[i] == x;
      }
    }
  }

  lemma SendIsRenamed(c: Config, s: World, z: World, st: Step)
    requires IsRenaming(s, z) && st.Send? && Enabled(c, s, st) && CycleOk(s, s.cycles[st.w])
    ensures Enabled(c, z, st) && IsRenaming(ApplySend(s, st), ApplySend(z, st))
  {
    var cy := s.cycles[st.w];
    var phase := if st.ok then Delivered else Refused(st.error);
    assert RenamedCycle(cy.(phase := phase)) == RenamedCycle(cy).(phase := phase);
    assert RenamedCycle(cy).batch[cy.next].id == cy.serials[cy.next];
  }

  lemma RestrictIsRenamed(rows: Table, origin: map<Id, nat>, zrows: Table, zorigin: map<Id, nat>, left: Table, zleft: Table)
    requires RowsRenamed(rows, origin, zrows, zorigin)
    requires left.Keys <= rows.Keys && zleft.Keys <= zrows.Keys
    requires forall i :: i in left ==> i in rows && left[i] == rows[i]
    requires forall x :: x in zleft ==> x in zrows && zleft[x] == zrows[x]
    requires forall i :: i in rows ==> (i in left <==> origin[i] in zleft)
    ensures RowsRenamed(left, Restrict(origin, left), zleft, Restrict(zorigin, zleft))
  {
    forall x | x in zleft ensures HasRow(Restrict(origin, left), x) {
      var i := RowOf(origin, x);
      assert Restrict(origin, left)[i] == x;
    }
  }

  lemma PruneIsRenamed(c: Config, s: World, z: World, st: Step)
    requires IsRenaming(s, z) && (st.PruneSentRows? || st.PruneFailedRows?) && Enabled(c, s, st)
    ensures Enabled(c, z, st) && IsRenaming(Apply(c, s, st), Apply(c, z, st))
  {
    RestrictIsRenamed(s.rows, s.origin, z.rows, z.origin, Apply(c, s, st).rows, Apply(c, z, st).rows);
  }

  lemma AbandonIsRenamed(c: Config, s: World, z: World, st: Step)
    requires IsRenaming(s, z) && st.Abandon? && Enabled(c, s, st)
    ensures Enabled(c, z, st) && IsRenaming(Apply(c, s, st), Apply(c, z, st))
  {
  }

  /** The message a worker is about to mark has its row in both worlds or in neither. */
  lemma SameOwner(c: Config, s: World, z: World, w: int)
    requires RowsOk(c, s) && CyclesOk(s) && WellNamed(s) && IsRenaming(s, z) && w in s.cycles
    ensures var cy := s.cycles[w]; var m, x := cy.batch[cy.next], cy.serials[cy.next];
            && (Owns(s.rows, m.id, m.claimToken) <==> Owns(z.rows, x, m.claimToken))
            && (Owns(s.rows, m.id, m.claimToken) ==> s.origin[m.id] == x && z.rows[x] == s.rows[m.id])
  {
    var cy := s.cycles[w];
    var m, x := cy.batch[cy.next], cy.serials[cy.next];
    assert Fresh(s, cy, cy.next) && RightlyNamed(s, cy);
    if x in z.rows {
      var i := RowOf(s.origin, x);
      assert m.id == i;
    }
  }

  lemma RowReplaced(rows: Table, origin: map<Id, nat>, zrows: Table, zorigin: map<Id, nat>, id: Id, row: Row)
    requires RowsRenamed(rows, origin, zrows, zorigin) && id in rows
    requires forall i, j :: i in origin && j in origin && i != j ==> origin[i] != origin[j]
    ensures RowsRenamed(rows[id := row], origin, zrows[origin[id] := row], zorigin)
  {
  }

  lemma MarkRowsAreRenamed(c: Config, s: World, z: World, m: OutboxEmail, x: nat, phase: Phase, asOf: int)
    requires RowsOk(c, s) && RowsRenamed(s.rows, s.origin, z.rows, z.origin) && !phase.Ready?
    requires Owns(s.rows, m.id, m.claimToken) <==> Owns(z.rows, x, m.claimToken)
    requires Owns(s.rows, m.id, m.claimToken) ==> s.origin[m.id] == x && z.rows[x] == s.rows[m.id]
    ensures RowsRenamed(MarkRows(c, s.rows, m, phase, asOf), s.origin, MarkRows(c, z.rows, m.(id := x), phase, asOf), z.origin)
  {
    var rows', zrows' := MarkRows(c, s.rows, m, phase, asOf), MarkRows(c, z.rows, m.(id := x), phase, asOf);
    if Owns(s.rows, m.id, m.claimToken) {
      RowReplaced(s.rows, s.origin, z.rows, z.origin, m.id, rows'[m.id]);
      assert rows' == s.rows[m.id := rows'[m.id]] && zrows' == z.rows[x := rows'[m.id]];
    } else {
      assert rows' == s.rows && zrows' == z.rows;
    }
  }

  lemma AdvanceIsRenamed(cycles: map<int, Cycle>, zcycles: map<int, Cycle>, w: int)
    requires CyclesRenamed(cycles, zcycles) && w in cycles && |cycles[w].batch| == |cycles[w].serials|
    ensures CyclesRenamed(Advance(cycles, w), Advance(zcycles, w))
  {
    var cy := cycles[w];
    assert RenamedCycle(cy.(next := cy.next + 1, phase := Ready)) == RenamedCycle(cy).(next := cy.next + 1, phase := Ready);
  }

  lemma MarkIsRenamed(c: Config, s: World, z: World, st: Step)
    requires RowsOk(c, s) && CyclesOk(s) && WellNamed(s) && IsRenaming(s, z) && st.Mark? && Enabled(c, s, st)
    ensures Enabled(c, z, st) && IsRenaming(ApplyMark(c, s, st), ApplyMark(c, z, st))
  {
    var cy := s.cycles[st.w];
    var m, x := cy.batch[cy.next], cy.serials[cy.next];
    SameOwner(c, s, z, st.w);
    MarkRowsAreRenamed(c, s, z, m, x, cy.phase, st.asOf);
    AdvanceIsRenamed(s.cycles, z.cycles, st.w);
    assert z.cycles[st.w].batch[cy.next] == m.(id := x);
    assert Owns(s.rows, m.id, m.claimToken) ==> SerialOf(s, m.id) == x && SerialOf(z, x) == x;
  }

  // ----- a claim takes the same messages under either names

  lemma NamesOf(s: World, order: seq<Id>)
    requires forall k :: 0 <= k < |order| ==> order[k] in s.origin
    requires forall i, j :: i in s.origin && j in s.origin && i != j ==> s.origin[i] != s.origin[j]
    requires NoDuplicates(order)
    ensures NoDuplicates(Names(s, order))
    ensures forall i :: i in s.origin ==> (i in Elems(order) <==> s.origin[i] in Elems(Names(s, order)))
    ensures forall x :: x in Elems(Names(s, order)) ==> HasRow(s.origin, x)
  {
    var names := Names(s, order);
    forall i | i in s.origin && i in Elems(order) ensures s.origin[i] in Elems(names) {
      var k :| 0 <= k < |order| && order[k] == i;
      assert names[k] == s.origin[i];
    }
    forall i | i in s.origin && s.origin[i] in Elems(names) ensures i in Elems(order) {
      var k :| 0 <= k < |names| && names[k] == s.origin[i];
      assert order[k] == i;
    }
  }

  lemma EligibleAreRenamed(c: Config, s: World, z: World, now: int)
    requires RowsOk(c, s) && RowsRenamed(s.rows, s.origin, z.rows, z.origin)
    ensures forall i :: i in s.rows ==> (i in EligibleIds(s.rows, now) <==> s.origin[i] in EligibleIds(z.rows, now))
    ensures |EligibleIds(s.rows, now)| == |EligibleIds(z.rows, now)|
  {
    var ids, zids := EligibleIds(s.rows, now), EligibleIds(z.rows, now);
    var order := SomeOrder(ids);
    assert forall k :: 0 <= k < |order| ==> order[k] in Elems(order);
    NamesOf(s, order);
    forall x ensures x in zids <==> x in Elems(Names(s, order)) {
      if x in zids || x in Elems(Names(s, order)) {
        var i := RowOf(s.origin, x);
      }
    }
    assert zids == Elems(Names(s, order));
    OrderSize(order);
    OrderSize(Names(s, order));
  }

  /** Order by available_at and rowid is order by available_at and enqueue. */
  lemma FirstAreRenamed(c: Config, s: World, z: World, now: int, limit: nat, order: seq<Id>)
    requires RowsOk(c, s) && InEnqueueOrder(s) && RowsRenamed(s.rows, s.origin, z.rows, z.origin)
    requires IsOrderOf(order, Selection(s.rows, now, limit))
    ensures IsFirst(z.rows, EligibleIds(z.rows, now), limit, Elems(Names(s, order)))
  {
    var zids, chosen := EligibleIds(z.rows, now), Elems(Names(s, order));
    SelectionIsFirst(s.rows, now, limit);
    EligibleAreRenamed(c, s, z, now);
    assert forall k :: 0 <= k < |order| ==> order[k] in Elems(order);
    NamesOf(s, order);
    OrderSize(order);
    OrderSize(Names(s, order));
    forall x | x in chosen ensures x in zids {
      var i := RowOf(s.origin, x);
    }
    forall x, y | x in chosen && y in zids && y !in chosen ensures Precedes(z.rows, x, y) {
      var i := RowOf(s.origin, x);
      var j := RowOf(s.origin, y);
      assert Precedes(s.rows, i, j);
      assert i < j <==> x < y;
    }
  }

  lemma SelectionIsRenamed(c: Config, s: World, z: World, now: int, limit: nat, order: seq<Id>)
    requires RowsOk(c, s) && InEnqueueOrder(s) && RowsRenamed(s.rows, s.origin, z.rows, z.origin)
    requires IsOrderOf(order, Selection(s.rows, now, limit))
    ensures IsOrderOf(Names(s, order), Selection(z.rows, now, limit))
  {
    SelectionIsFirst(s.rows, now, limit);
    SelectionIsFirst(z.rows, now, limit);
    assert forall k :: 0 <= k < |order| ==> order[k] in Elems(order);
    NamesOf(s, order);
    FirstAreRenamed(c, s, z, now, limit, order);
    FirstIsUnique(z.rows, EligibleIds(z.rows, now), limit, Elems(Names(s, order)), Selection(z.rows, now, limit));
  }

  lemma ClaimRowsAreRenamed(c: Config, s: World, z: World, order: seq<Id>, now: int, expiresAt: int, token: string)
    requires RowsOk(c, s) && RowsRenamed(s.rows, s.origin, z.rows, z.origin)
    requires NoDuplicates(order) && forall k :: 0 <= k < |order| ==> order[k] in s.origin
    ensures RowsRenamed(ClaimRows(s.rows, Elems(order), now, expiresAt, token), s.origin,
                        ClaimRows(z.rows, Elems(Names(s, order)), now, expiresAt, token), z.origin)
  {
    NamesOf(s, order);
  }

  lemma BatchIsRenamed(s: World, z: World, order: seq<Id>, token: string, expiresAt: int)
    requires RowsRenamed(s.rows, s.origin, z.rows, z.origin)
    requires forall k :: 0 <= k < |order| ==> order[k] in s.origin
    ensures RenamedCycle(Cycle(token, Snapshots(s.rows, order, token), Serials(s, order), 0, Ready, expiresAt))
            == Cycle(token, Snapshots(z.rows, Names(s, order), token), Serials(z, Names(s, order)), 0, Ready, expiresAt)
  {
    var names, serials := Names(s, order), Serials(s, order);
    forall k | 0 <= k < |order| ensures Snapshot(z.rows, names[k], token) == Snapshot(s.rows, order[k], token).(id := serials[k]) {
      assert names[k] == s.origin[order[k]];
    }
    var batch, zbatch := Snapshots(s.rows, order, token), Snapshots(z.rows, names, token);
    assert seq(|batch|, k requires 0 <= k < |batch| => batch[k].(id := serials[k])) == zbatch;
    assert Serials(z, names) == serials;
  }

  lemma CycleAdded(cycles: map<int, Cycle>, zcycles: map<int, Cycle>, w: int, cy: Cycle)
    requires CyclesRenamed(cycles, zcycles)
    ensures CyclesRenamed(cycles[w := cy], zcycles[w := RenamedCycle(cy)])
  {
  }

  lemma ClaimIsEnabled(c: Config, s: World, z: World, st: Step)
    requires RowsOk(c, s) && WellNamed(s) && IsRenaming(s, z) && st.Claim? && Enabled(c, s, st)
    ensures Enabled(c, z, RenamedStep(s, st))
    ensures NoDuplicates(st.order) && forall k :: 0 <= k < |st.order| ==> st.order[k] in s.origin
  {
    SelectionIsFirst(s.rows, st.asOf, c.batchSize);
    assert forall k :: 0 <= k < |st.order| ==> st.order[k] in Elems(st.order);
    SelectionIsRenamed(c, s, z, st.asOf, c.batchSize, st.order);
  }

  lemma ClaimedCycles(c: Config, s: World, z: World, st: Step)
    requires IsRenaming(s, z) && st.Claim? && forall k :: 0 <= k < |st.order| ==> st.order[k] in s.origin
    ensures CyclesRenamed(ApplyClaim(c, s, st).cycles, ApplyClaim(c, z, RenamedStep(s, st)).cycles)
  {
    var expiresAt := st.asOf + c.claimTTL;
    BatchIsRenamed(s, z, st.order, st.token, expiresAt);
    CycleAdded(s.cycles, z.cycles, st.w, Cycle(st.token, Snapshots(s.rows, st.order, st.token), Serials(s, st.order), 0, Ready, expiresAt));
  }

  lemma ClaimedRows(c: Config, s: World, z: World, st: Step)
    requires RowsOk(c, s) && RowsRenamed(s.rows, s.origin, z.rows, z.origin) && st.Claim?
    requires NoDuplicates(st.order) && forall k :: 0 <= k < |st.order| ==> st.order[k] in s.origin
    ensures RowsRenamed(ApplyClaim(c, s, st).rows, s.origin, ApplyClaim(c, z, RenamedStep(s, st)).rows, z.origin)
  {
    var zst := RenamedStep(s, st);
    assert zst.Claim? && zst.asOf == st.asOf && zst.token == st.token && zst.order == Names(s, st.order);
    assert ApplyClaim(c, s, st).rows == ClaimRows(s.rows, Elems(st.order), st.asOf, st.asOf + c.claimTTL, st.token);
    assert ApplyClaim(c, z, zst).rows == ClaimRows(z.rows, Elems(zst.order), st.asOf, st.asOf + c.claimTTL, st.token);
    ClaimRowsAreRenamed(c, s, z, st.order, st.asOf, st.asOf + c.claimTTL, st.token);
  }

  /** The rest of the world after a claim. */
  lemma ClaimedBooks(c: Config, s: World, st: Step)
    requires st.Claim?
    ensures var s' := ApplyClaim(c, s, st);
            && s'.now == st.at && s'.tokens == s.tokens + {st.token} && s'.origin == s.origin && s'.enqueued == s.enqueued
            && s'.messages == s.messages && s'.sends == s.sends && s'.sentUnder == s.sentUnder && s'.marks == s.marks
  {
  }

  lemma ClaimedIsRenamed(c: Config, s: World, z: World, st: Step)
    requires RowsOk(c, s) && IsRenaming(s, z) && st.Claim?
    requires NoDuplicates(st.order) && forall k :: 0 <= k < |st.order| ==> st.order[k] in s.origin
    ensures IsRenaming(ApplyClaim(c, s, st), ApplyClaim(c, z, RenamedStep(s, st)))
  {
    var zst := RenamedStep(s, st);
    assert zst.Claim? && zst.at == st.at && zst.token == st.token;
    ClaimedRows(c, s, z, st);
    ClaimedCycles(c, s, z, st);
    ClaimedBooks(c, s, st);
    ClaimedBooks(c, z, zst);
  }

  lemma ClaimIsRenamed(c: Config, s: World, z: World, st: Step)
    requires RowsOk(c, s) && WellNamed(s) && IsRenaming(s, z) && st.Claim? && Enabled(c, s, st)
    ensures Enabled(c, z, RenamedStep(s, st)) && IsRenaming(ApplyClaim(c, s, st), ApplyClaim(c, z, RenamedStep(s, st)))
  {
    ClaimIsEnabled(c, s, z, st);
    ClaimedIsRenamed(c, s, z, st);
  }

  lemma StepIsRenamed(c: Config, s: World, z: World, st: Step)
    requires c.Valid() && Inv(c, s) && WellNamed(s) && IsRenaming(s, z) && Enabled(c, s, st)
    ensures Enabled(c, z, RenamedStep(s, st)) && IsRenaming(Apply(c, s, st), Apply(c, z, RenamedStep(s, st)))
  {
    match st
    case Enqueue(_, _, _, _) => EnqueueIsRenamed(c, s, z, st);
    case Claim(_, _, _, _, _) => ClaimIsRenamed(c, s, z, st);
    case Send(_, _, _, _) => SendIsRenamed(c, s, z, st);
    case Mark(_, _, _) => MarkIsRenamed(c, s, z, st);
    case Abandon(_, _) => AbandonIsRenamed(c, s, z, st);
    case _ => PruneIsRenamed(c, s, z, st);
  }

  /** The steps as they are in the renamed world, in which enqueues count. */
  ghost function RenamedSteps(c: Config, s: World, steps: seq<Step>): seq<Step>
    requires Valid(c, s, steps)
    decreases |steps|
  {
    if steps == [] then [] else [RenamedStep(s, steps[0])] + RenamedSteps(c, Apply(c, s, steps[0]), steps[1..])
  }

  ghost predicate Counting(c: Config, s: World, steps: seq<Step>)
    requires Valid(c, s, steps)
    decreases |steps|
  {
    steps != [] ==> (steps[0].Enqueue? ==> steps[0].id == s.enqueued) && Counting(c, Apply(c, s, steps[0]), steps[1..])
  }

  /** Every run, with rowids reused, is up to rowids a run that counts its enqueues for rowids. */
  lemma {:induction false} RunIsRenamed(c: Config, s: World, z: World, steps: seq<Step>)
    requires c.Valid() && Inv(c, s) && WellNamed(s) && IsRenaming(s, z) && Valid(c, s, steps)
    ensures Valid(c, z, RenamedSteps(c, s, steps)) && Counting(c, z, RenamedSteps(c, s, steps))
    ensures IsRenaming(Run(c, s, steps), Run(c, z, RenamedSteps(c, s, steps)))
    decreases |steps|
  {
    if steps != [] {
      var st, rest := steps[0], steps[1..];
      StepIsRenamed(c, s, z, st);
      StepKeepsInv(c, s, st);
      StepKeepsNames(c, s, st);
      var s', z' := Apply(c, s, st), Apply(c, z, RenamedStep(s, st));
      RunIsRenamed(c, s', z', rest);
      var zsteps := RenamedSteps(c, s, steps);
      assert zsteps[0] == RenamedStep(s, st) && zsteps[1..] == RenamedSteps(c, s', rest);
    }
  }

  // ----- runs without reuse of rowids

  ghost function WithoutPruning(steps: seq<Step>): seq<Step>
    decreases |steps|
  {
    if steps == [] then []
    else (if steps[0].PruneSentRows? || steps[0].PruneFailedRows? then [] else [steps[0]]) + WithoutPruning(steps[1..])
  }

  ghost predicate InTimeOrder(now: int, steps: seq<Step>)
    decreases |steps|
  {
    steps != [] ==> now <= steps[0].at && InTimeOrder(steps[0].at, steps[1..])
  }

  /** World `p` is world `u` short of some sent and failed rows; the rest, and all that workers see, is the same. */
  ghost predicate SameButPruned(u: World, p: World) {
    && u.now <= p.now
    && p.cycles == u.cycles && p.tokens == u.tokens && p.enqueued == u.enqueued
    && p.messages == u.messages && p.sends == u.sends && p.marks == u.marks && p.sentUnder == u.sentUnder
    && p.rows.Keys <= u.rows.Keys
    && (forall i :: i in p.rows ==> p.rows[i] == u.rows[i] && SerialOf(p, i) == SerialOf(u, i))
    && (forall i :: i in u.rows && i !in p.rows ==> u.rows[i].Terminal())
  }

  lemma SameSelection(u: World, p: World, now: int, limit: nat)
    requires SameButPruned(u, p)
    ensures Selection(u.rows, now, limit) == Selection(p.rows, now, limit)
  {
    SelectionIsFirst(u.rows, now, limit);
    SelectionIsFirst(p.rows, now, limit);
    forall i ensures i in EligibleIds(u.rows, now) <==> i in EligibleIds(p.rows, now) {
      if i in u.rows && i !in p.rows {
        assert u.rows[i].Terminal();
      }
    }
    assert EligibleIds(u.rows, now) == EligibleIds(p.rows, now);
    FirstIsUnique(u.rows, EligibleIds(u.rows, now), limit, Selection(u.rows, now, limit), Selection(p.rows, now, limit));
  }

  lemma SameBatch(u: World, p: World, order: seq<Id>, token: string)
    requires SameButPruned(u, p) && forall k :: 0 <= k < |order| ==> order[k] in p.rows
    ensures Snapshots(u.rows, order, token) == Snapshots(p.rows, order, token) && Serials(u, order) == Serials(p, order)
  {
    forall k | 0 <= k < |order|
      ensures Snapshot(u.rows, order[k], token) == Snapshot(p.rows, order[k], token) && SerialOf(u, order[k]) == SerialOf(p, order[k])
    {
      assert order[k] in p.rows;
    }
  }

  lemma SameClaimedRows(u: World, p: World, ids: set<Id>, now: int, expiresAt: int, token: string)
    requires SameButPruned(u, p) && ids <= p.rows.Keys
    ensures var urows, prows := ClaimRows(u.rows, ids, now, expiresAt, token), ClaimRows(p.rows, ids, now, expiresAt, token);
            && (forall i :: i in prows ==> i in urows && prows[i] == urows[i])
            && (forall i :: i in urows && i !in prows ==> urows[i].Terminal())
  {
  }

  lemma SameClaim(c: Config, u: World, p: World, st: Step)
    requires SameButPruned(u, p) && st.Claim? && Enabled(c, u, st) && p.now <= st.at
    ensures Enabled(c, p, st) && SameButPruned(ApplyClaim(c, u, st), ApplyClaim(c, p, st))
  {
    SameSelection(u, p, st.asOf, c.batchSize);
    SelectionIsFirst(p.rows, st.asOf, c.batchSize);
    assert forall k :: 0 <= k < |st.order| ==> st.order[k] in Elems(st.order);
    SameBatch(u, p, st.order, st.token);
    SameClaimedRows(u, p, Elems(st.order), st.asOf, st.asOf + c.claimTTL, st.token);
  }

  lemma SameMark(c: Config, u: World, p: World, st: Step)
    requires c.Valid() && Inv(c, u) && Inv(c, p) && SameButPruned(u, p)
    requires st.Mark? && Enabled(c, u, st) && p.now <= st.at
    ensures SameButPruned(ApplyMark(c, u, st), ApplyMark(c, p, st))
  {
    var cy := u.cycles[st.w];
    var m := cy.batch[cy.next];
    assert CycleOk(u, cy);
    SameMarkedRows(c, u, p, m, cy.phase, st.asOf);
  }

  lemma SameMarkedRows(c: Config, u: World, p: World, m: OutboxEmail, phase: Phase, asOf: int)
    requires RowsOk(c, u) && SameButPruned(u, p) && !phase.Ready? && m.claimToken != ""
    ensures Owns(u.rows, m.id, m.claimToken) <==> Owns(p.rows, m.id, m.claimToken)
    ensures var urows, prows := MarkRows(c, u.rows, m, phase, asOf), MarkRows(c, p.rows, m, phase, asOf);
            && prows.Keys == p.rows.Keys && urows.Keys == u.rows.Keys
            && (forall i :: i in prows ==> i in urows && prows[i] == urows[i])
            && (forall i :: i in urows && i !in prows ==> urows[i].Terminal())
  {
    assert m.id in u.rows ==> RowOk(c, u.rows[m.id]);
    var urows, prows := MarkRows(c, u.rows, m, phase, asOf), MarkRows(c, p.rows, m, phase, asOf);
    if Owns(u.rows, m.id, m.claimToken) {
      assert urows == u.rows[m.id := urows[m.id]] && prows == p.rows[m.id := urows[m.id]];
    } else {
      assert urows == u.rows && prows == p.rows;
    }
  }

  lemma SameStep(c: Config, u: World, p: World, st: Step)
    requires c.Valid() && Inv(c, u) && Inv(c, p) && SameButPruned(u, p)
    requires !st.PruneSentRows? && !st.PruneFailedRows? && Enabled(c, u, st) && p.now <= st.at
    ensures Enabled(c, p, st) && SameButPruned(Apply(c, u, st), Apply(c, p, st))
  {
    match st
    case Claim(_, _, _, _, _) => SameClaim(c, u, p, st);
    case Mark(_, _, _) => SameMark(c, u, p, st);
    case _ =>
  }

  lemma PruneStep(c: Config, u: World, p: World, st: Step)
    requires SameButPruned(u, p) && (st.PruneSentRows? || st.PruneFailedRows?) && p.now <= st.at
    ensures Enabled(c, p, st) && SameButPruned(u, Apply(c, p, st))
  {
  }

  /** Pruning prevents nothing: whatever run is possible without it is possible, the same, with pruning anywhere in it. */
  lemma {:induction false} PruningPreventsNothing(c: Config, u: World, p: World, steps: seq<Step>)
    requires c.Valid() && Inv(c, u) && Inv(c, p) && SameButPruned(u, p)
    requires Valid(c, u, WithoutPruning(steps)) && InTimeOrder(p.now, steps)
    ensures Valid(c, p, steps) && SameButPruned(Run(c, u, WithoutPruning(steps)), Run(c, p, steps))
    decreases |steps|
  {
    if steps != [] {
      var st, rest := steps[0], steps[1..];
      if st.PruneSentRows? || st.PruneFailedRows? {
        assert WithoutPruning(steps) == WithoutPruning(rest);
        PruneStep(c, u, p, st);
        StepKeepsInv(c, p, st);
        PruningPreventsNothing(c, u, Apply(c, p, st), rest);
      } else {
        assert WithoutPruning(steps)[0] == st && WithoutPruning(steps)[1..] == WithoutPruning(rest);
        SameStep(c, u, p, st);
        StepKeepsInv(c, u, st);
        StepKeepsInv(c, p, st);
        PruningPreventsNothing(c, Apply(c, u, st), Apply(c, p, st), rest);
      }
    }
  }

  ghost predicate Counted(s: World) {
    forall i :: i in s.rows ==> i < s.enqueued
  }

  lemma SameStepBack(c: Config, u: World, p: World, st: Step)
    requires c.Valid() && Inv(c, u) && Inv(c, p) && SameButPruned(u, p) && Counted(u)
    requires !st.PruneSentRows? && !st.PruneFailedRows? && Enabled(c, p, st) && (st.Enqueue? ==> st.id == p.enqueued)
    ensures Enabled(c, u, st) && SameButPruned(Apply(c, u, st), Apply(c, p, st)) && Counted(Apply(c, u, st))
  {
    if st.Claim? {
      SameSelection(u, p, st.asOf, c.batchSize);
    }
    SameStep(c, u, p, st);
    KeysOnly(c, u, st);
  }

  lemma KeysOnly(c: Config, u: World, st: Step)
    requires Inv(c, u) && Enabled(c, u, st)
    ensures forall i :: i in Apply(c, u, st).rows ==> i in u.rows || (st.Enqueue? && i == st.id)
    ensures Apply(c, u, st).enqueued == u.enqueued + if st.Enqueue? then 1 else 0
  {
    if st.Mark? {
      var cy := u.cycles[st.w];
      MarkReleases(c, u.rows, cy.batch[cy.next], cy.phase, st.asOf);
    }
  }

  /** Nor does it add anything: a run with pruning that counts its enqueues is possible, the same, without. */
  lemma {:induction false} PruningAddsNothing(c: Config, u: World, p: World, steps: seq<Step>)
    requires c.Valid() && Inv(c, u) && Inv(c, p) && SameButPruned(u, p) && Counted(u)
    requires Valid(c, p, steps) && Counting(c, p, steps)
    ensures Valid(c, u, WithoutPruning(steps)) && SameButPruned(Run(c, u, WithoutPruning(steps)), Run(c, p, steps))
    decreases |steps|
  {
    if steps != [] {
      var st, rest := steps[0], steps[1..];
      StepKeepsInv(c, p, st);
      if st.PruneSentRows? || st.PruneFailedRows? {
        assert WithoutPruning(steps) == WithoutPruning(rest);
        PruneStep(c, u, p, st);
        PruningAddsNothing(c, u, Apply(c, p, st), rest);
      } else {
        assert WithoutPruning(steps)[0] == st && WithoutPruning(steps)[1..] == WithoutPruning(rest);
        SameStepBack(c, u, p, st);
        StepKeepsInv(c, u, st);
        PruningAddsNothing(c, Apply(c, u, st), Apply(c, p, st), rest);
      }
    }
  }

  // ----- pruning is unobservable

  /**
   World `u`, where nothing is pruned and rowids count the enqueues, is to everyone the same as
   world `s`: all of `s`'s rows are in it, the others in it are finished, and the cycles with
   their batches, the sends and the marks are those of `s`, up to rowids.
   */
  ghost predicate SameUpToNames(u: World, s: World) {
    && u.enqueued == s.enqueued && u.messages == s.messages && u.tokens == s.tokens && u.marks == s.marks && u.sentUnder == s.sentUnder
    && s.origin.Keys == s.rows.Keys
    && (forall i :: i in s.origin ==> s.origin[i] in u.rows && u.rows[s.origin[i]] == s.rows[i])
    && (forall x :: x in u.rows && !u.rows[x].Terminal() ==> HasRow(s.origin, x))
    && CyclesRenamed(s.cycles, u.cycles) && SendsRenamed(s.sends, u.sends)
  }

  /**
   Cleanup of the outbox is unobservable. Take any run, with pruning anywhere in it and rowids
   reused after it. The run of the same steps without the pruning is possible as well, and it
   gives every worker the same batches, sends the same messages and moves the same rows.
   */
  lemma PruningIsUnobservable(c: Config, now: int, steps: seq<Step>)
    requires c.Valid() && Valid(c, Init(now), steps)
    ensures var unpruned := WithoutPruning(RenamedSteps(c, Init(now), steps));
            Valid(c, Init(now), unpruned) && SameUpToNames(Run(c, Init(now), unpruned), Run(c, Init(now), steps))
  {
    var s := Init(now);
    InvInit(c, now);
    RunIsRenamed(c, s, s, steps);
    PruningAddsNothing(c, s, s, RenamedSteps(c, s, steps));
  }

  /** One more pruning changes nothing of that. */
  lemma PruningStaysUnobservable(c: Config, u: World, s: World, st: Step)
    requires SameUpToNames(u, s) && (st.PruneSentRows? || st.PruneFailedRows?) && Enabled(c, s, st)
    ensures SameUpToNames(u, Apply(c, s, st))
  {
    var s' := Apply(c, s, st);
    forall x | x in u.rows && !u.rows[x].Terminal() ensures HasRow(s'.origin, x) {
      var i := RowOf(s.origin, x);
      assert s'.origin[i] == x;
    }
  }
}
