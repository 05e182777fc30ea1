/**
 The lease protocol of the email outbox. Any number of workers, each inside one
 `ProcessPending` cycle at a time, interleave with enqueues and with pruning; every SQL
 statement and every Send is one step. A step carries the time at which it takes effect (`at`)
 and, where the code samples its clock before the statement, the sampled time (`asOf`).

 `World` holds the table and what each worker remembers, and as history: which enqueue each
 row came from (rowids are reused after pruning) and what was enqueued, the claim tokens drawn so
 far, the log of sends, the token under which a row was marked sent, and how many marks took effect.
 */
module OutboxProtocol {
  import opened Common
  import opened EmailOutbox
  import Utf8

  datatype Config = Config(batchSize: nat, retryDelay: int, maxAttempts: int, claimTTL: int) {
    predicate Valid() {
      batchSize > 0 && retryDelay > 0 && maxAttempts >= 1 && claimTTL > 0
    }
  }

  /** A claimed row as the worker sees it; `attempts` is a snapshot and may go stale. */
  datatype OutboxEmail = OutboxEmail(id: Id, message: Message, attempts: int, claimToken: string)

  /** What happened to the message at hand: not sent yet, Send succeeded, Send failed. */
  datatype Phase = Ready | Delivered | Refused(error: seq<byte>)

  datatype Cycle = Cycle(token: string, batch: seq<OutboxEmail>, serials: seq<nat>, next: nat, phase: Phase, expiresAt: int)

  datatype SendRecord = SendRecord(serial: nat, id: Id, token: string, message: Message, ok: bool, at: int)

  datatype World = World(
    now: int,
    rows: Table,
    cycles: map<int, Cycle>,
    origin: map<Id, nat>,
    enqueued: nat,
    messages: seq<Message>,
    tokens: set<string>,
    sends: seq<SendRecord>,
    sentUnder: map<nat, string>,
    marks: nat)

  function Init(now: int): World {
    World(now, map[], map[], map[], 0, [], {}, [], map[], 0)
  }

  datatype Step =
    | Enqueue(at: int, id: Id, message: Message, availableAt: int)
    | Claim(at: int, asOf: int, w: int, token: string, order: seq<Id>)
    | Send(at: int, w: int, ok: bool, error: seq<byte>)
    | Mark(at: int, asOf: int, w: int)
    // The worker crashes, or the store fails in another way than "no rows" and the cycle returns.
    | Abandon(at: int, w: int)
    | PruneSentRows(at: int, before: int)
    | PruneFailedRows(at: int, before: int)

  /**
   A fresh rowid exceeds every rowid in the table, so one above the present maximum may have
   been in use before. Claim tokens are 16 random bytes: fresh and non-empty.
   */
  ghost predicate Enabled(c: Config, s: World, st: Step) {
    && s.now <= st.at
    && match st
       case Enqueue(_, id, _, _) => forall i :: i in s.rows ==> i < id
       case Claim(at, asOf, w, token, order) =>
         && asOf <= at && w !in s.cycles && token != "" && token !in s.tokens
         && IsOrderOf(order, Selection(s.rows, asOf, c.batchSize))
       case Send(_, w, _, _) => w in s.cycles && s.cycles[w].phase.Ready?
       case Mark(at, asOf, w) => asOf <= at && w in s.cycles && !s.cycles[w].phase.Ready?
       case Abandon(_, w) => w in s.cycles
       case PruneSentRows(_, _) => true
       case PruneFailedRows(_, _) => true
  }

  // ----- the steps

  function Snapshot(t: Table, i: Id, token: string): OutboxEmail {
    if i in t then OutboxEmail(i, t[i].message, t[i].attempts, token)
    else OutboxEmail(i, Message("", "", "", "", ""), 0, token)
  }

  function Snapshots(t: Table, order: seq<Id>, token: string): (r: seq<OutboxEmail>) {
    seq(|order|, k requires 0 <= k < |order| => Snapshot(t, order[k], token))
  }

  function SerialOf(s: World, i: Id): nat {
    if i in s.origin then s.origin[i] else 0
  }

  function Serials(s: World, order: seq<Id>): seq<nat> {
    seq(|order|, k requires 0 <= k < |order| => SerialOf(s, order[k]))
  }

  /** The mark `ProcessPending` issues for the message at hand. */
  ghost function MarkRows(c: Config, t: Table, m: OutboxEmail, phase: Phase, asOf: int): Table {
    match phase
    case Ready => t
    case Delivered => MarkSent(t, m.id, m.claimToken, asOf)
    case Refused(error) =>
      if m.attempts + 1 >= c.maxAttempts then
        MarkFailedPermanently(t, m.id, m.claimToken, Utf8.Truncated(error), asOf)
      else
        MarkFailed(t, m.id, m.claimToken, Utf8.Truncated(error), asOf + c.retryDelay)
  }

  /** The worker moves on to the next message, or its cycle is over. */
  function Advance(cycles: map<int, Cycle>, w: int): map<int, Cycle>
    requires w in cycles
  {
    var cy := cycles[w];
    if cy.next + 1 < |cy.batch| then cycles[w := cy.(next := cy.next + 1, phase := Ready)] else cycles - {w}
  }

  function Restrict(origin: map<Id, nat>, t: Table): map<Id, nat> {
    map i | i in origin && i in t :: origin[i]
  }

  ghost function ApplyClaim(c: Config, s: World, st: Step): World
    requires st.Claim?
  {
    s.(now := st.at,
       rows := ClaimRows(s.rows, Elems(st.order), st.asOf, st.asOf + c.claimTTL, st.token),
       tokens := s.tokens + {st.token},
       cycles := if st.order == [] then s.cycles else
         s.cycles[st.w := Cycle(st.token, Snapshots(s.rows, st.order, st.token), Serials(s, st.order), 0, Ready,
                                st.asOf + c.claimTTL)])
  }

  /** What the history keeps of a Send of the message at hand. */
  function RecordOf(cy: Cycle, ok: bool, at: int): SendRecord
    requires cy.next < |cy.batch| && cy.next < |cy.serials|
  {
    SendRecord(cy.serials[cy.next], cy.batch[cy.next].id, cy.token, cy.batch[cy.next].message, ok, at)
  }

  ghost function ApplySend(s: World, st: Step): World
    requires st.Send? && st.w in s.cycles
  {
    var cy := s.cycles[st.w];
    if cy.next < |cy.batch| && cy.next < |cy.serials| then
      s.(now := st.at,
         cycles := s.cycles[st.w := cy.(phase := if st.ok then Delivered else Refused(st.error))],
         sends := s.sends + [RecordOf(cy, st.ok, st.at)])
    else s.(now := st.at)
  }

  ghost function ApplyMark(c: Config, s: World, st: Step): World
    requires st.Mark? && st.w in s.cycles
  {
    var cy := s.cycles[st.w];
    if cy.next < |cy.batch| then
      var m := cy.batch[cy.next];
      var took := Owns(s.rows, m.id, m.claimToken);
      s.(now := st.at,
         rows := MarkRows(c, s.rows, m, cy.phase, st.asOf),
         cycles := Advance(s.cycles, st.w),
         sentUnder := if took && cy.phase.Delivered? then s.sentUnder[SerialOf(s, m.id) := m.claimToken] else s.sentUnder,
         marks := if took then s.marks + 1 else s.marks)
    else s.(now := st.at)
  }

  ghost function Apply(c: Config, s: World, st: Step): World
    requires Enabled(c, s, st)
  {
    match st
    case Enqueue(at, id, message, availableAt) =>
      s.(now := at, rows := s.rows[id := NewRow(message, availableAt)],
         origin := s.origin[id := s.enqueued], enqueued := s.enqueued + 1,
         messages := s.messages + [message])
    case Claim(_, _, _, _, _) => ApplyClaim(c, s, st)
    case Send(_, _, _, _) => ApplySend(s, st)
    case Mark(_, _, _) => ApplyMark(c, s, st)
    case Abandon(at, w) => s.(now := at, cycles := s.cycles - {w})
    case PruneSentRows(at, before) =>
      var t := PruneSent(s.rows, before); s.(now := at, rows := t, origin := Restrict(s.origin, t))
    case PruneFailedRows(at, before) =>
      var t := PruneFailed(s.rows, before); s.(now := at, rows := t, origin := Restrict(s.origin, t))
  }

  // ----- runs

  ghost predicate Valid(c: Config, s: World, steps: seq<Step>)
    decreases |steps|
  {
    steps == [] || (Enabled(c, s, steps[0]) && Valid(c, Apply(c, s, steps[0]), steps[1..]))
  }

  ghost function Run(c: Config, s: World, steps: seq<Step>): World
    requires Valid(c, s, steps)
    decreases |steps|
  {
    if steps == [] then s else Run(c, Apply(c, s, steps[0]), steps[1..])
  }

  lemma {:induction false} RunOfConcat(c: Config, s: World, a: seq<Step>, b: seq<Step>)
    requires Valid(c, s, a) && Valid(c, Run(c, s, a), b)
    ensures Valid(c, s, a + b) && Run(c, s, a + b) == Run(c, Run(c, s, a), b)
    decreases |a|
  {
    if a == [] {
      assert a + b == b;
    } else {
      assert (a + b)[0] == a[0] && (a + b)[1..] == a[1..] + b;
      RunOfConcat(c, Apply(c, s, a[0]), a[1..], b);
    }
  }

  // ----- the invariant

  ghost predicate RowOk(c: Config, r: Row) {
    && (r.status.Sending? <==> r.claimToken != "")
    && (r.status.Sending? <==> r.claimExpiresAt.Some?)
    && (r.status.Sending? <==> r.claimedAt.Some?)
    && (r.status.Sent? <==> r.sentAt.Some?)
    && 0 <= r.attempts
    && (if r.status.Failed? then r.attempts == c.maxAttempts else r.attempts < c.maxAttempts)
  }

  ghost predicate RowsOk(c: Config, s: World) {
    && s.origin.Keys == s.rows.Keys
    && (forall i :: i in s.rows ==> RowOk(c, s.rows[i]))
    && (forall i :: i in s.rows && s.rows[i].status.Sending? ==> s.rows[i].claimToken in s.tokens)
    && (forall i :: i in s.origin ==> s.origin[i] < s.enqueued)
    && (forall i, j :: i in s.origin && j in s.origin && i != j ==> s.origin[i] != s.origin[j])
  }

  ghost predicate CycleOk(s: World, cy: Cycle) {
    && cy.next < |cy.batch| == |cy.serials|
    && cy.token != "" && cy.token in s.tokens
    && (forall k :: 0 <= k < |cy.batch| ==> cy.batch[k].claimToken == cy.token)
    && (forall k, l :: 0 <= k < l < |cy.batch| ==> cy.batch[k].id != cy.batch[l].id)
    && (forall k :: 0 <= k < |cy.serials| ==> cy.serials[k] < s.enqueued)
  }

  /** If the row still carries the worker's token, what the worker remembers of it is current. */
  ghost predicate Fresh(s: World, cy: Cycle, k: nat)
    requires k < |cy.batch| == |cy.serials|
  {
    var m := cy.batch[k];
    Owns(s.rows, m.id, cy.token) ==>
      && s.rows[m.id].attempts == m.attempts
      && s.rows[m.id].message == m.message
      && s.rows[m.id].claimExpiresAt == Some(cy.expiresAt)
      && SerialOf(s, m.id) == cy.serials[k]
  }

  /** Until the lease runs out nobody else takes the row. */
  ghost predicate Leased(s: World, cy: Cycle, k: nat)
    requires k < |cy.batch|
  {
    s.now < cy.expiresAt ==> Owns(s.rows, cy.batch[k].id, cy.token)
  }

  ghost predicate CyclesOk(s: World) {
    && (forall w :: w in s.cycles ==> CycleOk(s, s.cycles[w]))
    && (forall w, v :: w in s.cycles && v in s.cycles && w != v ==> s.cycles[w].token != s.cycles[v].token)
    && (forall w, k: nat :: w in s.cycles && s.cycles[w].next <= k < |s.cycles[w].batch| ==>
          Fresh(s, s.cycles[w], k) && Leased(s, s.cycles[w], k))
  }

  /** Some send of this row's message, made under this token, returned success. */
  ghost predicate WasDelivered(sends: seq<SendRecord>, serial: nat, id: Id, token: string) {
    exists n :: 0 <= n < |sends| && sends[n].serial == serial && sends[n].id == id && sends[n].token == token && sends[n].ok
  }

  ghost predicate SendsOk(s: World) {
    && (forall i :: i in s.rows && i in s.origin && s.rows[i].status.Sent? ==>
          s.origin[i] in s.sentUnder && WasDelivered(s.sends, s.origin[i], i, s.sentUnder[s.origin[i]]))
    && (forall w :: w in s.cycles && s.cycles[w].phase.Delivered? && s.cycles[w].next < |s.cycles[w].batch| == |s.cycles[w].serials| ==>
          var cy := s.cycles[w]; WasDelivered(s.sends, cy.serials[cy.next], cy.batch[cy.next].id, cy.token))
  }

  ghost predicate Inv(c: Config, s: World) {
    RowsOk(c, s) && CyclesOk(s) && SendsOk(s)
  }

  lemma InvInit(c: Config, now: int)
    ensures Inv(c, Init(now))
  {
  }

  lemma EnqueueKeepsInv(c: Config, s: World, st: Step)
    requires c.Valid() && Inv(c, s) && st.Enqueue? && Enabled(c, s, st)
    ensures Inv(c, Apply(c, s, st))
  {
    var s' := Apply(c, s, st);
    forall w, k: nat | w in s'.cycles && s'.cycles[w].next <= k < |s'.cycles[w].batch|
      ensures Fresh(s', s'.cycles[w], k) && Leased(s', s'.cycles[w], k)
    {
      assert Fresh(s, s.cycles[w], k) && Leased(s, s.cycles[w], k);
    }
  }

  lemma ClaimedRowIsOk(c: Config, r: Row, now: int, expiresAt: int, token: string)
    requires RowOk(c, r) && Eligible(r, now) && token != ""
    ensures RowOk(c, Claimed(r, now, expiresAt, token))
  {
  }

  lemma ClaimKeepsRows(c: Config, s: World, st: Step)
    requires c.Valid() && Inv(c, s) && st.Claim? && Enabled(c, s, st)
    ensures RowsOk(c, Apply(c, s, st))
  {
    var s' := ApplyClaim(c, s, st);
    SelectionIsFirst(s.rows, st.asOf, c.batchSize);
    forall i | i in s'.rows ensures RowOk(c, s'.rows[i]) && (s'.rows[i].status.Sending? ==> s'.rows[i].claimToken in s'.tokens) {
      assert RowOk(c, s.rows[i]);
      if i in Elems(st.order) {
        ClaimedRowIsOk(c, s.rows[i], st.asOf, st.asOf + c.claimTTL, st.token);
      }
    }
  }

  lemma ClaimStartsCycle(c: Config, s: World, st: Step)
    requires c.Valid() && Inv(c, s) && st.Claim? && Enabled(c, s, st) && st.order != []
    ensures var s' := Apply(c, s, st); st.w in s'.cycles && CycleOk(s', s'.cycles[st.w]) && s'.cycles[st.w].phase.Ready?
    ensures var s' := Apply(c, s, st); var cy := s'.cycles[st.w];
            forall k: nat :: k < |cy.batch| ==> Fresh(s', cy, k) && Leased(s', cy, k)
  {
    var s' := Apply(c, s, st);
    var cy := s'.cycles[st.w];
    SelectionIsFirst(s.rows, st.asOf, c.batchSize);
    forall k: nat | k < |cy.batch| ensures Fresh(s', cy, k) && Leased(s', cy, k) && cy.serials[k] < s.enqueued {
      assert st.order[k] in Elems(st.order);
    }
  }

  lemma ClaimKeepsCycle(c: Config, s: World, st: Step, w: int, k: nat)
    requires c.Valid() && Inv(c, s) && st.Claim? && Enabled(c, s, st)
    requires w in s.cycles && s.cycles[w].next <= k < |s.cycles[w].batch|
    ensures CycleOk(Apply(c, s, st), s.cycles[w])
    ensures Fresh(Apply(c, s, st), s.cycles[w], k) && Leased(Apply(c, s, st), s.cycles[w], k)
  {
    var cy := s.cycles[w];
    assert Fresh(s, cy, k) && Leased(s, cy, k);
    SelectionIsFirst(s.rows, st.asOf, c.batchSize);
    assert cy.batch[k].id in Elems(st.order) ==> Eligible(s.rows[cy.batch[k].id], st.asOf);
  }

  lemma ClaimKeepsSends(c: Config, s: World, st: Step)
    requires c.Valid() && Inv(c, s) && st.Claim? && Enabled(c, s, st)
    ensures SendsOk(ApplyClaim(c, s, st))
  {
  }

  /** The cycles after a claim are the ones before it and perhaps a new one, with a new token. */
  lemma CyclesAfterClaim(c: Config, s: World, st: Step, w: int)
    requires st.Claim? && Enabled(c, s, st) && w in ApplyClaim(c, s, st).cycles
    ensures var cy := ApplyClaim(c, s, st).cycles[w];
            if w in s.cycles then cy == s.cycles[w] else w == st.w && st.order != [] && cy.token == st.token && cy.next == 0
  {
  }

  lemma ClaimKeepsCycles(c: Config, s: World, st: Step)
    requires c.Valid() && Inv(c, s) && st.Claim? && Enabled(c, s, st)
    ensures CyclesOk(ApplyClaim(c, s, st))
  {
    var s' := ApplyClaim(c, s, st);
    forall w | w in s'.cycles ensures CycleOk(s', s'.cycles[w]) && (w !in s.cycles ==> s'.cycles[w].token == st.token) {
      CyclesAfterClaim(c, s, st, w);
      if w !in s.cycles {
        ClaimStartsCycle(c, s, st);
      } else {
        ClaimKeepsCycle(c, s, st, w, s.cycles[w].next);
      }
    }
    forall w, k: nat | w in s'.cycles && s'.cycles[w].next <= k < |s'.cycles[w].batch|
      ensures Fresh(s', s'.cycles[w], k) && Leased(s', s'.cycles[w], k)
    {
      CyclesAfterClaim(c, s, st, w);
      if w in s.cycles {
        ClaimKeepsCycle(c, s, st, w, k);
      } else {
        ClaimStartsCycle(c, s, st);
      }
    }
    forall w, v | w in s'.cycles && v in s'.cycles && w != v ensures s'.cycles[w].token != s'.cycles[v].token {
      CyclesAfterClaim(c, s, st, w);
      CyclesAfterClaim(c, s, st, v);
      assert w in s.cycles ==> CycleOk(s, s.cycles[w]);
      assert v in s.cycles ==> CycleOk(s, s.cycles[v]);
    }
  }

  lemma ClaimKeepsInv(c: Config, s: World, st: Step)
    requires c.Valid() && Inv(c, s) && st.Claim? && Enabled(c, s, st)
    ensures Inv(c, Apply(c, s, st))
  {
    ClaimKeepsRows(c, s, st);
    ClaimKeepsCycles(c, s, st);
    ClaimKeepsSends(c, s, st);
  }

  lemma SendKeepsInv(c: Config, s: World, st: Step)
    requires c.Valid() && Inv(c, s) && st.Send? && Enabled(c, s, st)
    ensures Inv(c, Apply(c, s, st))
  {
    var s' := Apply(c, s, st);
    forall w, k: nat | w in s'.cycles && s'.cycles[w].next <= k < |s'.cycles[w].batch|
      ensures Fresh(s', s'.cycles[w], k) && Leased(s', s'.cycles[w], k)
    {
      assert Fresh(s, s.cycles[w], k) && Leased(s, s.cycles[w], k);
    }
    MoreSendsKeepDelivered(s, s');
    assert s'.sends[|s.sends|].ok == st.ok;
  }

  lemma MoreSendsKeepDelivered(s: World, s': World)
    requires s.sends <= s'.sends
    ensures forall x: nat, i, t :: WasDelivered(s.sends, x, i, t) ==> WasDelivered(s'.sends, x, i, t)
  {
    forall x: nat, i, t | WasDelivered(s.sends, x, i, t) ensures WasDelivered(s'.sends, x, i, t) {
      var n :| 0 <= n < |s.sends| && s.sends[n].serial == x && s.sends[n].id == i && s.sends[n].token == t && s.sends[n].ok;
      assert s'.sends[n] == s.sends[n];
    }
  }

  /**
   A mark either misses the table or moves its one row: a delivered message is sent; a refused one
   has one attempt more and the truncated error, and has failed when the attempts read at the
   claim make that the last, else is due again after the retry delay. The lease is over.
   */
  lemma MarkReleases(c: Config, t: Table, m: OutboxEmail, phase: Phase, asOf: int)
    requires !phase.Ready?
    ensures var t' := MarkRows(c, t, m, phase, asOf);
            if !Owns(t, m.id, m.claimToken) then t' == t
            else
              && t'.Keys == t.Keys
              && (forall i :: i in t && i != m.id ==> t'[i] == t[i])
              && Moved(c, t[m.id], t'[m.id], m.attempts, phase, asOf)
              && (RowOk(c, t[m.id]) && t[m.id].status.Sending? && t[m.id].attempts == m.attempts ==> RowOk(c, t'[m.id]))
  {
  }

  ghost predicate Moved(c: Config, r: Row, r': Row, attemptsRead: int, phase: Phase, asOf: int) {
    && r'.message == r.message
    && r'.claimToken == "" && r'.claimedAt.None? && r'.claimExpiresAt.None?
    && match phase
       case Ready => false
       case Delivered =>
         r'.status.Sent? && r'.sentAt == Some(asOf) && r'.attempts == r.attempts && r'.lastError == r.lastError && r'.availableAt == r.availableAt
       case Refused(error) =>
         && r'.attempts == r.attempts + 1 && r'.sentAt == r.sentAt
         && (|error| <= Utf8.MAX_LAST_ERROR_LENGTH ==> r'.lastError == error)
         && (|error| > Utf8.MAX_LAST_ERROR_LENGTH ==> Utf8.IsLongestValidPrefix(r'.lastError, error, Utf8.MAX_LAST_ERROR_LENGTH))
         && (attemptsRead + 1 >= c.maxAttempts ==> r'.status.Failed? && r'.availableAt == asOf)
         && (attemptsRead + 1 < c.maxAttempts ==> r'.status.Pending? && r'.availableAt == asOf + c.retryDelay)
  }

  lemma MarkKeepsRows(c: Config, s: World, st: Step)
    requires c.Valid() && Inv(c, s) && st.Mark? && Enabled(c, s, st)
    ensures RowsOk(c, Apply(c, s, st))
  {
    var cy := s.cycles[st.w];
    var m := cy.batch[cy.next];
    assert Fresh(s, cy, cy.next);
    MarkReleases(c, s.rows, m, cy.phase, st.asOf);
    assert Apply(c, s, st).rows == MarkRows(c, s.rows, m, cy.phase, st.asOf);
  }

  /** A mark releases its own row, which the cycle then leaves behind, and no other. */
  lemma MarkKeepsCycle(c: Config, s: World, st: Step, w: int, k: nat)
    requires c.Valid() && Inv(c, s) && st.Mark? && Enabled(c, s, st)
    requires w in ApplyMark(c, s, st).cycles && ApplyMark(c, s, st).cycles[w].next <= k < |ApplyMark(c, s, st).cycles[w].batch|
    ensures var s' := ApplyMark(c, s, st);
            CycleOk(s', s'.cycles[w]) && Fresh(s', s'.cycles[w], k) && Leased(s', s'.cycles[w], k)
  {
    var cy := s.cycles[st.w];
    var m := cy.batch[cy.next];
    MarkReleases(c, s.rows, m, cy.phase, st.asOf);
    assert CycleOk(s, cy) && CycleOk(s, s.cycles[w]);
    assert Fresh(s, s.cycles[w], k) && Leased(s, s.cycles[w], k);
    assert w == st.w ==> s.cycles[w].batch[k].id != m.id;
  }

  lemma MarkKeepsCycles(c: Config, s: World, st: Step)
    requires c.Valid() && Inv(c, s) && st.Mark? && Enabled(c, s, st)
    ensures CyclesOk(Apply(c, s, st))
  {
    var s' := ApplyMark(c, s, st);
    forall w | w in s'.cycles ensures CycleOk(s', s'.cycles[w]) && w in s.cycles && s'.cycles[w].token == s.cycles[w].token {
      assert CycleOk(s, s.cycles[w]);
    }
    forall w, k: nat | w in s'.cycles && s'.cycles[w].next <= k < |s'.cycles[w].batch|
      ensures Fresh(s', s'.cycles[w], k) && Leased(s', s'.cycles[w], k)
    {
      MarkKeepsCycle(c, s, st, w, k);
    }
  }

  lemma MarkKeepsInv(c: Config, s: World, st: Step)
    requires c.Valid() && Inv(c, s) && st.Mark? && Enabled(c, s, st)
    ensures Inv(c, Apply(c, s, st))
  {
    var cy := s.cycles[st.w];
    assert Fresh(s, cy, cy.next);
    MarkReleases(c, s.rows, cy.batch[cy.next], cy.phase, st.asOf);
    MarkKeepsRows(c, s, st);
    MarkKeepsCycles(c, s, st);
  }

  lemma AbandonKeepsInv(c: Config, s: World, st: Step)
    requires c.Valid() && Inv(c, s) && st.Abandon? && Enabled(c, s, st)
    ensures Inv(c, Apply(c, s, st))
  {
    var s' := Apply(c, s, st);
    forall w, k: nat | w in s'.cycles && s'.cycles[w].next <= k < |s'.cycles[w].batch|
      ensures Fresh(s', s'.cycles[w], k) && Leased(s', s'.cycles[w], k)
    {
      assert Fresh(s, s.cycles[w], k) && Leased(s, s.cycles[w], k);
    }
  }

  lemma PruneKeepsInv(c: Config, s: World, st: Step)
    requires c.Valid() && Inv(c, s) && (st.PruneSentRows? || st.PruneFailedRows?) && Enabled(c, s, st)
    ensures Inv(c, Apply(c, s, st))
  {
    var s' := Apply(c, s, st);
    forall w, k: nat | w in s'.cycles && s'.cycles[w].next <= k < |s'.cycles[w].batch|
      ensures Fresh(s', s'.cycles[w], k) && Leased(s', s'.cycles[w], k)
    {
      assert Fresh(s, s.cycles[w], k) && Leased(s, s.cycles[w], k);
    }
  }

  /** Every step of every worker, of an enqueue and of pruning keeps the invariant. */
  lemma StepKeepsInv(c: Config, s: World, st: Step)
    requires c.Valid() && Inv(c, s) && Enabled(c, s, st)
    ensures Inv(c, Apply(c, s, st))
  {
    match st
    case Enqueue(_, _, _, _) => EnqueueKeepsInv(c, s, st);
    case Claim(_, _, _, _, _) => ClaimKeepsInv(c, s, st);
    case Send(_, _, _, _) => SendKeepsInv(c, s, st);
    case Mark(_, _, _) => MarkKeepsInv(c, s, st);
    case Abandon(_, _) => AbandonKeepsInv(c, s, st);
    case PruneSentRows(_, _) => PruneKeepsInv(c, s, st);
    case PruneFailedRows(_, _) => PruneKeepsInv(c, s, st);
  }

  lemma {:induction false} RunKeepsInv(c: Config, s: World, steps: seq<Step>)
    requires c.Valid() && Inv(c, s) && Valid(c, s, steps)
    ensures Inv(c, Run(c, s, steps))
    decreases |steps|
  {
    if steps != [] {
      StepKeepsInv(c, s, steps[0]);
      RunKeepsInv(c, Apply(c, s, steps[0]), steps[1..]);
    }
  }

  // ----- what the invariant says of every run

  ghost predicate Reachable(c: Config, s: World) {
    exists now, steps :: Valid(c, Init(now), steps) && Run(c, Init(now), steps) == s
  }

  lemma ReachableIsInv(c: Config, s: World)
    requires c.Valid() && Reachable(c, s)
    ensures Inv(c, s)
  {
    var now, steps :| Valid(c, Init(now), steps) && Run(c, Init(now), steps) == s;
    InvInit(c, now);
    RunKeepsInv(c, Init(now), steps);
  }

  /**
   A mark that finds its row acts on current data: lost claims, crashes, reclaims and reused
   rowids never let a stale snapshot through.
   */
  lemma MatchingMarkIsCurrent(c: Config, s: World, w: int)
    requires c.Valid() && Reachable(c, s) && w in s.cycles
    requires s.cycles[w].next < |s.cycles[w].batch|
    requires var m := s.cycles[w].batch[s.cycles[w].next]; Owns(s.rows, m.id, m.claimToken)
    ensures var m := s.cycles[w].batch[s.cycles[w].next];
            s.rows[m.id].status.Sending? && s.rows[m.id].attempts == m.attempts && s.rows[m.id].message == m.message
  {
    ReachableIsInv(c, s);
    assert Fresh(s, s.cycles[w], s.cycles[w].next);
  }

  /** Failed rows have used up exactly maxAttempts attempts, all other rows fewer. */
  lemma AttemptsBound(c: Config, s: World, i: Id)
    requires c.Valid() && Reachable(c, s) && i in s.rows
    ensures 0 <= s.rows[i].attempts <= c.maxAttempts
    ensures s.rows[i].status.Failed? <==> s.rows[i].attempts == c.maxAttempts
  {
    ReachableIsInv(c, s);
  }

  /** A row is marked sent only after a Send of it returned success under the token it was marked with. */
  lemma SentWasDelivered(c: Config, s: World, i: Id)
    requires c.Valid() && Reachable(c, s) && i in s.rows && s.rows[i].status.Sent?
    ensures i in s.origin && s.origin[i] in s.sentUnder
    ensures WasDelivered(s.sends, s.origin[i], i, s.sentUnder[s.origin[i]])
  {
    ReachableIsInv(c, s);
  }
}
