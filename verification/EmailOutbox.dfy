/**
 The `email_outbox` table and the statements over it, each one a function from the table
 before it to the table after it. A table maps rowids to rows; times are integers.
 */
module EmailOutbox {
  import opened Common

  type Id = int

  datatype Message = Message(from: string, to: string, subject: string, textBody: string, htmlBody: string)

  datatype Status = Pending | Sending | Sent | Failed

  datatype Row = Row(
    message: Message,
    status: Status,
    attempts: int,
    lastError: seq<byte>,
    availableAt: int,
    claimedAt: Option<int>,
    claimExpiresAt: Option<int>,
    claimToken: string,
    sentAt: Option<int>)
  {
    /** Nothing but pruning touches the row any more. */
    predicate Terminal() {
      status.Sent? || status.Failed?
    }
  }

  type Table = map<Id, Row>

  // ----- EnqueueEmail

  function NewRow(message: Message, availableAt: int): Row {
    Row(message, Pending, 0, [], availableAt, None, None, "", None)
  }

  // ----- ClaimPendingEmails

  predicate Eligible(row: Row, now: int) {
    || (row.status.Pending? && row.availableAt <= now)
    || (row.status.Sending? && row.claimExpiresAt.Some? && row.claimExpiresAt.value <= now)
  }

  function EligibleIds(t: Table, now: int): set<Id> {
    set i | i in t && Eligible(t[i], now)
  }

  /** ORDER BY available_at, id. */
  predicate Precedes(t: Table, i: Id, j: Id)
    requires i in t && j in t
  {
    t[i].availableAt < t[j].availableAt || (t[i].availableAt == t[j].availableAt && i < j)
  }

  lemma {:induction false} LeastExists(t: Table, ids: set<Id>)
    requires ids != {} && ids <= t.Keys
    ensures exists i :: i in ids && forall j :: j in ids && j != i ==> Precedes(t, i, j)
    decreases |ids|
  {
    var x := MemberOf(ids);
    var rest := ids - {x};
    if rest != {} {
      LeastExists(t, rest);
      var y :| y in rest && forall j :: j in rest && j != y ==> Precedes(t, y, j);
      var least := if Precedes(t, x, y) then x else y;
      forall j | j in ids && j != least ensures Precedes(t, least, j) {
        if j != x && j != y {
          assert j in rest && Precedes(t, y, j);
        }
      }
    } else {
      assert ids == {x};
      assert forall j :: j in ids && j != x ==> Precedes(t, x, j);
    }
  }

  function Least(t: Table, ids: set<Id>): (i: Id)
    requires ids != {} && ids <= t.Keys
    ensures i in ids && forall j :: j in ids && j != i ==> Precedes(t, i, j)
  {
    LeastExists(t, ids);
    var i :| i in ids && forall j :: j in ids && j != i ==> Precedes(t, i, j);
    i
  }

  /** ORDER BY available_at, id LIMIT limit. */
  function FirstOf(t: Table, ids: set<Id>, limit: nat): set<Id>
    requires ids <= t.Keys
  {
    if limit == 0 || ids == {} then {}
    else var i := Least(t, ids); {i} + FirstOf(t, ids - {i}, limit - 1)
  }

  function Selection(t: Table, now: int, limit: nat): set<Id> {
    FirstOf(t, EligibleIds(t, now), limit)
  }

  /** `s` holds `limit` ids of `ids`, or all if there are fewer, and they come before the rest. */
  ghost predicate IsFirst(t: Table, ids: set<Id>, limit: nat, s: set<Id>)
    requires ids <= t.Keys
  {
    && s <= ids
    && |s| == Min(limit, |ids|)
    && forall i, j :: i in s && j in ids && j !in s ==> Precedes(t, i, j)
  }

  lemma {:induction false} FirstOfIsFirst(t: Table, ids: set<Id>, limit: nat)
    requires ids <= t.Keys
    ensures IsFirst(t, ids, limit, FirstOf(t, ids, limit))
    decreases limit
  {
    if limit != 0 && ids != {} {
      var i := Least(t, ids);
      FirstOfIsFirst(t, ids - {i}, limit - 1);
      assert |ids - {i}| == |ids| - 1;
      assert i !in FirstOf(t, ids - {i}, limit - 1);
    }
  }

  /** The claim takes exactly min(limit, eligible) rows, the smallest by (available_at, id) ... */
  lemma SelectionIsFirst(t: Table, now: int, limit: nat)
    ensures IsFirst(t, EligibleIds(t, now), limit, Selection(t, now, limit))
  {
    FirstOfIsFirst(t, EligibleIds(t, now), limit);
  }

  /** ... and no other set of rows is so described. */
  lemma FirstIsUnique(t: Table, ids: set<Id>, limit: nat, a: set<Id>, b: set<Id>)
    requires ids <= t.Keys
    requires IsFirst(t, ids, limit, a) && IsFirst(t, ids, limit, b)
    ensures a == b
  {
    if b <= a {
      SubsetOfSameSize(b, a);
    } else {
      var j := MemberOutside(b, a);
      forall i | i in a ensures i in b {
        assert i !in b ==> Precedes(t, i, j) && Precedes(t, j, i);
      }
      SubsetOfSameSize(a, b);
    }
  }

  function Claimed(row: Row, now: int, expiresAt: int, token: string): Row {
    row.(status := Sending, claimedAt := Some(now), claimExpiresAt := Some(expiresAt), claimToken := token)
  }

  function ClaimRows(t: Table, ids: set<Id>, now: int, expiresAt: int, token: string): Table {
    map i | i in t :: if i in ids then Claimed(t[i], now, expiresAt, token) else t[i]
  }

  // ----- MarkEmailSent, MarkEmailFailed, MarkEmailFailedPermanently

  /** WHERE id = ? AND claim_token = ? */
  predicate Owns(t: Table, id: Id, token: string) {
    id in t && t[id].claimToken == token
  }

  function Released(row: Row): Row {
    row.(claimedAt := None, claimExpiresAt := None, claimToken := "")
  }

  function MarkSent(t: Table, id: Id, token: string, sentAt: int): Table {
    if Owns(t, id, token) then t[id := Released(t[id]).(status := Sent, sentAt := Some(sentAt))] else t
  }

  function MarkFailed(t: Table, id: Id, token: string, lastError: seq<byte>, availableAt: int): Table {
    if Owns(t, id, token) then
      t[id := Released(t[id]).(status := Pending, attempts := t[id].attempts + 1, lastError := lastError,
                               availableAt := availableAt)]
    else t
  }

  function MarkFailedPermanently(t: Table, id: Id, token: string, lastError: seq<byte>, failedAt: int): Table {
    if Owns(t, id, token) then
      t[id := Released(t[id]).(status := Failed, attempts := t[id].attempts + 1, lastError := lastError,
                               availableAt := failedAt)]
    else t
  }

  // ----- PruneSentEmailOutboxRows, PruneFailedEmailOutboxRows

  predicate SentBefore(row: Row, before: int) {
    row.status.Sent? && row.sentAt.Some? && row.sentAt.value <= before
  }

  predicate FailedBefore(row: Row, before: int) {
    row.status.Failed? && row.availableAt <= before
  }

  function PruneSent(t: Table, before: int): Table {
    map i | i in t && !SentBefore(t[i], before) :: t[i]
  }

  function PruneFailed(t: Table, before: int): Table {
    map i | i in t && !FailedBefore(t[i], before) :: t[i]
  }
}
