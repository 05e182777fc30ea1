/** The periodic cleanup job: six pruning statements in order, stopping at the first that fails. */
module CleanupJob {
  import opened Common
  import opened Accounts
  import opened AccountsCleanup
  import opened EmailOutbox
  import OutboxProtocol
  import OutboxPruning
  import OutboxDelivery
  import OutboxWorker

  datatype Options = Options(tokenRetention: int, sentEmailRetention: int, failedEmailRetention: int)

  const STATEMENTS := 6

  /** The account tables after the first `n` statements of a run that starts at `now`. */
  function AccountsAfter(t: Tables, n: nat, now: int, o: Options): Tables {
    var consumedBefore := now - o.tokenRetention;
    t.(sessions := if n >= 1 then PrunedSessions(t.sessions, now) else t.sessions,
       resets := if n >= 2 then PrunedTokens(t.resets, now, consumedBefore) else t.resets,
       verifications := if n >= 3 then PrunedTokens(t.verifications, now, consumedBefore) else t.verifications,
       changes := if n >= 4 then PrunedChanges(t.changes, now, consumedBefore) else t.changes)
  }

  lemma AccountsAfterFour(t: Tables, n: nat, now: int, o: Options)
    requires n >= 4
    ensures AccountsAfter(t, n, now, o) == AccountsAfter(t, 4, now, o)
  {
  }

  /** What the two statements on the outbox leave; `SentIsStep` and `FailedIsStep` make them protocol steps. */
  ghost function SentPruned(w: OutboxProtocol.World, before: int): OutboxProtocol.World {
    var t := PruneSent(w.rows, before);
    w.(rows := t, origin := OutboxProtocol.Restrict(w.origin, t))
  }

  ghost function FailedPruned(w: OutboxProtocol.World, before: int): OutboxProtocol.World {
    var t := PruneFailed(w.rows, before);
    w.(rows := t, origin := OutboxProtocol.Restrict(w.origin, t))
  }

  /** The outbox after the first `n` statements of a run. */
  ghost function Pruned(w: OutboxProtocol.World, n: nat, now: int, o: Options): OutboxProtocol.World {
    if n < 5 then w
    else if n == 5 then SentPruned(w, now - o.sentEmailRetention)
    else FailedPruned(SentPruned(w, now - o.sentEmailRetention), now - o.failedEmailRetention)
  }

  lemma SentIsStep(c: OutboxProtocol.Config, w: OutboxProtocol.World, before: int)
    ensures OutboxProtocol.Enabled(c, w, OutboxProtocol.PruneSentRows(w.now, before))
    ensures OutboxProtocol.Apply(c, w, OutboxProtocol.PruneSentRows(w.now, before)) == SentPruned(w, before)
  {
  }

  lemma FailedIsStep(c: OutboxProtocol.Config, w: OutboxProtocol.World, before: int)
    ensures OutboxProtocol.Enabled(c, w, OutboxProtocol.PruneFailedRows(w.now, before))
    ensures OutboxProtocol.Apply(c, w, OutboxProtocol.PruneFailedRows(w.now, before)) == FailedPruned(w, before)
  {
  }

  /** Of the first `limit` statements, the first `n` are carried out and the next is not. */
  predicate StopsAfter(answers: seq<bool>, n: nat, limit: nat)
    requires limit <= |answers|
  {
    n <= limit && (n < limit ==> !answers[n]) && forall k :: 0 <= k < n ==> answers[k]
  }

  /** The rows of the account tables the job prunes. */
  function RowCount(t: Tables): nat {
    |t.sessions| + |t.resets| + |t.verifications| + |t.changes|
  }

  class CleanupStore {
    const accounts: AuthStore
    const outbox: OutboxWorker.EmailOutboxStore

    constructor (accounts: AuthStore, outbox: OutboxWorker.EmailOutboxStore)
      ensures this.accounts == accounts && this.outbox == outbox
    {
      this.accounts := accounts;
      this.outbox := outbox;
    }

    /** In each method `answer` is whether the database carries the DELETE out. */
    method DeleteExpiredSessions(expiredBefore: int, answer: bool) returns (r: Result<int>)
      modifies accounts
      ensures r.Ok? <==> answer
      ensures !answer ==> accounts.tables == old(accounts.tables)
      ensures answer ==>
                && accounts.tables == old(accounts.tables).(sessions := PrunedSessions(old(accounts.tables).sessions, expiredBefore))
                && r.value == |old(accounts.tables).sessions| - |accounts.tables.sessions|
    {
      if !answer {
        return Err("database");
      }
      var before := accounts.tables.sessions;
      accounts.tables := accounts.tables.(sessions := PrunedSessions(before, expiredBefore));
      return Ok(|before| - |accounts.tables.sessions|);
    }

    method PrunePasswordResetTokens(expiredBefore: int, consumedBefore: int, answer: bool) returns (r: Result<int>)
      modifies accounts
      ensures r.Ok? <==> answer
      ensures !answer ==> accounts.tables == old(accounts.tables)
      ensures answer ==>
                && accounts.tables == old(accounts.tables).(resets := PrunedTokens(old(accounts.tables).resets, expiredBefore, consumedBefore))
                && r.value == |old(accounts.tables).resets| - |accounts.tables.resets|
    {
      if !answer {
        return Err("database");
      }
      var before := accounts.tables.resets;
      accounts.tables := accounts.tables.(resets := PrunedTokens(before, expiredBefore, consumedBefore));
      return Ok(|before| - |accounts.tables.resets|);
    }

    method PruneEmailVerificationTokens(expiredBefore: int, consumedBefore: int, answer: bool) returns (r: Result<int>)
      modifies accounts
      ensures r.Ok? <==> answer
      ensures !answer ==> accounts.tables == old(accounts.tables)
      ensures answer ==>
                && accounts.tables == old(accounts.tables).(verifications := PrunedTokens(old(accounts.tables).verifications, expiredBefore, consumedBefore))
                && r.value == |old(accounts.tables).verifications| - |accounts.tables.verifications|
    {
      if !answer {
        return Err("database");
      }
      var before := accounts.tables.verifications;
      accounts.tables := accounts.tables.(verifications := PrunedTokens(before, expiredBefore, consumedBefore));
      return Ok(|before| - |accounts.tables.verifications|);
    }

    method PruneEmailChangeTokens(expiredBefore: int, consumedBefore: int, answer: bool) returns (r: Result<int>)
      modifies accounts
      ensures r.Ok? <==> answer
      ensures !answer ==> accounts.tables == old(accounts.tables)
      ensures answer ==>
                && accounts.tables == old(accounts.tables).(changes := PrunedChanges(old(accounts.tables).changes, expiredBefore, consumedBefore))
                && r.value == |old(accounts.tables).changes| - |accounts.tables.changes|
    {
      if !answer {
        return Err("database");
      }
      var before := accounts.tables.changes;
      accounts.tables := accounts.tables.(changes := PrunedChanges(before, expiredBefore, consumedBefore));
      return Ok(|before| - |accounts.tables.changes|);
    }

    method PruneSentEmailOutboxRows(ghost c: OutboxProtocol.Config, sentBefore: int, answer: bool) returns (r: Result<int>)
      requires outbox.Current()
      modifies outbox
      ensures outbox.Current() && (r.Ok? <==> answer)
      ensures !answer ==> outbox.world == old(outbox.world)
      ensures answer ==> outbox.world == SentPruned(old(outbox.world), sentBefore)
      ensures r.Ok? ==> r.value == |old(outbox.rows)| - |outbox.rows|
    {
      if !answer {
        return Err("database");
      }
      var before := outbox.rows;
      outbox.rows := PruneSent(before, sentBefore);
      SentIsStep(c, outbox.world, sentBefore);
      outbox.Take(c, OutboxProtocol.PruneSentRows(outbox.world.now, sentBefore));
      return Ok(|before| - |outbox.rows|);
    }

    method PruneFailedEmailOutboxRows(ghost c: OutboxProtocol.Config, failedBefore: int, answer: bool) returns (r: Result<int>)
      requires outbox.Current()
      modifies outbox
      ensures outbox.Current() && (r.Ok? <==> answer)
      ensures !answer ==> outbox.world == old(outbox.world)
      ensures answer ==> outbox.world == FailedPruned(old(outbox.world), failedBefore)
      ensures r.Ok? ==> r.value == |old(outbox.rows)| - |outbox.rows|
    {
      if !answer {
        return Err("database");
      }
      var before := outbox.rows;
      outbox.rows := PruneFailed(before, failedBefore);
      FailedIsStep(c, outbox.world, failedBefore);
      outbox.Take(c, OutboxProtocol.PruneFailedRows(outbox.world.now, failedBefore));
      return Ok(|before| - |outbox.rows|);
    }
  }

  class Job {
    const store: CleanupStore
    const options: Options

    constructor (store: CleanupStore, options: Options)
      ensures this.store == store && this.options == options
    {
      this.store := store;
      this.options := options;
    }

    /** `answers[k]`: whether the k-th statement is carried out; `done`: how many were. */
    method Run(ghost c: OutboxProtocol.Config, now: int, answers: seq<bool>) returns (r: Result<int>, ghost done: nat)
      requires |answers| == STATEMENTS && store.outbox.Current()
      modifies store.accounts, store.outbox
      ensures StopsAfter(answers, done, STATEMENTS) && (r.Ok? <==> done == STATEMENTS)
      ensures store.accounts.tables == AccountsAfter(old(store.accounts.tables), done, now, options)
      ensures store.outbox.Current() && store.outbox.world == Pruned(old(store.outbox.world), done, now, options)
      ensures c.Valid() && old(store.outbox.Valid(c)) ==> store.outbox.Valid(c)
      ensures r.Ok? ==>
                r.value == RowCount(old(store.accounts.tables)) + |old(store.outbox.rows)| - RowCount(store.accounts.tables) - |store.outbox.rows|
    {
      r, done := PruneSessionsAndTokens(now, answers);
      if r.Err? {
        return;
      }
      var total := r.value;
      r, done := PruneOutbox(c, now, answers[4], answers[5]);
      PrunedKeepsInv(c, old(store.outbox.world), now, options, done);
      AccountsAfterFour(old(store.accounts.tables), done, now, options);
      if r.Ok? {
        r := Ok(total + r.value);
      }
    }

    /** The last two statements of a run. */
    method PruneOutbox(ghost c: OutboxProtocol.Config, now: int, sentAnswer: bool, failedAnswer: bool)
      returns (r: Result<int>, ghost done: nat)
      requires store.outbox.Current()
      modifies store.outbox
      ensures done == (if !sentAnswer then 4 else if !failedAnswer then 5 else STATEMENTS) && (r.Ok? <==> done == STATEMENTS)
      ensures store.outbox.Current() && store.outbox.world == Pruned(old(store.outbox.world), done, now, options)
      ensures r.Ok? ==> r.value == |old(store.outbox.rows)| - |store.outbox.rows|
    {
      done := 4;
      r := store.PruneSentEmailOutboxRows(c, now - options.sentEmailRetention, sentAnswer);
      if r.Err? {
        return;
      }
      var total := r.value;
      done := 5;
      r := store.PruneFailedEmailOutboxRows(c, now - options.failedEmailRetention, failedAnswer);
      if r.Err? {
        return;
      }
      done := STATEMENTS;
      r := Ok(total + r.value);
    }

    /** The first four statements of a run. */
    method PruneSessionsAndTokens(now: int, answers: seq<bool>) returns (r: Result<int>, ghost done: nat)
      requires |answers| == STATEMENTS
      modifies store.accounts
      ensures StopsAfter(answers, done, 4) && (r.Ok? <==> done == 4)
      ensures store.accounts.tables == AccountsAfter(old(store.accounts.tables), done, now, options)
      ensures r.Ok? ==> r.value == RowCount(old(store.accounts.tables)) - RowCount(store.accounts.tables)
    {
      var tokenConsumedBefore := now - options.tokenRetention;
      done := 0;
      r := store.DeleteExpiredSessions(now, answers[0]);
      if r.Err? {
        return;
      }
      var total := r.value;
      done := 1;
      r := store.PrunePasswordResetTokens(now, tokenConsumedBefore, answers[1]);
      if r.Err? {
        return;
      }
      total, done := total + r.value, 2;
      r := store.PruneEmailVerificationTokens(now, tokenConsumedBefore, answers[2]);
      if r.Err? {
        return;
      }
      total, done := total + r.value, 3;
      r := store.PruneEmailChangeTokens(now, tokenConsumedBefore, answers[3]);
      if r.Err? {
        return;
      }
      total, done := total + r.value, 4;
      r := Ok(total);
    }
  }

  /**
   However far a run of the job gets, it leaves accounts that no later call, and an outbox that no
   worker, can tell from the unpruned ones.
   */
  lemma JobIsUnobservable(
    f: Tables, p: Tables, c: OutboxProtocol.Config, u: OutboxProtocol.World, w: OutboxProtocol.World, now: int, o: Options, n: nat)
    requires SameButPruned(f, p, now) && OutboxPruning.SameUpToNames(u, w)
    ensures SameButPruned(f, AccountsAfter(p, n, now, o), now) && OutboxPruning.SameUpToNames(u, Pruned(w, n, now, o))
  {
    forall h ensures SameAt(f, AccountsAfter(p, n, now, o), now, h) {
      assert SameAt(f, p, now, h);
    }
    PrunedIsRun(c, w, n, now, o);
    PrunesStaySame(c, u, w, OutboxSteps(w.now, n, now, o));
  }

  /** Those of the first `n` statements that are on the outbox. */
  function OutboxSteps(at: int, n: nat, now: int, o: Options): (steps: seq<OutboxProtocol.Step>)
    ensures forall k :: 0 <= k < |steps| ==> (steps[k].PruneSentRows? || steps[k].PruneFailedRows?) && steps[k].at == at
  {
    var sent, failed := OutboxProtocol.PruneSentRows(at, now - o.sentEmailRetention), OutboxProtocol.PruneFailedRows(at, now - o.failedEmailRetention);
    if n < 5 then [] else if n == 5 then [sent] else [sent, failed]
  }

  lemma PrunedIsRun(c: OutboxProtocol.Config, w: OutboxProtocol.World, n: nat, now: int, o: Options)
    ensures var steps := OutboxSteps(w.now, n, now, o);
            OutboxProtocol.Valid(c, w, steps) && OutboxProtocol.Run(c, w, steps) == Pruned(w, n, now, o)
  {
    var sent, failed := OutboxProtocol.PruneSentRows(w.now, now - o.sentEmailRetention), OutboxProtocol.PruneFailedRows(w.now, now - o.failedEmailRetention);
    if n >= 5 {
      SentIsStep(c, w, now - o.sentEmailRetention);
      OutboxWorker.RunOfOne(c, w, sent);
    }
    if n > 5 {
      FailedIsStep(c, SentPruned(w, now - o.sentEmailRetention), now - o.failedEmailRetention);
      OutboxDelivery.RunOfTwo(c, w, sent, failed);
    }
  }

  lemma {:induction false} PrunesStaySame(c: OutboxProtocol.Config, u: OutboxProtocol.World, w: OutboxProtocol.World, steps: seq<OutboxProtocol.Step>)
    requires OutboxPruning.SameUpToNames(u, w)
    requires forall k :: 0 <= k < |steps| ==> (steps[k].PruneSentRows? || steps[k].PruneFailedRows?) && steps[k].at == w.now
    ensures OutboxProtocol.Valid(c, w, steps) && OutboxPruning.SameUpToNames(u, OutboxProtocol.Run(c, w, steps))
    decreases |steps|
  {
    if steps != [] {
      OutboxPruning.PruningStaysUnobservable(c, u, w, steps[0]);
      PrunesStaySame(c, u, OutboxProtocol.Apply(c, w, steps[0]), steps[1..]);
    }
  }

  /** The store can serve workers after the job as before it. */
  lemma PrunedKeepsInv(c: OutboxProtocol.Config, w: OutboxProtocol.World, now: int, o: Options, n: nat)
    ensures c.Valid() && OutboxProtocol.Inv(c, w) ==> OutboxProtocol.Inv(c, Pruned(w, n, now, o))
  {
    if c.Valid() && OutboxProtocol.Inv(c, w) {
      PrunedIsRun(c, w, n, now, o);
      OutboxProtocol.RunKeepsInv(c, w, OutboxSteps(w.now, n, now, o));
    }
  }

  /** The token can still be used, or it was used and its retention is not over. */
  predicate Wanted(expiresAt: int, consumedAt: Option<int>, now: int, o: Options) {
    expiresAt > now && (consumedAt.Some? ==> now < consumedAt.value + o.tokenRetention)
  }

  /** When a row was sent, or failed for the last time. */
  function FinishedAt(row: Row): Option<int> {
    if row.status.Failed? then Some(row.availableAt) else row.sentAt
  }

  function RetentionOf(row: Row, o: Options): int {
    if row.status.Failed? then o.failedEmailRetention else o.sentEmailRetention
  }

  /**
   A complete run keeps, unchanged, exactly the live sessions, the tokens that are usable or
   recently used, and the messages that are unfinished or recently finished.
   */
  lemma CompleteRun(t: Tables, c: OutboxProtocol.Config, w: OutboxProtocol.World, now: int, o: Options)
    requires OutboxProtocol.Inv(c, w)
    ensures var t', rows' := AccountsAfter(t, STATEMENTS, now, o), Pruned(w, STATEMENTS, now, o).rows;
            && t'.users == t.users && t'.mails == t.mails
            && (forall u, at :: now <= at ==> ActiveSessions(t', u, at) == ActiveSessions(t, u, at))
            && (forall h :: h in t'.sessions <==> h in t.sessions && h in ActiveSessions(t, t.sessions[h].userID, now))
            && (forall h :: h in t'.resets <==> h in t.resets && Wanted(t.resets[h].expiresAt, t.resets[h].consumedAt, now, o))
            && (forall h :: h in t'.verifications <==> h in t.verifications && Wanted(t.verifications[h].expiresAt, t.verifications[h].consumedAt, now, o))
            && (forall h :: h in t'.changes <==> h in t.changes && Wanted(t.changes[h].expiresAt, t.changes[h].consumedAt, now, o))
            && (forall h :: h in t'.resets ==> t'.resets[h] == t.resets[h])
            && (forall h :: h in t'.verifications ==> t'.verifications[h] == t.verifications[h])
            && (forall h :: h in t'.changes ==> t'.changes[h] == t.changes[h])
            && (forall i :: i in rows' <==>
                  i in w.rows && (w.rows[i].Terminal() ==> now < FinishedAt(w.rows[i]).value + RetentionOf(w.rows[i], o)))
            && (forall i :: i in rows' ==> rows'[i] == w.rows[i])
  {
    KeptSessions(t, now, o);
    KeptMessages(c, w, now, o);
  }

  lemma KeptSessions(t: Tables, now: int, o: Options)
    ensures var t' := AccountsAfter(t, STATEMENTS, now, o);
            && (forall u, at :: now <= at ==> ActiveSessions(t', u, at) == ActiveSessions(t, u, at))
            && (forall h :: h in t'.sessions <==> h in t.sessions && h in ActiveSessions(t, t.sessions[h].userID, now))
  {
  }

  lemma KeptMessages(c: OutboxProtocol.Config, w: OutboxProtocol.World, now: int, o: Options)
    requires OutboxProtocol.Inv(c, w)
    ensures var rows' := Pruned(w, STATEMENTS, now, o).rows;
            && (forall i :: i in rows' <==>
                  i in w.rows && (w.rows[i].Terminal() ==> now < FinishedAt(w.rows[i]).value + RetentionOf(w.rows[i], o)))
            && (forall i :: i in rows' ==> rows'[i] == w.rows[i])
  {
    forall i | i in w.rows ensures OutboxProtocol.RowOk(c, w.rows[i]) {
    }
  }

  /** A run that stops early has done the statements before in full, in this order, and the others not at all. */
  lemma PartialRun(t: Tables, w: OutboxProtocol.World, now: int, o: Options, n: nat)
    ensures var t', all := AccountsAfter(t, n, now, o), AccountsAfter(t, STATEMENTS, now, o);
            && t'.users == t.users && t'.mails == t.mails
            && t'.sessions == (if n >= 1 then all.sessions else t.sessions)
            && t'.resets == (if n >= 2 then all.resets else t.resets)
            && t'.verifications == (if n >= 3 then all.verifications else t.verifications)
            && t'.changes == (if n >= 4 then all.changes else t.changes)
    ensures n < 5 ==> Pruned(w, n, now, o) == w
    ensures n == 5 ==> forall i :: i in Pruned(w, n, now, o).rows <==>
              i in w.rows && (w.rows[i].status.Sent? && w.rows[i].sentAt.Some? ==> now < w.rows[i].sentAt.value + o.sentEmailRetention)
    ensures n == 5 ==> forall i :: i in Pruned(w, n, now, o).rows ==> Pruned(w, n, now, o).rows[i] == w.rows[i]
  {
  }
}
