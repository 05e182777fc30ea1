/**
 What cleanup removes from the account tables cannot be observed: run with and without it, every
 later call gets the same reply, with one exception that is given exactly.
 */
module AccountsCleanup {
  import opened Common
  import opened Accounts

  predicate IsPrune(c: Call) {
    c.PruneSessions? || c.PruneResets? || c.PruneVerifications? || c.PruneChanges?
  }

  /** The clock a call reads; those that read none can come at any time. */
  function TimeOf(c: Call, now: int): int {
    match c
    case VerifyEmail(_, at) => at
    case ConfirmChange(_, at, _, _, _) => at
    case ValidateReset(_, at) => at
    case ConsumeReset(_, at) => at
    case CreateSession(_, _, _, _, at) => at
    case LookupSession(_, at) => at
    case ListSessions(_, at) => at
    case RevokeByID(_, _, _, at) => at
    case PruneSessions(expiredBefore) => expiredBefore
    case PruneResets(expiredBefore, _) => expiredBefore
    case PruneVerifications(expiredBefore, _) => expiredBefore
    case PruneChanges(expiredBefore, _) => expiredBefore
    case _ => now
  }

  predicate InTimeOrder(now: int, calls: seq<Call>)
    decreases |calls|
  {
    calls == [] || (now <= TimeOf(calls[0], now) && InTimeOrder(TimeOf(calls[0], now), calls[1..]))
  }

  function EndOf(now: int, calls: seq<Call>): int
    decreases |calls|
  {
    if calls == [] then now else EndOf(TimeOf(calls[0], now), calls[1..])
  }

  function Run(t: Tables, calls: seq<Call>): Tables
    decreases |calls|
  {
    if calls == [] then t else Run(Apply(t, calls[0]).0, calls[1..])
  }

  function WithoutPruning(calls: seq<Call>): seq<Call>
    decreases |calls|
  {
    if calls == [] then []
    else if IsPrune(calls[0]) then WithoutPruning(calls[1..])
    else [calls[0]] + WithoutPruning(calls[1..])
  }

  /** A new hash is one the table never held, pruned or not. */
  predicate FreshHash(t: Tables, c: Call) {
    match c
    case Register(_, _, _, hash, _, _) => hash !in t.verifications
    case Resend(_, _, hash, _, _) => hash !in t.verifications
    case RequestChange(_, _, hash, _, _) => hash !in t.changes
    case RequestReset(_, _, hash, _, _) => hash !in t.resets
    case CreateSession(_, hash, _, _, _) => hash !in t.sessions
    case _ => true
  }

  predicate FreshHashes(t: Tables, calls: seq<Call>)
    decreases |calls|
  {
    calls == [] || (FreshHash(t, calls[0]) && FreshHashes(Apply(t, calls[0]).0, calls[1..]))
  }

  // ----- the relation

  /** `p` may lack a token of `f` that is expired at `now` or consumed; otherwise they agree on it. */
  predicate SameToken(f: map<string, Token>, p: map<string, Token>, now: int, h: string) {
    if h in p then h in f && p[h] == f[h]
    else h in f ==> f[h].expiresAt <= now || f[h].consumedAt.Some?
  }

  predicate SameChange(f: map<string, ChangeToken>, p: map<string, ChangeToken>, now: int, h: string) {
    if h in p then h in f && p[h] == f[h]
    else h in f ==> f[h].expiresAt <= now || f[h].consumedAt.Some?
  }

  predicate SameSession(f: map<string, Session>, p: map<string, Session>, now: int, h: string) {
    if h in p then h in f && p[h] == f[h] else h in f ==> f[h].expiresAt <= now
  }

  predicate SameAt(f: Tables, p: Tables, now: int, h: string) {
    && SameToken(f.verifications, p.verifications, now, h)
    && SameToken(f.resets, p.resets, now, h)
    && SameChange(f.changes, p.changes, now, h)
    && SameSession(f.sessions, p.sessions, now, h)
  }

  ghost predicate SameButPruned(f: Tables, p: Tables, now: int) {
    && f.users == p.users && f.mails == p.mails
    && forall h :: SameAt(f, p, now, h)
  }

  /** There is such a session to revoke, but every one has expired and is gone. */
  ghost predicate TargetPruned(f: Tables, p: Tables, c: Call) {
    && c.RevokeByID? && c.id > 0
    && (exists h :: Revocable(f, c.u, c.id, c.hash, h))
    && forall h :: Revocable(f, c.u, c.id, c.hash, h) ==> f.sessions[h].expiresAt <= c.at && h !in p.sessions
  }

  // ----- one call

  /** The token a call names; a call that names none cannot tell the difference. */
  function HashOf(c: Call): string {
    match c
    case VerifyEmail(hash, _) => hash
    case ConfirmChange(hash, _, _, _, _) => hash
    case ConsumeReset(hash, _) => hash
    case _ => ""
  }

  /** The two tables before call `c`, as far as every lemma on one row needs them. */
  predicate Related(f: Tables, p: Tables, now: int, c: Call) {
    && f.users == p.users && f.mails == p.mails && now <= TimeOf(c, now) && !IsPrune(c)
    && FreshHash(f, c) && FreshHash(p, c) && SameAt(f, p, now, HashOf(c))
  }

  predicate OnSessions(c: Call) {
    c.CreateSession? || c.LookupSession? || c.ListSessions? || c.Logout? || c.RevokeOthers? || c.RevokeByID?
  }

  /** The same token inserted on both sides makes no difference ... */
  lemma SameInserted(f: map<string, Token>, p: map<string, Token>, now: int, hash: string, k: Token, h: string)
    requires SameToken(f, p, now, h)
    ensures SameToken(f[hash := k], p[hash := k], now, h)
  {
  }

  /** ... whichever call inserts it. */
  predicate InsertsToken(c: Call) {
    c.Register? || c.Resend? || c.RequestReset?
  }

  lemma TokenCallsKeepTheRest(t: Tables, c: Call)
    requires InsertsToken(c)
    ensures var (t', r) := Apply(t, c);
            && t'.changes == t.changes && t'.sessions == t.sessions
            && (r.Done? && c.RequestReset? ==> t'.verifications == t.verifications && t'.resets == t.resets[c.hash := Token(c.u, c.expiresAt, None)])
            && (r.Done? && !c.RequestReset? ==> t'.resets == t.resets && t'.verifications == t.verifications[c.hash := Token(c.u, c.expiresAt, None)])
            && (!r.Done? ==> t' == t)
  {
  }

  lemma SameIssueReply(f: Tables, p: Tables, c: Call)
    requires f.users == p.users && FreshHash(f, c) && FreshHash(p, c)
    requires InsertsToken(c) || c.RequestChange?
    ensures Apply(f, c).1 == Apply(p, c).1
  {
  }

  function MailOf(c: Call): Mail
    requires InsertsToken(c) || c.RequestChange?
  {
    match c
    case RequestChange(_, email, hash, _, _) => ChangeVerification(email, hash)
    case RequestReset(_, email, hash, _, _) => ResetLink(email, hash)
    case _ => Confirmation(c.email, c.hash)
  }

  lemma IssueMails(t: Tables, c: Call)
    requires InsertsToken(c) || c.RequestChange?
    ensures var (t', r) := Apply(t, c);
            && t'.users == (if r.Done? && c.Register? then t.users[c.u := User(c.email, c.passwordHash, None)] else t.users)
            && t'.mails == t.mails + (if r.Done? then {MailOf(c)} else {})
  {
  }

  lemma SameIssue(f: Tables, p: Tables, c: Call)
    requires f.users == p.users && f.mails == p.mails && FreshHash(f, c) && FreshHash(p, c)
    requires InsertsToken(c) || c.RequestChange?
    ensures Apply(f, c).1 == Apply(p, c).1 && Apply(f, c).0.users == Apply(p, c).0.users && Apply(f, c).0.mails == Apply(p, c).0.mails
  {
    SameIssueReply(f, p, c);
    IssueMails(f, c);
    IssueMails(p, c);
  }

  lemma StillInserts(f: Tables, p: Tables, now: int, c: Call, h: string)
    requires InsertsToken(c) && f.users == p.users && f.mails == p.mails && SameAt(f, p, now, h)
    requires FreshHash(f, c) && FreshHash(p, c)
    ensures SameAt(Apply(f, c).0, Apply(p, c).0, now, h)
  {
    SameIssue(f, p, c);
    TokenCallsKeepTheRest(f, c);
    TokenCallsKeepTheRest(p, c);
    if Apply(f, c).1.Done? {
      SameInserted(f.verifications, p.verifications, now, c.hash, Token(c.u, c.expiresAt, None), h);
      SameInserted(f.resets, p.resets, now, c.hash, Token(c.u, c.expiresAt, None), h);
    }
  }

  lemma StillRequestsChange(f: Tables, p: Tables, now: int, c: Call, h: string)
    requires c.RequestChange? && f.users == p.users && f.mails == p.mails && SameAt(f, p, now, h)
    requires FreshHash(f, c) && FreshHash(p, c)
    ensures SameAt(Apply(f, c).0, Apply(p, c).0, now, h)
  {
    SameIssue(f, p, c);
    var f', p' := Apply(f, c).0, Apply(p, c).0;
    if Apply(f, c).1.Done? {
      var k := ChangeToken(c.u, c.email, c.expiresAt, None);
      assert f' == f.(changes := f.changes[c.hash := k], mails := f'.mails);
      assert p' == p.(changes := p.changes[c.hash := k], mails := p'.mails);
    } else {
      assert f' == f && p' == p;
    }
  }

  lemma SessionCallsKeepTheRest(t: Tables, c: Call)
    requires OnSessions(c)
    ensures Apply(t, c).0 == t.(sessions := Apply(t, c).0.sessions)
  {
  }

  /** Whether a call that creates no session leaves this one. */
  predicate LeavesSession(c: Call, h: string, k: Session) {
    match c
    case Logout(hash) => h != hash
    case RevokeOthers(u, hash) => k.userID != u || h == hash
    case RevokeByID(u, id, hash, _) => id <= 0 || k.id != id || k.userID != u || h == hash
    case _ => true
  }

  lemma SessionsLeft(t: Tables, c: Call, h: string)
    requires OnSessions(c) && !c.CreateSession?
    ensures var left := Apply(t, c).0.sessions;
            && (h in left <==> h in t.sessions && LeavesSession(c, h, t.sessions[h]))
            && (h in left ==> left[h] == t.sessions[h])
  {
  }

  lemma StillSession(f: Tables, p: Tables, now: int, c: Call, h: string)
    requires OnSessions(c) && SameSession(f.sessions, p.sessions, now, h) && f.users == p.users
    requires FreshHash(f, c) && FreshHash(p, c)
    ensures SameSession(Apply(f, c).0.sessions, Apply(p, c).0.sessions, now, h)
  {
    if c.CreateSession? {
      StillCreates(f, p, now, c, h);
    } else {
      SessionsLeft(f, c, h);
      SessionsLeft(p, c, h);
    }
  }

  lemma StillCreates(f: Tables, p: Tables, now: int, c: Call, h: string)
    requires c.CreateSession? && SameSession(f.sessions, p.sessions, now, h) && f.users == p.users
    requires FreshHash(f, c) && FreshHash(p, c)
    ensures SameSession(Apply(f, c).0.sessions, Apply(p, c).0.sessions, now, h)
  {
  }

  lemma StillOnSessions(f: Tables, p: Tables, now: int, c: Call, h: string)
    requires Related(f, p, now, c) && OnSessions(c) && SameAt(f, p, now, h)
    ensures Apply(f, c).0.users == Apply(p, c).0.users && Apply(f, c).0.mails == Apply(p, c).0.mails
    ensures SameAt(Apply(f, c).0, Apply(p, c).0, TimeOf(c, now), h)
  {
    SessionCallsKeepTheRest(f, c);
    SessionCallsKeepTheRest(p, c);
    SameAtLater(f, p, now, TimeOf(c, now), h);
    StillSession(f, p, TimeOf(c, now), c, h);
  }

  lemma StillOnUser(f: Tables, p: Tables, now: int, c: Call, h: string)
    requires Related(f, p, now, c) && (c.SetPassword? || c.DeleteAccount?) && SameAt(f, p, now, h)
    ensures Apply(f, c).0.users == Apply(p, c).0.users && Apply(f, c).0.mails == Apply(p, c).0.mails
    ensures SameAt(Apply(f, c).0, Apply(p, c).0, TimeOf(c, now), h)
  {
  }

  lemma StillConfirm(f: Tables, p: Tables, c: Call, h: string)
    requires c.ConfirmChange? && f.users == p.users && f.mails == p.mails && SameAt(f, p, c.at, c.hash) && SameAt(f, p, c.at, h)
    ensures var f', p' := Apply(f, c).0, Apply(p, c).0;
            f'.users == p'.users && f'.mails == p'.mails && SameAt(f', p', c.at, h)
  {
    assert Confirms(f, c) == Confirms(p, c) by {
      assert SameChange(f.changes, p.changes, c.at, c.hash);
    }
    if Confirms(f, c) {
      Confirmed(f, c);
      Confirmed(p, c);
      SameWithoutSessions(f, p, c.at, f.changes[c.hash].userID, h);
    } else {
      NotConfirmed(f, c);
      NotConfirmed(p, c);
    }
  }

  /** The clock moving on makes no difference ... */
  lemma SameAtLater(f: Tables, p: Tables, now: int, later: int, h: string)
    requires SameAt(f, p, now, h) && now <= later
    ensures SameAt(f, p, later, h)
  {
  }

  /** ... nor does a user losing every session. */
  lemma SameWithoutSessions(f: Tables, p: Tables, now: int, u: int, h: string)
    requires SameSession(f.sessions, p.sessions, now, h)
    ensures SameSession(WithoutSessions(f, u).sessions, WithoutSessions(p, u).sessions, now, h)
  {
  }

  ghost predicate Confirms(t: Tables, c: Call)
    requires c.ConfirmChange?
  {
    Confirmable(t, c.hash, c.at, c.notice, c.builds, c.commits)
  }

  /** The tables after a confirmation that succeeds. */
  lemma Confirmed(t: Tables, c: Call)
    requires c.ConfirmChange? && Confirms(t, c)
    ensures var k := t.changes[c.hash];
            Apply(t, c).0 == WithoutSessions(t, k.userID).(
              changes := t.changes[c.hash := k.(consumedAt := Some(c.at))],
              users := t.users[k.userID := t.users[k.userID].(email := k.newEmail, verifiedAt := Some(c.at))],
              mails := t.mails + if c.notice then {ChangeNotice(t.users[k.userID].email)} else {})
  {
  }

  lemma NotConfirmed(t: Tables, c: Call)
    requires c.ConfirmChange? && !Confirms(t, c)
    ensures Apply(t, c).0 == t
  {
    ConfirmIsAllOrNothing(t, c.hash, c.at, c.notice, c.builds, c.commits);
  }

  lemma StillVerify(f: Tables, p: Tables, hash: string, at: int, h: string)
    requires f.users == p.users && f.mails == p.mails && SameAt(f, p, at, hash) && SameAt(f, p, at, h)
    ensures var f', p' := Apply(f, VerifyEmail(hash, at)).0, Apply(p, VerifyEmail(hash, at)).0;
            f'.users == p'.users && f'.mails == p'.mails && SameAt(f', p', at, h)
  {
    var f', p' := Apply(f, VerifyEmail(hash, at)).0, Apply(p, VerifyEmail(hash, at)).0;
    if hash in f.verifications && Usable(f.verifications[hash], at) && f.verifications[hash].userID in f.users {
      var k := f.verifications[hash].(consumedAt := Some(at));
      assert f' == f.(verifications := f.verifications[hash := k], users := f'.users);
      assert p' == p.(verifications := p.verifications[hash := k], users := p'.users);
    } else {
      assert f' == f && p' == p;
    }
  }

  lemma StillConsume(f: Tables, p: Tables, hash: string, at: int, h: string)
    requires f.users == p.users && f.mails == p.mails && SameAt(f, p, at, hash) && SameAt(f, p, at, h)
    ensures var f', p' := Apply(f, ConsumeReset(hash, at)).0, Apply(p, ConsumeReset(hash, at)).0;
            f'.users == p'.users && f'.mails == p'.mails && SameAt(f', p', at, h)
  {
    var f', p' := Apply(f, ConsumeReset(hash, at)).0, Apply(p, ConsumeReset(hash, at)).0;
    if hash in f.resets && Usable(f.resets[hash], at) {
      var k := f.resets[hash].(consumedAt := Some(at));
      assert f' == f.(resets := f.resets[hash := k]);
      assert p' == p.(resets := p.resets[hash := k]);
    } else {
      assert f' == f && p' == p;
    }
  }

  lemma FreshAlsoWhenPruned(f: Tables, p: Tables, now: int, c: Call)
    requires SameButPruned(f, p, now) && FreshHash(f, c)
    ensures FreshHash(p, c)
  {
    match c
    case Register(_, _, _, hash, _, _) => assert SameAt(f, p, now, hash);
    case Resend(_, _, hash, _, _) => assert SameAt(f, p, now, hash);
    case RequestChange(_, _, hash, _, _) => assert SameAt(f, p, now, hash);
    case RequestReset(_, _, hash, _, _) => assert SameAt(f, p, now, hash);
    case CreateSession(_, hash, _, _, _) => assert SameAt(f, p, now, hash);
    case _ =>
  }

  lemma StillSame(f: Tables, p: Tables, now: int, c: Call)
    requires SameButPruned(f, p, now) && now <= TimeOf(c, now) && FreshHash(f, c) && !IsPrune(c)
    ensures SameButPruned(Apply(f, c).0, Apply(p, c).0, TimeOf(c, now))
  {
    FreshAlsoWhenPruned(f, p, now, c);
    assert SameAt(f, p, now, HashOf(c));
    forall h
      ensures Apply(f, c).0.users == Apply(p, c).0.users && Apply(f, c).0.mails == Apply(p, c).0.mails
      ensures SameAt(Apply(f, c).0, Apply(p, c).0, TimeOf(c, now), h)
    {
      assert SameAt(f, p, now, h);
      if InsertsToken(c) {
        SameIssue(f, p, c);
        StillInserts(f, p, now, c, h);
      } else if c.RequestChange? {
        SameIssue(f, p, c);
        StillRequestsChange(f, p, now, c, h);
      } else if OnSessions(c) {
        StillOnSessions(f, p, now, c, h);
      } else if c.SetPassword? || c.DeleteAccount? {
        StillOnUser(f, p, now, c, h);
      } else if c.ConfirmChange? {
        SameAtLater(f, p, now, c.at, c.hash);
        SameAtLater(f, p, now, c.at, h);
        StillConfirm(f, p, c, h);
      } else if c.VerifyEmail? {
        SameAtLater(f, p, now, c.at, c.hash);
        SameAtLater(f, p, now, c.at, h);
        StillVerify(f, p, c.hash, c.at, h);
      } else if c.ConsumeReset? {
        SameAtLater(f, p, now, c.at, c.hash);
        SameAtLater(f, p, now, c.at, h);
        StillConsume(f, p, c.hash, c.at, h);
      }
    }
    assert SameAt(Apply(f, c).0, Apply(p, c).0, TimeOf(c, now), "");
  }

  lemma SameRevoke(f: Tables, p: Tables, now: int, c: Call)
    requires SameButPruned(f, p, now) && now <= TimeOf(c, now) && c.RevokeByID?
    ensures Apply(f, c).1 == Apply(p, c).1 <==> !TargetPruned(f, p, c)
  {
    assert SameAt(f, p, now, c.hash);
    forall h | Revocable(p, c.u, c.id, c.hash, h) ensures Revocable(f, c.u, c.id, c.hash, h) {
      assert SameAt(f, p, now, h);
    }
    forall h | Revocable(f, c.u, c.id, c.hash, h)
      ensures if h in p.sessions then Revocable(p, c.u, c.id, c.hash, h) else f.sessions[h].expiresAt <= c.at
    {
      assert SameAt(f, p, now, h);
    }
  }

  lemma SameList(f: Tables, p: Tables, now: int, u: int, at: int)
    requires SameButPruned(f, p, now) && now <= at
    ensures ActiveSessions(f, u, at) == ActiveSessions(p, u, at)
  {
    forall h ensures h in ActiveSessions(f, u, at) <==> h in ActiveSessions(p, u, at) {
      assert SameAt(f, p, now, h);
    }
    forall h | h in ActiveSessions(f, u, at) ensures ActiveSessions(f, u, at)[h] == ActiveSessions(p, u, at)[h] {
      assert SameAt(f, p, now, h);
    }
  }

  lemma SameReply(f: Tables, p: Tables, now: int, c: Call)
    requires SameButPruned(f, p, now) && now <= TimeOf(c, now) && FreshHash(f, c)
    ensures Apply(f, c).1 == Apply(p, c).1 <==> !TargetPruned(f, p, c)
  {
    FreshAlsoWhenPruned(f, p, now, c);
    if c.RevokeByID? {
      SameRevoke(f, p, now, c);
    } else if c.ListSessions? {
      SameList(f, p, now, c.u, c.at);
    } else if c.VerifyEmail? || c.ConfirmChange? || c.ConsumeReset? || c.ValidateReset? || c.LookupSession? {
      assert SameAt(f, p, now, c.hash);
    }
  }

  lemma PruneKeepsSame(f: Tables, p: Tables, now: int, c: Call)
    requires SameButPruned(f, p, now) && now <= TimeOf(c, now) && IsPrune(c)
    ensures SameButPruned(f, Apply(p, c).0, TimeOf(c, now))
  {
    forall h ensures SameAt(f, Apply(p, c).0, TimeOf(c, now), h) {
      assert SameAt(f, p, now, h);
    }
  }

  // ----- every run

  lemma {:induction false} RunsStaySame(f: Tables, p: Tables, now: int, calls: seq<Call>)
    requires SameButPruned(f, p, now) && InTimeOrder(now, calls) && FreshHashes(f, WithoutPruning(calls))
    ensures SameButPruned(Run(f, WithoutPruning(calls)), Run(p, calls), EndOf(now, calls))
    decreases |calls|
  {
    if calls != [] {
      var c, rest := calls[0], calls[1..];
      if IsPrune(c) {
        PruneKeepsSame(f, p, now, c);
        RunsStaySame(f, Apply(p, c).0, TimeOf(c, now), rest);
      } else {
        assert WithoutPruning(calls)[0] == c && WithoutPruning(calls)[1..] == WithoutPruning(rest);
        StillSame(f, p, now, c);
        RunsStaySame(Apply(f, c).0, Apply(p, c).0, TimeOf(c, now), rest);
      }
    }
  }

  /**
   Cleanup is unobservable: after any calls with pruning anywhere among them, the next call gets
   the reply it would get had nothing ever been pruned. The exception is revoking a session by
   id, whose delete ignores expiry: the reply differs exactly when the only such session has
   expired and is pruned.
   */
  lemma CleanupIsUnobservable(t: Tables, now: int, calls: seq<Call>, c: Call)
    requires InTimeOrder(now, calls + [c]) && !IsPrune(c) && FreshHashes(t, WithoutPruning(calls + [c]))
    ensures var f, p := Run(t, WithoutPruning(calls)), Run(t, calls);
            Apply(f, c).1 == Apply(p, c).1 <==> !TargetPruned(f, p, c)
  {
    LastCall(t, now, calls, c);
    RunsStaySame(t, t, now, calls);
    SameReply(Run(t, WithoutPruning(calls)), Run(t, calls), EndOf(now, calls), c);
  }

  lemma {:induction false} LastCall(t: Tables, now: int, calls: seq<Call>, c: Call)
    requires InTimeOrder(now, calls + [c]) && !IsPrune(c) && FreshHashes(t, WithoutPruning(calls + [c]))
    ensures InTimeOrder(now, calls) && EndOf(now, calls) <= TimeOf(c, EndOf(now, calls))
    ensures FreshHashes(t, WithoutPruning(calls)) && FreshHash(Run(t, WithoutPruning(calls)), c)
    decreases |calls|
  {
    if calls == [] {
      assert calls + [c] == [c];
      assert WithoutPruning([c]) == [c];
    } else {
      assert (calls + [c])[0] == calls[0] && (calls + [c])[1..] == calls[1..] + [c];
      if IsPrune(calls[0]) {
        LastCall(t, TimeOf(calls[0], now), calls[1..], c);
      } else {
        assert WithoutPruning(calls + [c])[1..] == WithoutPruning(calls[1..] + [c]);
        assert WithoutPruning(calls)[1..] == WithoutPruning(calls[1..]);
        LastCall(Apply(t, calls[0]).0, TimeOf(calls[0], now), calls[1..], c);
      }
    }
  }

  /** A user with a session in use and one that has expired. */
  function Example(): Tables {
    Tables(map[1 := User("a", "p", None)], map[], map[], map[], map["own" := Session(6, 1, 100, 0), "old" := Session(7, 1, 10, 0)], {})
  }

  lemma ExampleUnpruned()
    ensures Apply(Example(), LookupSession("own", 20)).1.UserIs?
    ensures Apply(Example(), RevokeByID(1, 7, "own", 20)).1 == Done
  {
    assert Revocable(Example(), 1, 7, "own", "old");
  }

  lemma ExamplePruned()
    ensures Run(Example(), [PruneSessions(15)]).sessions == map["own" := Session(6, 1, 100, 0)]
  {
    assert Run(Example(), [PruneSessions(15)]) == Apply(Example(), PruneSessions(15)).0;
  }

  /** The exception is real: from the same live session a revocation succeeds or not, depending on a prune before it. */
  lemma RevocationSeesPruning()
    ensures var c := RevokeByID(1, 7, "own", 20);
            && Apply(Example(), LookupSession("own", 20)).1.UserIs?
            && Apply(Example(), c).1 == Done && Apply(Run(Example(), [PruneSessions(15)]), c).1 == InvalidTarget
  {
    ExampleUnpruned();
    ExamplePruned();
  }
}
