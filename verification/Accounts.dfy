/**
 Accounts, single-use tokens and sessions: the tables, what each transaction of the store does to
 them, and the store that runs those transactions. Tokens are kept under their hash; each mail
 that carries a token is noted with its address and the token's hash. Times are integers.
 */
module Accounts {
  import opened Common

  datatype User = User(email: string, passwordHash: string, verifiedAt: Option<int>)

  datatype Token = Token(userID: int, expiresAt: int, consumedAt: Option<int>)

  datatype ChangeToken = ChangeToken(userID: int, newEmail: string, expiresAt: int, consumedAt: Option<int>)

  datatype Session = Session(id: int, userID: int, expiresAt: int, createdAt: int)

  datatype Mail =
    | Confirmation(address: string, tokenHash: string)
    | ChangeVerification(address: string, tokenHash: string)
    | ChangeNotice(address: string)
    | ResetLink(address: string, tokenHash: string)

  datatype Tables = Tables(
    users: map<int, User>,
    verifications: map<string, Token>,
    resets: map<string, Token>,
    changes: map<string, ChangeToken>,
    sessions: map<string, Session>,
    mails: set<Mail>)

  // ----- statements

  /** The unique constraint on users.email, for a row other than `u`. */
  predicate TakenByOther(users: map<int, User>, email: string, u: int) {
    exists v :: v in users && v != u && users[v].email == email
  }

  predicate Usable(k: Token, at: int) {
    k.consumedAt.None? && k.expiresAt > at
  }

  predicate ChangeUsable(k: ChangeToken, at: int) {
    k.consumedAt.None? && k.expiresAt > at
  }

  function WithoutSessions(t: Tables, u: int): Tables {
    t.(sessions := map h | h in t.sessions && t.sessions[h].userID != u :: t.sessions[h])
  }

  /** Every user-owned table declares ON DELETE CASCADE. */
  function WithoutUser(t: Tables, u: int): Tables {
    WithoutSessions(t, u).(
      users := t.users - {u},
      verifications := map h | h in t.verifications && t.verifications[h].userID != u :: t.verifications[h],
      resets := map h | h in t.resets && t.resets[h].userID != u :: t.resets[h],
      changes := map h | h in t.changes && t.changes[h].userID != u :: t.changes[h])
  }

  function ActiveSessions(t: Tables, u: int, at: int): map<string, Session> {
    map h | h in t.sessions && t.sessions[h].userID == u && t.sessions[h].expiresAt > at :: t.sessions[h]
  }

  function PrunedTokens(tokens: map<string, Token>, expiredBefore: int, consumedBefore: int): map<string, Token> {
    map h | h in tokens && !(tokens[h].expiresAt <= expiredBefore
                             || (tokens[h].consumedAt.Some? && tokens[h].consumedAt.value <= consumedBefore)) :: tokens[h]
  }

  function PrunedChanges(tokens: map<string, ChangeToken>, expiredBefore: int, consumedBefore: int): map<string, ChangeToken> {
    map h | h in tokens && !(tokens[h].expiresAt <= expiredBefore
                             || (tokens[h].consumedAt.Some? && tokens[h].consumedAt.value <= consumedBefore)) :: tokens[h]
  }

  function PrunedSessions(sessions: map<string, Session>, expiredBefore: int): map<string, Session> {
    map h | h in sessions && sessions[h].expiresAt > expiredBefore :: sessions[h]
  }

  // ----- the atomic steps

  /** What becomes of a transaction after its token is inserted. */
  datatype End = Commits | MailFails | CommitFails

  datatype Call =
    | Register(u: int, email: string, passwordHash: string, hash: string, expiresAt: int, end: End)
    // Resending reads the user first and writes the token in a later transaction.
    | ReadForResend(u: int)
    | Resend(u: int, email: string, hash: string, expiresAt: int, end: End)
    | VerifyEmail(hash: string, at: int)
    | RequestChange(u: int, email: string, hash: string, expiresAt: int, end: End)
    // `notice`: the old address is told; `builds`, `commits`: that message and the commit succeed.
    | ConfirmChange(hash: string, at: int, notice: bool, builds: bool, commits: bool)
    | RequestReset(u: int, email: string, hash: string, expiresAt: int, end: End)
    | ValidateReset(hash: string, at: int)
    | ConsumeReset(hash: string, at: int)
    | SetPassword(u: int, passwordHash: string)
    | CreateSession(u: int, hash: string, id: int, expiresAt: int, at: int)
    | LookupSession(hash: string, at: int)
    | ListSessions(u: int, at: int)
    | Logout(hash: string)
    | RevokeOthers(u: int, hash: string)
    | RevokeByID(u: int, id: int, hash: string, at: int)
    | DeleteAccount(u: int)
    | PruneSessions(expiredBefore: int)
    | PruneResets(expiredBefore: int, consumedBefore: int)
    | PruneVerifications(expiredBefore: int, consumedBefore: int)
    | PruneChanges(expiredBefore: int, consumedBefore: int)

  datatype Reply =
    | Done
    | NoRows
    | EmailAlreadyRegistered
    | Failed
    | UserIs(u: int, user: User)
    | TokenOf(u: int)
    | Sessions(active: map<string, Session>)
    | CannotRevokeCurrent
    | InvalidTarget

  /** Consuming the token and applying the change, inside the transaction. */
  function ChangeEmail(t: Tables, hash: string, at: int, notice: bool, builds: bool): (Tables, Reply) {
    if hash !in t.changes || !ChangeUsable(t.changes[hash], at) then (t, NoRows)
    else
      var k := t.changes[hash];
      var t1 := t.(changes := t.changes[hash := k.(consumedAt := Some(at))]);
      if k.userID !in t.users then (t1, NoRows)
      else if TakenByOther(t.users, k.newEmail, k.userID) then (t1, EmailAlreadyRegistered)
      else
        var oldUser := t.users[k.userID];
        var user := oldUser.(email := k.newEmail, verifiedAt := Some(at));
        var t2 := WithoutSessions(t1.(users := t1.users[k.userID := user]), k.userID);
        if !notice then (t2, UserIs(k.userID, user))
        else if !builds then (t2, Failed)
        else (t2.(mails := t2.mails + {ChangeNotice(oldUser.email)}), UserIs(k.userID, user))
  }

  predicate Revocable(t: Tables, u: int, id: int, hash: string, h: string) {
    h in t.sessions && t.sessions[h].id == id && t.sessions[h].userID == u && h != hash
  }

  function WithoutRevocable(t: Tables, u: int, id: int, hash: string): Tables {
    t.(sessions := map h | h in t.sessions && !Revocable(t, u, id, hash, h) :: t.sessions[h])
  }

  function RevokeByIDReply(t: Tables, u: int, id: int, hash: string, at: int): Reply {
    if exists h :: h in t.sessions && Revocable(t, u, id, hash, h) then Done
    else if hash in t.sessions && t.sessions[hash].id == id && t.sessions[hash].userID == u && t.sessions[hash].expiresAt > at then
      CannotRevokeCurrent
    else InvalidTarget
  }

  function Apply(t: Tables, c: Call): (Tables, Reply) {
    match c
    case Register(u, email, passwordHash, hash, expiresAt, end) =>
      if u in t.users || TakenByOther(t.users, email, u) then (t, EmailAlreadyRegistered)
      else if hash in t.verifications || !end.Commits? then (t, Failed)
      else
        (t.(users := t.users[u := User(email, passwordHash, None)],
            verifications := t.verifications[hash := Token(u, expiresAt, None)],
            mails := t.mails + {Confirmation(email, hash)}), Done)
    case ReadForResend(u) => (t, if u in t.users then UserIs(u, t.users[u]) else NoRows)
    case Resend(u, email, hash, expiresAt, end) =>
      if u !in t.users || hash in t.verifications || !end.Commits? then (t, Failed)
      else (t.(verifications := t.verifications[hash := Token(u, expiresAt, None)], mails := t.mails + {Confirmation(email, hash)}), Done)
    case VerifyEmail(hash, at) =>
      if hash !in t.verifications || !Usable(t.verifications[hash], at) || t.verifications[hash].userID !in t.users then (t, NoRows)
      else
        var u := t.verifications[hash].userID;
        var user := t.users[u].(verifiedAt := Some(at));
        (t.(verifications := t.verifications[hash := t.verifications[hash].(consumedAt := Some(at))], users := t.users[u := user]),
         UserIs(u, user))
    case RequestChange(u, email, hash, expiresAt, end) =>
      if u !in t.users || hash in t.changes || !end.Commits? then (t, Failed)
      else (t.(changes := t.changes[hash := ChangeToken(u, email, expiresAt, None)],
               mails := t.mails + {ChangeVerification(email, hash)}), Done)
    case ConfirmChange(hash, at, notice, builds, commits) =>
      var (t1, r) := ChangeEmail(t, hash, at, notice, builds);
      if !r.UserIs? then (t, r) else if !commits then (t, Failed) else (t1, r)
    case RequestReset(u, email, hash, expiresAt, end) =>
      if u !in t.users || hash in t.resets || !end.Commits? then (t, Failed)
      else (t.(resets := t.resets[hash := Token(u, expiresAt, None)], mails := t.mails + {ResetLink(email, hash)}), Done)
    case ValidateReset(hash, at) => (t, if hash in t.resets && Usable(t.resets[hash], at) then Done else NoRows)
    case ConsumeReset(hash, at) =>
      if hash !in t.resets || !Usable(t.resets[hash], at) then (t, NoRows)
      else (t.(resets := t.resets[hash := t.resets[hash].(consumedAt := Some(at))]), TokenOf(t.resets[hash].userID))
    case SetPassword(u, passwordHash) =>
      (WithoutSessions(t, u).(users := if u in t.users then t.users[u := t.users[u].(passwordHash := passwordHash)] else t.users), Done)
    case CreateSession(u, hash, id, expiresAt, at) =>
      if u !in t.users || hash in t.sessions then (t, Failed) else (t.(sessions := t.sessions[hash := Session(id, u, expiresAt, at)]), Done)
    case LookupSession(hash, at) =>
      (t, if hash in t.sessions && t.sessions[hash].expiresAt > at && t.sessions[hash].userID in t.users
          then UserIs(t.sessions[hash].userID, t.users[t.sessions[hash].userID]) else NoRows)
    case ListSessions(u, at) => (t, Sessions(ActiveSessions(t, u, at)))
    case Logout(hash) => (t.(sessions := t.sessions - {hash}), Done)
    case RevokeOthers(u, hash) =>
      (t.(sessions := map h | h in t.sessions && (t.sessions[h].userID != u || h == hash) :: t.sessions[h]), Done)
    case RevokeByID(u, id, hash, at) =>
      if id <= 0 then (t, InvalidTarget)
      else (WithoutRevocable(t, u, id, hash), RevokeByIDReply(t, u, id, hash, at))
    case DeleteAccount(u) => (WithoutUser(t, u), Done)
    case PruneSessions(expiredBefore) => (t.(sessions := PrunedSessions(t.sessions, expiredBefore)), Done)
    case PruneResets(expired, consumed) => (t.(resets := PrunedTokens(t.resets, expired, consumed)), Done)
    case PruneVerifications(expired, consumed) => (t.(verifications := PrunedTokens(t.verifications, expired, consumed)), Done)
    case PruneChanges(expired, consumed) => (t.(changes := PrunedChanges(t.changes, expired, consumed)), Done)
  }

  /** When a confirmation succeeds: the token is usable, its address is free, and nothing else fails. */
  ghost predicate Confirmable(t: Tables, hash: string, at: int, notice: bool, builds: bool, commits: bool) {
    && hash in t.changes && t.changes[hash].consumedAt.None? && at < t.changes[hash].expiresAt && t.changes[hash].userID in t.users
    && !TakenByOther(t.users, t.changes[hash].newEmail, t.changes[hash].userID)
    && (notice ==> builds) && commits
  }

  /**
   Changing an email is all or nothing. It either fails, and then every table is as before and the
   token can still be used, or the token is spent, the new address is in place and verified, and
   no session of the user is left; and it succeeds exactly under the conditions named.
   */
  lemma ConfirmIsAllOrNothing(t: Tables, hash: string, at: int, notice: bool, builds: bool, commits: bool)
    ensures var (t', r) := Apply(t, ConfirmChange(hash, at, notice, builds, commits));
            && (r.UserIs? <==> Confirmable(t, hash, at, notice, builds, commits))
            && (!r.UserIs? ==> t' == t)
            && (r.UserIs? ==>
                  var k := t.changes[hash];
                  && t' == t.(users := t'.users, changes := t'.changes, sessions := t'.sessions, mails := t'.mails)
                  && t'.changes - {hash} == t.changes - {hash}
                  && hash in t'.changes && t'.changes[hash] == ChangeToken(k.userID, k.newEmail, k.expiresAt, Some(at))
                  && t'.users - {k.userID} == t.users - {k.userID}
                  && k.userID in t'.users && r == UserIs(k.userID, t'.users[k.userID])
                  && t'.users[k.userID] == User(k.newEmail, t.users[k.userID].passwordHash, Some(at))
                  && (forall h :: h in t'.sessions <==> h in t.sessions && t.sessions[h].userID != k.userID)
                  && (forall h :: h in t'.sessions ==> t'.sessions[h] == t.sessions[h])
                  && t'.mails == t.mails + (if notice then {ChangeNotice(t.users[k.userID].email)} else {}))
  {
  }

  /** Which failure is reported: an unusable token or a missing user, then a taken address, then anything else. */
  lemma ConfirmFailures(t: Tables, hash: string, at: int, notice: bool, builds: bool, commits: bool)
    requires !Confirmable(t, hash, at, notice, builds, commits)
    ensures Apply(t, ConfirmChange(hash, at, notice, builds, commits)).1 ==
              if hash !in t.changes || t.changes[hash].consumedAt.Some? || t.changes[hash].expiresAt <= at || t.changes[hash].userID !in t.users
              then NoRows
              else if exists v :: v in t.users && v != t.changes[hash].userID && t.users[v].email == t.changes[hash].newEmail
              then EmailAlreadyRegistered
              else Failed
  {
  }

  // ----- the store

  class AuthStore {
    var tables: Tables

    constructor ()
      ensures tables == Tables(map[], map[], map[], map[], map[], {})
    {
      tables := Tables(map[], map[], map[], map[], map[], {});
    }

    method CreateUserWithEmailVerification(u: int, email: string, passwordHash: string, hash: string, expiresAt: int, end: End)
      returns (r: Reply)
      modifies this
      ensures (tables, r) == Apply(old(tables), Register(u, email, passwordHash, hash, expiresAt, end))
    {
      if u in tables.users || TakenByOther(tables.users, email, u) {
        return EmailAlreadyRegistered;
      }
      var begun := tables;
      tables := tables.(users := tables.users[u := User(email, passwordHash, None)]);
      if hash in tables.verifications {
        tables := begun;
        return Failed;
      }
      tables := tables.(verifications := tables.verifications[hash := Token(u, expiresAt, None)]);
      if end.MailFails? {
        tables := begun;
        return Failed;
      }
      tables := tables.(mails := tables.mails + {Confirmation(email, hash)});
      if end.CommitFails? {
        tables := begun;
        return Failed;
      }
      return Done;
    }

    method ResendEmailVerification(u: int, email: string, hash: string, expiresAt: int, end: End) returns (r: Reply)
      modifies this
      ensures (tables, r) == Apply(old(tables), Resend(u, email, hash, expiresAt, end))
    {
      if u !in tables.users || hash in tables.verifications {
        return Failed;
      }
      var begun := tables;
      tables := tables.(verifications := tables.verifications[hash := Token(u, expiresAt, None)]);
      if end.MailFails? {
        tables := begun;
        return Failed;
      }
      tables := tables.(mails := tables.mails + {Confirmation(email, hash)});
      if end.CommitFails? {
        tables := begun;
        return Failed;
      }
      return Done;
    }

    method VerifyEmailByTokenHash(hash: string, verifiedAt: int) returns (r: Reply)
      modifies this
      ensures (tables, r) == Apply(old(tables), VerifyEmail(hash, verifiedAt))
    {
      var begun := tables;
      if hash !in tables.verifications || !Usable(tables.verifications[hash], verifiedAt) {
        return NoRows;
      }
      var token := tables.verifications[hash];
      tables := tables.(verifications := tables.verifications[hash := token.(consumedAt := Some(verifiedAt))]);
      if token.userID !in tables.users {
        tables := begun;
        return NoRows;
      }
      var user := tables.users[token.userID].(verifiedAt := Some(verifiedAt));
      tables := tables.(users := tables.users[token.userID := user]);
      return UserIs(token.userID, user);
    }

    method RequestEmailChange(u: int, newEmail: string, hash: string, expiresAt: int, end: End) returns (r: Reply)
      modifies this
      ensures (tables, r) == Apply(old(tables), RequestChange(u, newEmail, hash, expiresAt, end))
    {
      if u !in tables.users || hash in tables.changes {
        return Failed;
      }
      var begun := tables;
      tables := tables.(changes := tables.changes[hash := ChangeToken(u, newEmail, expiresAt, None)]);
      if end.MailFails? {
        tables := begun;
        return Failed;
      }
      tables := tables.(mails := tables.mails + {ChangeVerification(newEmail, hash)});
      if end.CommitFails? {
        tables := begun;
        return Failed;
      }
      return Done;
    }

    /** `commits`: whether the commit at the end goes through. */
    method ConfirmEmailChange(hash: string, at: int, notice: bool, builds: bool, commits: bool) returns (r: Reply)
      modifies this
      ensures (tables, r) == Apply(old(tables), ConfirmChange(hash, at, notice, builds, commits))
    {
      var begun := tables;
      r := ConsumeAndApply(hash, at, notice, builds);
      if !r.UserIs? {
        tables := begun;
      } else if !commits {
        tables := begun;
        r := Failed;
      }
    }

    method ConsumeAndApply(hash: string, at: int, notice: bool, builds: bool) returns (r: Reply)
      modifies this
      ensures (tables, r) == ChangeEmail(old(tables), hash, at, notice, builds)
    {
      if hash !in tables.changes || !ChangeUsable(tables.changes[hash], at) {
        return NoRows;
      }
      var token := tables.changes[hash];
      tables := tables.(changes := tables.changes[hash := token.(consumedAt := Some(at))]);
      if token.userID !in tables.users {
        return NoRows;
      }
      var oldUser := tables.users[token.userID];
      if TakenByOther(tables.users, token.newEmail, token.userID) {
        return EmailAlreadyRegistered;
      }
      var user := oldUser.(email := token.newEmail, verifiedAt := Some(at));
      tables := tables.(users := tables.users[token.userID := user]);
      tables := WithoutSessions(tables, token.userID);
      if notice {
        if !builds {
          return Failed;
        }
        tables := tables.(mails := tables.mails + {ChangeNotice(oldUser.email)});
      }
      return UserIs(token.userID, user);
    }

    method RequestPasswordReset(u: int, email: string, hash: string, expiresAt: int, end: End) returns (r: Reply)
      modifies this
      ensures (tables, r) == Apply(old(tables), RequestReset(u, email, hash, expiresAt, end))
    {
      if u !in tables.users || hash in tables.resets {
        return Failed;
      }
      var begun := tables;
      tables := tables.(resets := tables.resets[hash := Token(u, expiresAt, None)]);
      if end.MailFails? {
        tables := begun;
        return Failed;
      }
      tables := tables.(mails := tables.mails + {ResetLink(email, hash)});
      if end.CommitFails? {
        tables := begun;
        return Failed;
      }
      return Done;
    }

    method CreateSession(u: int, hash: string, id: int, expiresAt: int, at: int) returns (r: Reply)
      modifies this
      ensures (tables, r) == Apply(old(tables), Call.CreateSession(u, hash, id, expiresAt, at))
    {
      if u !in tables.users || hash in tables.sessions {
        return Failed;
      }
      tables := tables.(sessions := tables.sessions[hash := Session(id, u, expiresAt, at)]);
      return Done;
    }

    method DeleteSessionByIDAndUserIDAndTokenHashNot(id: int, u: int, hash: string) returns (deleted: int)
      modifies this
      ensures tables == WithoutRevocable(old(tables), u, id, hash)
      ensures deleted == |old(tables).sessions| - |tables.sessions|
      ensures deleted > 0 <==> exists h :: h in old(tables).sessions && Revocable(old(tables), u, id, hash, h)
    {
      var before := tables.sessions;
      tables := WithoutRevocable(tables, u, id, hash);
      deleted := |before| - |tables.sessions|;
      SubsetSize(tables.sessions.Keys, before.Keys);
      if deleted == 0 {
        SubsetOfSameSize(tables.sessions.Keys, before.Keys);
      } else if tables.sessions.Keys == before.Keys {
        assert |tables.sessions.Keys| == |tables.sessions| && |before.Keys| == |before|;
      }
    }

    method ConsumePasswordResetToken(hash: string, consumedAt: int) returns (r: Reply)
      modifies this
      ensures (tables, r) == Apply(old(tables), ConsumeReset(hash, consumedAt))
    {
      if hash !in tables.resets || !Usable(tables.resets[hash], consumedAt) {
        return NoRows;
      }
      var token := tables.resets[hash];
      tables := tables.(resets := tables.resets[hash := token.(consumedAt := Some(consumedAt))]);
      return TokenOf(token.userID);
    }

    /** `commits`: whether both statements and the commit go through. */
    method SetPasswordAndRevokeSessions(u: int, passwordHash: string, commits: bool) returns (r: Reply)
      modifies this
      ensures commits ==> (tables, r) == Apply(old(tables), SetPassword(u, passwordHash))
      ensures !commits ==> (tables, r) == (old(tables), Failed)
    {
      var begun := tables;
      if u in tables.users {
        tables := tables.(users := tables.users[u := tables.users[u].(passwordHash := passwordHash)]);
      }
      tables := WithoutSessions(tables, u);
      if !commits {
        tables := begun;
        return Failed;
      }
      return Done;
    }
  }
}
