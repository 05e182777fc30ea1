/** What every run of account operations keeps: where verified addresses come from, token use, session age. */
module AccountsSafety {
  import opened Common
  import opened Accounts

  /** A token accepted, and the user it was issued for. */
  datatype Use = Use(hash: string, userID: int)

  /** What a resend read of an unverified user before it wrote anything. */
  datatype Read = Read(userID: int, email: string)

  /** When a session was inserted, and its user's credentials then. */
  datatype Insertion = Insertion(tick: nat, email: string, passwordHash: string)

  datatype World = World(
    tables: Tables,
    tick: nat,
    everUsers: set<int>,
    issued: set<string>,
    readings: set<Read>,
    uses: seq<Use>,
    changedAt: map<int, nat>,
    inserted: map<string, Insertion>)

  function Init(): World {
    World(Tables(map[], map[], map[], map[], map[], {}), 0, {}, {}, {}, [], map[], map[])
  }

  /** The token or session hash a call brings in. */
  function HashIssued(c: Call): set<string> {
    match c
    case Register(_, _, _, hash, _, _) => {hash}
    case Resend(_, _, hash, _, _) => {hash}
    case RequestChange(_, _, hash, _, _) => {hash}
    case RequestReset(_, _, hash, _, _) => {hash}
    case CreateSession(_, hash, _, _, _) => {hash}
    case _ => {}
  }

  /** New hashes and new user ids are fresh; a resend acts on what it read. */
  predicate Enabled(w: World, c: Call) {
    && HashIssued(c) !! w.issued
    && (c.Register? ==> c.u !in w.everUsers)
    && (c.Resend? ==> Read(c.u, c.email) in w.readings)
  }

  function UsesOf(t: Tables, c: Call, r: Reply): seq<Use> {
    match c
    case VerifyEmail(hash, _) => if r.UserIs? then [Use(hash, r.u)] else []
    case ConfirmChange(hash, _, _, _, _) => if r.UserIs? then [Use(hash, r.u)] else []
    case ConsumeReset(hash, _) => if r.TokenOf? then [Use(hash, r.u)] else []
    case _ => []
  }

  /** The user whose password or email the call changed. */
  function ChangedUser(c: Call, r: Reply): set<int> {
    match c
    case SetPassword(u, _) => {u}
    case ConfirmChange(_, _, _, _, _) => if r.UserIs? then {r.u} else {}
    case _ => {}
  }

  function After(w: World, c: Call): World {
    var (t, r) := Apply(w.tables, c);
    World(t, w.tick + 1,
          if c.Register? && r.Done? then w.everUsers + {c.u} else w.everUsers,
          w.issued + HashIssued(c),
          if c.ReadForResend? && r.UserIs? && r.user.verifiedAt.None? then w.readings + {Read(c.u, r.user.email)} else w.readings,
          w.uses + UsesOf(w.tables, c, r),
          map u | u in w.changedAt.Keys + ChangedUser(c, r) :: if u in ChangedUser(c, r) then w.tick else w.changedAt[u],
          if c.CreateSession? && r.Done?
          then w.inserted[c.hash := Insertion(w.tick, t.users[c.u].email, t.users[c.u].passwordHash)] else w.inserted)
  }

  ghost predicate Valid(w: World, calls: seq<Call>)
    decreases |calls|
  {
    calls == [] || (Enabled(w, calls[0]) && Valid(After(w, calls[0]), calls[1..]))
  }

  ghost function Run(w: World, calls: seq<Call>): World
    decreases |calls|
  {
    if calls == [] then w else Run(After(w, calls[0]), calls[1..])
  }

  // ----- the invariant

  /** A token mailed to exactly `email` was accepted for user `u`. */
  ghost predicate ProvedControl(w: World, u: int, email: string) {
    exists k :: 0 <= k < |w.uses| && w.uses[k].userID == u && MailedTo(w.tables, w.uses[k].hash, email)
  }

  predicate MailedTo(t: Tables, hash: string, email: string) {
    Confirmation(email, hash) in t.mails || ChangeVerification(email, hash) in t.mails
  }

  /** A resend mails the address of the user it read, as long as the user is unverified ... */
  ghost predicate ReadingsOk(w: World) {
    && w.tables.users.Keys <= w.everUsers
    && (forall r :: r in w.readings ==> r.userID in w.everUsers)
    && (forall r :: r in w.readings && Unverified(w.tables, r.userID) ==> w.tables.users[r.userID].email == r.email)
  }

  /** ... so the tokens of an unverified user were mailed to the user's address ... */
  ghost predicate VerificationsOk(w: World) {
    && (forall h :: h in w.tables.verifications ==> w.tables.verifications[h].userID in w.everUsers)
    && (forall h :: h in w.tables.verifications && Unverified(w.tables, w.tables.verifications[h].userID) ==>
          Confirmation(w.tables.users[w.tables.verifications[h].userID].email, h) in w.tables.mails)
  }

  /** ... and change tokens to the new address. */
  ghost predicate ChangesOk(w: World) {
    forall h :: h in w.tables.changes ==> ChangeVerification(w.tables.changes[h].newEmail, h) in w.tables.mails
  }

  ghost predicate MailsOk(w: World) {
    ReadingsOk(w) && VerificationsOk(w) && ChangesOk(w)
  }

  predicate Unverified(t: Tables, u: int) {
    u in t.users && t.users[u].verifiedAt.None?
  }

  ghost predicate VerifiedOk(w: World) {
    forall u :: u in w.tables.users && w.tables.users[u].verifiedAt.Some? ==> ProvedControl(w, u, w.tables.users[u].email)
  }

  ghost predicate SessionOk(w: World, h: string)
    requires h in w.tables.sessions
  {
    var u := w.tables.sessions[h].userID;
    && h in w.inserted && h in w.issued
    && w.inserted[h].tick < w.tick
    && u in w.tables.users
    && w.tables.users[u].email == w.inserted[h].email && w.tables.users[u].passwordHash == w.inserted[h].passwordHash
    && (u in w.changedAt ==> w.changedAt[u] < w.inserted[h].tick)
  }

  ghost predicate SessionsOk(w: World) {
    && (forall h :: h in w.tables.sessions ==> SessionOk(w, h))
    && (forall u :: u in w.changedAt ==> w.changedAt[u] < w.tick)
  }

  ghost predicate HashesOk(w: World) {
    var t := w.tables;
    && t.verifications.Keys <= w.issued && t.resets.Keys <= w.issued && t.changes.Keys <= w.issued
    && t.verifications.Keys !! t.resets.Keys && t.verifications.Keys !! t.changes.Keys && t.resets.Keys !! t.changes.Keys
  }

  ghost predicate UsesOk(w: World) {
    && (forall k :: 0 <= k < |w.uses| ==> w.uses[k].hash in w.issued)
    && (forall i, j :: 0 <= i < j < |w.uses| ==> w.uses[i].hash != w.uses[j].hash)
  }

  ghost predicate UsedIsConsumed(w: World, h: string) {
    var t := w.tables;
    && (h in t.verifications ==> t.verifications[h].consumedAt.Some?)
    && (h in t.resets ==> t.resets[h].consumedAt.Some?)
    && (h in t.changes ==> t.changes[h].consumedAt.Some?)
  }

  ghost predicate TokensOk(w: World) {
    HashesOk(w) && UsesOk(w) && forall k :: 0 <= k < |w.uses| ==> UsedIsConsumed(w, w.uses[k].hash)
  }

  ghost predicate Inv(w: World) {
    MailsOk(w) && VerifiedOk(w) && SessionsOk(w) && TokensOk(w)
  }

  // ----- one call

  predicate Registers(c: Call, r: Reply) {
    c.Register? && r.Done?
  }

  lemma UsersAfter(t: Tables, c: Call)
    ensures var (t', r) := Apply(t, c);
            t'.users.Keys <= t.users.Keys + if Registers(c, r) then {c.u} else {}
  {
  }

  /** An unverified user has just registered or had the same address before. */
  lemma UnverifiedAfter(t: Tables, c: Call, u: int)
    ensures var (t', r) := Apply(t, c);
            Unverified(t', u) ==>
              || (Registers(c, r) && u == c.u && t'.users[u].email == c.email)
              || (Unverified(t, u) && t'.users[u].email == t.users[u].email)
  {
  }

  /** A token has just been mailed to the address given or was there before. */
  lemma VerificationAfter(t: Tables, c: Call, h: string)
    ensures var (t', r) := Apply(t, c);
            h in t'.verifications ==>
              || ((Registers(c, r) || (c.Resend? && r.Done? && c.u in t.users))
                  && t'.verifications[h].userID == c.u && Confirmation(c.email, h) in t'.mails)
              || (h in t.verifications && t'.verifications[h].userID == t.verifications[h].userID)
  {
  }

  lemma CallKeepsReadings(w: World, c: Call)
    requires ReadingsOk(w) && Enabled(w, c)
    ensures ReadingsOk(After(w, c))
  {
    var w' := After(w, c);
    UsersAfter(w.tables, c);
    forall r | r in w'.readings
      ensures r.userID in w'.everUsers
      ensures Unverified(w'.tables, r.userID) ==> w'.tables.users[r.userID].email == r.email
    {
      UnverifiedAfter(w.tables, c, r.userID);
    }
  }

  lemma CallKeepsVerifications(w: World, c: Call)
    requires ReadingsOk(w) && VerificationsOk(w) && Enabled(w, c)
    ensures VerificationsOk(After(w, c))
  {
    var w' := After(w, c);
    MailsLast(w, c);
    forall h | h in w'.tables.verifications
      ensures w'.tables.verifications[h].userID in w'.everUsers
      ensures Unverified(w'.tables, w'.tables.verifications[h].userID) ==>
                Confirmation(w'.tables.users[w'.tables.verifications[h].userID].email, h) in w'.tables.mails
    {
      VerificationAfter(w.tables, c, h);
      UnverifiedAfter(w.tables, c, w'.tables.verifications[h].userID);
      if c.Resend? {
        assert Read(c.u, c.email) in w.readings;
      }
    }
  }

  lemma CallKeepsChanges(w: World, c: Call)
    requires ChangesOk(w)
    ensures ChangesOk(After(w, c))
  {
  }

  lemma ControlLasts(w: World, c: Call, u: int, email: string)
    requires ProvedControl(w, u, email)
    ensures ProvedControl(After(w, c), u, email)
  {
    var k :| 0 <= k < |w.uses| && w.uses[k].userID == u && MailedTo(w.tables, w.uses[k].hash, email);
    assert After(w, c).uses[k] == w.uses[k];
    MailsLast(w, c);
  }

  lemma MailsLast(w: World, c: Call)
    ensures w.tables.mails <= After(w, c).tables.mails
  {
  }

  lemma CallKeepsVerified(w: World, c: Call)
    requires MailsOk(w) && VerifiedOk(w) && Enabled(w, c)
    ensures VerifiedOk(After(w, c))
  {
    var w' := After(w, c);
    forall u | u in w'.tables.users && w'.tables.users[u].verifiedAt.Some?
      ensures ProvedControl(w', u, w'.tables.users[u].email)
    {
      if u in w.tables.users && w.tables.users[u].verifiedAt.Some? && w.tables.users[u].email == w'.tables.users[u].email {
        ControlLasts(w, c, u, w.tables.users[u].email);
      } else {
        NewlyVerified(w, c, u);
      }
    }
  }

  /** An address becomes verified only by a token mailed to it. */
  lemma NewlyVerified(w: World, c: Call, u: int)
    requires MailsOk(w) && u in After(w, c).tables.users && After(w, c).tables.users[u].verifiedAt.Some?
    requires !(u in w.tables.users && w.tables.users[u].verifiedAt.Some? && w.tables.users[u].email == After(w, c).tables.users[u].email)
    ensures ProvedControl(After(w, c), u, After(w, c).tables.users[u].email)
  {
    var w' := After(w, c);
    assert c.VerifyEmail? || c.ConfirmChange?;
    assert w'.uses[|w.uses|] == Use(c.hash, u);
    assert MailedTo(w'.tables, c.hash, w'.tables.users[u].email);
  }

  /** A session that outlives a call belongs to a user the call neither deleted nor changed ... */
  lemma SessionOutlives(t: Tables, c: Call, h: string)
    requires h in t.sessions && h !in HashIssued(c) && t.sessions[h].userID in t.users
    ensures var (t', r) := Apply(t, c);
            h in t'.sessions ==>
              t'.sessions[h] == t.sessions[h] && t.sessions[h].userID in t'.users && t.sessions[h].userID !in ChangedUser(c, r)
  {
  }

  /** ... and whose credentials are therefore as before. */
  lemma UnchangedUser(t: Tables, c: Call, u: int)
    requires u in t.users
    ensures var (t', r) := Apply(t, c);
            u in t'.users && u !in ChangedUser(c, r) ==>
              t'.users[u].email == t.users[u].email && t'.users[u].passwordHash == t.users[u].passwordHash
  {
  }

  lemma OldSessionStaysOk(w: World, c: Call, h: string)
    requires SessionsOk(w) && Enabled(w, c) && h in w.tables.sessions && h in After(w, c).tables.sessions
    ensures SessionOk(After(w, c), h)
  {
    assert SessionOk(w, h);
    SessionOutlives(w.tables, c, h);
    UnchangedUser(w.tables, c, w.tables.sessions[h].userID);
  }

  lemma SessionsAfter(t: Tables, c: Call, h: string)
    requires h !in t.sessions && h in Apply(t, c).0.sessions
    ensures c.CreateSession? && h == c.hash && Apply(t, c).1.Done? && c.u in t.users
  {
  }

  lemma NewSessionIsOk(w: World, c: Call, h: string)
    requires SessionsOk(w) && h !in w.tables.sessions && h in After(w, c).tables.sessions
    ensures SessionOk(After(w, c), h)
  {
    SessionsAfter(w.tables, c, h);
    assert After(w, c).tables == w.tables.(sessions := w.tables.sessions[h := Session(c.id, c.u, c.expiresAt, c.at)]);
  }

  lemma CallKeepsSessions(w: World, c: Call)
    requires SessionsOk(w) && Enabled(w, c)
    ensures SessionsOk(After(w, c))
  {
    var w' := After(w, c);
    forall h | h in w'.tables.sessions ensures SessionOk(w', h) {
      if h in w.tables.sessions {
        OldSessionStaysOk(w, c, h);
      } else {
        NewSessionIsOk(w, c, h);
      }
    }
  }

  /** A token was just issued or was there before, and if it was consumed it still is. */
  ghost predicate TokensLast(before: map<string, Token>, after: map<string, Token>, issued: set<string>) {
    forall h :: h in after ==> h in issued || (h in before && (before[h].consumedAt.Some? ==> after[h].consumedAt.Some?))
  }

  lemma VerificationsLast(t: Tables, c: Call)
    ensures TokensLast(t.verifications, Apply(t, c).0.verifications, if c.Register? || c.Resend? then {c.hash} else {})
  {
  }

  lemma ResetsLast(t: Tables, c: Call)
    ensures TokensLast(t.resets, Apply(t, c).0.resets, if c.RequestReset? then {c.hash} else {})
  {
  }

  lemma ChangesLast(t: Tables, c: Call)
    ensures var after := Apply(t, c).0.changes;
            forall h :: h in after ==>
              || (c.RequestChange? && h == c.hash)
              || (h in t.changes && (t.changes[h].consumedAt.Some? ==> after[h].consumedAt.Some?))
  {
  }

  lemma CallKeepsHashes(w: World, c: Call)
    requires HashesOk(w) && Enabled(w, c)
    ensures HashesOk(After(w, c))
  {
    VerificationsLast(w.tables, c);
    ResetsLast(w.tables, c);
    ChangesLast(w.tables, c);
  }

  /** A token that was used stays consumed or is gone. */
  lemma UsedStaysConsumed(w: World, c: Call, h: string)
    requires Enabled(w, c) && h in w.issued && UsedIsConsumed(w, h)
    ensures UsedIsConsumed(After(w, c), h)
  {
    VerificationsLast(w.tables, c);
    ResetsLast(w.tables, c);
    ChangesLast(w.tables, c);
  }

  /** A use is of an issued token, not consumed before and consumed after. */
  lemma UseConsumes(w: World, c: Call)
    requires HashesOk(w)
    ensures var (t, r) := Apply(w.tables, c);
            forall use :: use in UsesOf(w.tables, c, r) ==>
              use.hash in w.issued && !UsedIsConsumed(w, use.hash) && UsedIsConsumed(After(w, c), use.hash)
  {
  }

  lemma CallKeepsTokens(w: World, c: Call)
    requires TokensOk(w) && Enabled(w, c)
    ensures TokensOk(After(w, c))
  {
    var w' := After(w, c);
    var more := UsesOf(w.tables, c, Apply(w.tables, c).1);
    CallKeepsHashes(w, c);
    UseConsumes(w, c);
    assert w'.uses == w.uses + more && |more| <= 1;
    forall k | 0 <= k < |w'.uses| ensures w'.uses[k].hash in w'.issued && UsedIsConsumed(w', w'.uses[k].hash) {
      if k < |w.uses| {
        UsedStaysConsumed(w, c, w.uses[k].hash);
      } else {
        assert w'.uses[k] in more;
      }
    }
    forall i, j | 0 <= i < j < |w'.uses| ensures w'.uses[i].hash != w'.uses[j].hash {
      if j == |w.uses| {
        assert w'.uses[j] in more;
      }
    }
  }

  lemma CallKeepsInv(w: World, c: Call)
    requires Inv(w) && Enabled(w, c)
    ensures Inv(After(w, c))
  {
    CallKeepsReadings(w, c);
    CallKeepsVerifications(w, c);
    CallKeepsChanges(w, c);
    CallKeepsVerified(w, c);
    CallKeepsSessions(w, c);
    CallKeepsTokens(w, c);
  }

  lemma {:induction false} RunKeepsInv(w: World, calls: seq<Call>)
    requires Inv(w) && Valid(w, calls)
    ensures Inv(Run(w, calls))
    decreases |calls|
  {
    if calls != [] {
      CallKeepsInv(w, calls[0]);
      RunKeepsInv(After(w, calls[0]), calls[1..]);
    }
  }

  // ----- one account per address

  ghost predicate UniqueEmails(t: Tables) {
    forall u, v :: u in t.users && v in t.users && t.users[u].email == t.users[v].email ==> u == v
  }

  lemma CallKeepsEmailsUnique(t: Tables, c: Call)
    requires UniqueEmails(t)
    ensures UniqueEmails(Apply(t, c).0)
  {
    if c.ConfirmChange? {
      ConfirmIsAllOrNothing(t, c.hash, c.at, c.notice, c.builds, c.commits);
    }
  }

  /** No two users ever share an address, however changes and registrations race. */
  lemma {:induction false} EmailsStayUnique(w: World, calls: seq<Call>)
    requires UniqueEmails(w.tables)
    ensures UniqueEmails(Run(w, calls).tables)
    decreases |calls|
  {
    if calls != [] {
      CallKeepsEmailsUnique(w.tables, calls[0]);
      EmailsStayUnique(After(w, calls[0]), calls[1..]);
    }
  }

  // ----- every reachable state

  lemma Reachable(calls: seq<Call>)
    requires Valid(Init(), calls)
    ensures Inv(Run(Init(), calls))
  {
    RunKeepsInv(Init(), calls);
  }

  /** A verified address is one to which a token was mailed that was then accepted for that very user. */
  lemma VerifiedEmailProvenance(calls: seq<Call>, u: int)
    requires Valid(Init(), calls)
    ensures var w := Run(Init(), calls);
            u in w.tables.users && w.tables.users[u].verifiedAt.Some? ==> ProvedControl(w, u, w.tables.users[u].email)
  {
    Reachable(calls);
  }

  /**
   A live session was inserted after the latest change of its user's password or email, so with
   the credentials the user has now.
   */
  lemma SessionsAreNewerThanCredentials(calls: seq<Call>, h: string)
    requires Valid(Init(), calls) && h in Run(Init(), calls).tables.sessions
    ensures var w := Run(Init(), calls);
            var u := w.tables.sessions[h].userID;
            && u in w.tables.users && h in w.inserted
            && (u in w.changedAt ==> w.changedAt[u] < w.inserted[h].tick)
            && w.inserted[h].email == w.tables.users[u].email && w.inserted[h].passwordHash == w.tables.users[u].passwordHash
  {
    Reachable(calls);
    assert SessionOk(Run(Init(), calls), h);
  }

  /** No token is accepted twice, whatever was pruned and issued in between. */
  lemma TokensAreSingleUse(calls: seq<Call>, i: nat, j: nat)
    requires Valid(Init(), calls) && i < j < |Run(Init(), calls).uses|
    ensures Run(Init(), calls).uses[i].hash != Run(Init(), calls).uses[j].hash
  {
    Reachable(calls);
  }

  /** A token that was accepted is refused by every operation that takes one, without effect. */
  lemma UsedTokensAreRefused(calls: seq<Call>, k: nat, c: Call)
    requires Valid(Init(), calls) && k < |Run(Init(), calls).uses|
    requires c.VerifyEmail? || c.ConfirmChange? || c.ConsumeReset? || c.ValidateReset?
    requires c.hash == Run(Init(), calls).uses[k].hash
    ensures Apply(Run(Init(), calls).tables, c) == (Run(Init(), calls).tables, NoRows)
  {
    Reachable(calls);
    assert UsedIsConsumed(Run(Init(), calls), c.hash);
  }

  /** A session that is gone, by whatever call, never comes back: no later lookup accepts its token. */
  lemma {:induction false} RevokedStaysRevoked(w: World, calls: seq<Call>, hash: string, at: int)
    requires Valid(w, calls) && hash in w.issued && hash !in w.tables.sessions
    ensures hash !in Run(w, calls).tables.sessions
    ensures Apply(Run(w, calls).tables, LookupSession(hash, at)).1 == NoRows
    decreases |calls|
  {
    if calls != [] {
      RevokedStaysGone(w, calls[0], hash);
      RevokedStaysRevoked(After(w, calls[0]), calls[1..], hash, at);
    }
  }

  lemma RevokedStaysGone(w: World, c: Call, hash: string)
    requires Enabled(w, c) && hash in w.issued && hash !in w.tables.sessions
    ensures hash !in After(w, c).tables.sessions && hash in After(w, c).issued
  {
    if hash in After(w, c).tables.sessions {
      SessionsAfter(w.tables, c, hash);
    }
  }

  // ----- the history misses nothing

  /**
   Whatever the tables say happened is in the history: a token that becomes consumed is recorded
   as used by its user ...
   */
  lemma VerificationUseIsRecorded(w: World, c: Call, h: string)
    requires h in w.tables.verifications && w.tables.verifications[h].consumedAt.None? && h !in HashIssued(c)
    requires h in After(w, c).tables.verifications && After(w, c).tables.verifications[h].consumedAt.Some?
    ensures After(w, c).uses == w.uses + [Use(h, w.tables.verifications[h].userID)]
  {
  }

  lemma ResetUseIsRecorded(w: World, c: Call, h: string)
    requires h in w.tables.resets && w.tables.resets[h].consumedAt.None? && h !in HashIssued(c)
    requires h in After(w, c).tables.resets && After(w, c).tables.resets[h].consumedAt.Some?
    ensures After(w, c).uses == w.uses + [Use(h, w.tables.resets[h].userID)]
  {
  }

  lemma ChangeUseIsRecorded(w: World, c: Call, h: string)
    requires h in w.tables.changes && w.tables.changes[h].consumedAt.None? && h !in HashIssued(c)
    requires h in After(w, c).tables.changes && After(w, c).tables.changes[h].consumedAt.Some?
    ensures After(w, c).uses == w.uses + [Use(h, w.tables.changes[h].userID)]
  {
  }

  /** ... a password that is set or an address that changes as changed now ... */
  lemma CredentialHistoryIsComplete(w: World, c: Call, u: int)
    requires u in w.tables.users && u in After(w, c).tables.users
    requires var before, after := w.tables.users[u], After(w, c).tables.users[u];
             before.email != after.email || before.passwordHash != after.passwordHash || (c.SetPassword? && c.u == u)
    ensures u in After(w, c).changedAt && After(w, c).changedAt[u] == w.tick
  {
    UnchangedUser(w.tables, c, u);
    assert u in ChangedUser(c, Apply(w.tables, c).1);
  }

  /** ... and a new session as inserted now, with its user's credentials. */
  lemma SessionHistoryIsComplete(w: World, c: Call, h: string)
    requires h in After(w, c).tables.sessions && h !in w.tables.sessions
    ensures var w' := After(w, c); var u := w'.tables.sessions[h].userID;
            && h in w'.inserted && h in w'.issued && u in w.tables.users
            && w'.inserted[h] == Insertion(w.tick, w.tables.users[u].email, w.tables.users[u].passwordHash)
  {
    SessionsAfter(w.tables, c, h);
  }

  /** Nothing is taken out of the history. */
  lemma HistoryOnlyGrows(w: World, c: Call)
    ensures var w' := After(w, c);
            && w.uses <= w'.uses && w.issued <= w'.issued && w.everUsers <= w'.everUsers && w'.tick == w.tick + 1
            && (forall u :: u in w.changedAt ==> u in w'.changedAt && (w'.changedAt[u] == w.changedAt[u] || w'.changedAt[u] == w.tick))
  {
  }

  // ----- a verified user stays verified

  ghost predicate StillVerified(w: World, u: int) {
    u in w.everUsers && (u in w.tables.users ==> w.tables.users[u].verifiedAt.Some?)
  }

  lemma CallKeepsVerification(w: World, c: Call, u: int)
    requires Enabled(w, c) && StillVerified(w, u)
    ensures StillVerified(After(w, c), u)
  {
    UnverifiedAfter(w.tables, c, u);
  }

  lemma {:induction false} RunKeepsVerification(w: World, calls: seq<Call>, u: int)
    requires Valid(w, calls) && StillVerified(w, u)
    ensures StillVerified(Run(w, calls), u)
    decreases |calls|
  {
    if calls != [] {
      CallKeepsVerification(w, calls[0], u);
      RunKeepsVerification(After(w, calls[0]), calls[1..], u);
    }
  }

  lemma AcceptanceVerifies(w: World, c: Call)
    requires ReadingsOk(w) && (c.VerifyEmail? || c.ConfirmChange?) && Apply(w.tables, c).1.UserIs?
    ensures var u, w' := Apply(w.tables, c).1.u, After(w, c);
            u in w'.tables.users && w'.tables.users[u].verifiedAt == Some(c.at) && u in w'.everUsers
  {
  }

  /** Once its token is accepted a user is verified, and stays so as long as the account exists. */
  lemma AcceptedMeansVerified(before: seq<Call>, c: Call, after: seq<Call>)
    requires Valid(Init(), before) && (c.VerifyEmail? || c.ConfirmChange?)
    ensures var w := Run(Init(), before); var r, w' := Apply(w.tables, c).1, After(w, c);
            && (r.UserIs? ==> r.u in w'.tables.users && w'.tables.users[r.u].verifiedAt == Some(c.at))
            && (r.UserIs? && Valid(w', after) && r.u in Run(w', after).tables.users ==>
                  Run(w', after).tables.users[r.u].verifiedAt.Some?)
  {
    var w := Run(Init(), before);
    Reachable(before);
    var r, w' := Apply(w.tables, c).1, After(w, c);
    if r.UserIs? {
      AcceptanceVerifies(w, c);
      if Valid(w', after) {
        RunKeepsVerification(w', after, r.u);
      }
    }
  }
}
