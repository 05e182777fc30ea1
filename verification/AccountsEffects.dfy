/** What each account transaction replies and does, told by the rows before and after it. */
module AccountsEffects {
  import opened Common
  import opened Accounts

  // ----- tokens

  /** Rows other than the one under `k` are as before. */
  predicate OnlyAt<K, V(==)>(m: map<K, V>, m': map<K, V>, k: K) {
    m' - {k} == m - {k}
  }

  /** A registration succeeds for a free address; the user is unverified and the mail goes to that address. */
  lemma RegisterEffect(t: Tables, u: int, email: string, passwordHash: string, hash: string, expiresAt: int, end: End)
    requires u !in t.users && hash !in t.verifications
    ensures var (t', r) := Apply(t, Register(u, email, passwordHash, hash, expiresAt, end));
            && (r == EmailAlreadyRegistered <==> exists v :: v in t.users && t.users[v].email == email)
            && (r == Done <==> (forall v :: v in t.users ==> t.users[v].email != email) && end == Commits)
            && (r != Done ==> t' == t)
            && (r == Done ==>
                  && t' == t.(users := t'.users, verifications := t'.verifications, mails := t'.mails)
                  && OnlyAt(t.users, t'.users, u) && u in t'.users && t'.users[u] == User(email, passwordHash, None)
                  && OnlyAt(t.verifications, t'.verifications, hash)
                  && hash in t'.verifications && t'.verifications[hash] == Token(u, expiresAt, None)
                  && t'.mails == t.mails + {Confirmation(email, hash)})
  {
  }

  /**
   Verifying an address: a token that is there, unconsumed and unexpired, of a user that exists,
   is consumed and verifies that user and nobody else; any other changes nothing.
   */
  lemma VerifyEmailEffect(t: Tables, hash: string, at: int)
    ensures var (t', r) := Apply(t, VerifyEmail(hash, at));
            if hash in t.verifications && t.verifications[hash].consumedAt.None? && at < t.verifications[hash].expiresAt
               && t.verifications[hash].userID in t.users
            then
              var u := t.verifications[hash].userID;
              && t' == t.(users := t'.users, verifications := t'.verifications)
              && OnlyAt(t.users, t'.users, u) && u in t'.users
              && t'.users[u].verifiedAt == Some(at)
              && t'.users[u].email == t.users[u].email && t'.users[u].passwordHash == t.users[u].passwordHash
              && OnlyAt(t.verifications, t'.verifications, hash) && hash in t'.verifications
              && t'.verifications[hash] == Token(u, t.verifications[hash].expiresAt, Some(at))
              && r == UserIs(u, t'.users[u])
            else t' == t && r == NoRows
  {
  }

  /** A resend first reads the user as it is. */
  lemma ReadEffect(t: Tables, u: int)
    ensures Apply(t, ReadForResend(u)) == (t, if u in t.users then UserIs(u, t.users[u]) else NoRows)
  {
  }

  lemma ResendEffect(t: Tables, u: int, email: string, hash: string, expiresAt: int, end: End)
    ensures var (t', r) := Apply(t, Resend(u, email, hash, expiresAt, end));
            if u in t.users && hash !in t.verifications && end == Commits then
              && r == Done && t' == t.(verifications := t'.verifications, mails := t'.mails)
              && OnlyAt(t.verifications, t'.verifications, hash)
              && hash in t'.verifications && t'.verifications[hash] == Token(u, expiresAt, None)
              && t'.mails == t.mails + {Confirmation(email, hash)}
            else t' == t && r == Failed
  {
  }

  lemma RequestChangeEffect(t: Tables, u: int, email: string, hash: string, expiresAt: int, end: End)
    ensures var (t', r) := Apply(t, RequestChange(u, email, hash, expiresAt, end));
            if u in t.users && hash !in t.changes && end == Commits then
              && r == Done && t' == t.(changes := t'.changes, mails := t'.mails)
              && OnlyAt(t.changes, t'.changes, hash) && hash in t'.changes && t'.changes[hash] == ChangeToken(u, email, expiresAt, None)
              && t'.mails == t.mails + {ChangeVerification(email, hash)}
            else t' == t && r == Failed
  {
  }

  lemma RequestResetEffect(t: Tables, u: int, email: string, hash: string, expiresAt: int, end: End)
    ensures var (t', r) := Apply(t, RequestReset(u, email, hash, expiresAt, end));
            if u in t.users && hash !in t.resets && end == Commits then
              && r == Done && t' == t.(resets := t'.resets, mails := t'.mails)
              && OnlyAt(t.resets, t'.resets, hash) && hash in t'.resets && t'.resets[hash] == Token(u, expiresAt, None)
              && t'.mails == t.mails + {ResetLink(email, hash)}
            else t' == t && r == Failed
  {
  }

  /** A reset token is valid exactly while it is unconsumed and unexpired, and consuming it then names its user. */
  lemma ResetTokenEffect(t: Tables, hash: string, at: int)
    ensures var (t', r) := Apply(t, ConsumeReset(hash, at));
            if hash in t.resets && t.resets[hash].consumedAt.None? && at < t.resets[hash].expiresAt then
              && Apply(t, ValidateReset(hash, at)) == (t, Done)
              && r == TokenOf(t.resets[hash].userID) && t' == t.(resets := t'.resets)
              && OnlyAt(t.resets, t'.resets, hash) && hash in t'.resets
              && t'.resets[hash] == Token(t.resets[hash].userID, t.resets[hash].expiresAt, Some(at))
            else t' == t && r == NoRows && Apply(t, ValidateReset(hash, at)) == (t, NoRows)
  {
  }

  // ----- credentials and accounts

  lemma SetPasswordEffect(t: Tables, u: int, passwordHash: string)
    ensures var (t', r) := Apply(t, SetPassword(u, passwordHash));
            && t' == t.(users := t'.users, sessions := t'.sessions)
            && OnlyAt(t.users, t'.users, u) && (u in t'.users <==> u in t.users)
            && (u in t.users ==>
                  t'.users[u].passwordHash == passwordHash && t'.users[u].email == t.users[u].email
                  && t'.users[u].verifiedAt == t.users[u].verifiedAt)
            && (forall h :: h in t'.sessions <==> h in t.sessions && t.sessions[h].userID != u)
            && (forall h :: h in t'.sessions ==> t'.sessions[h] == t.sessions[h])
  {
  }

  /** Deleting an account removes the user and all it owns, and nothing of anybody else. */
  lemma DeleteAccountEffect(t: Tables, u: int)
    ensures var t' := Apply(t, DeleteAccount(u)).0;
            && u !in t'.users && t'.users == t.users - {u} && t'.mails == t.mails
            && (forall h :: h in t'.sessions <==> h in t.sessions && t.sessions[h].userID != u)
            && (forall h :: h in t'.verifications <==> h in t.verifications && t.verifications[h].userID != u)
            && (forall h :: h in t'.resets <==> h in t.resets && t.resets[h].userID != u)
            && (forall h :: h in t'.changes <==> h in t.changes && t.changes[h].userID != u)
  {
  }

  lemma DeleteAccountKeeps(t: Tables, u: int)
    ensures var t' := Apply(t, DeleteAccount(u)).0;
            && (forall h :: h in t'.sessions ==> t'.sessions[h] == t.sessions[h])
            && (forall h :: h in t'.verifications ==> t'.verifications[h] == t.verifications[h])
            && (forall h :: h in t'.resets ==> t'.resets[h] == t.resets[h])
            && (forall h :: h in t'.changes ==> t'.changes[h] == t.changes[h])
  {
  }

  // ----- sessions

  /** A session answers with its own user, as the user is now, exactly from its creation until it expires. */
  lemma SessionAnswersItsUser(t: Tables, u: int, hash: string, id: int, expiresAt: int, at: int, later: int)
    requires u in t.users && hash !in t.sessions
    ensures var (t', r) := Apply(t, CreateSession(u, hash, id, expiresAt, at));
            && r == Done && t' == t.(sessions := t'.sessions) && OnlyAt(t.sessions, t'.sessions, hash)
            && hash in t'.sessions && t'.sessions[hash] == Session(id, u, expiresAt, at)
            && Apply(t', LookupSession(hash, later)) == (t', if later < expiresAt then UserIs(u, t.users[u]) else NoRows)
  {
  }

  lemma LookupEffect(t: Tables, hash: string, at: int)
    ensures Apply(t, LookupSession(hash, at)).0 == t
    ensures forall u, user :: Apply(t, LookupSession(hash, at)).1 == UserIs(u, user) <==>
              && hash in t.sessions && at < t.sessions[hash].expiresAt
              && t.sessions[hash].userID == u && u in t.users && t.users[u] == user
    ensures Apply(t, LookupSession(hash, at)).1.UserIs? || Apply(t, LookupSession(hash, at)).1.NoRows?
  {
  }

  lemma ListEffect(t: Tables, u: int, at: int)
    ensures var (t', r) := Apply(t, ListSessions(u, at));
            && t' == t && r.Sessions?
            && (forall h :: h in r.active <==> h in t.sessions && t.sessions[h].userID == u && at < t.sessions[h].expiresAt)
            && (forall h :: h in r.active ==> r.active[h] == t.sessions[h])
  {
  }

  lemma LogoutEffect(t: Tables, hash: string)
    ensures var t' := Apply(t, Logout(hash)).0;
            hash !in t'.sessions && OnlyAt(t.sessions, t'.sessions, hash) && t' == t.(sessions := t'.sessions)
  {
  }

  lemma RevokeOthersEffect(t: Tables, u: int, hash: string)
    ensures var t' := Apply(t, RevokeOthers(u, hash)).0;
            && t' == t.(sessions := t'.sessions)
            && (forall h :: h in t'.sessions <==> h in t.sessions && (t.sessions[h].userID != u || h == hash))
            && (forall h :: h in t'.sessions ==> t'.sessions[h] == t.sessions[h])
  {
  }

  /** Some session with this rowid belongs to the user and is not the caller's own. */
  ghost predicate HasOther(t: Tables, u: int, id: int, hash: string) {
    exists h :: h in t.sessions && h != hash && t.sessions[h].id == id && t.sessions[h].userID == u
  }

  /** The caller's own session is live and has this rowid. */
  predicate IsOwn(t: Tables, u: int, id: int, hash: string, at: int) {
    hash in t.sessions && t.sessions[hash].id == id && t.sessions[hash].userID == u && at < t.sessions[hash].expiresAt
  }

  lemma RevokeByIDEffect(t: Tables, u: int, id: int, hash: string, at: int)
    requires id > 0
    ensures var (t', r) := Apply(t, RevokeByID(u, id, hash, at));
            && t' == t.(sessions := t'.sessions)
            && (forall h :: h in t'.sessions <==> h in t.sessions && (h == hash || t.sessions[h].id != id || t.sessions[h].userID != u))
            && (forall h :: h in t'.sessions ==> t'.sessions[h] == t.sessions[h])
            && r == if HasOther(t, u, id, hash) then Done else if IsOwn(t, u, id, hash, at) then CannotRevokeCurrent else InvalidTarget
  {
    if h :| h in t.sessions && h != hash && t.sessions[h].id == id && t.sessions[h].userID == u {
      assert Revocable(t, u, id, hash, h);
    }
  }
}
