/**
 The account service over the store. Its methods read, decide and write; what they read stays
 valid until they write. Hashing, password verification and address syntax are parameters.
 */
module AuthService {
  import opened Common
  import opened Accounts
  import Text

  const PASSWORD_MAX_LENGTH := 4096

  datatype Environment = Environment(
    hashToken: string -> string,
    // None: the stored hash cannot be decoded.
    verify: (string, string) -> Option<bool>,
    normalizeEmail: string -> string,
    isValidEmail: string -> bool)

  datatype Outcome =
    | Success
    | InvalidSession
    | InvalidSessionTarget
    | CannotRevokeCurrentSession
    | InvalidPasswordResetToken
    | InvalidPassword
    | PasswordTooLong
    | CurrentPasswordIncorrect
    | PasswordUnchanged
    | InvalidEmail
    | EmailUnchanged
    | Error

  predicate IsCurrentPassword(env: Environment, t: Tables, u: int, password: string) {
    u in t.users && env.verify(t.users[u].passwordHash, password) == Some(true)
  }

  /** The session listed under hash `h` is a row of user `u` that is live at `at`. */
  predicate Listed(t: Tables, u: int, at: int, h: string) {
    h in t.sessions && t.sessions[h].userID == u && t.sessions[h].expiresAt > at
  }

  class Service {
    const env: Environment
    const passwordMinLen: int
    var store: AuthStore

    constructor (env: Environment, passwordMinLen: int, store: AuthStore)
      ensures this.env == env && this.passwordMinLen == passwordMinLen && this.store == store
    {
      this.env := env;
      this.passwordMinLen := passwordMinLen;
      this.store := store;
    }

    function ValidatePassword(password: string): (r: Outcome)
      ensures r == Success <==> passwordMinLen <= |password| <= 4096
      ensures r == InvalidPassword <==> |password| < passwordMinLen
      ensures r == PasswordTooLong <==> passwordMinLen <= |password| && 4096 < |password|
    {
      if |password| < passwordMinLen then InvalidPassword
      else if |password| > PASSWORD_MAX_LENGTH then PasswordTooLong
      else Success
    }

    /** Deletes the session, unless it is the caller's own; tells a caller who names that one so. */
    method RevokeSessionByID(u: int, currentToken: string, id: int, at: int) returns (r: Outcome)
      modifies store
      ensures Text.TrimSpace(currentToken) == "" ==> r == InvalidSession && store.tables == old(store.tables)
      ensures Text.TrimSpace(currentToken) != "" ==>
                var (t, reply) := Apply(old(store.tables), RevokeByID(u, id, env.hashToken(Text.TrimSpace(currentToken)), at));
                && store.tables == t
                && (r == Success <==> reply == Done)
                && (r == CannotRevokeCurrentSession <==> reply == CannotRevokeCurrent)
                && (r == InvalidSessionTarget <==> reply == InvalidTarget)
    {
      var current := Text.TrimSpace(currentToken);
      if current == "" {
        return InvalidSession;
      }
      if id <= 0 {
        return InvalidSessionTarget;
      }
      var hash := env.hashToken(current);
      var deleted := store.DeleteSessionByIDAndUserIDAndTokenHashNot(id, u, hash);
      if deleted > 0 {
        return Success;
      }
      ghost var before := old(store.tables);
      assert store.tables.sessions == before.sessions && store.tables == before;
      var rest := ActiveSessions(store.tables, u, at).Keys;
      while rest != {}
        invariant store.tables == before
        invariant forall h :: h in rest ==> Listed(before, u, at, h)
        invariant forall h :: Listed(before, u, at, h) && before.sessions[h].id == id && h == hash ==> h in rest
      {
        ghost var someHash := MemberOf(rest);
        var h :| h in rest;
        if store.tables.sessions[h].id == id && h == hash {
          return CannotRevokeCurrentSession;
        }
        rest := rest - {h};
      }
      return InvalidSessionTarget;
    }

    /**
     The token is spent first, the password set after. `passwordHash` is the new password's hash,
     or None when hashing fails; `stored` is whether the store then takes it.
     */
    method ResetPasswordWithToken(tokenGiven: string, newPassword: string, passwordHash: Option<string>, stored: bool, at: int)
      returns (r: Outcome)
      modifies store
      ensures var t, token := old(store.tables), Text.TrimSpace(tokenGiven);
              var accepted := token != "" && ValidatePassword(newPassword) == Success && env.hashToken(token) in t.resets
                              && Usable(t.resets[env.hashToken(token)], at);
              && (accepted ==>
                    var spent := Apply(t, ConsumeReset(env.hashToken(token), at)).0;
                    var u := t.resets[env.hashToken(token)].userID;
                    if passwordHash.None? || !stored then r == Error && store.tables == spent
                    else r == Success && store.tables == Apply(spent, SetPassword(u, passwordHash.value)).0)
              && (!accepted ==>
                    && store.tables == t
                    && r == if token != "" && ValidatePassword(newPassword) != Success then ValidatePassword(newPassword) else InvalidPasswordResetToken)
    {
      var token := Text.TrimSpace(tokenGiven);
      if token == "" {
        return InvalidPasswordResetToken;
      }
      r := ValidatePassword(newPassword);
      if r != Success {
        return;
      }
      var consumed := store.ConsumePasswordResetToken(env.hashToken(token), at);
      if consumed == NoRows {
        return InvalidPasswordResetToken;
      }
      if passwordHash.None? {
        return Error;
      }
      var reply := store.SetPasswordAndRevokeSessions(consumed.u, passwordHash.value, stored);
      return if reply == Done then Success else Error;
    }

    method ChangePassword(u: int, currentPassword: string, newPassword: string, passwordHash: Option<string>, stored: bool)
      returns (r: Outcome)
      modifies store
      ensures r == Success ==> passwordHash.Some? && store.tables == Apply(old(store.tables), SetPassword(u, passwordHash.value)).0
      ensures r != Success ==> store.tables == old(store.tables)
      ensures r == CurrentPasswordIncorrect <==>
                !(u in old(store.tables).users && env.verify(old(store.tables).users[u].passwordHash, currentPassword) == Some(true))
      ensures r == Success <==>
                && u in old(store.tables).users
                && env.verify(old(store.tables).users[u].passwordHash, currentPassword) == Some(true)
                && passwordMinLen <= |newPassword| <= 4096
                && env.verify(old(store.tables).users[u].passwordHash, newPassword) != Some(true)
                && passwordHash.Some? && stored
      ensures IsCurrentPassword(env, old(store.tables), u, currentPassword) && ValidatePassword(newPassword) != Success ==>
                r == ValidatePassword(newPassword)
      ensures r == PasswordUnchanged <==>
                && IsCurrentPassword(env, old(store.tables), u, currentPassword)
                && ValidatePassword(newPassword) == Success
                && IsCurrentPassword(env, old(store.tables), u, newPassword)
    {
      if u !in store.tables.users {
        return CurrentPasswordIncorrect;
      }
      var known := store.tables.users[u].passwordHash;
      if env.verify(known, currentPassword) != Some(true) {
        return CurrentPasswordIncorrect;
      }
      r := ValidatePassword(newPassword);
      if r != Success {
        return;
      }
      if env.verify(known, newPassword) == Some(true) {
        return PasswordUnchanged;
      }
      if passwordHash.None? {
        return Error;
      }
      var reply := store.SetPasswordAndRevokeSessions(u, passwordHash.value, stored);
      return if reply == Done then Success else Error;
    }

    /**
     Only the account's owner gets a link sent, only to a new address that nobody has; for an
     address somebody else has, success is feigned and nothing is written.
     */
    method RequestEmailChange(u: int, currentPassword: string, address: string, token: string, expiresAt: int, end: End)
      returns (r: Outcome)
      modifies store
      ensures var t, newEmail, hash := old(store.tables), env.normalizeEmail(address), env.hashToken(token);
              var (t', reply) := Apply(t, RequestChange(u, newEmail, hash, expiresAt, end));
              if !(u in t.users && env.verify(t.users[u].passwordHash, currentPassword) == Some(true)) then
                r == CurrentPasswordIncorrect && store.tables == t
              else if !env.isValidEmail(newEmail) then r == InvalidEmail && store.tables == t
              else if newEmail == env.normalizeEmail(t.users[u].email) then r == EmailUnchanged && store.tables == t
              else if exists v :: v in t.users && t.users[v].email == newEmail then r == Success && store.tables == t
              else store.tables == t' && r == (if reply == Done then Success else Error)
      ensures store.tables != old(store.tables) ==>
                && r == Success
                && env.hashToken(token) in store.tables.changes
                && store.tables.changes[env.hashToken(token)] == ChangeToken(u, env.normalizeEmail(address), expiresAt, None)
                && ChangeVerification(env.normalizeEmail(address), env.hashToken(token)) in store.tables.mails
                && forall v :: v in old(store.tables).users ==> old(store.tables).users[v].email != env.normalizeEmail(address)
    {
      if u !in store.tables.users || env.verify(store.tables.users[u].passwordHash, currentPassword) != Some(true) {
        return CurrentPasswordIncorrect;
      }
      var newEmail := env.normalizeEmail(address);
      if !env.isValidEmail(newEmail) {
        return InvalidEmail;
      }
      if newEmail == env.normalizeEmail(store.tables.users[u].email) {
        return EmailUnchanged;
      }
      if exists v :: v in store.tables.users && store.tables.users[v].email == newEmail {
        return Success;
      }
      var reply := store.RequestEmailChange(u, newEmail, env.hashToken(token), expiresAt, end);
      return if reply == Done then Success else Error;
    }
  }

  /**
   What a reset by token comes to: the new password is in place, no session of the user is left,
   the token is spent and no other user is touched.
   */
  lemma ResetTakesEffect(t: Tables, hash: string, at: int, passwordHash: string)
    requires hash in t.resets && Usable(t.resets[hash], at)
    ensures var u := t.resets[hash].userID;
            var t' := Apply(Apply(t, ConsumeReset(hash, at)).0, SetPassword(u, passwordHash)).0;
            && (u in t.users ==> u in t'.users && t'.users[u] == t.users[u].(passwordHash := passwordHash))
            && (forall h :: h in t'.sessions <==> h in t.sessions && t.sessions[h].userID != u)
            && (forall later :: Apply(t', ConsumeReset(hash, later)) == (t', NoRows))
            && t'.users.Keys == t.users.Keys && (forall v :: v in t.users && v != u ==> t'.users[v] == t.users[v])
  {
    var u := t.resets[hash].userID;
    var t' := Apply(Apply(t, ConsumeReset(hash, at)).0, SetPassword(u, passwordHash)).0;
    assert t'.resets[hash].consumedAt == Some(at);
  }
}
