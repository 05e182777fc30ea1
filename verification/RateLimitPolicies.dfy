/** The rate-limited actions, their default policies and how overrides are merged in. */
module RateLimitPolicies {
  import opened RateLimiter

  const MINUTE: int := 60_000_000_000

  datatype Name =
    | Login
    | LoginPerIP
    | Register
    | RegisterPerIP
    | ForgotPassword
    | ForgotPasswordPerIP
    | ResetPassword
    | PublicResendVerification
    | PublicResendVerificationPerIP
    | AccountResendVerification
    | ChangePassword
    | ChangeEmail
    | RevokeSession
    | RevokeOtherSessions
    | DeleteAccount
    | TOTPChallenge
    | TOTPDisable
    | TOTPConfirm
    | TOTPRegenerateCodes
    | PasskeyRegister
    | PasskeyLogin
    | PasskeyManage

  type Policies = map<Name, Policy>

  const NAMES: seq<Name> := [
    Login, LoginPerIP, Register, RegisterPerIP, ForgotPassword,
    ForgotPasswordPerIP, ResetPassword, PublicResendVerification, PublicResendVerificationPerIP, AccountResendVerification,
    ChangePassword, ChangeEmail, RevokeSession, RevokeOtherSessions, DeleteAccount,
    TOTPChallenge, TOTPDisable, TOTPConfirm, TOTPRegenerateCodes, PasskeyRegister,
    PasskeyLogin, PasskeyManage]

  function Default(name: Name): Policy {
    match name
    case Login => Policy(5, MINUTE)
    case LoginPerIP => Policy(50, 15 * MINUTE)
    case Register => Policy(3, 10 * MINUTE)
    case RegisterPerIP => Policy(10, 15 * MINUTE)
    case ForgotPassword => Policy(3, 15 * MINUTE)
    case ForgotPasswordPerIP => Policy(20, 15 * MINUTE)
    case ResetPassword => Policy(5, 15 * MINUTE)
    case PublicResendVerification => Policy(3, 15 * MINUTE)
    case PublicResendVerificationPerIP => Policy(20, 15 * MINUTE)
    case AccountResendVerification => Policy(5, 15 * MINUTE)
    case ChangePassword => Policy(5, 15 * MINUTE)
    case ChangeEmail => Policy(5, 15 * MINUTE)
    case RevokeSession => Policy(20, 15 * MINUTE)
    case RevokeOtherSessions => Policy(10, 15 * MINUTE)
    case DeleteAccount => Policy(3, 15 * MINUTE)
    case TOTPChallenge => Policy(5, MINUTE)
    case TOTPDisable => Policy(5, 15 * MINUTE)
    case TOTPConfirm => Policy(10, 15 * MINUTE)
    case TOTPRegenerateCodes => Policy(5, 15 * MINUTE)
    case PasskeyRegister => Policy(10, 15 * MINUTE)
    case PasskeyLogin => Policy(10, MINUTE)
    case PasskeyManage => Policy(20, 15 * MINUTE)
  }

  /** Each field of an override counts only when it is positive. */
  function Merged(base: Policy, override: Policy): Policy {
    Policy(if override.maxRequests > 0 then override.maxRequests else base.maxRequests,
           if override.window > 0 then override.window else base.window)
  }

  ghost predicate IsResolution(overrides: Policies, resolved: Policies) {
    && (forall n: Name :: n in resolved)
    && forall n: Name :: resolved[n] == if n in overrides then Merged(Default(n), overrides[n]) else Default(n)
  }

  method Resolve(overrides: Policies) returns (resolved: Policies)
    ensures IsResolution(overrides, resolved)
    ensures forall n: Name :: n !in overrides ==> resolved[n] == Default(n)
    ensures forall n: Name :: n in overrides ==>
              && resolved[n].maxRequests == (if overrides[n].maxRequests > 0 then overrides[n].maxRequests else Default(n).maxRequests)
              && resolved[n].window == (if overrides[n].window > 0 then overrides[n].window else Default(n).window)
  {
    resolved := map[];
    for i := 0 to |NAMES|
      invariant forall k :: 0 <= k < i ==>
                  NAMES[k] in resolved &&
                  resolved[NAMES[k]] == if NAMES[k] in overrides then Merged(Default(NAMES[k]), overrides[NAMES[k]]) else Default(NAMES[k])
    {
      var name := NAMES[i];
      var policy := Default(name);
      if name in overrides {
        var override := overrides[name];
        if override.maxRequests > 0 {
          policy := policy.(maxRequests := override.maxRequests);
        }
        if override.window > 0 {
          policy := policy.(window := override.window);
        }
      }
      resolved := resolved[name := policy];
    }
    forall n: Name
      ensures n in resolved
      ensures resolved[n] == if n in overrides then Merged(Default(n), overrides[n]) else Default(n)
    {
      EveryNameIsListed(n);
      var k :| 0 <= k < |NAMES| && NAMES[k] == n;
    }
  }

  lemma EveryNameIsListed(n: Name)
    ensures n in NAMES
  {
    match n
    case Login => assert NAMES[0] == n;
    case LoginPerIP => assert NAMES[1] == n;
    case Register => assert NAMES[2] == n;
    case RegisterPerIP => assert NAMES[3] == n;
    case ForgotPassword => assert NAMES[4] == n;
    case ForgotPasswordPerIP => assert NAMES[5] == n;
    case ResetPassword => assert NAMES[6] == n;
    case PublicResendVerification => assert NAMES[7] == n;
    case PublicResendVerificationPerIP => assert NAMES[8] == n;
    case AccountResendVerification => assert NAMES[9] == n;
    case ChangePassword => assert NAMES[10] == n;
    case ChangeEmail => assert NAMES[11] == n;
    case RevokeSession => assert NAMES[12] == n;
    case RevokeOtherSessions => assert NAMES[13] == n;
    case DeleteAccount => assert NAMES[14] == n;
    case TOTPChallenge => assert NAMES[15] == n;
    case TOTPDisable => assert NAMES[16] == n;
    case TOTPConfirm => assert NAMES[17] == n;
    case TOTPRegenerateCodes => assert NAMES[18] == n;
    case PasskeyRegister => assert NAMES[19] == n;
    case PasskeyLogin => assert NAMES[20] == n;
    case PasskeyManage => assert NAMES[21] == n;
  }

  /** Every resolved policy is an active limit, so the sliding-window bound holds for every action ... */
  lemma ResolvedPoliciesLimit(overrides: Policies, resolved: Policies, n: Name)
    requires IsResolution(overrides, resolved)
    ensures resolved[n].Limits()
  {
    var d := Default(n);
    assert d.Limits();
  }

  /** ... and resolving what is already resolved changes nothing. */
  lemma ResolvingIsIdempotent(overrides: Policies, resolved: Policies, again: Policies)
    requires IsResolution(overrides, resolved) && IsResolution(resolved, again)
    ensures again == resolved
  {
    forall n: Name ensures again[n] == resolved[n] {
      ResolvedPoliciesLimit(overrides, resolved, n);
    }
    assert again.Keys == resolved.Keys by {
      forall n: Name ensures n in again.Keys <==> n in resolved.Keys {
      }
    }
  }

  /** The defaults per address are ceilings laid over those per email: they allow more calls in all, over a window no shorter. */
  lemma CeilingsAreCoarser()
    ensures forall pair :: pair in {(Login, LoginPerIP), (Register, RegisterPerIP), (ForgotPassword, ForgotPasswordPerIP),
                                    (PublicResendVerification, PublicResendVerificationPerIP)} ==>
              Default(pair.0).maxRequests < Default(pair.1).maxRequests && Default(pair.0).window <= Default(pair.1).window
    ensures Default(Login) == Policy(5, MINUTE) && Default(TOTPChallenge) == Policy(5, MINUTE)
  {
  }
}
