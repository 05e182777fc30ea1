/** What each TOTP service call replies and does, told by the rows before and after it. */
module TotpEffects {
  import opened Common
  import opened Text
  import opened Totp
  import opened TotpSafety

  /** `step` is newer than the last one accepted, and the code typed is the one generated for it. */
  ghost predicate IsAcceptableStep(e: Environment, t: Tables, u: int, code: string, at: int, step: int) {
    && u in t.rows && (t.rows[u].lastUsed.Some? ==> t.rows[u].lastUsed.value < step)
    && Comparable(e.gen, t.rows[u].secret, TrimSpace(code), TruncDiv(at, 30))
    && IsEarliest(e.gen, t.rows[u].secret, TrimSpace(code), TruncDiv(at, 30), step)
  }

  /** The code typed hashes to an unused backup code of the user. */
  predicate IsAcceptableCode(e: Environment, t: Tables, u: int, code: string) {
    var h := e.hashCode(code);
    h in t.codes && t.codes[h] == Code(u, None)
  }

  lemma StepIsAcceptable(e: Environment, t: Tables, u: int, code: string, at: int)
    requires u in t.rows
    ensures match TryStep(e, t, u, code, at)
            case AsStep(step) => IsAcceptableStep(e, t, u, code, at, step)
            case AsBackupCode(_) => false
            case Rejected => forall step :: !IsAcceptableStep(e, t, u, code, at, step)
  {
    MatchIsTyped(e.gen, t.rows[u].secret, code, at);
  }

  predicate TakesCode(c: Call) {
    c.Disable? || c.Regenerate? || c.VerifyLogin?
  }

  /**
   What is accepted: a setup is confirmed by an acceptable time step only; the calls on an enabled
   user take an acceptable step or else an acceptable backup code; nothing else is taken.
   */
  lemma AcceptedIsTyped(e: Environment, t: Tables, c: Call)
    ensures var u, a := c.u, AcceptanceOf(e, t, c);
            match c
            case ConfirmSetup(_, code, at, _) =>
              && !a.AsBackupCode?
              && (a.AsStep? ==> IsAcceptableStep(e, t, u, code, at, a.step) && t.rows[u].enabledAt.None?)
              && (a.Rejected? && u in t.rows && t.rows[u].enabledAt.None? ==> forall step :: !IsAcceptableStep(e, t, u, code, at, step))
            case Disable(_, code, at) => IsTaken(e, t, u, code, at, a)
            case Regenerate(_, code, at, _) => IsTaken(e, t, u, code, at, a)
            case VerifyLogin(_, code, at) => IsTaken(e, t, u, code, at, a)
            case _ => a.Rejected?
  {
    if c.u in t.rows && (c.ConfirmSetup? || TakesCode(c)) {
      StepIsAcceptable(e, t, c.u, c.code, c.at);
    }
  }

  ghost predicate IsTaken(e: Environment, t: Tables, u: int, code: string, at: int, a: Acceptance) {
    if u !in t.rows || t.rows[u].enabledAt.None? then a.Rejected?
    else
      match a
      case AsStep(step) => IsAcceptableStep(e, t, u, code, at, step)
      case AsBackupCode(h) =>
        h == e.hashCode(code) && IsAcceptableCode(e, t, u, code) && forall step :: !IsAcceptableStep(e, t, u, code, at, step)
      case Rejected => !IsAcceptableCode(e, t, u, code) && forall step :: !IsAcceptableStep(e, t, u, code, at, step)
  }

  /** The tables with the acceptance `a` entered: the step as the row's last, or the backup code as used. */
  ghost predicate Entered(t: Tables, t1: Tables, u: int, a: Acceptance, at: int) {
    match a
    case AsStep(step) => u in t.rows && t1 == t.(rows := t.rows[u := Row(t.rows[u].secret, t.rows[u].enabledAt, Some(step))])
    case AsBackupCode(h) => t1 == t.(codes := t.codes[h := Code(u, Some(at))])
    case Rejected => t1 == t
  }

  /** Everybody else keeps row and codes. */
  ghost predicate OthersKept(t: Tables, t': Tables, u: int) {
    && t'.users == t.users && t'.rows - {u} == t.rows - {u}
    && forall h :: (h in t.codes && t.codes[h].userID != u <==> h in t'.codes && t'.codes[h].userID != u)
                   && (h in t.codes && t.codes[h].userID != u ==> t'.codes[h] == t.codes[h])
  }

  /** The user has exactly these codes, all unused. */
  ghost predicate HasCodes(t: Tables, u: int, hashes: set<string>) {
    forall h :: h in hashes <==> h in t.codes && t.codes[h].userID == u && t.codes[h] == Code(u, None)
  }

  lemma BeginSetupEffect(e: Environment, t: Tables, u: int, secret: string)
    ensures var (t', r) := Apply(e, t, BeginSetup(u, secret));
            && r == (if u !in t.users then UnknownUser else if u in t.rows && t.rows[u].enabledAt.Some? then AlreadyEnabled else Done)
            && (r != Done ==> t' == t)
            && (r == Done ==>
                  t' == t.(rows := t.rows[u := Row(secret, None, if u in t.rows then t.rows[u].lastUsed else None)]))
  {
  }

  lemma LoginEffect(e: Environment, t: Tables, u: int, code: string, at: int)
    ensures var (t', r) := Apply(e, t, VerifyLogin(u, code, at)); var a := AcceptanceOf(e, t, VerifyLogin(u, code, at));
            && r == (if u !in t.rows || t.rows[u].enabledAt.None? then NotEnabled else if a.Rejected? then InvalidCode else Done)
            && Entered(t, t', u, a, at)
  {
  }

  lemma DisableEffect(e: Environment, t: Tables, u: int, code: string, at: int)
    ensures var (t', r) := Apply(e, t, Disable(u, code, at)); var a := AcceptanceOf(e, t, Disable(u, code, at));
            && r == (if u !in t.rows || t.rows[u].enabledAt.None? then NotEnabled else if a.Rejected? then InvalidCode else Done)
            && (r != Done ==> t' == t)
            && (r == Done ==> u !in t'.rows && (forall h :: h in t'.codes ==> t'.codes[h].userID != u) && OthersKept(t, t', u))
  {
    AcceptedIsTyped(e, t, Disable(u, code, at));
  }

  /** New codes are stored exactly if they are distinct and nobody else has one of them. */
  lemma {:induction false} InsertionSucceeds(codes: map<string, Code>, u: int, hashes: seq<string>)
    ensures InsertCodes(codes, u, hashes).Some? <==> NoDuplicates(hashes) && forall h :: h in hashes ==> h !in codes
    decreases |hashes|
  {
    if hashes != [] {
      var h, rest := hashes[0], hashes[1..];
      assert hashes == [h] + rest;
      InsertionSucceeds(codes[h := Code(u, None)], u, rest);
      if NoDuplicates(hashes) {
        assert forall i, j :: 0 <= i < j < |rest| ==> rest[i] == hashes[i + 1] && rest[j] == hashes[j + 1];
        assert h !in rest by {
          assert forall j :: 0 <= j < |rest| ==> rest[j] == hashes[j + 1];
        }
      }
      if NoDuplicates(rest) && h !in rest {
        assert forall i, j :: 0 <= i < j < |hashes| ==> hashes[i] != hashes[j] by {
          forall i, j | 0 <= i < j < |hashes| ensures hashes[i] != hashes[j] {
            assert hashes[j] == rest[j - 1];
            assert i > 0 ==> hashes[i] == rest[i - 1];
          }
        }
      }
    }
  }

  lemma ReplacementEffect(t: Tables, u: int, hashes: seq<string>)
    ensures var fits := NoDuplicates(hashes) && forall h :: h in hashes ==> h !in t.codes || t.codes[h].userID == u;
            && (WithNewCodes(t, u, hashes).Some? <==> fits)
            && (fits ==> var t' := WithNewCodes(t, u, hashes).value;
                  t'.rows == t.rows && HasCodes(t', u, Elems(hashes)) && OthersKept(t, t', u)
                  && forall h :: h in t'.codes && t'.codes[h].userID == u ==> h in hashes)
  {
    var left := DeleteCodes(t, u).codes;
    InsertionSucceeds(left, u, hashes);
    assert forall h :: h in left <==> h in t.codes && t.codes[h].userID != u;
    if WithNewCodes(t, u, hashes).Some? {
      Inserted(left, u, hashes);
      assert forall h :: h in Elems(hashes) <==> h in hashes;
    }
  }

  lemma RegenerateEffect(e: Environment, t: Tables, u: int, code: string, at: int, hashes: seq<string>)
    ensures var c := Regenerate(u, code, at, hashes); var (t', r) := Apply(e, t, c); var a := AcceptanceOf(e, t, c);
            var fits := NoDuplicates(hashes) && forall h :: h in hashes ==> h !in t.codes || t.codes[h].userID == u;
            && r == (if u !in t.rows || t.rows[u].enabledAt.None? then NotEnabled else if a.Rejected? then InvalidCode
                     else if fits then Done else StoreError)
            && (r != Done ==> Entered(t, t', u, a, at))
            && (r == Done ==>
                  && OthersKept(t, t', u) && HasCodes(t', u, Elems(hashes))
                  && (forall h :: h in t'.codes && t'.codes[h].userID == u ==> h in hashes)
                  && u in t'.rows && t'.rows[u] == Row(t.rows[u].secret, t.rows[u].enabledAt, if a.AsStep? then Some(a.step) else t.rows[u].lastUsed))
  {
    var c := Regenerate(u, code, at, hashes);
    var a := AcceptanceOf(e, t, c);
    AcceptedIsTyped(e, t, c);
    var t1 := Accept(t, u, a, at);
    ReplacementEffect(t1, u, hashes);
  }

  lemma ConfirmSetupEffect(e: Environment, t: Tables, u: int, code: string, at: int, hashes: seq<string>)
    ensures var c := ConfirmSetup(u, code, at, hashes); var (t', r) := Apply(e, t, c); var a := AcceptanceOf(e, t, c);
            var fits := NoDuplicates(hashes) && forall h :: h in hashes ==> h !in t.codes || t.codes[h].userID == u;
            && r == (if u !in t.rows then NotStarted else if t.rows[u].enabledAt.Some? then AlreadyEnabled
                     else if a.Rejected? then InvalidCode else if fits then Done else StoreError)
            && (r != Done ==> Entered(t, t', u, a, at))
            && (r == Done ==>
                  && OthersKept(t, t', u) && HasCodes(t', u, Elems(hashes))
                  && (forall h :: h in t'.codes && t'.codes[h].userID == u ==> h in hashes)
                  && a.AsStep? && u in t'.rows && t'.rows[u] == Row(t.rows[u].secret, Some(at), Some(a.step)))
  {
    var c := ConfirmSetup(u, code, at, hashes);
    var a := AcceptanceOf(e, t, c);
    AcceptedIsTyped(e, t, c);
    ReplacementEffect(EnableRow(Accept(t, u, a, at), u, at), u, hashes);
  }
}
