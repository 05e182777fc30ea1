/**
 Time-based one-time passwords: the three-window scan, the two TOTP tables, and the service calls
 over them, each taken as one atomic step.
 */
module Totp {
  import opened Common
  import opened Text

  const PERIOD: int := 30
  const DIGITS: nat := 6
  const BACKUP_CODE_COUNT: nat := 8

  /** The code of a secret at a time step, None when the secret does not decode. */
  type CodeGenerator = (string, int) -> Option<string>

  /** Go's integer division, which truncates toward zero. */
  function TruncDiv(a: int, b: int): int
    requires b > 0
  {
    if a >= 0 then a / b else -(-a / b)
  }

  /** The first of the three time steps around now whose code matches. */
  function MatchingStep(gen: CodeGenerator, secret: string, code: string, now: int): Option<int> {
    var c, t := TruncDiv(now, PERIOD), TrimSpace(code);
    if |t| != DIGITS || gen(secret, c - 1).None? || gen(secret, c).None? || gen(secret, c + 1).None? then None
    else if gen(secret, c - 1) == Some(t) then Some(c - 1)
    else if gen(secret, c) == Some(t) then Some(c)
    else if gen(secret, c + 1) == Some(t) then Some(c + 1)
    else None
  }

  /** `t` has six characters and all three windows around the time step `c` have codes. */
  predicate Comparable(gen: CodeGenerator, secret: string, t: string, c: int) {
    |t| == 6 && gen(secret, c - 1).Some? && gen(secret, c).Some? && gen(secret, c + 1).Some?
  }

  /** `step` is the earliest of those three whose code is `t`. */
  predicate IsEarliest(gen: CodeGenerator, secret: string, t: string, c: int, step: int) {
    && c - 1 <= step <= c + 1 && gen(secret, step) == Some(t)
    && forall earlier :: c - 1 <= earlier < step ==> gen(secret, earlier) != Some(t)
  }

  /** The specification finds exactly the step whose code was typed. */
  lemma MatchIsTyped(gen: CodeGenerator, secret: string, code: string, now: int)
    ensures var t, c := TrimSpace(code), TruncDiv(now, 30);
            match MatchingStep(gen, secret, code, now)
            case Some(step) => Comparable(gen, secret, t, c) && IsEarliest(gen, secret, t, c, step)
            case None => !Comparable(gen, secret, t, c) || forall step :: c - 1 <= step <= c + 1 ==> gen(secret, step) != Some(t)
    ensures now >= 0 ==> TruncDiv(now, 30) == now / 30
  {
  }

  method VerifyWithCounter(gen: CodeGenerator, secret: string, code: string, now: int) returns (matched: int, ok: bool)
    ensures MatchingStep(gen, secret, code, now) == if ok then Some(matched) else None
    ensures var t, c := TrimSpace(code), TruncDiv(now, 30);
            && (ok <==> Comparable(gen, secret, t, c) && exists step :: c - 1 <= step <= c + 1 && gen(secret, step) == Some(t))
            && (ok ==> IsEarliest(gen, secret, t, c, matched))
  {
    var trimmed := TrimSpace(code);
    if |trimmed| != DIGITS {
      return 0, false;
    }
    var counter := TruncDiv(now, PERIOD);
    matched, ok := 0, false;
    for delta := -1 to 2
      invariant forall step :: counter - 1 <= step < counter + delta ==> gen(secret, step).Some?
      invariant ok ==> counter - 1 <= matched < counter + delta && gen(secret, matched) == Some(trimmed)
      invariant forall step :: counter - 1 <= step < (if ok then matched else counter + delta) ==> gen(secret, step) != Some(trimmed)
    {
      var step := counter + delta;
      var candidate := gen(secret, step);
      if candidate.None? {
        return 0, false;
      }
      if candidate.value == trimmed && !ok {
        matched, ok := step, true;
      }
    }
    assert gen(secret, counter - 1).Some? && gen(secret, counter).Some? && gen(secret, counter + 1).Some?;
    MatchIsTyped(gen, secret, code, now);
  }

  // ----- the tables

  datatype Row = Row(secret: string, enabledAt: Option<int>, lastUsed: Option<int>)

  datatype Code = Code(userID: int, usedAt: Option<int>)

  datatype Tables = Tables(users: set<int>, rows: map<int, Row>, codes: map<string, Code>)

  function UpsertPending(t: Tables, u: int, secret: string): Tables {
    t.(rows := t.rows[u := if u in t.rows then t.rows[u].(secret := secret, enabledAt := None) else Row(secret, None, None)])
  }

  predicate IsNewer(row: Row, counter: int) {
    row.lastUsed.None? || row.lastUsed.value < counter
  }

  /** Whether the conditional update found its row, which is when the step is newer than the last. */
  predicate CounterClaimable(t: Tables, u: int, counter: int) {
    u in t.rows && IsNewer(t.rows[u], counter)
  }

  function ClaimCounter(t: Tables, u: int, counter: int): Tables {
    if CounterClaimable(t, u, counter) then t.(rows := t.rows[u := t.rows[u].(lastUsed := Some(counter))]) else t
  }

  predicate CodeConsumable(t: Tables, u: int, hash: string) {
    hash in t.codes && t.codes[hash].userID == u && t.codes[hash].usedAt.None?
  }

  function ConsumeCode(t: Tables, u: int, hash: string, at: int): Tables {
    if CodeConsumable(t, u, hash) then t.(codes := t.codes[hash := Code(u, Some(at))]) else t
  }

  function EnableRow(t: Tables, u: int, at: int): Tables {
    if u in t.rows && t.rows[u].enabledAt.None? then t.(rows := t.rows[u := t.rows[u].(enabledAt := Some(at))]) else t
  }

  function CodesOf(t: Tables, u: int): set<string> {
    set h | h in t.codes && t.codes[h].userID == u
  }

  function DeleteCodes(t: Tables, u: int): Tables {
    t.(codes := t.codes - CodesOf(t, u))
  }

  /** code_hash is unique: a hash already in the table fails the insert. */
  function InsertCodes(codes: map<string, Code>, u: int, hashes: seq<string>): Option<map<string, Code>>
    decreases |hashes|
  {
    if hashes == [] then Some(codes)
    else if hashes[0] in codes then None
    else InsertCodes(codes[hashes[0] := Code(u, None)], u, hashes[1..])
  }

  /** A transaction that replaces a user's codes; None when it fails and is rolled back. */
  function WithNewCodes(t: Tables, u: int, hashes: seq<string>): Option<Tables> {
    match InsertCodes(DeleteCodes(t, u).codes, u, hashes)
    case Some(codes) => Some(t.(codes := codes))
    case None => None
  }

  function DeleteTotpAndCodes(t: Tables, u: int): Tables {
    DeleteCodes(t, u).(rows := t.rows - {u})
  }

  // ----- service calls

  datatype Environment = Environment(gen: CodeGenerator, hashCode: string -> string)

  datatype Call =
    | AddUser(u: int)
    | DeleteUser(u: int)
    | BeginSetup(u: int, secret: string)
    | ConfirmSetup(u: int, code: string, at: int, hashes: seq<string>)
    | Disable(u: int, code: string, at: int)
    | Regenerate(u: int, code: string, at: int, hashes: seq<string>)
    | VerifyLogin(u: int, code: string, at: int)

  datatype Reply = Done | UnknownUser | AlreadyEnabled | NotStarted | NotEnabled | InvalidCode | StoreError

  /** What a presented code was accepted as. */
  datatype Acceptance = AsStep(step: int) | AsBackupCode(hash: string) | Rejected

  function TryStep(e: Environment, t: Tables, u: int, code: string, at: int): Acceptance
    requires u in t.rows
  {
    match MatchingStep(e.gen, t.rows[u].secret, code, at)
    case Some(step) => if CounterClaimable(t, u, step) then AsStep(step) else Rejected
    case None => Rejected
  }

  function TryCode(e: Environment, t: Tables, u: int, code: string, at: int): Acceptance
    requires u in t.rows
  {
    var a := TryStep(e, t, u, code, at);
    if a.AsStep? then a
    else if CodeConsumable(t, u, e.hashCode(code)) then AsBackupCode(e.hashCode(code))
    else Rejected
  }

  function Accept(t: Tables, u: int, a: Acceptance, at: int): Tables {
    match a
    case AsStep(step) => ClaimCounter(t, u, step)
    case AsBackupCode(hash) => ConsumeCode(t, u, hash, at)
    case Rejected => t
  }

  predicate Enabled(t: Tables, u: int) {
    u in t.rows && t.rows[u].enabledAt.Some?
  }

  /** How the call takes the presented code, if it looks at one at all. */
  function AcceptanceOf(e: Environment, t: Tables, c: Call): Acceptance {
    match c
    case ConfirmSetup(u, code, at, _) => if u in t.rows && !Enabled(t, u) then TryStep(e, t, u, code, at) else Rejected
    case Disable(u, code, at) => if Enabled(t, u) then TryCode(e, t, u, code, at) else Rejected
    case Regenerate(u, code, at, _) => if Enabled(t, u) then TryCode(e, t, u, code, at) else Rejected
    case VerifyLogin(u, code, at) => if Enabled(t, u) then TryCode(e, t, u, code, at) else Rejected
    case _ => Rejected
  }

  function Apply(e: Environment, t: Tables, c: Call): (Tables, Reply) {
    var a := AcceptanceOf(e, t, c);
    match c
    case AddUser(u) => (t.(users := t.users + {u}), Done)
    case DeleteUser(u) => (DeleteTotpAndCodes(t, u).(users := t.users - {u}), Done)
    case BeginSetup(u, secret) =>
      if u !in t.users then (t, UnknownUser)
      else if Enabled(t, u) then (t, AlreadyEnabled)
      else (UpsertPending(t, u, secret), Done)
    case ConfirmSetup(u, _, at, hashes) =>
      if u !in t.rows then (t, NotStarted)
      else if Enabled(t, u) then (t, AlreadyEnabled)
      else if a.Rejected? then (t, InvalidCode)
      else
        var t1 := Accept(t, u, a, at);
        (match WithNewCodes(EnableRow(t1, u, at), u, hashes)
         case Some(t2) => (t2, Done)
         case None => (t1, StoreError))
    case Disable(u, _, at) =>
      if !Enabled(t, u) then (t, NotEnabled)
      else if a.Rejected? then (t, InvalidCode)
      else (DeleteTotpAndCodes(Accept(t, u, a, at), u), Done)
    case Regenerate(u, _, at, hashes) =>
      if !Enabled(t, u) then (t, NotEnabled)
      else if a.Rejected? then (t, InvalidCode)
      else
        var t1 := Accept(t, u, a, at);
        (match WithNewCodes(t1, u, hashes)
         case Some(t2) => (t2, Done)
         case None => (t1, StoreError))
    case VerifyLogin(u, _, at) =>
      if !Enabled(t, u) then (t, NotEnabled)
      else if a.Rejected? then (t, InvalidCode)
      else (Accept(t, u, a, at), Done)
  }

  // ----- the store and the service as classes

  class TotpService {
    const env: Environment
    var tables: Tables

    constructor (env: Environment)
      ensures this.env == env && tables == Tables({}, map[], map[])
    {
      this.env := env;
      tables := Tables({}, map[], map[]);
    }

    method ClaimTOTPCounter(u: int, counter: int) returns (claimed: bool)
      modifies this
      ensures tables == ClaimCounter(old(tables), u, counter) && claimed == CounterClaimable(old(tables), u, counter)
    {
      claimed := u in tables.rows && (tables.rows[u].lastUsed.None? || tables.rows[u].lastUsed.value < counter);
      if claimed {
        tables := tables.(rows := tables.rows[u := tables.rows[u].(lastUsed := Some(counter))]);
      }
    }

    method ConsumeTOTPBackupCode(u: int, hash: string, at: int) returns (consumed: bool)
      modifies this
      ensures tables == ConsumeCode(old(tables), u, hash, at) && consumed == CodeConsumable(old(tables), u, hash)
    {
      consumed := hash in tables.codes && tables.codes[hash].userID == u && tables.codes[hash].usedAt.None?;
      if consumed {
        tables := tables.(codes := tables.codes[hash := Code(u, Some(at))]);
      }
    }

    /** Deletes the user's codes and inserts the new ones, all or nothing. */
    method ReplaceBackupCodes(u: int, hashes: seq<string>) returns (ok: bool)
      modifies this
      ensures ok <==> WithNewCodes(old(tables), u, hashes).Some?
      ensures tables == if ok then WithNewCodes(old(tables), u, hashes).value else old(tables)
    {
      var begun := tables;
      tables := DeleteCodes(tables, u);
      ghost var deleted := tables;
      var i := 0;
      while i < |hashes|
        invariant 0 <= i <= |hashes|
        invariant tables == deleted.(codes := tables.codes)
        invariant InsertCodes(deleted.codes, u, hashes) == InsertCodes(tables.codes, u, hashes[i..])
      {
        assert hashes[i..][1..] == hashes[i + 1..];
        if hashes[i] in tables.codes {
          tables := begun;
          return false;
        }
        tables := tables.(codes := tables.codes[hashes[i] := Code(u, None)]);
        i := i + 1;
      }
      return true;
    }

    method EnableTOTPWithBackupCodes(u: int, at: int, hashes: seq<string>) returns (ok: bool)
      modifies this
      ensures ok <==> WithNewCodes(EnableRow(old(tables), u, at), u, hashes).Some?
      ensures tables == if ok then WithNewCodes(EnableRow(old(tables), u, at), u, hashes).value else old(tables)
    {
      var begun := tables;
      tables := EnableRow(tables, u, at);
      ok := ReplaceBackupCodes(u, hashes);
      if !ok {
        tables := begun;
      }
    }

    method VerifyTOTPCode(u: int, code: string, at: int) returns (verified: bool)
      requires u in tables.rows
      modifies this
      ensures var a := TryStep(env, old(tables), u, code, at);
              verified == a.AsStep? && tables == Accept(old(tables), u, a, at)
    {
      var counter, ok := VerifyWithCounter(env.gen, tables.rows[u].secret, code, at);
      if !ok {
        return false;
      }
      verified := ClaimTOTPCounter(u, counter);
    }

    /** A TOTP code, or failing that an unused backup code. */
    method VerifyEither(u: int, code: string, at: int) returns (accepted: bool)
      requires u in tables.rows
      modifies this
      ensures var a := TryCode(env, old(tables), u, code, at);
              accepted == !a.Rejected? && tables == Accept(old(tables), u, a, at)
    {
      accepted := VerifyTOTPCode(u, code, at);
      if !accepted {
        accepted := ConsumeTOTPBackupCode(u, env.hashCode(code), at);
      }
    }

    method BeginTOTPSetup(u: int, secret: string) returns (r: Reply)
      modifies this
      ensures (tables, r) == Apply(env, old(tables), BeginSetup(u, secret))
    {
      if u !in tables.users {
        return UnknownUser;
      }
      if u in tables.rows && tables.rows[u].enabledAt.Some? {
        return AlreadyEnabled;
      }
      tables := UpsertPending(tables, u, secret);
      return Done;
    }

    method ConfirmTOTPSetup(u: int, code: string, at: int, hashes: seq<string>) returns (r: Reply)
      modifies this
      ensures (tables, r) == Apply(env, old(tables), ConfirmSetup(u, code, at, hashes))
    {
      if u !in tables.rows {
        return NotStarted;
      }
      if tables.rows[u].enabledAt.Some? {
        return AlreadyEnabled;
      }
      var verified := VerifyTOTPCode(u, code, at);
      if !verified {
        return InvalidCode;
      }
      var ok := EnableTOTPWithBackupCodes(u, at, hashes);
      return if ok then Done else StoreError;
    }

    method DisableTOTP(u: int, code: string, at: int) returns (r: Reply)
      modifies this
      ensures (tables, r) == Apply(env, old(tables), Disable(u, code, at))
    {
      if !Enabled(tables, u) {
        return NotEnabled;
      }
      var accepted := VerifyEither(u, code, at);
      if !accepted {
        return InvalidCode;
      }
      tables := DeleteTotpAndCodes(tables, u);
      return Done;
    }

    method RegenerateBackupCodes(u: int, code: string, at: int, hashes: seq<string>) returns (r: Reply)
      modifies this
      ensures (tables, r) == Apply(env, old(tables), Regenerate(u, code, at, hashes))
    {
      if !Enabled(tables, u) {
        return NotEnabled;
      }
      var accepted := VerifyEither(u, code, at);
      if !accepted {
        return InvalidCode;
      }
      var ok := ReplaceBackupCodes(u, hashes);
      return if ok then Done else StoreError;
    }

    method VerifyTOTPLogin(u: int, code: string, at: int) returns (r: Reply)
      modifies this
      ensures (tables, r) == Apply(env, old(tables), VerifyLogin(u, code, at))
    {
      if !Enabled(tables, u) {
        return NotEnabled;
      }
      var accepted := VerifyEither(u, code, at);
      return if accepted then Done else InvalidCode;
    }
  }
}
