/** What every run of TOTP service calls keeps: no time step is replayed, no backup code is used twice. */
module TotpSafety {
  import opened Common
  import opened Totp

  datatype AcceptedStep = AcceptedStep(step: int, at: int)

  /** The steps accepted during a row's whole life, the one that ended it included. */
  datatype Life = Life(u: int, steps: seq<AcceptedStep>)

  /** A user's codes from one generation to the next, and those accepted, the last one included. */
  datatype Generation = Generation(u: int, codes: set<string>, used: seq<string>)

  /**
   The tables with their history: for each row of user_totp the time steps accepted so far in the
   row's life, for each user the backup codes accepted since the codes were last generated, and
   the lives and generations that are over.
   */
  datatype World = World(
    tables: Tables,
    steps: map<int, seq<AcceptedStep>>,
    used: map<int, seq<string>>,
    lives: set<Life>,
    generations: set<Generation>)

  function Init(): World {
    World(Tables({}, map[], map[]), map[], map[], {}, {})
  }

  function StepsOf(w: World, u: int): seq<AcceptedStep> {
    if u in w.steps then w.steps[u] else []
  }

  function UsedOf(w: World, u: int): seq<string> {
    if u in w.used then w.used[u] else []
  }

  function TimeOf(c: Call): int {
    match c
    case ConfirmSetup(_, _, at, _) => at
    case Disable(_, _, at) => at
    case Regenerate(_, _, at, _) => at
    case VerifyLogin(_, _, at) => at
    case _ => 0
  }

  /** The call replaced or deleted the user's codes. */
  predicate NewGeneration(c: Call, r: Reply) {
    c.DeleteUser? || (r.Done? && (c.ConfirmSetup? || c.Disable? || c.Regenerate?))
  }

  /** The history of the caller's row and codes with the acceptance of this call. */
  function StepsWith(w: World, c: Call, a: Acceptance): seq<AcceptedStep> {
    StepsOf(w, c.u) + if a.AsStep? then [AcceptedStep(a.step, TimeOf(c))] else []
  }

  function UsedWith(w: World, c: Call, a: Acceptance): seq<string> {
    UsedOf(w, c.u) + if a.AsBackupCode? then [a.hash] else []
  }

  /** An acceptance is recorded first; then a row that is gone closes its life, and new or no codes their generation. */
  function After(e: Environment, w: World, c: Call): World {
    var (t, r) := Apply(e, w.tables, c);
    var a := AcceptanceOf(e, w.tables, c);
    World(t,
          if c.u !in t.rows then w.steps - {c.u} else w.steps[c.u := StepsWith(w, c, a)],
          if NewGeneration(c, r) then w.used - {c.u} else w.used[c.u := UsedWith(w, c, a)],
          w.lives + (if c.u in w.tables.rows && c.u !in t.rows then {Life(c.u, StepsWith(w, c, a))} else {}),
          w.generations + if NewGeneration(c, r) then {Generation(c.u, CodesOf(w.tables, c.u), UsedWith(w, c, a))} else {})
  }

  /** Calls with as many fresh code hashes as the service generates. */
  predicate WellFormed(c: Call) {
    (c.ConfirmSetup? || c.Regenerate?) ==> |c.hashes| == BACKUP_CODE_COUNT
  }

  ghost function Run(e: Environment, w: World, calls: seq<Call>): World
    decreases |calls|
  {
    if calls == [] then w else Run(e, After(e, w, calls[0]), calls[1..])
  }

  // ----- the invariant

  ghost predicate Increasing(s: seq<AcceptedStep>) {
    forall i, j :: 0 <= i < j < |s| ==> s[i].step < s[j].step
  }

  ghost predicate InWindow(a: AcceptedStep) {
    TruncDiv(a.at, PERIOD) - 1 <= a.step <= TruncDiv(a.at, PERIOD) + 1
  }

  ghost predicate StepsOk(w: World, u: int) {
    var s := StepsOf(w, u);
    && Increasing(s)
    && (forall i :: 0 <= i < |s| ==> InWindow(s[i]))
    && (u !in w.tables.rows ==> s == [])
    && (u in w.tables.rows ==> w.tables.rows[u].lastUsed == if s == [] then None else Some(s[|s| - 1].step))
  }

  function UsedCodes(t: Tables, u: int): set<string> {
    set h | h in CodesOf(t, u) && t.codes[h].usedAt.Some?
  }

  ghost predicate CodesOk(w: World, u: int) {
    && |CodesOf(w.tables, u)| == (if Enabled(w.tables, u) then BACKUP_CODE_COUNT else 0)
    && IsOrderOf(UsedOf(w, u), UsedCodes(w.tables, u))
  }

  ghost predicate LifeOk(s: seq<AcceptedStep>) {
    Increasing(s) && forall i :: 0 <= i < |s| ==> InWindow(s[i])
  }

  ghost predicate GenerationOk(g: Generation) {
    NoDuplicates(g.used) && Elems(g.used) <= g.codes && |g.codes| <= BACKUP_CODE_COUNT
  }

  ghost predicate Inv(w: World) {
    && (forall u :: StepsOk(w, u) && CodesOk(w, u))
    && (forall l :: l in w.lives ==> LifeOk(l.steps))
    && (forall g :: g in w.generations ==> GenerationOk(g))
  }

  // ----- the statements

  lemma {:induction false} Inserted(codes: map<string, Code>, u: int, hashes: seq<string>)
    requires InsertCodes(codes, u, hashes).Some?
    ensures var r := InsertCodes(codes, u, hashes).value;
            && NoDuplicates(hashes) && Elems(hashes) !! codes.Keys
            && r.Keys == codes.Keys + Elems(hashes)
            && (forall h :: h in codes ==> r[h] == codes[h])
            && (forall h :: h in Elems(hashes) ==> r[h] == Code(u, None))
    decreases |hashes|
  {
    if hashes == [] {
      assert Elems(hashes) == {};
    } else {
      var h, rest := hashes[0], hashes[1..];
      Inserted(codes[h := Code(u, None)], u, rest);
      assert hashes == [h] + rest;
      assert Elems(hashes) == {h} + Elems(rest);
      forall i, j | 0 <= i < j < |hashes| ensures hashes[i] != hashes[j] {
        assert hashes[j] == rest[j - 1] && hashes[j] in Elems(rest);
        if i > 0 {
          assert hashes[i] == rest[i - 1];
        }
      }
    }
  }

  /** A successful replacement leaves the user with exactly the new codes, unused ... */
  lemma NewCodes(t: Tables, u: int, hashes: seq<string>)
    requires WithNewCodes(t, u, hashes).Some?
    ensures var t' := WithNewCodes(t, u, hashes).value;
            t'.rows == t.rows && CodesOf(t', u) == Elems(hashes) && |CodesOf(t', u)| == |hashes| && UsedCodes(t', u) == {}
  {
    Inserted(DeleteCodes(t, u).codes, u, hashes);
    OrderSize(hashes);
    var t' := WithNewCodes(t, u, hashes).value;
    forall h ensures h in CodesOf(t', u) <==> h in Elems(hashes) {
    }
  }

  /** ... and the others with theirs. */
  lemma OtherCodes(t: Tables, u: int, hashes: seq<string>, v: int)
    requires WithNewCodes(t, u, hashes).Some? && v != u
    ensures var t' := WithNewCodes(t, u, hashes).value;
            CodesOf(t', v) == CodesOf(t, v) && UsedCodes(t', v) == UsedCodes(t, v)
  {
    Inserted(DeleteCodes(t, u).codes, u, hashes);
    var t' := WithNewCodes(t, u, hashes).value;
    forall h ensures h in CodesOf(t', v) <==> h in CodesOf(t, v) {
    }
  }

  lemma Deleted(t: Tables, u: int)
    ensures var t' := DeleteTotpAndCodes(t, u);
            && u !in t'.rows && CodesOf(t', u) == {} && UsedCodes(t', u) == {}
            && (forall v :: v != u ==> (v in t'.rows <==> v in t.rows) && (v in t.rows ==> t'.rows[v] == t.rows[v]))
            && forall v :: v != u ==> CodesOf(t', v) == CodesOf(t, v) && UsedCodes(t', v) == UsedCodes(t, v)
  {
  }

  lemma MatchIsInWindow(gen: CodeGenerator, secret: string, code: string, now: int)
    requires MatchingStep(gen, secret, code, now).Some?
    ensures InWindow(AcceptedStep(MatchingStep(gen, secret, code, now).value, now))
  {
  }

  /** A code that is accepted: its step is new and in the window, or it is a so far unused backup code. */
  lemma AcceptedIsNew(e: Environment, t: Tables, c: Call)
    ensures var a := AcceptanceOf(e, t, c);
            && (!a.Rejected? ==> c.u in t.rows)
            && (a.AsStep? ==> IsNewer(t.rows[c.u], a.step) && InWindow(AcceptedStep(a.step, TimeOf(c))))
            && (a.AsBackupCode? ==> Enabled(t, c.u) && CodeConsumable(t, c.u, a.hash))
  {
    var a := AcceptanceOf(e, t, c);
    if a.AsStep? {
      match c
      case ConfirmSetup(u, code, at, _) => MatchIsInWindow(e.gen, t.rows[u].secret, code, at);
      case Disable(u, code, at) => MatchIsInWindow(e.gen, t.rows[u].secret, code, at);
      case Regenerate(u, code, at, _) => MatchIsInWindow(e.gen, t.rows[u].secret, code, at);
      case VerifyLogin(u, code, at) => MatchIsInWindow(e.gen, t.rows[u].secret, code, at);
      case _ =>
    }
  }

  // ----- one call

  /** The row of user `u` after accepting `a`. */
  lemma RowsAfter(e: Environment, t: Tables, c: Call, v: int)
    ensures var (t', r) := Apply(e, t, c);
            && (v != c.u ==> (v in t'.rows <==> v in t.rows) && (v in t.rows ==> t'.rows[v] == t.rows[v]))
            && (c.u in t'.rows && c.u !in t.rows ==> t'.rows[c.u].lastUsed == None)
            && (c.u in t'.rows && c.u in t.rows ==>
                  t'.rows[c.u].lastUsed == if AcceptanceOf(e, t, c).AsStep? then Some(AcceptanceOf(e, t, c).step) else t.rows[c.u].lastUsed)
  {
    AcceptedIsNew(e, t, c);
  }

  /** A new step is appended, or the steps are kept or forgotten with the row. */
  lemma StepsAfter(e: Environment, w: World, c: Call, v: int)
    ensures var a := AcceptanceOf(e, w.tables, c);
            StepsOf(After(e, w, c), v) ==
              if v != c.u then StepsOf(w, v) else if v !in Apply(e, w.tables, c).0.rows then [] else StepsWith(w, c, a)
  {
  }

  lemma LongerLife(w: World, c: Call, a: Acceptance)
    requires StepsOk(w, c.u) && (a.AsStep? ==> c.u in w.tables.rows && IsNewer(w.tables.rows[c.u], a.step) && InWindow(AcceptedStep(a.step, TimeOf(c))))
    ensures LifeOk(StepsWith(w, c, a))
  {
    var s := StepsOf(w, c.u);
    if a.AsStep? {
      assert s != [] ==> s[|s| - 1].step < a.step;
    } else {
      assert StepsWith(w, c, a) == s;
    }
  }

  lemma CallKeepsSteps(e: Environment, w: World, c: Call, v: int)
    requires StepsOk(w, v)
    ensures StepsOk(After(e, w, c), v)
  {
    var a := AcceptanceOf(e, w.tables, c);
    RowsAfter(e, w.tables, c, v);
    StepsAfter(e, w, c, v);
    if v == c.u {
      AcceptedIsNew(e, w.tables, c);
      LongerLife(w, c, a);
      assert !a.AsStep? ==> StepsWith(w, c, a) == StepsOf(w, v);
    }
  }

  /** Accepting a code leaves the user the same codes; the backup code presented becomes used. */
  lemma CodesAfterAccept(t: Tables, u: int, a: Acceptance, at: int)
    requires a.AsBackupCode? ==> CodeConsumable(t, u, a.hash)
    ensures var t' := Accept(t, u, a, at);
            && (forall v :: CodesOf(t', v) == CodesOf(t, v))
            && (forall v :: UsedCodes(t', v) == UsedCodes(t, v) + if v == u && a.AsBackupCode? then {a.hash} else {})
            && (a.AsBackupCode? ==> a.hash !in UsedCodes(t, u))
            && (forall v :: Enabled(t', v) <==> Enabled(t, v))
  {
    var t' := Accept(t, u, a, at);
    forall v ensures CodesOf(t', v) == CodesOf(t, v) {
    }
    forall v ensures UsedCodes(t', v) == UsedCodes(t, v) + if v == u && a.AsBackupCode? then {a.hash} else {} {
      assert CodesOf(t', v) == CodesOf(t, v);
    }
  }

  /** Without a new generation the call's only effect on the codes is the acceptance of the one presented. */
  lemma KeptTables(e: Environment, t: Tables, c: Call)
    requires var (t', r) := Apply(e, t, c); !NewGeneration(c, r)
    ensures var (t', r) := Apply(e, t, c);
            && t'.codes == Accept(t, c.u, AcceptanceOf(e, t, c), TimeOf(c)).codes
            && forall v :: Enabled(t', v) <==> Enabled(t, v)
  {
    AcceptedIsNew(e, t, c);
  }

  lemma SameCodes(t: Tables, t': Tables, v: int)
    requires t.codes == t'.codes
    ensures CodesOf(t, v) == CodesOf(t', v) && UsedCodes(t, v) == UsedCodes(t', v)
  {
  }

  lemma OneMoreUsed(used: seq<string>, codes: set<string>, hash: string)
    requires IsOrderOf(used, codes) && hash !in codes
    ensures IsOrderOf(used + [hash], codes + {hash})
  {
    assert Elems(used + [hash]) == Elems(used) + {hash};
    assert hash !in Elems(used);
  }

  lemma UsedAfter(e: Environment, w: World, c: Call, v: int)
    ensures var a, r := AcceptanceOf(e, w.tables, c), Apply(e, w.tables, c).1;
            UsedOf(After(e, w, c), v) == if v != c.u then UsedOf(w, v) else if NewGeneration(c, r) then [] else UsedWith(w, c, a)
  {
  }

  lemma MoreUsed(w: World, c: Call, a: Acceptance)
    requires CodesOk(w, c.u) && (a.AsBackupCode? ==> CodeConsumable(w.tables, c.u, a.hash))
    ensures IsOrderOf(UsedWith(w, c, a), UsedCodes(w.tables, c.u) + if a.AsBackupCode? then {a.hash} else {})
  {
    if a.AsBackupCode? {
      OneMoreUsed(UsedOf(w, c.u), UsedCodes(w.tables, c.u), a.hash);
    } else {
      assert UsedWith(w, c, a) == UsedOf(w, c.u);
      assert UsedCodes(w.tables, c.u) + {} == UsedCodes(w.tables, c.u);
    }
  }

  lemma KeptGeneration(e: Environment, w: World, c: Call, v: int)
    requires CodesOk(w, v)
    requires var (t', r) := Apply(e, w.tables, c); !NewGeneration(c, r)
    ensures CodesOk(After(e, w, c), v)
  {
    var (t', r) := Apply(e, w.tables, c);
    var a := AcceptanceOf(e, w.tables, c);
    AcceptedIsNew(e, w.tables, c);
    KeptTables(e, w.tables, c);
    CodesAfterAccept(w.tables, c.u, a, TimeOf(c));
    SameCodes(t', Accept(w.tables, c.u, a, TimeOf(c)), v);
    UsedAfter(e, w, c, v);
    if v == c.u {
      MoreUsed(w, c, a);
    }
  }

  /** The codes of everyone after a call that replaced or deleted those of its user. */
  ghost predicate Regenerated(t: Tables, t': Tables, u: int) {
    && |CodesOf(t', u)| == (if Enabled(t', u) then BACKUP_CODE_COUNT else 0)
    && UsedCodes(t', u) == {}
    && forall v :: v != u ==>
         CodesOf(t', v) == CodesOf(t, v) && UsedCodes(t', v) == UsedCodes(t, v) && (Enabled(t', v) <==> Enabled(t, v))
  }

  lemma DeletionRegenerates(e: Environment, t: Tables, c: Call)
    requires (c.Disable? && Apply(e, t, c).1.Done?) || c.DeleteUser?
    ensures Regenerated(t, Apply(e, t, c).0, c.u)
  {
    var a := AcceptanceOf(e, t, c);
    AcceptedIsNew(e, t, c);
    var t1 := Accept(t, c.u, a, TimeOf(c));
    CodesAfterAccept(t, c.u, a, TimeOf(c));
    Deleted(t1, c.u);
    forall v | v != c.u
      ensures var t' := Apply(e, t, c).0;
              CodesOf(t', v) == CodesOf(t, v) && UsedCodes(t', v) == UsedCodes(t, v) && (Enabled(t', v) <==> Enabled(t, v))
    {
      SameCodes(Apply(e, t, c).0, DeleteTotpAndCodes(t1, c.u), v);
    }
    SameCodes(Apply(e, t, c).0, DeleteTotpAndCodes(t1, c.u), c.u);
  }

  lemma ReplacementRegenerates(t: Tables, t1: Tables, u: int, hashes: seq<string>)
    requires WithNewCodes(t1, u, hashes).Some? && |hashes| == BACKUP_CODE_COUNT && Enabled(t1, u)
    requires forall v :: v != u ==>
               CodesOf(t1, v) == CodesOf(t, v) && UsedCodes(t1, v) == UsedCodes(t, v) && (Enabled(t1, v) <==> Enabled(t, v))
    ensures Regenerated(t, WithNewCodes(t1, u, hashes).value, u)
  {
    NewCodes(t1, u, hashes);
    forall v | v != u
      ensures var t' := WithNewCodes(t1, u, hashes).value;
              CodesOf(t', v) == CodesOf(t1, v) && UsedCodes(t', v) == UsedCodes(t1, v)
    {
      OtherCodes(t1, u, hashes, v);
    }
  }

  lemma RegenerationRegenerates(e: Environment, t: Tables, c: Call)
    requires (c.ConfirmSetup? || c.Regenerate?) && WellFormed(c) && Apply(e, t, c).1.Done?
    ensures Regenerated(t, Apply(e, t, c).0, c.u)
  {
    var a := AcceptanceOf(e, t, c);
    AcceptedIsNew(e, t, c);
    var t1 := Accept(t, c.u, a, TimeOf(c));
    CodesAfterAccept(t, c.u, a, TimeOf(c));
    var t2 := if c.ConfirmSetup? then EnableRow(t1, c.u, c.at) else t1;
    forall v ensures CodesOf(t2, v) == CodesOf(t1, v) && UsedCodes(t2, v) == UsedCodes(t1, v) {
      SameCodes(t2, t1, v);
    }
    ReplacementRegenerates(t, t2, c.u, c.hashes);
  }

  lemma FreshGeneration(e: Environment, w: World, c: Call, v: int)
    requires CodesOk(w, v) && WellFormed(c)
    requires var (t', r) := Apply(e, w.tables, c); NewGeneration(c, r)
    ensures CodesOk(After(e, w, c), v)
  {
    if c.ConfirmSetup? || c.Regenerate? {
      RegenerationRegenerates(e, w.tables, c);
    } else {
      DeletionRegenerates(e, w.tables, c);
    }
    UsedAfter(e, w, c, v);
  }

  /** The acceptance of a call that ends a life or a generation is as new as any other. */
  lemma ClosedAreOk(e: Environment, w: World, c: Call)
    requires StepsOk(w, c.u) && CodesOk(w, c.u)
    ensures var a := AcceptanceOf(e, w.tables, c);
            LifeOk(StepsWith(w, c, a)) && GenerationOk(Generation(c.u, CodesOf(w.tables, c.u), UsedWith(w, c, a)))
  {
    var a := AcceptanceOf(e, w.tables, c);
    AcceptedIsNew(e, w.tables, c);
    LongerLife(w, c, a);
    MoreUsed(w, c, a);
  }

  lemma CallKeepsInv(e: Environment, w: World, c: Call)
    requires Inv(w) && WellFormed(c)
    ensures Inv(After(e, w, c))
  {
    var (t', r) := Apply(e, w.tables, c);
    assert StepsOk(w, c.u) && CodesOk(w, c.u);
    ClosedAreOk(e, w, c);
    forall v ensures StepsOk(After(e, w, c), v) && CodesOk(After(e, w, c), v) {
      CallKeepsSteps(e, w, c, v);
      if NewGeneration(c, r) {
        FreshGeneration(e, w, c, v);
      } else {
        KeptGeneration(e, w, c, v);
      }
    }
  }

  ghost predicate AllWellFormed(calls: seq<Call>) {
    forall i :: 0 <= i < |calls| ==> WellFormed(calls[i])
  }

  lemma {:induction false} RunKeepsInv(e: Environment, w: World, calls: seq<Call>)
    requires Inv(w) && AllWellFormed(calls)
    ensures Inv(Run(e, w, calls))
    decreases |calls|
  {
    if calls != [] {
      CallKeepsInv(e, w, calls[0]);
      RunKeepsInv(e, After(e, w, calls[0]), calls[1..]);
    }
  }

  // ----- the theorems

  /** How many accepted steps were verified between two Unix times. */
  ghost function CountBetween(s: seq<AcceptedStep>, from: int, to: int): nat
    decreases |s|
  {
    if s == [] then 0
    else CountBetween(s[..|s| - 1], from, to) + (if from <= s[|s| - 1].at <= to then 1 else 0)
  }

  lemma TruncDivIsMonotonic(a: int, b: int)
    requires a <= b
    ensures TruncDiv(a, PERIOD) <= TruncDiv(b, PERIOD)
  {
  }

  lemma {:induction false} CountIsBounded(s: seq<AcceptedStep>, from: int, to: int)
    requires Increasing(s) && (forall i :: 0 <= i < |s| ==> InWindow(s[i])) && from <= to
    ensures var lo, hi := TruncDiv(from, PERIOD) - 1, TruncDiv(to, PERIOD) + 1;
            CountBetween(s, from, to) <= if s == [] then 0 else Max(0, Min(s[|s| - 1].step, hi) - lo + 1)
    decreases |s|
  {
    if s != [] {
      var init, last := s[..|s| - 1], s[|s| - 1];
      CountIsBounded(init, from, to);
      assert init != [] ==> init[|init| - 1].step < last.step;
      if from <= last.at <= to {
        TruncDivIsMonotonic(from, last.at);
        TruncDivIsMonotonic(last.at, to);
      }
    }
  }

  /** The steps accepted during the life that the user's row has now, or during an earlier one. */
  ghost predicate IsLife(w: World, u: int, s: seq<AcceptedStep>) {
    s == StepsOf(w, u) || Life(u, s) in w.lives
  }

  /**
   Replay safety (section 5.2 of RFC 6238): in every run of service calls, during every life of a
   user_totp row, even through a new setup, the accepted time steps strictly increase, so no step
   is accepted twice by login, confirmation, regeneration or the disabling that ends the life.
   */
  lemma StepsAreNeverReplayed(e: Environment, calls: seq<Call>, u: int, s: seq<AcceptedStep>)
    requires AllWellFormed(calls) && IsLife(Run(e, Init(), calls), u, s)
    ensures Increasing(s)
  {
    RunKeepsInv(e, Init(), calls);
    assert StepsOk(Run(e, Init(), calls), u);
  }

  /** The steps accepted during a life between Unix times T1 and T2 number at most T2/30 - T1/30 + 3. */
  lemma AcceptanceRate(e: Environment, calls: seq<Call>, u: int, s: seq<AcceptedStep>, from: int, to: int)
    requires AllWellFormed(calls) && IsLife(Run(e, Init(), calls), u, s) && from <= to
    ensures CountBetween(s, from, to) <= TruncDiv(to, 30) - TruncDiv(from, 30) + 3
  {
    RunKeepsInv(e, Init(), calls);
    assert StepsOk(Run(e, Init(), calls), u);
    CountIsBounded(s, from, to);
    TruncDivIsMonotonic(from, to);
  }

  /** After every run, a step that the next call accepts is later than all before it, and a code was not accepted before. */
  lemma NextAcceptanceIsNew(e: Environment, calls: seq<Call>, c: Call)
    requires AllWellFormed(calls)
    ensures var w := Run(e, Init(), calls); var a := AcceptanceOf(e, w.tables, c);
            && (a.AsStep? ==> forall i :: 0 <= i < |StepsOf(w, c.u)| ==> StepsOf(w, c.u)[i].step < a.step)
            && (a.AsBackupCode? ==> a.hash !in UsedOf(w, c.u) && a.hash in CodesOf(w.tables, c.u))
  {
    RunKeepsInv(e, Init(), calls);
    var w := Run(e, Init(), calls);
    assert StepsOk(w, c.u) && CodesOk(w, c.u);
    AcceptanceIsNew(e, w, c);
  }

  lemma AcceptanceIsNew(e: Environment, w: World, c: Call)
    requires StepsOk(w, c.u) && CodesOk(w, c.u)
    ensures var a := AcceptanceOf(e, w.tables, c);
            && (a.AsStep? ==> forall i :: 0 <= i < |StepsOf(w, c.u)| ==> StepsOf(w, c.u)[i].step < a.step)
            && (a.AsBackupCode? ==> a.hash !in UsedOf(w, c.u) && a.hash in CodesOf(w.tables, c.u))
  {
    var a, used := AcceptanceOf(e, w.tables, c), UsedOf(w, c.u);
    AcceptedIsNew(e, w.tables, c);
    assert forall h :: h in used ==> h in Elems(used);
  }

  /**
   In every run a user has eight backup codes while TOTP is enabled and none otherwise, and the
   unused and the accepted codes add up to eight. No code is accepted twice in its generation,
   the call that ends the generation included.
   */
  lemma BackupCodeLifecycle(e: Environment, calls: seq<Call>, u: int)
    requires AllWellFormed(calls)
    ensures var w := Run(e, Init(), calls);
            && |CodesOf(w.tables, u)| == (if Enabled(w.tables, u) then 8 else 0)
            && NoDuplicates(UsedOf(w, u))
            && |CodesOf(w.tables, u) - UsedCodes(w.tables, u)| + |UsedOf(w, u)| == |CodesOf(w.tables, u)|
            && (forall g :: g in w.generations ==>
                  NoDuplicates(g.used) && Elems(g.used) <= g.codes && |g.used| <= 8)
  {
    RunKeepsInv(e, Init(), calls);
    var w := Run(e, Init(), calls);
    assert CodesOk(w, u);
    OrderSize(UsedOf(w, u));
    var codes, used := CodesOf(w.tables, u), UsedCodes(w.tables, u);
    assert codes == (codes - used) + used;
    forall g | g in w.generations ensures |g.used| <= BACKUP_CODE_COUNT {
      assert GenerationOk(g);
      OrderSize(g.used);
      SubsetSize(Elems(g.used), g.codes);
    }
  }

  /** The history misses nothing: what is accepted is recorded, and what ends is closed with it. */
  lemma HistoryIsComplete(e: Environment, w: World, c: Call)
    ensures var a, w', r := AcceptanceOf(e, w.tables, c), After(e, w, c), Apply(e, w.tables, c).1;
            && (a.AsStep? && c.u in w'.tables.rows ==> StepsOf(w', c.u) == StepsOf(w, c.u) + [AcceptedStep(a.step, TimeOf(c))])
            && (a.AsStep? && c.u in w.tables.rows && c.u !in w'.tables.rows ==>
                  Life(c.u, StepsOf(w, c.u) + [AcceptedStep(a.step, TimeOf(c))]) in w'.lives)
            && (a.AsBackupCode? && !NewGeneration(c, r) ==> UsedOf(w', c.u) == UsedOf(w, c.u) + [a.hash])
            && (a.AsBackupCode? && NewGeneration(c, r) ==>
                  Generation(c.u, CodesOf(w.tables, c.u), UsedOf(w, c.u) + [a.hash]) in w'.generations)
            && w.lives <= w'.lives && w.generations <= w'.generations
  {
  }
}
