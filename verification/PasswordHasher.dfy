/**
 The Argon2id password hash string: how it is printed, decoded and verified. Argon2id and HMAC
 themselves are functions nothing is known of, save that Argon2id returns a key of the length
 asked for.
 */
module PasswordHasher {
  import opened Common
  import opened Text
  import Base64

  const ARGON2_VERSION: nat := 19
  const KEY_LENGTH: nat := 32
  const MAX_UINT32: nat := 0xFFFF_FFFF
  const MAX_UINT8: nat := 255

  datatype Params = Params(memoryKiB: nat, iterations: nat, threads: nat) {
    predicate Valid() {
      1 <= memoryKiB <= MAX_UINT32 && 1 <= iterations <= MAX_UINT32 && 1 <= threads <= MAX_UINT8
    }
  }

  datatype Crypto = Crypto(
    // input, salt, parameters, key length
    idKey: (seq<byte>, seq<byte>, Params, nat) -> seq<byte>,
    // key, message
    hmac: (seq<byte>, seq<byte>) -> seq<byte>)
  {
    ghost predicate KeysHaveLength() {
      forall input, salt, params, n :: |idKey(input, salt, params, n)| == n
    }
  }

  datatype Decoded = Decoded(params: Params, salt: seq<byte>, hash: seq<byte>)

  // ----- printing

  /** m=%d,t=%d,p=%d */
  function PrintParams(p: Params): string {
    Join(["m=" + PrintNat(p.memoryKiB), "t=" + PrintNat(p.iterations), "p=" + PrintNat(p.threads)], ',')
  }

  /** $argon2id$v=%d$m=%d,t=%d,p=%d$%s$%s */
  function PrintHash(d: Decoded): string {
    Join(["", "argon2id", "v=" + PrintNat(ARGON2_VERSION), PrintParams(d.params),
          Base64.EncodeToString(Base64.Std, d.salt), Base64.EncodeToString(Base64.Std, d.hash)], '$')
  }

  // ----- decoding

  /** The key=value entries of a parameter list; a later entry replaces an earlier one. */
  function Collect(entries: seq<string>, found: map<string, string>): Option<map<string, string>> {
    if entries == [] then Some(found)
    else
      match Cut(entries[0], '=')
      case Some((key, value)) =>
        if key == "" || value == "" then None else Collect(entries[1..], found[key := value])
      case None => None
  }

  /** A missing key reads as the empty string, which is no number. */
  function Field(found: map<string, string>, key: string, max: nat): Option<nat> {
    match ParseUint(if key in found then found[key] else "", max)
    case Some(n) => if n == 0 then None else Some(n)
    case None => None
  }

  function ParamsOf(found: map<string, string>): Option<Params> {
    match (Field(found, "m", MAX_UINT32), Field(found, "t", MAX_UINT32), Field(found, "p", MAX_UINT8))
    case (Some(m), Some(t), Some(p)) => Some(Params(m, t, p))
    case _ => None
  }

  function ParseParams(raw: string): Option<Params> {
    match Collect(Split(raw, ','), map[])
    case Some(found) => ParamsOf(found)
    case None => None
  }

  method ParseArgon2idParams(raw: string) returns (r: Option<Params>)
    ensures r == ParseParams(raw)
  {
    var paramMap: map<string, string> := map[];
    var entries := Split(raw, ',');
    var i := 0;
    while i < |entries|
      invariant 0 <= i <= |entries|
      invariant Collect(entries, map[]) == Collect(entries[i..], paramMap)
    {
      assert entries[i..][1..] == entries[i + 1..];
      match Cut(entries[i], '=') {
        case None => return None;
        case Some((key, value)) =>
          if key == "" || value == "" {
            return None;
          }
          paramMap := paramMap[key := value];
      }
      i := i + 1;
    }
    return ParamsOf(paramMap);
  }

  function DecodeHash(encoded: string): Option<Decoded> {
    var parts := Split(encoded, '$');
    if |parts| != 6 || parts[1] != "argon2id" then None
    else if !("v=" <= parts[2]) || ParseInt(parts[2][2..]) != Some(ARGON2_VERSION) then None
    else
      match (ParseParams(parts[3]), Base64.DecodeString(Base64.Std, parts[4]), Base64.DecodeString(Base64.Std, parts[5]))
      case (Some(params), Some(salt), Some(hash)) =>
        if salt == [] || hash == [] then None else Some(Decoded(params, salt, hash))
      case _ => None
  }

  /**
   A string decodes only if it has six parts that say argon2id and version 19, and then its
   parameters are in range, and salt and hash are not empty and are what the last two parts hold.
   */
  lemma DecodedIsUsable(encoded: string)
    ensures match DecodeHash(encoded)
            case Some(d) =>
              var parts := Split(encoded, '$');
              && |parts| == 6 && parts[1] == "argon2id" && "v=" <= parts[2] && ParseInt(parts[2][2..]) == Some(19)
              && ParseParams(parts[3]) == Some(d.params)
              && Base64.DecodeString(Base64.Std, parts[4]) == Some(d.salt) && Base64.DecodeString(Base64.Std, parts[5]) == Some(d.hash)
              && 1 <= d.params.memoryKiB < 0x1_0000_0000 && 1 <= d.params.iterations < 0x1_0000_0000 && 1 <= d.params.threads < 256
              && d.salt != [] && d.hash != []
            case None => true
  {
    if DecodeHash(encoded).Some? {
      ParsedAreInRange(Split(encoded, '$')[3]);
    }
  }

  lemma ParsedAreInRange(raw: string)
    requires ParseParams(raw).Some?
    ensures ParseParams(raw).value.Valid()
  {
    var found := Collect(Split(raw, ','), map[]).value;
    assert Field(found, "m", MAX_UINT32).Some? && Field(found, "t", MAX_UINT32).Some? && Field(found, "p", MAX_UINT8).Some?;
  }

  /** An entry is split at its first `=`, and the last entry of a name is the one that counts. */
  lemma {:induction false} LastEntryCounts(entries: seq<string>, found: map<string, string>, key: string, value: string)
    requires '=' !in key && key != "" && value != ""
    ensures var before, after := Collect(entries, found), Collect(entries + [key + "=" + value], found);
            after == if before.Some? then Some(before.value[key := value]) else None
    decreases |entries|
  {
    var more := entries + [key + "=" + value];
    if entries == [] {
      EntryIsCut(key, value);
      assert more[1..] == [];
    } else {
      assert more[0] == entries[0] && more[1..] == entries[1..] + [key + "=" + value];
      if Cut(entries[0], '=').Some? {
        var (k, v) := Cut(entries[0], '=').value;
        LastEntryCounts(entries[1..], found[k := v], key, value);
      }
    }
  }

  // ----- the round trip

  lemma EntryIsCut(key: string, value: string)
    requires '=' !in key
    ensures Cut(key + "=" + value, '=') == Some((key, value))
  {
    CutAtFirst(key, value, '=');
    assert key + "=" + value == key + ['='] + value;
  }

  lemma EntriesAreCollected(m: string, t: string, p: string)
    requires m != "" && t != "" && p != ""
    ensures Collect(["m=" + m, "t=" + t, "p=" + p], map[]) == Some(map["m" := m, "t" := t, "p" := p])
  {
    EntryIsCut("m", m);
    EntryIsCut("t", t);
    EntryIsCut("p", p);
    var e1, e2, e3 := "m" + "=" + m, "t" + "=" + t, "p" + "=" + p;
    assert e1 == "m=" + m && e2 == "t=" + t && e3 == "p=" + p;
    var f1 := map["m" := m];
    var f2 := f1["t" := t];
    var f3 := f2["p" := p];
    assert [e1, e2, e3][1..] == [e2, e3] && [e2, e3][1..] == [e3] && [e3][1..] == [];
    assert Collect([e3], f2) == Some(f3);
    assert Collect([e2, e3], f1) == Some(f3);
    assert f3 == map["m" := m, "t" := t, "p" := p];
  }

  lemma ParamsRoundTrip(p: Params)
    requires p.Valid()
    ensures ParseParams(PrintParams(p)) == Some(p) && '$' !in PrintParams(p)
  {
    var m, t, n := PrintNat(p.memoryKiB), PrintNat(p.iterations), PrintNat(p.threads);
    SplitOfJoin(["m=" + m, "t=" + t, "p=" + n], ',');
    EntriesAreCollected(m, t, n);
    ParsePrinted(p.memoryKiB, MAX_UINT32);
    ParsePrinted(p.iterations, MAX_UINT32);
    ParsePrinted(p.threads, MAX_UINT8);
    var found := map["m" := m, "t" := t, "p" := n];
    assert found["m"] == m && found["t"] == t && found["p"] == n;
    JoinHasNo(["m=" + m, "t=" + t, "p=" + n], ',', '$');
  }

  lemma {:induction false} JoinHasNo(parts: seq<string>, sep: char, c: char)
    requires |parts| >= 1 && c != sep && forall k :: 0 <= k < |parts| ==> c !in parts[k]
    ensures c !in Join(parts, sep)
  {
    if |parts| > 1 {
      JoinHasNo(parts[1..], sep, c);
    }
  }

  lemma VersionRoundTrip()
    ensures var v := "v=" + PrintNat(ARGON2_VERSION); "v=" <= v && ParseInt(v[2..]) == Some(ARGON2_VERSION) && '$' !in v
  {
    ParseIntPrinted(ARGON2_VERSION);
    assert PrintInt(ARGON2_VERSION) == PrintNat(ARGON2_VERSION);
    assert ("v=" + PrintNat(ARGON2_VERSION))[2..] == PrintNat(ARGON2_VERSION);
  }

  lemma SixParts(a: string, b: string, c: string, d: string, e: string)
    requires '$' !in a && '$' !in b && '$' !in c && '$' !in d && '$' !in e
    ensures Split(Join(["", a, b, c, d, e], '$'), '$') == ["", a, b, c, d, e]
  {
    SplitOfJoin(["", a, b, c, d, e], '$');
  }

  lemma EncodedHasNoDollar(b: seq<byte>)
    ensures '$' !in Base64.EncodeToString(Base64.Std, b)
  {
    Base64.PrintedChars(Base64.Std, Base64.EncodeValues(Base64.BITS, b), '$');
  }

  /** Decoding a printed hash gives back its parameters, salt and key. */
  lemma HashRoundTrip(d: Decoded)
    requires d.params.Valid() && d.salt != [] && d.hash != []
    ensures DecodeHash(PrintHash(d)) == Some(d)
  {
    VersionRoundTrip();
    EncodedHasNoDollar(d.salt);
    EncodedHasNoDollar(d.hash);
    ParamsRoundTrip(d.params);
    Base64.RoundTrip(Base64.Std, d.salt);
    Base64.RoundTrip(Base64.Std, d.hash);
    SixParts("argon2id", "v=" + PrintNat(ARGON2_VERSION), PrintParams(d.params),
             Base64.EncodeToString(Base64.Std, d.salt), Base64.EncodeToString(Base64.Std, d.hash));
  }

  // ----- hashing and verifying

  const DEFAULTS: Params := Params(19 * 1024, 2, 1)

  datatype Hasher = Hasher(crypto: Crypto, params: Params, pepper: seq<byte>)

  /** Options that are set are kept and unset ones take the defaults, so a hasher's parameters are always usable. */
  function NewHasher(crypto: Crypto, memoryKiB: nat, iterations: nat, threads: nat, pepper: seq<byte>): (h: Hasher)
    requires memoryKiB <= MAX_UINT32 && iterations <= MAX_UINT32 && threads <= MAX_UINT8
    ensures h.params.Valid() && h.pepper == pepper && h.crypto == crypto
    ensures memoryKiB > 0 ==> h.params.memoryKiB == memoryKiB
    ensures iterations > 0 ==> h.params.iterations == iterations
    ensures threads > 0 ==> h.params.threads == threads
    ensures (memoryKiB == 0 ==> h.params.memoryKiB == DEFAULTS.memoryKiB) && (iterations == 0 ==> h.params.iterations == DEFAULTS.iterations)
    ensures threads == 0 ==> h.params.threads == DEFAULTS.threads
  {
    Hasher(crypto,
           Params(if memoryKiB == 0 then DEFAULTS.memoryKiB else memoryKiB,
                  if iterations == 0 then DEFAULTS.iterations else iterations,
                  if threads == 0 then DEFAULTS.threads else threads),
           pepper)
  }

  function PasswordInput(h: Hasher, password: seq<byte>): seq<byte> {
    if h.pepper == [] then password else h.crypto.hmac(h.pepper, password)
  }

  function Hash(h: Hasher, password: seq<byte>, salt: seq<byte>): string {
    PrintHash(Decoded(h.params, salt, h.crypto.idKey(PasswordInput(h, password), salt, h.params, KEY_LENGTH)))
  }

  function Verify(h: Hasher, encoded: string, password: seq<byte>): Option<bool> {
    match DecodeHash(encoded)
    case None => None
    case Some(d) => Some(d.hash == h.crypto.idKey(PasswordInput(h, password), d.salt, d.params, |d.hash|))
  }

  /** The string that is stored, part by part; the password is keyed with the pepper if there is one. */
  lemma HashIsPrinted(h: Hasher, password: seq<byte>, salt: seq<byte>)
    requires h.params.Valid()
    ensures var key := h.crypto.idKey(if h.pepper == [] then password else h.crypto.hmac(h.pepper, password), salt, h.params, 32);
            Split(Hash(h, password, salt), '$') == ["", "argon2id", "v=19", PrintParams(h.params), Base64.EncodeToString(Base64.Std, salt),
                                                    Base64.EncodeToString(Base64.Std, key)]
    ensures Split(PrintParams(h.params), ',') ==
              ["m=" + PrintNat(h.params.memoryKiB), "t=" + PrintNat(h.params.iterations), "p=" + PrintNat(h.params.threads)]
  {
    var key := h.crypto.idKey(if h.pepper == [] then password else h.crypto.hmac(h.pepper, password), salt, h.params, 32);
    EncodedHasNoDollar(salt);
    EncodedHasNoDollar(key);
    ParamsRoundTrip(h.params);
    assert "v=" + PrintNat(ARGON2_VERSION) == "v=19";
    SixParts("argon2id", "v=19", PrintParams(h.params), Base64.EncodeToString(Base64.Std, salt), Base64.EncodeToString(Base64.Std, key));
    SplitOfJoin(["m=" + PrintNat(h.params.memoryKiB), "t=" + PrintNat(h.params.iterations), "p=" + PrintNat(h.params.threads)], ',');
  }

  /**
   A hasher accepts a password against a hash made by any hasher with the same pepper, whatever
   parameters either is configured with, exactly when the two passwords, each keyed with the
   pepper if there is one, give the same Argon2id key. So it accepts the password that was hashed.
   */
  lemma VerifyAgainstHash(made: Hasher, now: Hasher, hashed: seq<byte>, tried: seq<byte>, salt: seq<byte>)
    requires made.params.Valid() && made.crypto == now.crypto && made.pepper == now.pepper
    requires made.crypto.KeysHaveLength() && salt != []
    ensures var input := password => if made.pepper == [] then password else made.crypto.hmac(made.pepper, password);
            var key := password => made.crypto.idKey(input(password), salt, made.params, 32);
            Verify(now, Hash(made, hashed, salt), tried) == Some(key(hashed) == key(tried))
    ensures Verify(now, Hash(made, hashed, salt), hashed) == Some(true)
  {
    var hash := made.crypto.idKey(PasswordInput(made, hashed), salt, made.params, KEY_LENGTH);
    assert |hash| == KEY_LENGTH;
    HashRoundTrip(Decoded(made.params, salt, hash));
  }

  /** Against any stored string, whoever made it: one that does not decode is an error, one that does accepts exactly its key. */
  lemma VerifyAgainstAny(h: Hasher, encoded: string, tried: seq<byte>)
    ensures match DecodeHash(encoded)
            case Some(d) =>
              Verify(h, encoded, tried)
              == Some(d.hash == h.crypto.idKey(if h.pepper == [] then tried else h.crypto.hmac(h.pepper, tried), d.salt, d.params, |d.hash|))
            case None => Verify(h, encoded, tried) == None
  {
  }
}
