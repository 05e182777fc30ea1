/** Printing backup codes, and reading back what a user types. */
module BackupCodes {
  import opened Common
  import opened Text

  // ----- normalisation

  function WordLength(s: string): (n: nat)
    ensures n <= |s|
  {
    if s == "" || IsSpace(s[0]) then 0 else 1 + WordLength(s[1..])
  }

  /** strings.Fields */
  function Fields(s: string): seq<string>
    decreases |s|
  {
    if s == "" then []
    else if IsSpace(s[0]) then Fields(s[1..])
    else [s[..WordLength(s)]] + Fields(s[WordLength(s)..])
  }

  /** strings.Join with an empty separator. */
  function Concat(parts: seq<string>): string {
    if parts == [] then "" else parts[0] + Concat(parts[1..])
  }

  function WithoutDashes(s: string): string {
    if s == "" then "" else (if s[0] == '-' then "" else [s[0]]) + WithoutDashes(s[1..])
  }

  /** How unicode.ToUpper maps one character: `Case` is its table, of which only the ASCII part is fixed. */
  type Case = char -> char

  ghost predicate IsUpperCase(up: Case) {
    forall c: char :: c as int < 128 ==> up(c) == if 'a' <= c <= 'z' then (c as int - 'a' as int + 'A' as int) as char else c
  }

  function ToUpper(up: Case, s: string): string {
    seq(|s|, i requires 0 <= i < |s| => up(s[i]))
  }

  function Normalise(up: Case, code: string): string {
    ToUpper(up, WithoutDashes(Concat(Fields(code))))
  }

  /** `typed` is `raw` with spaces and dashes put in anywhere and letters in either case. */
  ghost predicate IsVariation(up: Case, typed: string, raw: string) {
    if typed == "" then raw == ""
    else if IsSpace(typed[0]) || typed[0] == '-' then IsVariation(up, typed[1..], raw)
    else raw != "" && up(typed[0]) == raw[0] && IsVariation(up, typed[1..], raw[1..])
  }

  function WithoutSpaces(s: string): string {
    if s == "" then "" else (if IsSpace(s[0]) then "" else [s[0]]) + WithoutSpaces(s[1..])
  }

  lemma {:induction false} WordIsKept(s: string)
    ensures WithoutSpaces(s) == s[..WordLength(s)] + WithoutSpaces(s[WordLength(s)..])
  {
    if s != "" && !IsSpace(s[0]) {
      WordIsKept(s[1..]);
      var n := WordLength(s[1..]);
      assert s[..n + 1] == [s[0]] + s[1..][..n] && s[n + 1..] == s[1..][n..];
    } else {
      assert s[0..] == s && s[..0] == "";
    }
  }

  /** Splitting into fields and joining them removes the spaces and nothing else. */
  lemma {:induction false} FieldsJoined(s: string)
    ensures Concat(Fields(s)) == WithoutSpaces(s)
    decreases |s|
  {
    if s != "" {
      if IsSpace(s[0]) {
        FieldsJoined(s[1..]);
      } else {
        var n := WordLength(s);
        FieldsJoined(s[n..]);
        WordIsKept(s);
        assert ([s[..n]] + Fields(s[n..]))[1..] == Fields(s[n..]);
      }
    }
  }

  lemma {:induction false} FilteredIsVariation(up: Case, typed: string, raw: string)
    ensures ToUpper(up, WithoutDashes(WithoutSpaces(typed))) == raw <==> IsVariation(up, typed, raw)
  {
    if typed != "" {
      var rest := typed[1..];
      if IsSpace(typed[0]) {
        FilteredIsVariation(up, rest, raw);
        assert WithoutSpaces(typed) == WithoutSpaces(rest);
      } else if typed[0] == '-' {
        FilteredIsVariation(up, rest, raw);
        assert WithoutSpaces(typed)[1..] == WithoutSpaces(rest);
      } else {
        var kept := WithoutDashes(WithoutSpaces(rest));
        assert WithoutSpaces(typed)[1..] == WithoutSpaces(rest);
        assert WithoutDashes(WithoutSpaces(typed)) == [typed[0]] + kept;
        assert ToUpper(up, [typed[0]] + kept) == [up(typed[0])] + ToUpper(up, kept);
        if raw != "" {
          FilteredIsVariation(up, rest, raw[1..]);
          assert raw == [raw[0]] + raw[1..];
          assert ([up(typed[0])] + ToUpper(up, kept))[1..] == ToUpper(up, kept);
        }
      }
    }
  }

  /** What is typed normalises to a code exactly when it is a variation of it. */
  lemma NormaliseAcceptsVariations(up: Case, typed: string, raw: string)
    ensures Normalise(up, typed) == raw <==> IsVariation(up, typed, raw)
  {
    FieldsJoined(typed);
    FilteredIsVariation(up, typed, raw);
  }

  // ----- generation

  function HexChar(d: int): char
    requires 0 <= d < 16
  {
    if d < 10 then (d + '0' as int) as char else (d - 10 + 'A' as int) as char
  }

  /** Upper-case hexadecimal. */
  function Hex(b: seq<byte>): (r: string)
    ensures |r| == 2 * |b|
    ensures forall i :: 0 <= i < |r| ==> IsHex(r[i])
  {
    if b == [] then "" else [HexChar(b[0] / 16), HexChar(b[0] % 16)] + Hex(b[1..])
  }

  function HexValue(c: char): int
    requires IsHex(c)
  {
    if c <= '9' then c as int - '0' as int else c as int - 'A' as int + 10
  }

  function UnHex(s: string): seq<int>
    requires |s| % 2 == 0 && forall i :: 0 <= i < |s| ==> IsHex(s[i])
  {
    if s == "" then [] else [HexValue(s[0]) * 16 + HexValue(s[1])] + UnHex(s[2..])
  }

  /** The digits are those of the bytes: they can be read back, so different bytes make different codes. */
  lemma {:induction false} HexIsReadBack(b: seq<byte>)
    ensures UnHex(Hex(b)) == b
  {
    if b != [] {
      HexIsReadBack(b[1..]);
      assert Hex(b)[2..] == Hex(b[1..]);
      assert b == [b[0]] + b[1..];
    }
  }

  lemma HexDigits(d: int)
    requires 0 <= d < 16
    ensures HexChar(d) == "0123456789ABCDEF"[d]
  {
  }

  predicate IsHex(c: char) {
    '0' <= c <= '9' || 'A' <= c <= 'F'
  }

  /** XXXXXXXX-XXXXXXXX-XXXXXXXX-XXXXXXXX */
  function PrintCode(raw: string): string
    requires |raw| == 32
  {
    raw[0..8] + "-" + raw[8..16] + "-" + raw[16..24] + "-" + raw[24..32]
  }

  /** Four groups of eight digits with dashes between them. */
  lemma PrintedInGroups(raw: string)
    requires |raw| == 32
    ensures var code := PrintCode(raw);
            && |code| == 35 && code[8] == code[17] == code[26] == '-'
            && code[0..8] == raw[0..8] && code[9..17] == raw[8..16] && code[18..26] == raw[16..24] && code[27..35] == raw[24..32]
  {
  }

  lemma {:induction false} VariationOfHexPrefix(up: Case, a: string, typed: string, raw: string)
    requires IsUpperCase(up) && forall i :: 0 <= i < |a| ==> IsHex(a[i])
    ensures IsVariation(up, a + typed, a + raw) <==> IsVariation(up, typed, raw)
  {
    if a == "" {
      assert a + typed == typed && a + raw == raw;
    } else {
      VariationOfHexPrefix(up, a[1..], typed, raw);
      assert (a + typed)[1..] == a[1..] + typed && (a + raw)[1..] == a[1..] + raw;
      assert !IsSpace(a[0]) && up(a[0]) == a[0];
    }
  }

  lemma DashIsIgnored(up: Case, typed: string, raw: string)
    ensures IsVariation(up, "-" + typed, raw) <==> IsVariation(up, typed, raw)
  {
    assert ("-" + typed)[1..] == typed;
  }

  /** The printed code normalises to its raw hexadecimal digits. */
  lemma PrintedCodeNormalises(up: Case, raw: string)
    requires IsUpperCase(up) && |raw| == 32 && forall i :: 0 <= i < |raw| ==> IsHex(raw[i])
    ensures Normalise(up, PrintCode(raw)) == raw
  {
    var a, b, c, d := raw[0..8], raw[8..16], raw[16..24], raw[24..32];
    VariationOfHexPrefix(up, d, "", "");
    assert d + "" == d;
    DashIsIgnored(up, d, d);
    VariationOfHexPrefix(up, c, "-" + d, d);
    DashIsIgnored(up, c + ("-" + d), c + d);
    VariationOfHexPrefix(up, b, "-" + (c + ("-" + d)), c + d);
    DashIsIgnored(up, b + ("-" + (c + ("-" + d))), b + (c + d));
    VariationOfHexPrefix(up, a, "-" + (b + ("-" + (c + ("-" + d)))), b + (c + d));
    assert PrintCode(raw) == a + ("-" + (b + ("-" + (c + ("-" + d)))));
    assert raw == a + (b + (c + d));
    NormaliseAcceptsVariations(up, PrintCode(raw), raw);
  }

  /** The stored hash of a code: a keyed hash, `mac`, of its normal form. */
  function HashBackupCode(up: Case, mac: string -> string, code: string): string {
    mac(Normalise(up, code))
  }

  /**
   `random` holds the 16 random bytes of each code. Whatever variation of a printed code is typed
   later, its hash is the one stored.
   */
  method GenerateBackupCodes(up: Case, mac: string -> string, random: seq<seq<byte>>) returns (codes: seq<string>, hashes: seq<string>)
    requires IsUpperCase(up) && forall i :: 0 <= i < |random| ==> |random[i]| == 16
    ensures |codes| == |hashes| == |random|
    ensures forall i :: 0 <= i < |random| ==> codes[i] == PrintCode(Hex(random[i])) && hashes[i] == mac(Hex(random[i]))
    ensures forall i :: 0 <= i < |random| ==> Normalise(up, codes[i]) == Hex(random[i])
    ensures forall i, typed :: 0 <= i < |random| && IsVariation(up, typed, Hex(random[i])) ==> HashBackupCode(up, mac, typed) == hashes[i]
  {
    codes, hashes := [], [];
    for i := 0 to |random|
      invariant |codes| == |hashes| == i
      invariant forall k :: 0 <= k < i ==> Normalise(up, codes[k]) == Hex(random[k]) && codes[k] == PrintCode(Hex(random[k])) && hashes[k] == mac(Hex(random[k]))
    {
      var raw := Hex(random[i]);
      var code := PrintCode(raw);
      PrintedCodeNormalises(up, raw);
      codes := codes + [code];
      hashes := hashes + [HashBackupCode(up, mac, code)];
    }
    forall i, typed | 0 <= i < |random| && IsVariation(up, typed, Hex(random[i])) ensures HashBackupCode(up, mac, typed) == hashes[i] {
      NormaliseAcceptsVariations(up, typed, Hex(random[i]));
    }
  }
}
