/** Unpadded base64 with the standard and the URL-safe alphabet (sections 3.2, 4 and 5 of RFC 4648). */
module Base64 {
  import opened Common

  datatype Alphabet = Std | Url

  /** Tables 1 and 2 of RFC 4648. */
  function CharOf(a: Alphabet, v: int): char
    requires 0 <= v < 64
  {
    if v < 26 then (v + 'A' as int) as char
    else if v < 52 then (v - 26 + 'a' as int) as char
    else if v < 62 then (v - 52 + '0' as int) as char
    else if v == 62 then (if a.Std? then '+' else '-')
    else (if a.Std? then '/' else '_')
  }

  function ValueOfChar(a: Alphabet, c: char): Option<int> {
    if 'A' <= c <= 'Z' then Some(c as int - 'A' as int)
    else if 'a' <= c <= 'z' then Some(c as int - 'a' as int + 26)
    else if '0' <= c <= '9' then Some(c as int - '0' as int + 52)
    else if c == (if a.Std? then '+' else '-') then Some(62)
    else if c == (if a.Std? then '/' else '_') then Some(63)
    else None
  }

  type sextet = x: int | 0 <= x < 64

  /** How 24 bits are read as three bytes and as four values. */
  datatype Regroup = Regroup(
    split: (byte, byte, byte) -> (sextet, sextet, sextet, sextet),
    merge: (sextet, sextet, sextet, sextet) -> (byte, byte, byte))

  const BITS: Regroup := Regroup(
    (x, y, z) => (x / 4, x % 4 * 16 + y / 16, y % 16 * 4 + z / 64, z % 64),
    (p, q, r, s) => (Byte(p, 4, q / 16), Byte(q % 16, 16, r / 4), Byte(r % 4, 64, s)))

  function Byte(high: int, scale: int, low: int): byte
    requires 0 <= high * scale + low < 256
  {
    high * scale + low
  }

  /** Three bytes make four values; one or two left over make two or three, the missing bits being zero. */
  function EncodeValues(g: Regroup, b: seq<byte>): seq<sextet> {
    if b == [] then []
    else if |b| == 1 then var (p, q, _, _) := g.split(b[0], 0, 0); [p, q]
    else if |b| == 2 then var (p, q, r, _) := g.split(b[0], b[1], 0); [p, q, r]
    else var (p, q, r, s) := g.split(b[0], b[1], b[2]); [p, q, r, s] + EncodeValues(g, b[3..])
  }

  /** Go's decoder outside strict mode: a lone value is an error, leftover bits are ignored. */
  function DecodeValues(g: Regroup, v: seq<sextet>): Option<seq<byte>> {
    if v == [] then Some([])
    else if |v| == 1 then None
    else if |v| == 2 then Some([g.merge(v[0], v[1], 0, 0).0])
    else if |v| == 3 then var (x, y, _) := g.merge(v[0], v[1], v[2], 0); Some([x, y])
    else
      match DecodeValues(g, v[4..])
      case None => None
      case Some(rest) => var (x, y, z) := g.merge(v[0], v[1], v[2], v[3]); Some([x, y, z] + rest)
  }

  function Print(a: Alphabet, v: seq<sextet>): (r: string) {
    if v == [] then "" else [CharOf(a, v[0])] + Print(a, v[1..])
  }

  /** Line breaks are skipped, any other character outside the alphabet is an error. */
  function Read(a: Alphabet, s: string): Option<seq<sextet>> {
    if s == "" then Some([])
    else if s[0] == '\r' || s[0] == '\n' then Read(a, s[1..])
    else
      match (ValueOfChar(a, s[0]), Read(a, s[1..]))
      case (Some(v), Some(rest)) => Some([v] + rest)
      case _ => None
  }

  function EncodeToString(a: Alphabet, b: seq<byte>): string {
    Print(a, EncodeValues(BITS, b))
  }

  function DecodeString(a: Alphabet, s: string): Option<seq<byte>> {
    match Read(a, s)
    case None => None
    case Some(v) => DecodeValues(BITS, v)
  }

  lemma CharOfValue(a: Alphabet, v: sextet)
    ensures ValueOfChar(a, CharOf(a, v)) == Some(v) && CharOf(a, v) != '\r' && CharOf(a, v) != '\n'
  {
  }

  lemma {:induction false} ReadOfPrinted(a: Alphabet, v: seq<sextet>)
    ensures Read(a, Print(a, v)) == Some(v)
  {
    if v != [] {
      ReadOfPrinted(a, v[1..]);
      CharOfValue(a, v[0]);
      assert Print(a, v)[1..] == Print(a, v[1..]);
      assert v == [v[0]] + v[1..];
    }
  }

  ghost predicate SplitThenMerge(g: Regroup) {
    && (forall x: byte, y: byte, z: byte :: var (p, q, r, s) := g.split(x, y, z); g.merge(p, q, r, s) == (x, y, z))
    && (forall x: byte, y: byte :: g.split(x, y, 0).3 == 0)
    && (forall x: byte :: g.split(x, 0, 0).2 == 0)
  }

  ghost predicate MergeThenSplit(g: Regroup) {
    && (forall p: sextet, q: sextet, r: sextet, s: sextet :: var (x, y, z) := g.merge(p, q, r, s); g.split(x, y, z) == (p, q, r, s))
    && (forall p: sextet, q: sextet :: g.split(g.merge(p, q, 0, 0).0, 0, 0) == (p, q / 16 * 16, 0, 0))
    && (forall p: sextet, q: sextet, r: sextet :: var (x, y, _) := g.merge(p, q, r, 0); g.split(x, y, 0) == (p, q, r / 4 * 4, 0))
  }

  lemma SplitBits(x: byte, y: byte, z: byte)
    ensures var (p, q, r, s) := BITS.split(x, y, z); BITS.merge(p, q, r, s) == (x, y, z)
  {
    var (p, q, r, s) := BITS.split(x, y, z);
    Halves(x % 4, 16, y / 16);
    Halves(y % 16, 4, z / 64);
    assert q / 16 == x % 4 && q % 16 == y / 16 && r / 4 == y % 16 && r % 4 == z / 64;
    assert BITS.merge(p, q, r, s) == (Byte(p, 4, q / 16), Byte(q % 16, 16, r / 4), Byte(r % 4, 64, s));
  }

  /** A value put together from two parts falls into the same parts. */
  lemma Halves(high: int, scale: int, low: int)
    requires (scale == 4 || scale == 16 || scale == 64) && 0 <= low < scale
    ensures (high * scale + low) / scale == high && (high * scale + low) % scale == low
  {
    if scale == 4 {
      assert (high * 4 + low) / 4 == high;
    } else if scale == 16 {
      assert (high * 16 + low) / 16 == high;
    } else {
      assert (high * 64 + low) / 64 == high;
    }
  }

  lemma BitsSplitThenMerge()
    ensures SplitThenMerge(BITS)
  {
    forall x: byte, y: byte, z: byte ensures var (p, q, r, s) := BITS.split(x, y, z); BITS.merge(p, q, r, s) == (x, y, z) {
      SplitBits(x, y, z);
    }
  }

  lemma MergedBits(p: sextet, q: sextet, r: sextet, s: sextet)
    ensures var (x, y, z) := BITS.merge(p, q, r, s); BITS.split(x, y, z) == (p, q, r, s)
  {
    var (x, y, z) := BITS.merge(p, q, r, s);
    Halves(p, 4, q / 16);
    Halves(q % 16, 16, r / 4);
    Halves(r % 4, 64, s);
    assert x / 4 == p && x % 4 == q / 16;
    assert y / 16 == q % 16 && y % 16 == r / 4;
    assert z / 64 == r % 4 && z % 64 == s;
  }

  lemma MergedPair(p: sextet, q: sextet)
    ensures BITS.split(BITS.merge(p, q, 0, 0).0, 0, 0) == (p, q / 16 * 16, 0, 0)
  {
    Halves(p, 4, q / 16);
  }

  lemma MergedTriple(p: sextet, q: sextet, r: sextet)
    ensures var (x, y, _) := BITS.merge(p, q, r, 0); BITS.split(x, y, 0) == (p, q, r / 4 * 4, 0)
  {
    var (x, y, z) := BITS.merge(p, q, r, 0);
    Halves(p, 4, q / 16);
    Halves(q % 16, 16, r / 4);
    assert x / 4 == p && x % 4 == q / 16;
    assert y / 16 == q % 16 && y % 16 == r / 4;
  }

  lemma BitsMergeThenSplit()
    ensures MergeThenSplit(BITS)
  {
    forall p: sextet, q: sextet, r: sextet, s: sextet
      ensures var (x, y, z) := BITS.merge(p, q, r, s); BITS.split(x, y, z) == (p, q, r, s)
    {
      MergedBits(p, q, r, s);
    }
    forall p: sextet, q: sextet ensures BITS.split(BITS.merge(p, q, 0, 0).0, 0, 0) == (p, q / 16 * 16, 0, 0) {
      MergedPair(p, q);
    }
    forall p: sextet, q: sextet, r: sextet
      ensures var (x, y, _) := BITS.merge(p, q, r, 0); BITS.split(x, y, 0) == (p, q, r / 4 * 4, 0)
    {
      MergedTriple(p, q, r);
    }
  }

  lemma {:induction false} ValuesRoundTrip(g: Regroup, b: seq<byte>)
    requires SplitThenMerge(g)
    ensures DecodeValues(g, EncodeValues(g, b)) == Some(b)
  {
    if |b| == 1 {
      assert b == [b[0]];
      assert g.split(b[0], 0, 0).2 == 0 && g.split(b[0], 0, 0).3 == 0;
    } else if |b| == 2 {
      assert b == [b[0], b[1]];
      assert g.split(b[0], b[1], 0).3 == 0;
    } else if |b| >= 3 {
      ValuesRoundTrip(g, b[3..]);
      assert EncodeValues(g, b)[4..] == EncodeValues(g, b[3..]);
      assert b == [b[0], b[1], b[2]] + b[3..];
    }
  }

  /** Decoding undoes encoding, for every byte string and both alphabets. */
  lemma RoundTrip(a: Alphabet, b: seq<byte>)
    ensures DecodeString(a, EncodeToString(a, b)) == Some(b)
  {
    ReadOfPrinted(a, EncodeValues(BITS, b));
    BitsSplitThenMerge();
    ValuesRoundTrip(BITS, b);
  }

  /** The bits of the last value that no byte uses are zero (section 3.5 of RFC 4648). */
  ghost predicate Canonical(v: seq<sextet>) {
    && (|v| % 4 == 2 ==> v[|v| - 1] % 16 == 0)
    && (|v| % 4 == 3 ==> v[|v| - 1] % 4 == 0)
  }

  lemma RoundedDown(x: int)
    ensures (x / 16 * 16 == x <==> x % 16 == 0) && (x / 4 * 4 == x <==> x % 4 == 0)
  {
  }

  lemma CanonicalPair(g: Regroup, p: sextet, q: sextet)
    requires MergeThenSplit(g)
    ensures EncodeValues(g, DecodeValues(g, [p, q]).value) == [p, q] <==> q % 16 == 0
  {
    RoundedDown(q);
    assert g.split(g.merge(p, q, 0, 0).0, 0, 0) == (p, q / 16 * 16, 0, 0);
    assert EncodeValues(g, DecodeValues(g, [p, q]).value)[1] == q / 16 * 16;
  }

  lemma CanonicalTriple(g: Regroup, p: sextet, q: sextet, r: sextet)
    requires MergeThenSplit(g)
    ensures EncodeValues(g, DecodeValues(g, [p, q, r]).value) == [p, q, r] <==> r % 4 == 0
  {
    RoundedDown(r);
    var (x, y, z) := g.merge(p, q, r, 0);
    assert g.split(x, y, 0) == (p, q, r / 4 * 4, 0);
    assert EncodeValues(g, DecodeValues(g, [p, q, r]).value)[2] == r / 4 * 4;
  }

  lemma CanonicalTail(v: seq<sextet>)
    requires |v| >= 4
    ensures Canonical(v) <==> Canonical(v[4..])
  {
    assert |v| > 4 ==> v[|v| - 1] == v[4..][|v| - 5];
  }

  /** Four values that are decoded are encoded again as they were. */
  lemma EncodedAgain(g: Regroup, v: seq<sextet>)
    requires MergeThenSplit(g) && |v| >= 4 && DecodeValues(g, v).Some?
    ensures DecodeValues(g, v[4..]).Some?
    ensures EncodeValues(g, DecodeValues(g, v).value) == v <==> EncodeValues(g, DecodeValues(g, v[4..]).value) == v[4..]
  {
    var b, tail := DecodeValues(g, v).value, DecodeValues(g, v[4..]).value;
    var head := [v[0], v[1], v[2], v[3]];
    assert b[3..] == tail;
    assert EncodeValues(g, b) == head + EncodeValues(g, tail);
    assert (head + EncodeValues(g, tail))[4..] == EncodeValues(g, tail);
    assert v == head + v[4..];
  }

  lemma CanonicalShort(g: Regroup, v: seq<sextet>)
    requires MergeThenSplit(g) && 2 <= |v| <= 3
    ensures DecodeValues(g, v).Some? && (EncodeValues(g, DecodeValues(g, v).value) == v <==> Canonical(v))
  {
    if |v| == 2 {
      CanonicalPair(g, v[0], v[1]);
      assert v == [v[0], v[1]];
    } else {
      CanonicalTriple(g, v[0], v[1], v[2]);
      assert v == [v[0], v[1], v[2]];
    }
  }

  lemma {:induction false} CanonicalValues(g: Regroup, v: seq<sextet>)
    requires MergeThenSplit(g) && DecodeValues(g, v).Some?
    ensures EncodeValues(g, DecodeValues(g, v).value) == v <==> Canonical(v)
  {
    if |v| >= 4 {
      CanonicalValues(g, v[4..]);
      CanonicalTail(v);
      EncodedAgain(g, v);
    } else if v != [] {
      CanonicalShort(g, v);
    }
  }

  predicate NoLineBreaks(s: string) {
    '\r' !in s && '\n' !in s
  }

  lemma {:induction false} PrintOfRead(a: Alphabet, s: string)
    requires Read(a, s).Some? && NoLineBreaks(s)
    ensures Print(a, Read(a, s).value) == s
  {
    if s != "" {
      assert s[0] in s;
      assert NoLineBreaks(s[1..]);
      PrintOfRead(a, s[1..]);
      assert CharOf(a, ValueOfChar(a, s[0]).value) == s[0];
      assert Read(a, s).value[1..] == Read(a, s[1..]).value;
      assert s == [s[0]] + s[1..];
    }
  }

  /** A text is printed from exactly the values it reads as, unless it has line breaks. */
  lemma PrintedText(a: Alphabet, s: string, v: seq<sextet>)
    requires Read(a, s).Some?
    ensures Print(a, v) == s <==> NoLineBreaks(s) && v == Read(a, s).value
  {
    ReadOfPrinted(a, v);
    if NoLineBreaks(s) {
      PrintOfRead(a, s);
    } else {
      PrintedChars(a, v, '\r');
      PrintedChars(a, v, '\n');
    }
  }

  lemma CanonicalText(g: Regroup, a: Alphabet, s: string)
    requires MergeThenSplit(g) && Read(a, s).Some? && DecodeValues(g, Read(a, s).value).Some?
    ensures Print(a, EncodeValues(g, DecodeValues(g, Read(a, s).value).value)) == s <==> NoLineBreaks(s) && Canonical(Read(a, s).value)
  {
    var v := Read(a, s).value;
    CanonicalValues(g, v);
    PrintedText(a, s, EncodeValues(g, DecodeValues(g, v).value));
  }

  /**
   Encoding undoes decoding exactly on the canonical texts: those without line breaks, which the
   decoder skips, and with zeros for left-over bits, which it ignores.
   */
  lemma CanonicalRoundTrip(a: Alphabet, s: string)
    requires DecodeString(a, s).Some?
    ensures EncodeToString(a, DecodeString(a, s).value) == s <==> NoLineBreaks(s) && Canonical(Read(a, s).value)
  {
    BitsMergeThenSplit();
    CanonicalText(BITS, a, s);
  }

  lemma {:induction false} PrintedChars(a: Alphabet, v: seq<sextet>, c: char)
    requires ValueOfChar(a, c).None?
    ensures c !in Print(a, v)
  {
    if v != [] {
      PrintedChars(a, v[1..], c);
    }
  }

  // ----- bits and characters

  /** Four values and three bytes that are the same 24 bits, the most significant ones first. */
  predicate SameBits(p: int, q: int, r: int, s: int, x: int, y: int, z: int) {
    ((p * 64 + q) * 64 + r) * 64 + s == (x * 256 + y) * 256 + z
  }

  lemma GroupBits(x: byte, y: byte, z: byte)
    ensures var (p, q, r, s) := BITS.split(x, y, z); SameBits(p, q, r, s, x, y, z)
  {
  }

  lemma EncodedLength(g: Regroup, b: seq<byte>)
    ensures |EncodeValues(g, b)| == |b| / 3 * 4 + (if |b| % 3 == 0 then 0 else |b| % 3 + 1)
  {
  }

  /** Section 4 of RFC 4648: each group of three bytes becomes the four values of the same 24 bits, group by group in order ... */
  lemma {:induction false} GroupsKeepTheirBits(b: seq<byte>, k: nat)
    requires 3 * k + 3 <= |b|
    ensures var v := EncodeValues(BITS, b);
            4 * k + 4 <= |v| && SameBits(v[4 * k], v[4 * k + 1], v[4 * k + 2], v[4 * k + 3], b[3 * k], b[3 * k + 1], b[3 * k + 2])
    decreases k
  {
    GroupBits(b[0], b[1], b[2]);
    if k > 0 {
      GroupsKeepTheirBits(b[3..], k - 1);
    }
  }

  /** What is left over is encoded as if it stood alone. */
  lemma {:induction false} RestIsEncodedAlone(g: Regroup, b: seq<byte>)
    ensures var v, groups := EncodeValues(g, b), |b| / 3;
            4 * groups <= |v| && v[4 * groups..] == EncodeValues(g, b[3 * groups..])
  {
    if |b| >= 3 {
      RestIsEncodedAlone(g, b[3..]);
      var v, rest, groups := EncodeValues(g, b), EncodeValues(g, b[3..]), |b| / 3;
      assert v[4..] == rest && |b[3..]| / 3 == groups - 1;
      assert v[4 * groups..] == rest[4 * (groups - 1)..];
      assert b[3 * groups..] == b[3..][3 * (groups - 1)..];
    } else {
      assert b[0..] == b && EncodeValues(g, b)[0..] == EncodeValues(g, b);
    }
  }

  /** ... and the one or two bytes left over become as many values and one more, filled up with zeros. */
  lemma RestKeepsItsBits(b: seq<byte>)
    requires |b| % 3 != 0
    ensures 4 * (|b| / 3) <= |EncodeValues(BITS, b)|
    ensures var v, rest := EncodeValues(BITS, b)[4 * (|b| / 3)..], b[3 * (|b| / 3)..];
            if |b| % 3 == 1 then |v| == 2 && SameBits(v[0], v[1], 0, 0, rest[0], 0, 0)
            else |v| == 3 && SameBits(v[0], v[1], v[2], 0, rest[0], rest[1], 0)
  {
    RestIsEncodedAlone(BITS, b);
    var rest := b[3 * (|b| / 3)..];
    GroupBits(rest[0], if |b| % 3 == 1 then 0 else rest[1], 0);
  }

  /** Tables 1 and 2 of RFC 4648. */
  lemma AlphabetsAreThoseOfTheStandard(a: Alphabet, v: int)
    requires 0 <= v < 64
    ensures v < 26 ==> CharOf(a, v) == "ABCDEFGHIJKLMNOPQRSTUVWXYZ"[v]
    ensures 26 <= v < 52 ==> CharOf(a, v) == "abcdefghijklmnopqrstuvwxyz"[v - 26]
    ensures 52 <= v < 62 ==> CharOf(a, v) == "0123456789"[v - 52]
    ensures v >= 62 ==> CharOf(a, v) == (if a.Std? then "+/"[v - 62] else "-_"[v - 62])
  {
  }

  /** A text is the characters of its values, in order. */
  lemma {:induction false} PrintedInOrder(a: Alphabet, v: seq<sextet>)
    ensures |Print(a, v)| == |v| && forall k :: 0 <= k < |v| ==> Print(a, v)[k] == CharOf(a, v[k])
  {
    if v != [] {
      PrintedInOrder(a, v[1..]);
    }
  }
}
