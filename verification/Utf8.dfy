/** UTF-8 as section 4 of RFC 3629 defines it, and the shortening of stored error texts. */
module Utf8 {
  import opened Common

  const MAX_LAST_ERROR_LENGTH: nat := 1024

  /** A Unicode scalar value: any code point that is not a surrogate. */
  predicate IsScalar(cp: int) {
    0 <= cp < 0xD800 || 0xE000 <= cp < 0x11_0000
  }

  /** The encoding table of section 3 of RFC 3629. */
  function Encode(cp: int): (r: seq<byte>)
    requires IsScalar(cp)
    ensures 1 <= |r| <= 4
  {
    if cp < 0x80 then [cp]
    else if cp < 0x800 then [0xC0 + cp / 64, 0x80 + cp % 64]
    else if cp < 0x1_0000 then [0xE0 + cp / 4096, 0x80 + cp / 64 % 64, 0x80 + cp % 64]
    else [0xF0 + cp / 262144, 0x80 + cp / 4096 % 64, 0x80 + cp / 64 % 64, 0x80 + cp % 64]
  }

  ghost predicate AllScalars(cps: seq<int>) {
    forall i :: 0 <= i < |cps| ==> IsScalar(cps[i])
  }

  function EncodeAll(cps: seq<int>): seq<byte>
    requires AllScalars(cps)
  {
    if cps == [] then [] else Encode(cps[0]) + EncodeAll(cps[1..])
  }

  predicate IsTail(b: byte) {
    0x80 <= b <= 0xBF
  }

  /** The byte ranges of UTF8-3 in section 4 of RFC 3629. */
  predicate IsHead3(a: byte, b: byte) {
    || (a == 0xE0 && 0xA0 <= b <= 0xBF)
    || ((0xE1 <= a <= 0xEC || 0xEE <= a <= 0xEF) && IsTail(b))
    || (a == 0xED && 0x80 <= b <= 0x9F)
  }

  /** The byte ranges of UTF8-4 in section 4 of RFC 3629. */
  predicate IsHead4(a: byte, b: byte) {
    || (a == 0xF0 && 0x90 <= b <= 0xBF)
    || (0xF1 <= a <= 0xF3 && IsTail(b))
    || (a == 0xF4 && 0x80 <= b <= 0x8F)
  }

  /** Length of the well-formed character `s` starts with, or 0 when there is none. */
  function RuneLength(s: seq<byte>): (n: nat)
    ensures n <= 4 && n <= |s|
  {
    if |s| >= 1 && s[0] < 0x80 then 1
    else if |s| >= 2 && 0xC2 <= s[0] <= 0xDF && IsTail(s[1]) then 2
    else if |s| >= 3 && IsHead3(s[0], s[1]) && IsTail(s[2]) then 3
    else if |s| >= 4 && IsHead4(s[0], s[1]) && IsTail(s[2]) && IsTail(s[3]) then 4
    else 0
  }

  /** Go's `utf8.ValidString`: a left-to-right scan for well-formed characters. */
  predicate ValidString(s: seq<byte>)
    decreases |s|
  {
    s == [] || (RuneLength(s) > 0 && ValidString(s[RuneLength(s)..]))
  }

  lemma TwoAreWellFormed(cp: int, rest: seq<byte>)
    requires 0x80 <= cp < 0x800
    ensures RuneLength(Encode(cp) + rest) == 2
  {
    var s := Encode(cp) + rest;
    assert s[0] == 0xC0 + cp / 64 && s[1] == 0x80 + cp % 64;
  }

  lemma ThreeAreWellFormed(cp: int, rest: seq<byte>)
    requires IsScalar(cp) && 0x800 <= cp < 0x1_0000
    ensures RuneLength(Encode(cp) + rest) == 3
  {
    var s := Encode(cp) + rest;
    assert s[0] == 0xE0 + cp / 4096 && s[1] == 0x80 + cp / 64 % 64 && s[2] == 0x80 + cp % 64;
    assert cp / 64 / 64 == cp / 4096 && cp / 64 == cp / 4096 * 64 + cp / 64 % 64;
  }

  lemma FourAreWellFormed(cp: int, rest: seq<byte>)
    requires IsScalar(cp) && 0x1_0000 <= cp
    ensures RuneLength(Encode(cp) + rest) == 4
  {
    var s := Encode(cp) + rest;
    assert s[0] == 0xF0 + cp / 262144 && s[1] == 0x80 + cp / 4096 % 64 && s[2] == 0x80 + cp / 64 % 64 && s[3] == 0x80 + cp % 64;
    assert cp / 4096 / 64 == cp / 262144 && cp / 4096 == cp / 262144 * 64 + cp / 4096 % 64;
  }

  lemma EncodeIsWellFormed(cp: int, rest: seq<byte>)
    requires IsScalar(cp)
    ensures RuneLength(Encode(cp) + rest) == |Encode(cp)|
  {
    if cp < 0x80 {
    } else if cp < 0x800 {
      TwoAreWellFormed(cp, rest);
    } else if cp < 0x1_0000 {
      ThreeAreWellFormed(cp, rest);
    } else {
      FourAreWellFormed(cp, rest);
    }
  }

  function DecodeHead(s: seq<byte>): int
    requires RuneLength(s) > 0
  {
    var at: int -> int := i => if 0 <= i < |s| then s[i] else 0;
    match RuneLength(s)
    case 1 => at(0)
    case 2 => (at(0) - 0xC0) * 64 + (at(1) - 0x80)
    case 3 => (at(0) - 0xE0) * 4096 + (at(1) - 0x80) * 64 + (at(2) - 0x80)
    case _ => (at(0) - 0xF0) * 262144 + (at(1) - 0x80) * 4096 + (at(2) - 0x80) * 64 + (at(3) - 0x80)
  }

  lemma HeadIsEncoded(s: seq<byte>)
    requires RuneLength(s) > 0
    ensures IsScalar(DecodeHead(s)) && Encode(DecodeHead(s)) == s[..RuneLength(s)]
  {
    match RuneLength(s)
    case 1 =>
      assert s[..1] == [s[0]];
    case 2 => HeadOfTwo(s);
    case 3 => HeadOfThree(s);
    case _ => HeadOfFour(s);
  }

  lemma HeadOfTwo(s: seq<byte>)
    requires RuneLength(s) == 2
    ensures IsScalar(DecodeHead(s)) && Encode(DecodeHead(s)) == s[..2]
  {
    Digits(s[0] - 0xC0, s[1] - 0x80);
    assert s[..2] == [s[0], s[1]];
  }

  lemma HeadOfThree(s: seq<byte>)
    requires RuneLength(s) == 3
    ensures IsScalar(DecodeHead(s)) && Encode(DecodeHead(s)) == s[..3]
  {
    EncodeThree(s[0] - 0xE0, s[1] - 0x80, s[2] - 0x80);
    assert s[..3] == [s[0], s[1], s[2]];
  }

  lemma HeadOfFour(s: seq<byte>)
    requires RuneLength(s) == 4
    ensures IsScalar(DecodeHead(s)) && Encode(DecodeHead(s)) == s[..4]
  {
    EncodeFour(s[0] - 0xF0, s[1] - 0x80, s[2] - 0x80, s[3] - 0x80);
    assert s[..4] == [s[0], s[1], s[2], s[3]];
  }

  lemma EncodeThree(a: int, b: int, c: int)
    requires 0 <= a < 16 && 0 <= b < 64 && 0 <= c < 64
    requires a == 0 ==> b >= 0x20
    requires a == 13 ==> b < 0x20
    ensures var cp := a * 4096 + b * 64 + c;
            IsScalar(cp) && Encode(cp) == [0xE0 + a, 0x80 + b, 0x80 + c]
  {
    var cp := a * 4096 + b * 64 + c;
    Digits(a, b);
    Digits(a * 64 + b, c);
    assert cp / 4096 == a;
  }

  lemma EncodeFour(a: int, b: int, c: int, d: int)
    requires 0 <= a <= 4 && 0 <= b < 64 && 0 <= c < 64 && 0 <= d < 64
    requires a == 0 ==> b >= 0x10
    requires a == 4 ==> b < 0x10
    ensures var cp := a * 262144 + b * 4096 + c * 64 + d;
            IsScalar(cp) && Encode(cp) == [0xF0 + a, 0x80 + b, 0x80 + c, 0x80 + d]
  {
    var cp := a * 262144 + b * 4096 + c * 64 + d;
    Digits(a, b);
    Digits(a * 64 + b, c);
    Digits((a * 64 + b) * 64 + c, d);
    assert cp / 4096 == a * 64 + b && cp / 262144 == a;
  }

  /** Base-64 digits: the last one is the remainder, the others the quotient. */
  lemma Digits(high: int, low: int)
    requires 0 <= low < 64
    ensures (high * 64 + low) / 64 == high && (high * 64 + low) % 64 == low
  {
  }

  /** The scan accepts exactly the concatenated encodings of scalar values. */
  lemma {:induction false} ValidMeansEncoded(s: seq<byte>)
    ensures ValidString(s) <==> exists cps :: AllScalars(cps) && s == EncodeAll(cps)
    decreases |s|
  {
    if ValidString(s) {
      var cps := Decoded(s);
    }
    if cps :| AllScalars(cps) && s == EncodeAll(cps) {
      EncodedIsValid(cps);
    }
  }

  lemma {:induction false} Decoded(s: seq<byte>) returns (cps: seq<int>)
    requires ValidString(s)
    ensures AllScalars(cps) && s == EncodeAll(cps)
    decreases |s|
  {
    if s == [] {
      cps := [];
    } else {
      var n := RuneLength(s);
      HeadIsEncoded(s);
      var rest := Decoded(s[n..]);
      cps := [DecodeHead(s)] + rest;
      assert cps[1..] == rest;
      assert s == s[..n] + s[n..];
    }
  }

  lemma {:induction false} EncodedIsValid(cps: seq<int>)
    requires AllScalars(cps)
    ensures ValidString(EncodeAll(cps))
  {
    if cps != [] {
      var head, rest := Encode(cps[0]), EncodeAll(cps[1..]);
      EncodeIsWellFormed(cps[0], rest);
      assert (head + rest)[|head|..] == rest;
      EncodedIsValid(cps[1..]);
    }
  }

  /** `p` is the longest valid UTF-8 prefix of `s` among those of at most `limit` bytes. */
  ghost predicate IsLongestValidPrefix(p: seq<byte>, s: seq<byte>, limit: nat) {
    && p <= s
    && |p| <= limit
    && ValidString(p)
    && forall k :: |p| < k <= |s| && k <= limit ==> !ValidString(s[..k])
  }

  /** What the stored error text is, as a function of the error; see TruncateLastError. */
  ghost function Truncated(s: seq<byte>): (r: seq<byte>)
    ensures |s| <= MAX_LAST_ERROR_LENGTH ==> r == s
    ensures |s| > MAX_LAST_ERROR_LENGTH ==> IsLongestValidPrefix(r, s, MAX_LAST_ERROR_LENGTH)
  {
    if |s| <= MAX_LAST_ERROR_LENGTH then s else LongestValidPrefix(s, MAX_LAST_ERROR_LENGTH)
  }

  ghost function LongestValidPrefix(s: seq<byte>, limit: nat): (r: seq<byte>)
    requires limit <= |s|
    ensures IsLongestValidPrefix(r, s, limit)
  {
    if limit == 0 || ValidString(s[..limit]) then s[..limit] else LongestValidPrefix(s, limit - 1)
  }

  lemma LongestValidPrefixIsUnique(p: seq<byte>, q: seq<byte>, s: seq<byte>, limit: nat)
    requires IsLongestValidPrefix(p, s, limit) && IsLongestValidPrefix(q, s, limit)
    ensures p == q
  {
    assert p == s[..|p|] && q == s[..|q|];
  }

  method TruncateLastError(lastError: seq<byte>) returns (r: seq<byte>)
    ensures |lastError| <= 1024 ==> r == lastError
    ensures |lastError| > 1024 ==> IsLongestValidPrefix(r, lastError, 1024)
    ensures r == Truncated(lastError)
  {
    if |lastError| <= MAX_LAST_ERROR_LENGTH {
      return lastError;
    }
    var truncated := lastError[..MAX_LAST_ERROR_LENGTH];
    while !ValidString(truncated)
      invariant truncated == lastError[..|truncated|] && |truncated| <= MAX_LAST_ERROR_LENGTH
      invariant forall k :: |truncated| < k <= MAX_LAST_ERROR_LENGTH ==> !ValidString(lastError[..k])
      decreases |truncated|
    {
      truncated := truncated[..|truncated| - 1];
    }
    LongestValidPrefixIsUnique(truncated, Truncated(lastError), lastError, MAX_LAST_ERROR_LENGTH);
    return truncated;
  }

  /** Cutting a valid text at `k` reaches a character boundary within three bytes. */
  lemma {:induction false} BoundaryNearby(s: seq<byte>, k: nat) returns (j: nat)
    requires ValidString(s) && k <= |s|
    ensures k - 3 <= j <= k && ValidString(s[..j])
    decreases |s|
  {
    var n := RuneLength(s);
    if k < n || k == 0 {
      j := 0;
    } else {
      var m := BoundaryNearby(s[n..], k - n);
      j := n + m;
      assert s[..j][n..] == s[n..][..m];
      assert RuneLength(s[..j]) == n;
    }
  }

  /** A valid error text loses at most three bytes below the limit. */
  lemma TruncationDropsAtMostThree(s: seq<byte>)
    requires ValidString(s) && |s| > MAX_LAST_ERROR_LENGTH
    ensures 1021 <= |Truncated(s)| <= 1024
  {
    var j := BoundaryNearby(s, MAX_LAST_ERROR_LENGTH);
    assert |Truncated(s)| >= j;
  }
}
