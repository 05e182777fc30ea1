/** Finding the client address in the X-Forwarded-For header. */
module ForwardedFor {
  import opened Common
  import opened Text

  /** Parsing and printing of addresses, and which of them are trusted proxies. */
  datatype Network<!IP> = Network(parse: string -> Option<IP>, trusted: IP -> bool, show: IP -> string)

  /** The hop as the scan reads it. */
  function Hop<IP>(net: Network<IP>, entry: string): Option<IP> {
    net.parse(TrimSpace(entry))
  }

  predicate Passes<IP>(net: Network<IP>, entry: string) {
    Hop(net, entry).Some? && net.trusted(Hop(net, entry).value)
  }

  /** What the scan returns when it reaches `entries` from the right with `candidate` in hand. */
  function Scan<IP>(net: Network<IP>, entries: seq<string>, candidate: string): string {
    if entries == [] then candidate
    else
      match Hop(net, entries[|entries| - 1])
      case None => ""
      case Some(ip) => if net.trusted(ip) then Scan(net, entries[..|entries| - 1], net.show(ip)) else net.show(ip)
  }

  function ClientIP<IP>(net: Network<IP>, header: string): string {
    if TrimSpace(header) == "" then "" else Scan(net, Split(TrimSpace(header), ','), "")
  }

  method ClientIPFromForwardedFor<IP>(net: Network<IP>, header: string) returns (r: string)
    ensures r == ClientIP(net, header)
  {
    var trimmed := TrimSpace(header);
    if trimmed == "" {
      return "";
    }
    var entries := Split(trimmed, ',');
    var candidate := "";
    var i := |entries| - 1;
    assert entries[..|entries|] == entries;
    while i >= 0
      invariant -1 <= i < |entries|
      invariant Scan(net, entries, "") == Scan(net, entries[..i + 1], candidate)
      decreases i
    {
      assert entries[..i + 1][..i] == entries[..i];
      match net.parse(TrimSpace(entries[i])) {
        case None => return "";
        case Some(ip) =>
          candidate := net.show(ip);
          if !net.trusted(ip) {
            return candidate;
          }
      }
      i := i - 1;
    }
    return candidate;
  }

  /** The outcome when entry `e` is the rightmost one that is not a parseable trusted hop. */
  function Verdict<IP>(net: Network<IP>, e: string): string {
    match Hop(net, e)
    case None => ""
    case Some(ip) => net.show(ip)
  }

  /** The rightmost hop that is not a trusted proxy decides alone. */
  lemma {:induction false} ScanIsDecided<IP>(net: Network<IP>, entries: seq<string>, k: nat, candidate: string)
    requires k < |entries| && !Passes(net, entries[k])
    requires forall j :: k < j < |entries| ==> Passes(net, entries[j])
    ensures Scan(net, entries, candidate) == Verdict(net, entries[k])
    decreases |entries|
  {
    var last := |entries| - 1;
    if k < last {
      var init := entries[..last];
      assert init[k] == entries[k];
      ScanIsDecided(net, init, k, net.show(Hop(net, entries[last]).value));
    }
  }

  /** When every hop is a trusted proxy the leftmost one is the originator. */
  lemma {:induction false} ScanOfTrusted<IP>(net: Network<IP>, entries: seq<string>, candidate: string)
    requires entries != [] && forall j :: 0 <= j < |entries| ==> Passes(net, entries[j])
    ensures Scan(net, entries, candidate) == Verdict(net, entries[0])
    decreases |entries|
  {
    if |entries| > 1 {
      ScanOfTrusted(net, entries[..|entries| - 1], net.show(Hop(net, entries[|entries| - 1]).value));
    }
  }

  /** A header without content has no client. */
  lemma EmptyHeader<IP>(net: Network<IP>, header: string)
    requires TrimSpace(header) == ""
    ensures ClientIP(net, header) == ""
  {
  }

  /**
   Whatever the header, one entry or many: the rightmost entry that is not the address of a
   trusted proxy decides, by its address as printed, or by nothing when it is no address ...
   */
  lemma HeaderIsDecided<IP>(net: Network<IP>, header: string, k: nat)
    requires TrimSpace(header) != ""
    requires var entries := Split(TrimSpace(header), ',');
             && k < |entries|
             && (net.parse(TrimSpace(entries[k])).Some? ==> !net.trusted(net.parse(TrimSpace(entries[k])).value))
             && forall j :: k < j < |entries| ==>
                  net.parse(TrimSpace(entries[j])).Some? && net.trusted(net.parse(TrimSpace(entries[j])).value)
    ensures var entries := Split(TrimSpace(header), ',');
            ClientIP(net, header) ==
              match net.parse(TrimSpace(entries[k]))
              case Some(ip) => net.show(ip)
              case None => ""
  {
    var entries := Split(TrimSpace(header), ',');
    forall j | k < j < |entries| ensures Passes(net, entries[j]) {
      assert net.parse(TrimSpace(entries[j])).Some?;
    }
    ScanIsDecided(net, entries, k, "");
  }

  /** ... and if every entry is a trusted proxy, the leftmost does. */
  lemma HeaderOfTrusted<IP>(net: Network<IP>, header: string)
    requires TrimSpace(header) != ""
    requires var entries := Split(TrimSpace(header), ',');
             forall e :: e in entries ==> net.parse(TrimSpace(e)).Some? && net.trusted(net.parse(TrimSpace(e)).value)
    ensures var entries := Split(TrimSpace(header), ',');
            |entries| >= 1 && ClientIP(net, header) == net.show(net.parse(TrimSpace(entries[0])).value)
  {
    var entries := Split(TrimSpace(header), ',');
    forall j | 0 <= j < |entries| ensures Passes(net, entries[j]) {
      assert entries[j] in entries;
    }
    ScanOfTrusted(net, entries, "");
  }

  /** Trimming the end of the header only trims its last entry. */
  lemma {:induction false} SplitOfTrimRight(s: string)
    ensures var parts := Split(s, ','); var trimmed := Split(TrimRight(s), ',');
            && |trimmed| == |parts|
            && (forall k :: 0 <= k < |parts| - 1 ==> trimmed[k] == parts[k])
            && trimmed[|parts| - 1] == TrimRight(parts[|parts| - 1])
    decreases |s|
  {
    if s == "" {
    } else if IsSpace(s[|s| - 1]) {
      var init, c := s[..|s| - 1], s[|s| - 1];
      assert s == init + [c];
      SplitOfTrimRight(init);
      SplitOfAppend(init, c, ',');
      var last := Split(init, ',')[|Split(init, ',')| - 1];
      assert (last + [c])[..|last|] == last;
    } else {
      LastPartEnds(s);
    }
  }

  lemma {:induction false} LastPartEnds(s: string)
    requires s != "" && !IsSpace(s[|s| - 1])
    ensures var parts := Split(s, ','); TrimRight(parts[|parts| - 1]) == parts[|parts| - 1]
  {
    var init, c := s[..|s| - 1], s[|s| - 1];
    assert s == init + [c];
    if c == ',' {
      SplitOfConcat(init, "", ',');
      assert s == init + [','] + "";
    } else {
      SplitOfAppend(init, c, ',');
      var last := Split(init, ',')[|Split(init, ',')| - 1];
      assert (last + [c])[|last|] == c;
    }
  }

  /** A header `prefix,suffix` is scanned as the entries of both, however it is trimmed. */
  lemma EntriesOfHeader(prefix: string, suffix: string)
    returns (left: seq<string>, right: seq<string>)
    ensures Split(TrimSpace(prefix + "," + suffix), ',') == left + right
    ensures TrimSpace(prefix + "," + suffix) != ""
    ensures var parts := Split(suffix, ',');
            |right| == |parts| && forall k :: 0 <= k < |parts| ==> TrimSpace(right[k]) == TrimSpace(parts[k])
  {
    assert ',' !in "" && !IsSpace(',');
    TrimLeftOfConcat(prefix, ',', suffix);
    TrimRightOfConcat(TrimLeft(prefix), ',', suffix);
    SplitOfConcat(TrimLeft(prefix), TrimRight(suffix), ',');
    left, right := Split(TrimLeft(prefix), ','), Split(TrimRight(suffix), ',');
    SplitOfTrimRight(suffix);
    var parts := Split(suffix, ',');
    TrimTwice(parts[|parts| - 1]);
    assert prefix + "," + suffix == prefix + [','] + suffix;
  }

  /**
   Prefix independence: if the part after some comma holds a hop that is not a trusted proxy,
   with only parseable trusted hops to its right, that hop is the result (or, if it cannot be
   parsed, the result is empty) whatever is prepended to the header.
   */
  lemma PrefixIndependence<IP>(net: Network<IP>, prefix: string, suffix: string, k: nat)
    requires k < |Split(suffix, ',')| && !Passes(net, Split(suffix, ',')[k])
    requires forall j :: k < j < |Split(suffix, ',')| ==> Passes(net, Split(suffix, ',')[j])
    ensures ClientIP(net, prefix + "," + suffix) == Verdict(net, Split(suffix, ',')[k])
  {
    var left, right := EntriesOfHeader(prefix, suffix);
    var parts, entries := Split(suffix, ','), left + right;
    forall j | 0 <= j < |parts| ensures Hop(net, entries[|left| + j]) == Hop(net, parts[j]) {
      assert entries[|left| + j] == right[j];
    }
    forall j | |left| + k < j < |entries| ensures Passes(net, entries[j]) {
      assert Passes(net, parts[j - |left|]);
      assert Hop(net, entries[|left| + (j - |left|)]) == Hop(net, parts[j - |left|]);
    }
    ScanIsDecided(net, entries, |left| + k, "");
  }
}
