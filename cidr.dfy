/**
 * IPv4 network prefixes as Go's `net` package handles them for the route
 * manager: `net.ParseCIDR` (the text "a.b.c.d/n" to a masked network),
 * `IPNet.String` (the network back to text), `IPNet.Contains`, and on top of
 * them the route manager's containment oracle `containsRoute`.
 *
 * An address is four bytes in network order, as Go's 4-byte `net.IP`; a mask
 * is the canonical mask of a prefix length, as `net.CIDRMask(ones, 32)`.
 */
module Cidr {
  import opened Wrappers
  import opened Strings

  /** A 4-byte IPv4 address, most significant byte first. */
  type Address = s: seq<bv8> | |s| == 4 witness [0, 0, 0, 0]

  /** An IPv4 prefix length. */
  type PrefixLen = n: nat | n <= 32

  /** An IPv4 network: an address and the number of leading one bits of its mask. */
  datatype IPNet = IPNet(ip: Address, ones: PrefixLen)

  /** The byte whose `k` leading bits are set. */
  function PrefixByte(k: nat): bv8
    requires k <= 8
  {
    if k == 0 then 0x00
    else if k == 1 then 0x80
    else if k == 2 then 0xC0
    else if k == 3 then 0xE0
    else if k == 4 then 0xF0
    else if k == 5 then 0xF8
    else if k == 6 then 0xFC
    else if k == 7 then 0xFE
    else 0xFF
  }

  /** How many of the `ones` leading mask bits fall into byte `i`. */
  function BitsInByte(ones: PrefixLen, i: nat): (k: nat)
    ensures k <= 8
  {
    if ones <= 8 * i then 0 else if ones - 8 * i >= 8 then 8 else ones - 8 * i
  }

  function MaskByte(ones: PrefixLen, i: nat): bv8 {
    PrefixByte(BitsInByte(ones, i))
  }

  /** The canonical mask of a prefix length (Go's net.CIDRMask(ones, 32)). */
  function Mask(ones: PrefixLen): Address {
    seq(4, i requires 0 <= i => MaskByte(ones, i))
  }

  /** The address with its host bits cleared (Go's IP.Mask). */
  function MaskAddress(a: Address, ones: PrefixLen): Address {
    seq(4, i requires 0 <= i < 4 => a[i] & MaskByte(ones, i))
  }

  /**
   * Go's IPNet.Contains: `a` agrees with the network on every bit of the mask.
   * A /0 network holds every address and a /32 network only its own.
   */
  function Contains(n: IPNet, a: Address): (r: bool)
    ensures n.ones == 0 ==> r
    ensures n.ones == 32 ==> (r <==> forall i | 0 <= i < 4 :: a[i] == n.ip[i])
  {
    assert n.ones == 32 ==> forall i | 0 <= i < 4 :: MaskByte(n.ones, i) == 0xFF;
    forall i | 0 <= i < 4 :: n.ip[i] & MaskByte(n.ones, i) == a[i] & MaskByte(n.ones, i)
  }

  /** The last address of a network: its address with every host bit set. */
  function LastAddress(n: IPNet): Address {
    seq(4, i requires 0 <= i < 4 => n.ip[i] | !MaskByte(n.ones, i))
  }

  /** A network whose address has no host bits set, as net.ParseCIDR returns it. */
  predicate Canonical(n: IPNet) {
    MaskAddress(n.ip, n.ones) == n.ip
  }

  /** Every address of `inner` is an address of `outer`. */
  ghost predicate Covers(outer: IPNet, inner: IPNet) {
    forall a: Address :: Contains(inner, a) ==> Contains(outer, a)
  }

  /** No address belongs to both networks. */
  ghost predicate Disjoint(n: IPNet, m: IPNet) {
    forall a: Address :: !(Contains(n, a) && Contains(m, a))
  }

  // ---------------------------------------------------------------------
  // Text: IPNet.String and net.ParseCIDR

  /** Dotted-decimal text of a sequence of bytes. */
  function FormatOctets(bs: seq<bv8>): (s: string)
    requires |bs| >= 1
    ensures forall i | 0 <= i < |s| :: IsDigit(s[i]) || s[i] == '.'
  {
    if |bs| == 1 then NatToString(bs[0] as nat)
    else NatToString(bs[0] as nat) + "." + FormatOctets(bs[1..])
  }

  /** The text "a.b.c.d/n" of an address and prefix length. */
  function FormatCidr(ip: Address, ones: PrefixLen): string {
    FormatOctets(ip) + "/" + NatToString(ones)
  }

  /** Go's IPNet.String for a network with a canonical mask; the text reads back as the network's address and length. */
  function Format(n: IPNet): (s: string)
    ensures ParseCidrParts(s) == Some((n.ip, n.ones))
  {
    ParseFormatCidr(n.ip, n.ones);
    FormatCidr(n.ip, n.ones)
  }

  /**
   * Parses `count` dotted-decimal bytes making up the whole of `s`, as Go's
   * parseIPv4: each field is a non-empty digit run of value at most 255, with
   * no leading zero unless the field is "0".
   */
  function ParseOctets(s: string, count: nat): (r: Option<seq<bv8>>)
    requires count >= 1
    ensures r.Some? ==> |r.value| == count
    decreases count
  {
    var c := DigitRun(s);
    if c == 0 || (c > 1 && s[0] == '0') then None
    else
      var v := DecimalValue(s[..c]);
      if v > 255 then None
      else if count == 1 then (if c == |s| then Some([v as bv8]) else None)
      else if c < |s| && s[c] == '.' then
        match ParseOctets(s[c + 1..], count - 1)
        case None => None
        case Some(rest) => Some([v as bv8] + rest)
      else None
  }

  /**
   * The address and prefix length written in CIDR text: an IPv4 address, the
   * first '/', and a non-empty decimal prefix length of at most 32.
   */
  function ParseCidrParts(s: string): Option<(Address, PrefixLen)> {
    match IndexOf(s, '/')
    case None => None
    case Some(slash) =>
      var addr := ParseOctets(s[..slash], 4);
      var len := s[slash + 1..];
      if addr.None? || len == [] || !AllDigits(len) || DecimalValue(len) > 32 then None
      else Some((addr.value, DecimalValue(len)))
  }

  /**
   * Go's net.ParseCIDR for IPv4 text: the network, with the host bits of the
   * written address cleared. It has no host bits set, it contains the written
   * address, and it fails exactly when the text is not "a.b.c.d/n".
   */
  function ParseCidr(s: string): (r: Option<IPNet>)
    ensures r.Some? <==> ParseCidrParts(s).Some?
    ensures r.Some? ==> Canonical(r.value)
    ensures r.Some? ==> r.value.ones == ParseCidrParts(s).value.1 && Contains(r.value, ParseCidrParts(s).value.0)
  {
    match ParseCidrParts(s)
    case None => None
    case Some((ip, ones)) =>
      var n := IPNet(MaskAddress(ip, ones), ones);
      assert Canonical(n) by {
        forall i | 0 <= i < 4 ensures MaskAddress(n.ip, n.ones)[i] == n.ip[i] { }
      }
      Some(n)
  }

  /** Error text of a failed parse, as Go's net.ParseError. */
  function ParseErrorText(s: string): string {
    "invalid CIDR address: " + s
  }

  /** The decimal text of a byte, followed by a '.' or by nothing, is read back as one field. */
  lemma OctetField(b: bv8, tail: string)
    requires tail == [] || tail[0] == '.'
    ensures var d := NatToString(b as nat);
      && DigitRun(d + tail) == |d|
      && (d + tail)[..|d|] == d
      && DecimalValue(d) == b as nat
      && DecimalValue(d) <= 255
      && DecimalValue(d) as bv8 == b
      && !(|d| > 1 && (d + tail)[0] == '0')
  {
    var d := NatToString(b as nat);
    DigitRunOf(d, tail);
    assert (d + tail)[..|d|] == d;
    DecimalRoundTrip(b as nat);
    NoLeadingZero(b as nat);
  }

  /** One step of ParseOctets: a good first field, a '.', and the remaining fields. */
  lemma ParseOctetsStep(s: string, count: nat, c: nat, rest: seq<bv8>)
    requires count >= 2 && DigitRun(s) == c && 0 < c < |s| && s[c] == '.'
    requires !(c > 1 && s[0] == '0') && DecimalValue(s[..c]) <= 255
    requires ParseOctets(s[c + 1..], count - 1) == Some(rest)
    ensures ParseOctets(s, count) == Some([DecimalValue(s[..c]) as bv8] + rest)
  {
  }

  lemma ParseFormatOctet(b: bv8)
    ensures ParseOctets(FormatOctets([b]), 1) == Some([b])
  {
    var d := NatToString(b as nat);
    assert (b as nat) as bv8 == b;
    OctetField(b, "");
    assert d + "" == d;
  }

  /** A well-formed decimal field, a '.', and text that reads back as further bytes, read back as all of them. */
  lemma ParseFieldDotRest(d: string, restText: string, count: nat, restBytes: seq<bv8>)
    requires |d| >= 1 && AllDigits(d) && !(|d| > 1 && d[0] == '0') && DecimalValue(d) <= 255
    requires count >= 2 && ParseOctets(restText, count - 1) == Some(restBytes)
    ensures ParseOctets(d + "." + restText, count) == Some([DecimalValue(d) as bv8] + restBytes)
  {
    var s := d + "." + restText;
    assert s == d + ("." + restText);
    DigitRunOf(d, "." + restText);
    assert s[..|d|] == d;
    assert s[|d| + 1..] == restText;
    ParseOctetsStep(s, count, |d|, restBytes);
  }

  /** A byte's text, a '.', and text that reads back as further bytes, read back as all of them. */
  lemma ParseFieldThenRest(b: bv8, restText: string, count: nat, restBytes: seq<bv8>)
    requires count >= 2 && ParseOctets(restText, count - 1) == Some(restBytes)
    ensures ParseOctets(NatToString(b as nat) + "." + restText, count) == Some([b] + restBytes)
  {
    var d := NatToString(b as nat);
    DecimalRoundTrip(b as nat);
    NoLeadingZero(b as nat);
    assert DecimalValue(d) as bv8 == b;
    ParseFieldDotRest(d, restText, count, restBytes);
  }

  /** Dotted-decimal text of bytes reads back as the same bytes. */
  lemma {:induction false} ParseFormatOctets(bs: seq<bv8>)
    requires |bs| >= 1
    ensures ParseOctets(FormatOctets(bs), |bs|) == Some(bs)
    decreases |bs|
  {
    if |bs| == 1 {
      ParseFormatOctet(bs[0]);
      assert bs == [bs[0]];
    } else {
      ParseFormatOctets(bs[1..]);
      ParseFieldThenRest(bs[0], FormatOctets(bs[1..]), |bs|, bs[1..]);
      assert bs == [bs[0]] + bs[1..];
    }
  }

  /** The text of an address and prefix length reads back as exactly that address and length. */
  lemma ParseFormatCidr(ip: Address, ones: PrefixLen)
    ensures ParseCidrParts(FormatCidr(ip, ones)) == Some((ip, ones))
  {
    var a := FormatOctets(ip);
    var len := NatToString(ones);
    var s := FormatCidr(ip, ones);
    assert '/' !in a;
    assert s == a + ['/'] + len;
    IndexOfAfter(a, '/', len);
    assert s[..|a|] == a;
    assert s[|a| + 1..] == len;
    ParseFormatOctets(ip);
    DecimalRoundTrip(ones);
  }

  /** Distinct address/length pairs have distinct CIDR texts. */
  lemma FormatCidrInjective(ip1: Address, ones1: PrefixLen, ip2: Address, ones2: PrefixLen)
    requires (ip1, ones1) != (ip2, ones2)
    ensures FormatCidr(ip1, ones1) != FormatCidr(ip2, ones2)
  {
    ParseFormatCidr(ip1, ones1);
    ParseFormatCidr(ip2, ones2);
  }

  /** IPNet.String followed by net.ParseCIDR gives back a canonical network. */
  lemma ParseFormat(n: IPNet)
    requires Canonical(n)
    ensures ParseCidr(Format(n)) == Some(n)
  {
    ParseFormatCidr(n.ip, n.ones);
  }

  // ---------------------------------------------------------------------
  // Geometry of prefixes

  lemma PrefixByteNested(k1: nat, k2: nat)
    requires k1 <= k2 <= 8
    ensures PrefixByte(k1) & !PrefixByte(k2) == 0
  {
  }

  lemma PrefixByteGap(k1: nat, k2: nat)
    requires k1 < k2 <= 8
    ensures PrefixByte(k2) & !PrefixByte(k1) != 0
  {
  }

  /** A shorter prefix's mask is contained, byte by byte, in a longer prefix's mask. */
  lemma MaskNested(short: PrefixLen, long: PrefixLen, i: nat)
    requires short <= long
    ensures MaskByte(short, i) & !MaskByte(long, i) == 0
  {
    PrefixByteNested(BitsInByte(short, i), BitsInByte(long, i));
  }

  /** A longer prefix has a mask bit, in the byte where the shorter one ends, that the shorter lacks. */
  lemma MaskGap(short: PrefixLen, long: PrefixLen)
    requires short < long
    ensures short / 8 < 4
    ensures MaskByte(long, short / 8) & !MaskByte(short, short / 8) != 0
  {
    var i := short / 8;
    assert BitsInByte(short, i) < BitsInByte(long, i);
    PrefixByteGap(BitsInByte(short, i), BitsInByte(long, i));
  }

  /** When `inner` is a shorter prefix than `outer`, its first and last addresses cannot both lie in `outer`. */
  lemma ShorterSplitsEndpoints(outer: IPNet, inner: IPNet)
    requires Canonical(inner) && inner.ones < outer.ones
    ensures !(Contains(outer, inner.ip) && Contains(outer, LastAddress(inner)))
  {
    MaskGap(inner.ones, outer.ones);
    var i := inner.ones / 8;
    var last := LastAddress(inner);
    var gap := MaskByte(outer.ones, i) & !MaskByte(inner.ones, i);
    assert inner.ip[i] == MaskAddress(inner.ip, inner.ones)[i];
    assert inner.ip[i] & gap == 0;
    assert last[i] & gap == gap;
    assert inner.ip[i] & MaskByte(outer.ones, i) != last[i] & MaskByte(outer.ones, i);
  }

  /**
   * The test containsRoute performs (both the first and the last address of
   * `inner` lie in `outer`) holds exactly when `inner` is at least as long a
   * prefix as `outer` and its address lies in `outer`.
   */
  lemma EndpointsIffLonger(outer: IPNet, inner: IPNet)
    requires Canonical(inner)
    ensures (Contains(outer, inner.ip) && Contains(outer, LastAddress(inner)))
        <==> (outer.ones <= inner.ones && Contains(outer, inner.ip))
  {
    var last := LastAddress(inner);
    if outer.ones <= inner.ones && Contains(outer, inner.ip) {
      forall i | 0 <= i < 4
        ensures outer.ip[i] & MaskByte(outer.ones, i) == last[i] & MaskByte(outer.ones, i)
      {
        MaskNested(outer.ones, inner.ones, i);
      }
    }
    if inner.ones < outer.ones {
      ShorterSplitsEndpoints(outer, inner);
    }
  }

  /** For a parsed network, the endpoint test is exactly inclusion of address sets. */
  lemma EndpointsIffCovers(outer: IPNet, inner: IPNet)
    requires Canonical(inner)
    ensures (Contains(outer, inner.ip) && Contains(outer, LastAddress(inner))) <==> Covers(outer, inner)
  {
    EndpointsIffLonger(outer, inner);
    if outer.ones <= inner.ones && Contains(outer, inner.ip) {
      forall a: Address | Contains(inner, a) ensures Contains(outer, a) {
        forall i | 0 <= i < 4
          ensures outer.ip[i] & MaskByte(outer.ones, i) == a[i] & MaskByte(outer.ones, i)
        {
          MaskNested(outer.ones, inner.ones, i);
        }
      }
    }
    if Covers(outer, inner) {
      assert Contains(inner, inner.ip);
      var last := LastAddress(inner);
      assert Contains(inner, last) by {
        forall i | 0 <= i < 4
          ensures inner.ip[i] & MaskByte(inner.ones, i) == last[i] & MaskByte(inner.ones, i)
        {
        }
      }
    }
  }

  // ---------------------------------------------------------------------
  // containsRoute

  /**
   * The pair containsRoute returns: `containsEqual` is the loose answer
   * (true on exact textual equality), `realContains` the strict one (false
   * on exact textual equality).
   */
  datatype Containment = Containment(containsEqual: bool, realContains: bool)

  /** What containsRoute answers for a candidate route text against an optional enclosing network. */
  function Classify(outside: Option<IPNet>, insideRoute: string): (r: Result<Containment, string>)
    ensures outside.None? ==> r == Ok(Containment(true, true))
    ensures r.Err? <==> outside.Some? && ParseCidr(insideRoute).None?
    ensures r.Ok? && r.value.realContains ==> r.value.containsEqual
    ensures r.Ok? && r.value.containsEqual != r.value.realContains ==>
      outside.Some? && insideRoute == Format(outside.value)
  {
    match outside
    case None => Ok(Containment(true, true))
    case Some(o) =>
      match ParseCidr(insideRoute)
      case None =>
        Err("ignoring route " + insideRoute + ", unparsable CIDR: " + ParseErrorText(insideRoute))
      case Some(c) =>
        if Format(o) == insideRoute then Ok(Containment(true, false))
        else if !Contains(o, c.ip) || !Contains(o, LastAddress(c)) then Ok(Containment(false, false))
        else Ok(Containment(true, true))
  }

  /** The last address of a network, filled byte by byte as `ip | ^mask`. */
  method LastIP(cidr: IPNet) returns (last: Address)
    ensures last == LastAddress(cidr)
  {
    var mask := Mask(cidr.ones);
    var lastIP := new bv8[4];
    for i := 0 to 4
      invariant forall j | 0 <= j < i :: lastIP[j] == cidr.ip[j] | !mask[j]
    {
      lastIP[i] := cidr.ip[i] | !mask[i];
    }
    last := lastIP[..];
    assert last == LastAddress(cidr);
  }

  /**
   * containsRoute: classifies `insideRoute` against `outside`, filling the
   * last address byte by byte.
   */
  method ContainsRoute(outside: Option<IPNet>, insideRoute: string) returns (r: Result<Containment, string>)
    ensures outside.None? ==> r == Ok(Containment(true, true))
    ensures outside.Some? && ParseCidr(insideRoute).None? ==> r.Err?
    ensures (outside.Some? && ParseCidr(insideRoute).Some? && Format(outside.value) == insideRoute)
              ==> r == Ok(Containment(true, false))
    ensures r == Classify(outside, insideRoute)
  {
    if outside.None? {
      return Ok(Containment(true, true));
    }
    var o := outside.value;
    var parsed := ParseCidr(insideRoute);
    if parsed.None? {
      return Err("ignoring route " + insideRoute + ", unparsable CIDR: " + ParseErrorText(insideRoute));
    }
    var cidr := parsed.value;
    if Format(o) == insideRoute {
      return Ok(Containment(true, false));
    }
    var last := LastIP(cidr);
    if !Contains(o, cidr.ip) || !Contains(o, last) {
      return Ok(Containment(false, false));
    }
    return Ok(Containment(true, true));
  }

  /** An unset enclosing network contains every route, even text that does not parse. */
  lemma ClassifyUnscoped(insideRoute: string)
    ensures Classify(None, insideRoute) == Ok(Containment(true, true))
  {
  }

  /** Text that is not an IPv4 CIDR is an error whenever an enclosing network is set. */
  lemma ClassifyUnparsable(o: IPNet, insideRoute: string)
    requires ParseCidr(insideRoute).None?
    ensures Classify(Some(o), insideRoute).Err?
  {
  }

  /** A network's own text is loosely but not strictly contained in it. */
  lemma ClassifySelf(o: IPNet)
    ensures Classify(Some(o), Format(o)) == Ok(Containment(true, false))
  {
  }

  /**
   * Apart from the network's own text, both flags agree, and they are true
   * exactly when every address of the candidate network lies in `o`.
   */
  lemma ClassifyCovers(o: IPNet, insideRoute: string)
    requires ParseCidr(insideRoute).Some? && Format(o) != insideRoute
    ensures var c := ParseCidr(insideRoute).value;
      Classify(Some(o), insideRoute) == Ok(Containment(Covers(o, c), Covers(o, c)))
  {
    EndpointsIffCovers(o, ParseCidr(insideRoute).value);
  }

  /** A candidate sharing no address with `o` is contained neither loosely nor strictly. */
  lemma ClassifyDisjoint(o: IPNet, insideRoute: string)
    requires ParseCidr(insideRoute).Some? && Disjoint(o, ParseCidr(insideRoute).value)
    ensures Classify(Some(o), insideRoute) == Ok(Containment(false, false))
  {
    var c := ParseCidr(insideRoute).value;
    assert Contains(c, c.ip);
    assert Contains(o, o.ip);
    assert Contains(ParseCidr(Format(o)).value, o.ip);
    assert Format(o) != insideRoute;
    ClassifyCovers(o, insideRoute);
  }

  /**
   * The self-match exemption compares text, not networks: the enclosing
   * network written with some host bits set (say "10.1.0.5/24" against
   * 10.1.0.0/24) is reported as strictly contained in itself.
   */
  lemma ClassifyHostBitsSet(o: IPNet, ip: Address)
    requires Canonical(o)
    requires MaskAddress(ip, o.ones) == o.ip && ip != o.ip
    ensures Classify(Some(o), FormatCidr(ip, o.ones)) == Ok(Containment(true, true))
  {
    var s := FormatCidr(ip, o.ones);
    ParseFormatCidr(ip, o.ones);
    assert ParseCidr(s) == Some(o);
    FormatCidrInjective(o.ip, o.ones, ip, o.ones);
    assert forall i | 0 <= i < 4 :: o.ip[i] == MaskAddress(o.ip, o.ones)[i];
    EndpointsIffLonger(o, o);
  }
}
