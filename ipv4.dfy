/** IPv4 addresses as the site finder handles them: `socket.inet_aton`
    followed by `struct.unpack('>I', ...)` turns a dotted quad into a 32-bit
    big-endian integer, and `socket.inet_ntoa(struct.pack('>I', i))` turns
    the integer back. Only the four-decimal-octet form is modelled. */
module Ipv4 {
  import opened Wrappers
  import opened Text

  const AddressSpace: nat := 0x1_0000_0000

  /** One octet of a dotted quad: a canonical decimal numeral below 256. */
  function ParseOctet(s: string): (r: Option<nat>)
    ensures r.Some? ==> r.value < 256 && NatToDecimal(r.value) == s
  {
    if Canonical(s) && DecimalValue(s) < 256 then
      DecimalRoundTripBack(s);
      Some(DecimalValue(s))
    else None
  }

  /** `struct.unpack('>I', socket.inet_aton(s))[0]`; None where `inet_aton`
      raises. The first octet is the most significant. */
  function ParseAddress(s: string): (r: Option<nat>)
    ensures r.Some? ==> r.value < AddressSpace
  {
    var parts := Split(s, ".");
    if |parts| != 4 then None
    else
      match (ParseOctet(parts[0]), ParseOctet(parts[1]), ParseOctet(parts[2]), ParseOctet(parts[3]))
      case (Some(a), Some(b), Some(c), Some(d)) => Some(((a * 256 + b) * 256 + c) * 256 + d)
      case _ => None
  }

  /** The four octets of a 32-bit value, most significant first. */
  function Octets(n: nat): seq<nat>
    requires n < AddressSpace
  {
    [n / 0x100_0000, n / 0x1_0000 % 256, n / 256 % 256, n % 256]
  }

  /** `socket.inet_ntoa(struct.pack('>I', n))`. */
  function FormatAddress(n: nat): string
    requires n < AddressSpace
  {
    var o := Octets(n);
    Join([NatToDecimal(o[0]), NatToDecimal(o[1]), NatToDecimal(o[2]), NatToDecimal(o[3])], ".")
  }

  lemma NoDotInNumeral(n: nat)
    ensures '.' !in NatToDecimal(n)
  {
  }

  lemma OctetsRecompose(n: nat)
    requires n < AddressSpace
    ensures Octets(n)[0] < 256
    ensures ((Octets(n)[0] * 256 + Octets(n)[1]) * 256 + Octets(n)[2]) * 256 + Octets(n)[3] == n
  {
  }

  /** Packing an address and unpacking it gives the same integer. */
  lemma AddressRoundTrip(n: nat)
    requires n < AddressSpace
    ensures ParseAddress(FormatAddress(n)) == Some(n)
  {
    var o := Octets(n);
    OctetsRecompose(n);
    var parts := [NatToDecimal(o[0]), NatToDecimal(o[1]), NatToDecimal(o[2]), NatToDecimal(o[3])];
    NoDotInNumeral(o[0]);
    NoDotInNumeral(o[1]);
    NoDotInNumeral(o[2]);
    NoDotInNumeral(o[3]);
    SplitJoin(parts, '.');
    assert Split(FormatAddress(n), ".") == parts;
    DecimalRoundTrip(o[0]);
    DecimalRoundTrip(o[1]);
    DecimalRoundTrip(o[2]);
    DecimalRoundTrip(o[3]);
  }

  lemma FormattedParsesBack(s: string, n: nat)
    requires n < AddressSpace && s == FormatAddress(n)
    ensures ParseAddress(s) == Some(n)
  {
    AddressRoundTrip(n);
  }

  lemma ParsedFormatsBack(s: string, n: nat)
    requires ParseAddress(s) == Some(n)
    ensures n < AddressSpace && FormatAddress(n) == s
  {
    AddressRoundTripBack(s);
  }

  lemma OctetsOfComposed(a: nat, b: nat, c: nat, d: nat)
    requires a < 256 && b < 256 && c < 256 && d < 256
    ensures ((a * 256 + b) * 256 + c) * 256 + d < AddressSpace
    ensures Octets(((a * 256 + b) * 256 + c) * 256 + d) == [a, b, c, d]
  {
    var ab := a * 256 + b;
    var abc := ab * 256 + c;
    var n := abc * 256 + d;
    assert n == a * 0x100_0000 + (b * 0x1_0000 + c * 256 + d);
    assert n / 0x100_0000 == a;
    assert n == ab * 0x1_0000 + (c * 256 + d);
    assert n / 0x1_0000 == ab && ab % 256 == b;
    assert n / 256 == abc && abc % 256 == c;
  }

  /** An address the parser accepts is exactly the text formatting gives back:
      the accepted form is canonical. */
  lemma AddressRoundTripBack(s: string)
    requires ParseAddress(s).Some?
    ensures FormatAddress(ParseAddress(s).value) == s
  {
    var parts := Split(s, ".");
    var a, b, c, d := ParseOctet(parts[0]).value, ParseOctet(parts[1]).value,
                      ParseOctet(parts[2]).value, ParseOctet(parts[3]).value;
    OctetsOfComposed(a, b, c, d);
    assert [NatToDecimal(a), NatToDecimal(b), NatToDecimal(c), NatToDecimal(d)] == parts;
    JoinSplit(s, ".");
  }
}
