/** The Base64 encoding of section 4 of RFC 4648, used to keep the password
    out of clear text: 3 bytes become 4 characters of a 64-letter alphabet,
    and a final group of 1 or 2 bytes is padded with '='. */
module Base64 {
  import opened Wrappers

  type byte = x: int | 0 <= x < 256

  /** The six-bit values. */
  type sextet = x: int | 0 <= x < 64

  /** The letter of a six-bit value: A-Z, a-z, 0-9, '+', '/'. */
  function Letter(v: sextet): (c: char)
    ensures c != '='
  {
    if v < 26 then ('A' as int + v) as char
    else if v < 52 then ('a' as int + (v - 26)) as char
    else if v < 62 then ('0' as int + (v - 52)) as char
    else if v == 62 then '+'
    else '/'
  }

  /** The six-bit value of a letter, None for any other character. */
  function LetterValue(c: char): (r: Option<sextet>)
    ensures r.Some? ==> Letter(r.value) == c
  {
    if 'A' <= c <= 'Z' then Some(c as int - 'A' as int)
    else if 'a' <= c <= 'z' then Some(c as int - 'a' as int + 26)
    else if '0' <= c <= '9' then Some(c as int - '0' as int + 52)
    else if c == '+' then Some(62)
    else if c == '/' then Some(63)
    else None
  }

  /** Every six-bit value has a letter, and reading the letter gives it back. */
  lemma LetterRoundTrip(v: sextet)
    ensures LetterValue(Letter(v)) == Some(v)
  {
  }

  predicate InAlphabet(c: char)
  {
    LetterValue(c).Some?
  }

  /** Three bytes as four letters. */
  function EncodeGroup(b0: byte, b1: byte, b2: byte): string
  {
    [Letter(b0 / 4), Letter((b0 % 4) * 16 + b1 / 16), Letter((b1 % 16) * 4 + b2 / 64), Letter(b2 % 64)]
  }

  /** A final single byte: two letters and two '='. */
  function EncodeOne(b0: byte): string
  {
    [Letter(b0 / 4), Letter((b0 % 4) * 16), '=', '=']
  }

  /** A final pair of bytes: three letters and one '='. */
  function EncodeTwo(b0: byte, b1: byte): string
  {
    [Letter(b0 / 4), Letter((b0 % 4) * 16 + b1 / 16), Letter((b1 % 16) * 4), '=']
  }

  /** `b64encode`: groups of three bytes, the last one padded. */
  function Encode(b: seq<byte>): (s: string)
    ensures s == [] <==> b == []
    decreases |b|
  {
    if |b| == 0 then []
    else if |b| == 1 then EncodeOne(b[0])
    else if |b| == 2 then EncodeTwo(b[0], b[1])
    else EncodeGroup(b[0], b[1], b[2]) + Encode(b[3..])
  }

  /** Four characters per started group of three bytes: the length is a
      multiple of 4. */
  lemma {:induction false} EncodeLength(b: seq<byte>)
    ensures |Encode(b)| == 4 * ((|b| + 2) / 3)
    decreases |b|
  {
    if |b| >= 3 {
      EncodeLength(b[3..]);
      assert Encode(b) == EncodeGroup(b[0], b[1], b[2]) + Encode(b[3..]);
    }
  }

  /** The encoding uses only the alphabet and '='. */
  lemma {:induction false} EncodeAlphabet(b: seq<byte>)
    ensures forall i :: 0 <= i < |Encode(b)| ==> InAlphabet(Encode(b)[i]) || Encode(b)[i] == '='
    decreases |b|
  {
    if |b| == 1 {
      LetterRoundTrip(b[0] / 4);
      LetterRoundTrip((b[0] % 4) * 16);
    } else if |b| == 2 {
      LetterRoundTrip(b[0] / 4);
      LetterRoundTrip((b[0] % 4) * 16 + b[1] / 16);
      LetterRoundTrip((b[1] % 16) * 4);
    } else if |b| >= 3 {
      EncodeAlphabet(b[3..]);
      var g := EncodeGroup(b[0], b[1], b[2]);
      LetterRoundTrip(b[0] / 4);
      LetterRoundTrip((b[0] % 4) * 16 + b[1] / 16);
      LetterRoundTrip((b[1] % 16) * 4 + b[2] / 64);
      LetterRoundTrip(b[2] % 64);
      assert forall i :: 0 <= i < 4 ==> InAlphabet(g[i]);
      assert Encode(b) == g + Encode(b[3..]);
    }
  }

  /** Four letters as three bytes. */
  function DecodeGroup(c0: sextet, c1: sextet, c2: sextet, c3: sextet): seq<byte>
  {
    [c0 * 4 + c1 / 16, (c1 % 16) * 16 + c2 / 4, (c2 % 4) * 64 + c3]
  }

  /** The bytes of one four-character group; `last` allows the padded
      forms "xx==" and "xxx=". Bits below the last byte are ignored. */
  function DecodeQuantum(q: string, last: bool): Option<seq<byte>>
    requires |q| == 4
  {
    var v0 := LetterValue(q[0]);
    var v1 := LetterValue(q[1]);
    var v2 := LetterValue(q[2]);
    var v3 := LetterValue(q[3]);
    if v0.None? || v1.None? then None
    else if v2.Some? && v3.Some? then
      Some(DecodeGroup(v0.value, v1.value, v2.value, v3.value))
    else if last && v2.Some? && q[3] == '=' then
      Some(DecodeGroup(v0.value, v1.value, v2.value, 0)[..2])
    else if last && q[2] == '=' && q[3] == '=' then
      Some(DecodeGroup(v0.value, v1.value, 0, 0)[..1])
    else None
  }

  /** `b64decode` of well-formed input: None for a length that is not a
      multiple of 4, a character outside the alphabet, or padding before
      the last group. */
  function Decode(s: string): Option<seq<byte>>
    decreases |s|
  {
    if |s| == 0 then Some([])
    else if |s| < 4 then None
    else
      match DecodeQuantum(s[..4], |s| == 4)
      case None => None
      case Some(head) =>
        match Decode(s[4..])
        case None => None
        case Some(tail) => Some(head + tail)
  }

  lemma QuantumGroup(b0: byte, b1: byte, b2: byte, last: bool)
    ensures DecodeQuantum(EncodeGroup(b0, b1, b2), last) == Some([b0, b1, b2])
  {
    var c0, c1, c2, c3 := b0 / 4, (b0 % 4) * 16 + b1 / 16, (b1 % 16) * 4 + b2 / 64, b2 % 64;
    LetterRoundTrip(c0);
    LetterRoundTrip(c1);
    LetterRoundTrip(c2);
    LetterRoundTrip(c3);
    assert c1 / 16 == b0 % 4 && c1 % 16 == b1 / 16;
    assert c2 / 4 == b1 % 16 && c2 % 4 == b2 / 64;
  }

  lemma QuantumOne(b0: byte)
    ensures DecodeQuantum(EncodeOne(b0), true) == Some([b0])
  {
    var c0, c1 := b0 / 4, (b0 % 4) * 16;
    LetterRoundTrip(c0);
    LetterRoundTrip(c1);
    assert LetterValue('=').None?;
    assert c0 * 4 + c1 / 16 == b0;
    assert DecodeGroup(c0, c1, 0, 0)[..1] == [b0];
  }

  lemma QuantumTwo(b0: byte, b1: byte)
    ensures DecodeQuantum(EncodeTwo(b0, b1), true) == Some([b0, b1])
  {
    var c0, c1, c2 := b0 / 4, (b0 % 4) * 16 + b1 / 16, (b1 % 16) * 4;
    LetterRoundTrip(c0);
    LetterRoundTrip(c1);
    LetterRoundTrip(c2);
    assert LetterValue('=').None?;
    assert c0 * 4 + c1 / 16 == b0;
    assert (c1 % 16) * 16 + c2 / 4 == b1;
    assert DecodeGroup(c0, c1, c2, 0)[..2] == [b0, b1];
  }

  lemma DecodeEncodeOne(b: seq<byte>)
    requires |b| == 1
    ensures Decode(Encode(b)) == Some(b)
  {
    var s := Encode(b);
    assert s == EncodeOne(b[0]);
    QuantumOne(b[0]);
    assert s[..4] == s && s[4..] == [];
    assert DecodeQuantum(s[..4], |s| == 4) == Some([b[0]]);
    assert Decode(s[4..]) == Some([]);
    assert b == [b[0]] + [];
  }

  lemma DecodeEncodeTwo(b: seq<byte>)
    requires |b| == 2
    ensures Decode(Encode(b)) == Some(b)
  {
    var s := Encode(b);
    assert s == EncodeTwo(b[0], b[1]);
    QuantumTwo(b[0], b[1]);
    assert s[..4] == s && s[4..] == [];
    assert DecodeQuantum(s[..4], |s| == 4) == Some([b[0], b[1]]);
    assert Decode(s[4..]) == Some([]);
    assert b == [b[0], b[1]] + [];
  }

  /** Decoding an encoding gives back the bytes. */
  lemma {:induction false} DecodeEncode(b: seq<byte>)
    ensures Decode(Encode(b)) == Some(b)
    decreases |b|
  {
    if |b| == 1 {
      DecodeEncodeOne(b);
    } else if |b| == 2 {
      DecodeEncodeTwo(b);
    } else if |b| >= 3 {
      DecodeEncode(b[3..]);
      DecodeEncodeGroup(b);
    }
  }

  lemma FirstThree(b: seq<byte>)
    requires |b| >= 3
    ensures b == [b[0], b[1], b[2]] + b[3..]
  {
  }

  lemma DecodeEncodeGroup(b: seq<byte>)
    requires |b| >= 3
    requires Decode(Encode(b[3..])) == Some(b[3..])
    ensures Decode(Encode(b)) == Some(b)
  {
    var s := Encode(b);
    var rest := b[3..];
    var head := [b[0], b[1], b[2]];
    FirstThree(b);
    var g := EncodeGroup(b[0], b[1], b[2]);
    assert s == g + Encode(rest);
    QuantumGroup(b[0], b[1], b[2], |rest| == 0);
    assert s[..4] == g && s[4..] == Encode(rest);
    assert DecodeQuantum(s[..4], |s| == 4) == Some(head);
  }
}
