/** Standard base64 (section 4 of RFC 4648), the encoding of stream and stdin frames. */
module Base64 {
  type Byte = b: int | 0 <= b < 256

  datatype Decoded = Bytes(bytes: seq<Byte>) | Corrupt

  function Symbol(v: int): char
    requires 0 <= v < 64
  {
    if v < 26 then ('A' as int + v) as char
    else if v < 52 then ('a' as int + v - 26) as char
    else if v < 62 then ('0' as int + v - 52) as char
    else if v == 62 then '+' else '/'
  }

  /** The value of a symbol, or 64 for a character outside the alphabet. */
  function Value(c: char): (v: int)
    ensures 0 <= v <= 64
  {
    if 'A' <= c <= 'Z' then c as int - 'A' as int
    else if 'a' <= c <= 'z' then c as int - 'a' as int + 26
    else if '0' <= c <= '9' then c as int - '0' as int + 52
    else if c == '+' then 62 else if c == '/' then 63 else 64
  }

  function Quad(a: Byte, b: Byte, c: Byte): string {
    [Symbol(a / 4), Symbol(a % 4 * 16 + b / 16), Symbol(b % 16 * 4 + c / 64), Symbol(c % 64)]
  }

  function Encode(bs: seq<Byte>): string {
    if |bs| == 0 then []
    else if |bs| == 1 then Quad(bs[0], 0, 0)[..2] + "=="
    else if |bs| == 2 then Quad(bs[0], bs[1], 0)[..3] + "="
    else Quad(bs[0], bs[1], bs[2]) + Encode(bs[3..])
  }

  function Triple(w: int, x: int, y: int, z: int): (bs: seq<Byte>)
    requires 0 <= w < 64 && 0 <= x < 64 && 0 <= y < 64 && 0 <= z < 64
    ensures |bs| == 3
  {
    [w * 4 + x / 16, x % 16 * 16 + y / 4, y % 4 * 64 + z]
  }

  /** Go's StdEncoding.DecodeString on text without line breaks: padding may
      only close the last group, and its unused bits are not checked. */
  function Decode(s: string): Decoded {
    if s == [] then Bytes([])
    else if |s| < 4 || Value(s[0]) == 64 || Value(s[1]) == 64 then Corrupt
    else if |s| == 4 && s[2..] == "==" then Bytes(Triple(Value(s[0]), Value(s[1]), 0, 0)[..1])
    else if Value(s[2]) == 64 then Corrupt
    else if |s| == 4 && s[3] == '=' then Bytes(Triple(Value(s[0]), Value(s[1]), Value(s[2]), 0)[..2])
    else if Value(s[3]) == 64 then Corrupt
    else match Decode(s[4..])
      case Corrupt => Corrupt
      case Bytes(rest) => Bytes(Triple(Value(s[0]), Value(s[1]), Value(s[2]), Value(s[3])) + rest)
  }

  /** Table 1 of RFC 4648: the capital letters, the small ones, the digits, + and /. */
  lemma Alphabet(v: int)
    requires 0 <= v < 64
    ensures Symbol(0) == 'A' && Symbol(25) == 'Z' && Symbol(26) == 'a' && Symbol(51) == 'z'
    ensures Symbol(52) == '0' && Symbol(61) == '9' && Symbol(62) == '+' && Symbol(63) == '/'
    ensures v !in {25, 51, 61, 62, 63} ==> Symbol(v + 1) as int == Symbol(v) as int + 1
  {}

  function Number(bs: seq<Byte>): nat {
    if bs == [] then 0 else Number(bs[..|bs| - 1]) * 256 + bs[|bs| - 1]
  }

  function Digits64(s: string): nat {
    if s == [] then 0 else Digits64(s[..|s| - 1]) * 64 + Value(s[|s| - 1])
  }

  /** Every three bytes become four symbols that are the same number in base 64. */
  lemma EncodeGroup(a: Byte, b: Byte, c: Byte, rest: seq<Byte>) returns (q: string)
    ensures |q| == 4 && Encode([a, b, c] + rest) == q + Encode(rest) && Digits64(q) == Number([a, b, c])
  {
    q := Quad(a, b, c);
    var bs := [a, b, c] + rest;
    assert bs[0] == a && bs[1] == b && bs[2] == c && bs[3..] == rest;
    QuadNumber(a, b, c);
  }

  /** A shorter last group is filled up with zero bits and padded. */
  lemma EncodeLast(a: Byte, b: Byte) returns (one: string, two: string)
    ensures |one| == 2 && Encode([a]) == one + "==" && Digits64(one) == Number([a]) * 16
    ensures |two| == 3 && Encode([a, b]) == two + "=" && Digits64(two) == Number([a, b]) * 4
  {
    one, two := Quad(a, 0, 0)[..2], Quad(a, b, 0)[..3];
    QuadNumber(a, 0, 0);
    QuadNumber(a, b, 0);
  }

  lemma QuadNumber(a: Byte, b: Byte, c: Byte)
    ensures Digits64(Quad(a, b, c)) == Number([a, b, c])
    ensures c == 0 ==> Digits64(Quad(a, b, c)[..3]) == Number([a, b]) * 4
    ensures b == 0 && c == 0 ==> Digits64(Quad(a, b, c)[..2]) == Number([a]) * 16
  {
    QuadTriple(a, b, c);
    var q := Quad(a, b, c);
    FourDigits(q[0], q[1], q[2], q[3]);
    assert q == [q[0], q[1], q[2], q[3]] && q[..3] == [q[0], q[1], q[2]] && q[..2] == [q[0], q[1]];
    ThreeBytes(a, b, c);
  }

  lemma FourDigits(w: char, x: char, y: char, z: char)
    ensures Digits64([w, x]) == Value(w) * 64 + Value(x)
    ensures Digits64([w, x, y]) == (Value(w) * 64 + Value(x)) * 64 + Value(y)
    ensures Digits64([w, x, y, z]) == ((Value(w) * 64 + Value(x)) * 64 + Value(y)) * 64 + Value(z)
  {
    DigitsSnoc([], w);
    DigitsSnoc([w], x);
    DigitsSnoc([w, x], y);
    DigitsSnoc([w, x, y], z);
    assert [] + [w] == [w] && [w] + [x] == [w, x] && [w, x] + [y] == [w, x, y] && [w, x, y] + [z] == [w, x, y, z];
  }

  lemma DigitsSnoc(s: string, c: char)
    ensures Digits64([]) == 0 && Digits64(s + [c]) == Digits64(s) * 64 + Value(c)
  {
    assert (s + [c])[..|s|] == s;
  }

  lemma NumberSnoc(bs: seq<Byte>, b: Byte)
    ensures Number([]) == 0 && Number(bs + [b]) == Number(bs) * 256 + b
  {
    assert (bs + [b])[..|bs|] == bs;
  }

  lemma ThreeBytes(a: Byte, b: Byte, c: Byte)
    ensures var x: int, y: int, z: int := a, b, c;
      Number([a]) == x && Number([a, b]) == x * 256 + y && Number([a, b, c]) == (x * 256 + y) * 256 + z
  {
    NumberSnoc([], a);
    NumberSnoc([a], b);
    NumberSnoc([a, b], c);
    assert [] + [a] == [a] && [a] + [b] == [a, b] && [a, b] + [c] == [a, b, c];
  }

  lemma SymbolValue(v: int)
    requires 0 <= v < 64
    ensures Value(Symbol(v)) == v && Symbol(v) != '='
  {}

  lemma Regroup(a: Byte, b: Byte, c: Byte)
    ensures Triple(a / 4, a % 4 * 16 + b / 16, b % 16 * 4 + c / 64, c % 64) == [a, b, c]
  {}

  lemma QuadTriple(a: Byte, b: Byte, c: Byte)
    ensures var q := Quad(a, b, c);
      && Value(q[0]) == a / 4 && Value(q[1]) == a % 4 * 16 + b / 16
      && Value(q[2]) == b % 16 * 4 + c / 64 && Value(q[3]) == c % 64
      && q[2] != '=' && q[3] != '='
  {
    SymbolValue(a / 4);
    SymbolValue(a % 4 * 16 + b / 16);
    SymbolValue(b % 16 * 4 + c / 64);
    SymbolValue(c % 64);
  }

  lemma {:induction false} RoundTrip(bs: seq<Byte>)
    ensures Decode(Encode(bs)) == Bytes(bs)
    ensures Encode(bs) == [] <==> bs == []
    decreases bs, 1
  {
    if |bs| == 0 {
    } else if |bs| == 1 {
      QuadTriple(bs[0], 0, 0);
      Regroup(bs[0], 0, 0);
    } else if |bs| == 2 {
      QuadTriple(bs[0], bs[1], 0);
      Regroup(bs[0], bs[1], 0);
    } else {
      RoundTripStep(bs);
    }
  }

  lemma {:induction false} RoundTripStep(bs: seq<Byte>)
    requires |bs| >= 3
    ensures Decode(Encode(bs)) == Bytes(bs)
    decreases bs, 0
  {
    QuadTriple(bs[0], bs[1], bs[2]);
    Regroup(bs[0], bs[1], bs[2]);
    RoundTrip(bs[3..]);
    assert Encode(bs)[4..] == Encode(bs[3..]);
  }
}
