/**
 * The "base64" encoding of section 4 of RFC 4648 (basic alphabet, '=' padding,
 * no line breaks), which is what `java.util.Base64.getEncoder()` produces.
 * Decoding is the strict inverse: it accepts exactly the encoder's outputs.
 */
module Base64 {
  import opened Lang

  /** A 6-bit group value. */
  type Sextet = v: int | 0 <= v < 64

  /** Table 1 of RFC 4648: the character that encodes a 6-bit value. */
  function CharOf(v: Sextet): (c: char)
    ensures c != '='
  {
    if v < 26 then ('A' as int + v) as char
    else if v < 52 then ('a' as int + (v - 26)) as char
    else if v < 62 then ('0' as int + (v - 52)) as char
    else if v == 62 then '+'
    else '/'
  }

  /** The value a character of the alphabet encodes; None for padding and every other character. */
  function ValueOf(c: char): (r: Option<Sextet>)
    ensures r.Some? ==> CharOf(r.value) == c
  {
    if 'A' <= c <= 'Z' then Some(c as int - 'A' as int)
    else if 'a' <= c <= 'z' then Some(c as int - 'a' as int + 26)
    else if '0' <= c <= '9' then Some(c as int - '0' as int + 52)
    else if c == '+' then Some(62)
    else if c == '/' then Some(63)
    else None
  }

  lemma ValueOfCharOf(v: Sextet)
    ensures ValueOf(CharOf(v)) == Some(v)
  {
  }

  /** True of every character the encoder emits. */
  predicate InAlphabet(c: char) {
    ValueOf(c).Some? || c == '='
  }

  /** Three bytes give four 6-bit groups, most significant bits first. */
  function Split(a: Byte, b: Byte, c: Byte): (r: (Sextet, Sextet, Sextet, Sextet))
    ensures r.0 * 262144 + r.1 * 4096 + r.2 * 64 + r.3 == a * 65536 + b * 256 + c
  {
    (a / 4, (a % 4) * 16 + b / 16, (b % 16) * 4 + c / 64, c % 64)
  }

  /** Four 6-bit groups give back three bytes. */
  function Join(v0: Sextet, v1: Sextet, v2: Sextet, v3: Sextet): (r: (Byte, Byte, Byte))
    ensures r.0 * 65536 + r.1 * 256 + r.2 == v0 * 262144 + v1 * 4096 + v2 * 64 + v3
  {
    (v0 * 4 + v1 / 16, (v1 % 16) * 16 + v2 / 4, (v2 % 4) * 64 + v3)
  }

  /** `hi * k + lo` with `lo` below `k` has quotient `hi` and remainder `lo`, for the group widths used here. */
  lemma DivModOf(hi: int, lo: int, k: int)
    requires k == 4 || k == 16 || k == 64
    requires 0 <= lo < k
    ensures (hi * k + lo) / k == hi && (hi * k + lo) % k == lo
  {
    if k == 4 {
      assert (hi * 4 + lo) / 4 == hi;
    } else if k == 16 {
      assert (hi * 16 + lo) / 16 == hi;
    } else {
      assert (hi * 64 + lo) / 64 == hi;
    }
  }

  lemma JoinSplit(a: Byte, b: Byte, c: Byte)
    ensures var s := Split(a, b, c); Join(s.0, s.1, s.2, s.3) == (a, b, c)
  {
    var s := Split(a, b, c);
    assert s == (a / 4, (a % 4) * 16 + b / 16, (b % 16) * 4 + c / 64, c % 64);
    DivModOf(a % 4, b / 16, 16);
    DivModOf(b % 16, c / 64, 4);
    var s0, s1, s2, s3 := s.0 as int, s.1 as int, s.2 as int, s.3 as int;
    assert s0 * 4 + s1 / 16 == a;
    assert (s1 % 16) * 16 + s2 / 4 == b;
    assert (s2 % 4) * 64 + s3 == c;
  }

  lemma SplitJoin(v0: Sextet, v1: Sextet, v2: Sextet, v3: Sextet)
    ensures var j := Join(v0, v1, v2, v3); Split(j.0, j.1, j.2) == (v0, v1, v2, v3)
  {
    DivModOf(v0, v1 / 16, 4);
    DivModOf(v1 % 16, v2 / 4, 16);
    DivModOf(v2 % 4, v3, 64);
  }

  /** `Base64.getEncoder().encodeToString(bytes)`. */
  function Encode(bytes: seq<Byte>): (s: string)
    ensures |s| == 4 * ((|bytes| + 2) / 3)
    ensures forall i :: 0 <= i < |s| ==> InAlphabet(s[i])
    decreases |bytes|
  {
    if |bytes| == 0 then []
    else if |bytes| == 1 then
      var g := Split(bytes[0], 0, 0);
      [CharOf(g.0), CharOf(g.1), '=', '=']
    else if |bytes| == 2 then
      var g := Split(bytes[0], bytes[1], 0);
      [CharOf(g.0), CharOf(g.1), CharOf(g.2), '=']
    else
      var g := Split(bytes[0], bytes[1], bytes[2]);
      var rest := Encode(bytes[3..]);
      assert (|bytes| + 2) / 3 == (|bytes[3..]| + 2) / 3 + 1;
      [CharOf(g.0), CharOf(g.1), CharOf(g.2), CharOf(g.3)] + rest
  }

  /**
   * One group of four characters. Padding is accepted only in the last group
   * and only with zero bits under it, as the encoder writes it.
   */
  function DecodeQuad(c0: char, c1: char, c2: char, c3: char, last: bool): (r: Option<seq<Byte>>)
    ensures r.Some? ==> 1 <= |r.value| <= 3
    ensures r.Some? && !last ==> |r.value| == 3
  {
    var v0, v1, v2, v3 := ValueOf(c0), ValueOf(c1), ValueOf(c2), ValueOf(c3);
    if v0.None? || v1.None? then None
    else if last && c2 == '=' && c3 == '=' then
      if v1.value % 16 == 0 then Some([Join(v0.value, v1.value, 0, 0).0]) else None
    else if v2.None? then None
    else if last && c3 == '=' then
      if v2.value % 4 == 0 then
        var j := Join(v0.value, v1.value, v2.value, 0);
        Some([j.0, j.1])
      else None
    else if v3.None? then None
    else
      var j := Join(v0.value, v1.value, v2.value, v3.value);
      Some([j.0, j.1, j.2])
  }

  /**
   * Decoding of section 4 of RFC 4648 that rejects what the encoder never emits:
   * a length that is not a multiple of four, characters outside the alphabet,
   * padding before the last group, and non-zero bits under the padding.
   */
  function Decode(s: string): (r: Option<seq<Byte>>)
    decreases |s|
  {
    if |s| == 0 then Some([])
    else if |s| < 4 then None
    else
      match DecodeQuad(s[0], s[1], s[2], s[3], |s| == 4)
      case None => None
      case Some(group) =>
        if |s| == 4 then Some(group)
        else
          match Decode(s[4..])
          case None => None
          case Some(rest) => Some(group + rest)
  }

  lemma DecodeOne(a: Byte)
    ensures Decode(Encode([a])) == Some([a])
  {
    var g := Split(a, 0, 0);
    var s := Encode([a]);
    ValueOfCharOf(g.0);
    ValueOfCharOf(g.1);
    JoinSplit(a, 0, 0);
    assert s == [CharOf(g.0), CharOf(g.1), '=', '='];
  }

  lemma DecodeTwo(a: Byte, b: Byte)
    ensures Decode(Encode([a, b])) == Some([a, b])
  {
    var g := Split(a, b, 0);
    var s := Encode([a, b]);
    assert s == [CharOf(g.0), CharOf(g.1), CharOf(g.2), '='];
    ValueOfCharOf(g.0);
    ValueOfCharOf(g.1);
    ValueOfCharOf(g.2);
    JoinSplit(a, b, 0);
    assert g.2 % 4 == 0 && g.3 == 0;
  }

  lemma DecodeQuadSplit(a: Byte, b: Byte, c: Byte, last: bool)
    ensures var g := Split(a, b, c);
      DecodeQuad(CharOf(g.0), CharOf(g.1), CharOf(g.2), CharOf(g.3), last) == Some([a, b, c])
  {
    var g := Split(a, b, c);
    ValueOfCharOf(g.0);
    ValueOfCharOf(g.1);
    ValueOfCharOf(g.2);
    ValueOfCharOf(g.3);
    JoinSplit(a, b, c);
  }

  /** Decoding a group followed by more text. */
  lemma DecodeAppend(q: string, t: string, group: seq<Byte>, rest: seq<Byte>)
    requires |q| == 4 && t != []
    requires DecodeQuad(q[0], q[1], q[2], q[3], false) == Some(group)
    requires Decode(t) == Some(rest)
    ensures Decode(q + t) == Some(group + rest)
  {
    var s := q + t;
    assert s[0] == q[0] && s[1] == q[1] && s[2] == q[2] && s[3] == q[3];
    assert s[4..] == t;
  }

  /** Decoding the last group. */
  lemma DecodeLast(q: string, group: seq<Byte>)
    requires |q| == 4
    requires DecodeQuad(q[0], q[1], q[2], q[3], true) == Some(group)
    ensures Decode(q) == Some(group)
  {
  }

  lemma DecodeGroup(bytes: seq<Byte>, t: string)
    requires |bytes| >= 3
    requires t == Encode(bytes[3..])
    requires Decode(t) == Some(bytes[3..])
    ensures Decode(Encode(bytes)) == Some(bytes)
  {
    var head := [bytes[0], bytes[1], bytes[2]];
    assert head == bytes[..3];
    assert bytes == head + bytes[3..];
    var g := Split(bytes[0], bytes[1], bytes[2]);
    var q := [CharOf(g.0), CharOf(g.1), CharOf(g.2), CharOf(g.3)];
    assert Encode(bytes) == q + t;
    DecodeQuadSplit(bytes[0], bytes[1], bytes[2], t == []);
    if t == [] {
      assert bytes[3..] == [];
      assert bytes == head && Encode(bytes) == q;
      DecodeLast(q, head);
    } else {
      DecodeAppend(q, t, head, bytes[3..]);
    }
  }

  /** Decoding an encoding gives back the bytes. */
  lemma {:induction false} DecodeEncode(bytes: seq<Byte>)
    ensures Decode(Encode(bytes)) == Some(bytes)
    decreases |bytes|
  {
    if |bytes| == 1 {
      DecodeOne(bytes[0]);
      assert bytes == [bytes[0]];
    } else if |bytes| == 2 {
      DecodeTwo(bytes[0], bytes[1]);
      assert bytes == [bytes[0], bytes[1]];
    } else if |bytes| >= 3 {
      DecodeEncode(bytes[3..]);
      DecodeGroup(bytes, Encode(bytes[3..]));
    }
  }

  /** A group that decodes is the encoding of what it decodes to. */
  lemma EncodeQuad(c0: char, c1: char, c2: char, c3: char, last: bool)
    requires DecodeQuad(c0, c1, c2, c3, last).Some?
    ensures Encode(DecodeQuad(c0, c1, c2, c3, last).value) == [c0, c1, c2, c3]
  {
    var v0, v1, v2, v3 := ValueOf(c0), ValueOf(c1), ValueOf(c2), ValueOf(c3);
    if last && c2 == '=' && c3 == '=' {
      SplitJoin(v0.value, v1.value, 0, 0);
    } else if last && c3 == '=' {
      SplitJoin(v0.value, v1.value, v2.value, 0);
    } else {
      var group := DecodeQuad(c0, c1, c2, c3, last).value;
      SplitJoin(v0.value, v1.value, v2.value, v3.value);
      assert group[3..] == [];
    }
  }

  /** Three whole bytes are encoded independently of what follows them. */
  lemma EncodeAppendGroup(group: seq<Byte>, rest: seq<Byte>)
    requires |group| == 3
    ensures Encode(group + rest) == Encode(group) + Encode(rest)
  {
    assert (group + rest)[3..] == rest;
    assert group[3..] == [];
  }

  /** Whatever decodes was produced by the encoder: decoding is exactly its inverse. */
  lemma {:induction false} EncodeDecode(s: string)
    requires Decode(s).Some?
    ensures Encode(Decode(s).value) == s
    decreases |s|
  {
    if |s| >= 4 {
      var last := |s| == 4;
      var group := DecodeQuad(s[0], s[1], s[2], s[3], last).value;
      EncodeQuad(s[0], s[1], s[2], s[3], last);
      if last {
        assert Decode(s).value == group;
        assert s == [s[0], s[1], s[2], s[3]];
      } else {
        var t := s[4..];
        var rest := Decode(t).value;
        assert Decode(s).value == group + rest;
        assert s == s[..4] + t;
        assert s[..4] == [s[0], s[1], s[2], s[3]];
        EncodeDecode(t);
        EncodeAppendGroup(group, rest);
      }
    }
  }

  /** A string decodes to some bytes exactly when it is their encoding. */
  lemma DecodeIffEncode(s: string, bytes: seq<Byte>)
    ensures Decode(s) == Some(bytes) <==> s == Encode(bytes)
  {
    if Decode(s) == Some(bytes) {
      EncodeDecode(s);
    }
    if s == Encode(bytes) {
      DecodeEncode(bytes);
    }
  }

  /** The five-byte sample 00 01 02 03 04 encodes to "AAECAwQ=". */
  lemma EncodeSample()
    ensures Encode([0, 1, 2, 3, 4]) == "AAECAwQ="
  {
    var bytes: seq<Byte> := [0, 1, 2, 3, 4];
    assert bytes[3..] == [3, 4];
    assert Split(3, 4, 0) == (0, 48, 16, 0);
    assert Encode([3, 4]) == "AwQ=";
    assert Split(0, 1, 2) == (0, 0, 4, 2);
    assert Encode(bytes) == "AAEC" + Encode([3, 4]);
  }
}
