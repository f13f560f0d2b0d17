/**
 * The percent-escapes the server undoes in resource URIs. The code undoes them
 * with four `String.replace` calls in a row; this module proves that chain equal
 * to one left-to-right pass that decodes each escape where it stands.
 */
module UriEscapes {
  import opened Strings

  /** An upper-case hexadecimal digit, as the escapes are written. */
  predicate IsHexDigit(c: char) {
    '0' <= c <= '9' || 'A' <= c <= 'F'
  }

  /** Escapes are '%' and two hex digits, and none decodes to '%' or to a hex digit. */
  predicate WellFormed(codes: map<string, char>) {
    forall k | k in codes ::
      |k| == 3 && k[0] == '%' && IsHexDigit(k[1]) && IsHexDigit(k[2])
      && codes[k] != '%' && !IsHexDigit(codes[k])
  }

  /** The four escapes undone: space, slash, backslash and colon. */
  const Escapes: map<string, char> := map["%20" := ' ', "%2F" := '/', "%5C" := '\\', "%3A" := ':']

  /** One pass over `s` that replaces each escape in `codes` and copies every other character. */
  function DecodeWith(codes: map<string, char>, s: string): (r: string)
    ensures |r| <= |s|
    decreases |s|
  {
    if s == [] then []
    else if |s| >= 3 && s[..3] in codes then [codes[s[..3]]] + DecodeWith(codes, s[3..])
    else [s[0]] + DecodeWith(codes, s[1..])
  }

  /** The decoding the server means: each of the four escapes becomes its character. */
  function DecodeEscapes(s: string): string {
    DecodeWith(Escapes, s)
  }

  /** The source's decoding as written: `replace("%20", " ")`, then "%2F", "%5C", "%3A". */
  function ReplaceChain(s: string): (r: string)
    ensures |r| <= |s|
  {
    Replace(Replace(Replace(Replace(s, "%20", " "), "%2F", "/"), "%5C", "\\"), "%3A", ":")
  }

  lemma {:induction false} DecodeWithNothing(s: string)
    ensures DecodeWith(map[], s) == s
    decreases |s|
  {
    if s != [] {
      DecodeWithNothing(s[1..]);
    }
  }

  /** A text whose first character is a hex digit keeps that character in front. */
  lemma DecodeHexHead(codes: map<string, char>, x: string)
    requires WellFormed(codes)
    requires x != [] && IsHexDigit(x[0])
    ensures DecodeWith(codes, x) == [x[0]] + DecodeWith(codes, x[1..])
  {
  }

  /** A decoded text starts with a hex digit exactly when the text itself does. */
  lemma DecodeFirstChar(codes: map<string, char>, x: string)
    requires WellFormed(codes)
    requires x != []
    ensures DecodeWith(codes, x) != []
    ensures IsHexDigit(DecodeWith(codes, x)[0]) <==> IsHexDigit(x[0])
  {
    if IsHexDigit(x[0]) {
      DecodeHexHead(codes, x);
    }
  }

  /**
   * '%' followed by the decoding of the rest starts with the escape `t` exactly
   * when the text itself starts with `t`: decoding never makes a new escape.
   */
  lemma PercentThenDecoded(codes: map<string, char>, s: string, t: string)
    requires WellFormed(codes)
    requires s != [] && s[0] == '%'
    requires |t| == 3 && t[0] == '%' && IsHexDigit(t[1]) && IsHexDigit(t[2])
    ensures var d := [s[0]] + DecodeWith(codes, s[1..]);
      (StartsWith(d, t) <==> |s| >= 3 && s[..3] == t)
      && (|s| >= 3 && s[..3] == t ==> d[3..] == DecodeWith(codes, s[3..]))
  {
    var d := [s[0]] + DecodeWith(codes, s[1..]);
    if |s| >= 3 && s[..3] == t {
      var x := s[1..];
      DecodeHexHead(codes, x);
      DecodeHexHead(codes, x[1..]);
      assert x[1..][1..] == s[3..];
      assert d == [s[0], s[1], s[2]] + DecodeWith(codes, s[3..]);
      assert d[..3] == t;
    } else if |s| >= 2 {
      var x := s[1..];
      DecodeFirstChar(codes, x);
      if IsHexDigit(x[0]) && x[0] == t[1] {
        DecodeHexHead(codes, x);
        if |s| >= 3 {
          DecodeFirstChar(codes, x[1..]);
          if IsHexDigit(x[1]) {
            DecodeHexHead(codes, x[1..]);
          }
          assert s[..3] == [s[0], s[1], s[2]];
          assert d[2] != t[2];
        } else {
          assert x[1..] == [];
        }
      } else {
        assert d[1] != t[1];
      }
    }
  }

  /** Replacing one more escape after a pass over `codes` is a pass over `codes` plus that escape. */
  lemma {:induction false} ReplaceAfterDecode(codes: map<string, char>, t: string, c: char, s: string)
    requires WellFormed(codes[t := c])
    requires t !in codes
    ensures Replace(DecodeWith(codes, s), t, [c]) == DecodeWith(codes[t := c], s)
    decreases |s|
  {
    var more := codes[t := c];
    assert t in more;
    assert WellFormed(codes);
    if s != [] {
      var d := DecodeWith(codes, s);
      if |s| >= 3 && s[..3] in codes {
        var rest := DecodeWith(codes, s[3..]);
        assert d == [codes[s[..3]]] + rest;
        assert d[1..] == rest;
        assert !StartsWith(d, t);
        ReplaceAfterDecode(codes, t, c, s[3..]);
      } else if s[0] != '%' {
        var rest := DecodeWith(codes, s[1..]);
        assert d[1..] == rest;
        assert !StartsWith(d, t);
        ReplaceAfterDecode(codes, t, c, s[1..]);
      } else {
        PercentThenDecoded(codes, s, t);
        if |s| >= 3 && s[..3] == t {
          ReplaceAfterDecode(codes, t, c, s[3..]);
        } else {
          assert d[1..] == DecodeWith(codes, s[1..]);
          ReplaceAfterDecode(codes, t, c, s[1..]);
        }
      }
    }
  }

  /** Each stage of the chain's table, the one escape replaced so far added, is well formed. */
  lemma EscapeStagesWellFormed()
    ensures WellFormed(map["%20" := ' '])
    ensures WellFormed(map["%20" := ' ', "%2F" := '/'])
    ensures WellFormed(map["%20" := ' ', "%2F" := '/', "%5C" := '\\'])
    ensures WellFormed(Escapes)
  {
  }

  /** The four replacements in a row decode exactly the four escapes, in one pass. */
  lemma ReplaceChainDecodes(s: string)
    ensures ReplaceChain(s) == DecodeEscapes(s)
  {
    var k1 := map["%20" := ' '];
    var k2 := map["%20" := ' ', "%2F" := '/'];
    var k3 := map["%20" := ' ', "%2F" := '/', "%5C" := '\\'];
    EscapeStagesWellFormed();
    assert map[]["%20" := ' '] == k1;
    assert k1["%2F" := '/'] == k2;
    assert k2["%5C" := '\\'] == k3;
    assert k3["%3A" := ':'] == Escapes;
    DecodeWithNothing(s);
    ReplaceAfterDecode(map[], "%20", ' ', s);
    ReplaceAfterDecode(k1, "%2F", '/', s);
    ReplaceAfterDecode(k2, "%5C", '\\', s);
    ReplaceAfterDecode(k3, "%3A", ':', s);
  }

  /** Without '%' there is nothing to decode. */
  lemma {:induction false} DecodeWithoutPercent(s: string)
    requires '%' !in s
    ensures DecodeEscapes(s) == s
    decreases |s|
  {
    if s != [] {
      assert s[0] in s;
      assert forall i :: 1 <= i < |s| ==> s[i] in s;
      DecodeWithoutPercent(s[1..]);
    }
  }

  /** Text without '%' in front of more text is copied as it is. */
  lemma {:induction false} DecodePlainThen(a: string, b: string)
    requires '%' !in a
    ensures DecodeEscapes(a + b) == a + DecodeEscapes(b)
    decreases |a|
  {
    if a != [] {
      assert a[0] in a;
      assert forall i :: 1 <= i < |a| ==> a[i] in a;
      var s := a + b;
      assert s[0] == a[0] && s[1..] == a[1..] + b;
      assert |s| >= 3 ==> s[..3][0] == a[0];
      assert !(|s| >= 3 && s[..3] in Escapes);
      DecodePlainThen(a[1..], b);
      assert DecodeWith(Escapes, s) == [s[0]] + DecodeWith(Escapes, s[1..]);
      assert a == [a[0]] + a[1..];
    } else {
      assert a + b == b;
    }
  }

  /** An escape in front of more text becomes its character. */
  lemma DecodeEscapeThen(k: string, b: string)
    requires k in Escapes
    ensures DecodeEscapes(k + b) == [Escapes[k]] + DecodeEscapes(b)
  {
    assert (k + b)[..3] == k;
    assert (k + b)[3..] == b;
  }

  /** The four characters written as their escapes, every other character as itself. */
  function EncodeEscapes(p: string): (r: string)
    ensures |r| >= |p|
  {
    if p == [] then []
    else
      var head :=
        match p[0]
        case ' ' => "%20"
        case '/' => "%2F"
        case '\\' => "%5C"
        case ':' => "%3A"
        case _ => [p[0]];
      head + EncodeEscapes(p[1..])
  }

  /** Escaping a text without '%' and decoding it gives the text back. */
  lemma {:induction false} DecodeEncodeEscapes(p: string)
    requires '%' !in p
    ensures DecodeEscapes(EncodeEscapes(p)) == p
    decreases |p|
  {
    if p != [] {
      assert p[0] in p;
      assert forall i :: 1 <= i < |p| ==> p[i] in p;
      var e := EncodeEscapes(p);
      var rest := EncodeEscapes(p[1..]);
      DecodeEncodeEscapes(p[1..]);
      if p[0] in " /\\:" {
        assert |e| >= 3 && e[3..] == rest;
        assert e[..3] in Escapes;
      } else {
        assert e == [p[0]] + rest;
        assert e[1..] == rest;
      }
    }
  }
}
