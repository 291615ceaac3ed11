/** base64.StdEncoding (section 4 of RFC 4648): three bytes become four
    characters of the alphabet A-Z a-z 0-9 + /, and a final group of one or
    two bytes is padded with '='. The older broker stores each recovery
    record this way, one per line. */
module Base64 {
  import opened Common
  import opened Bytes

  predicate IsChar64(c: Byte)
  {
    ('A' <= c <= 'Z') || ('a' <= c <= 'z') || ('0' <= c <= '9') || c == '+' || c == '/'
  }

  function Char64(n: int): (c: Byte)
    requires 0 <= n < 64
    ensures IsChar64(c)
  {
    if n < 26 then ('A' as int + n) as char
    else if n < 52 then ('a' as int + n - 26) as char
    else if n < 62 then ('0' as int + n - 52) as char
    else if n == 62 then '+'
    else '/'
  }

  function Value64(c: Byte): (n: int)
    requires IsChar64(c)
    ensures 0 <= n < 64
  {
    if 'A' <= c <= 'Z' then c as int - 'A' as int
    else if 'a' <= c <= 'z' then c as int - 'a' as int + 26
    else if '0' <= c <= '9' then c as int - '0' as int + 52
    else if c == '+' then 62
    else 63
  }

  lemma ValueOfChar(n: int)
    requires 0 <= n < 64
    ensures Value64(Char64(n)) == n
  {
  }

  function B(n: int): Byte
    requires 0 <= n < 256
  {
    n as char
  }

  /** The four characters of a full group of three bytes. */
  function EncodeGroup(b0: Byte, b1: Byte, b2: Byte): (r: Str)
    ensures |r| == 4 && forall i :: 0 <= i < 4 ==> IsChar64(r[i])
  {
    var x0, x1, x2 := b0 as int, b1 as int, b2 as int;
    [Char64(x0 / 4), Char64((x0 % 4) * 16 + x1 / 16), Char64((x1 % 16) * 4 + x2 / 64), Char64(x2 % 64)]
  }

  /** The padded last group of one or two bytes. */
  function EncodeFinal(s: Str): (r: Str)
    requires |s| <= 2
    ensures |r| == if |s| == 0 then 0 else 4
    ensures forall i :: 0 <= i < |r| ==> IsChar64(r[i]) || r[i] == '='
  {
    if |s| == 0 then []
    else if |s| == 1 then
      var x0 := s[0] as int;
      [Char64(x0 / 4), Char64((x0 % 4) * 16), '=', '=']
    else
      var x0, x1 := s[0] as int, s[1] as int;
      [Char64(x0 / 4), Char64((x0 % 4) * 16 + x1 / 16), Char64((x1 % 16) * 4), '=']
  }

  /** base64.StdEncoding.EncodeToString. */
  function Encode(s: Str): (r: Str)
    ensures |r| == 4 * ((|s| + 2) / 3)
    decreases |s|
  {
    if |s| < 3 then EncodeFinal(s)
    else
      assert (|s| + 2) / 3 == (|s| - 1) / 3 + 1;
      EncodeGroup(s[0], s[1], s[2]) + Encode(s[3..])
  }

  /** An encoded record holds no space and no line break, so it fits on one line. */
  lemma {:induction false} EncodeIsOneLine(s: Str)
    ensures forall i :: 0 <= i < |Encode(s)| ==> IsChar64(Encode(s)[i]) || Encode(s)[i] == '='
    ensures ' ' !in Encode(s) && '\n' !in Encode(s) && '\r' !in Encode(s)
    decreases |s|
  {
    if |s| >= 3 {
      var g, rest := EncodeGroup(s[0], s[1], s[2]), Encode(s[3..]);
      EncodeIsOneLine(s[3..]);
      assert Encode(s) == g + rest;
      forall i | 0 <= i < |g + rest| ensures IsChar64((g + rest)[i]) || (g + rest)[i] == '=' {
        if i >= 4 {
          assert (g + rest)[i] == rest[i - 4];
        }
      }
    }
  }

  /** Three bytes from four alphabet characters. */
  function DecodeGroup(c0: Byte, c1: Byte, c2: Byte, c3: Byte): Option<Str>
  {
    if IsChar64(c0) && IsChar64(c1) && IsChar64(c2) && IsChar64(c3) then
      var v0, v1, v2, v3 := Value64(c0), Value64(c1), Value64(c2), Value64(c3);
      Some([B(v0 * 4 + v1 / 16), B((v1 % 16) * 16 + v2 / 4), B((v2 % 4) * 64 + v3)])
    else None
  }

  /** The last group, which may end in one or two '='. Bits left over in
      the last character are ignored (the decoder is not strict). */
  function DecodeLast(c0: Byte, c1: Byte, c2: Byte, c3: Byte): Option<Str>
  {
    if IsChar64(c0) && IsChar64(c1) && c2 == '=' && c3 == '=' then
      Some([B(Value64(c0) * 4 + Value64(c1) / 16)])
    else if IsChar64(c0) && IsChar64(c1) && IsChar64(c2) && c3 == '=' then
      var v0, v1, v2 := Value64(c0), Value64(c1), Value64(c2);
      Some([B(v0 * 4 + v1 / 16), B((v1 % 16) * 16 + v2 / 4)])
    else DecodeGroup(c0, c1, c2, c3)
  }

  /** The decoding proper, once CR and LF are gone: the length must be a
      multiple of four, every character must be in the alphabet, and '='
      may only pad the last group; anything else fails. */
  function Decode(s: Str): (r: Option<Str>)
    ensures r.Some? ==> |s| % 4 == 0 && |r.value| <= 3 * (|s| / 4)
    decreases |s|
  {
    if |s| == 0 then Some([])
    else if |s| < 4 then None
    else if |s| == 4 then DecodeLast(s[0], s[1], s[2], s[3])
    else
      match DecodeGroup(s[0], s[1], s[2], s[3])
      case None => None
      case Some(g) =>
        match Decode(s[4..])
        case None => None
        case Some(t) => Some(g + t)
  }

  /** The input without its CR and LF characters, which the decoder skips
      wherever they stand. */
  function Unwrap(s: Str): (r: Str)
    ensures '\r' !in r && '\n' !in r
    ensures '\r' !in s && '\n' !in s ==> r == s
    ensures |r| <= |s|
    decreases |s|
  {
    if s == [] then []
    else if s[0] == '\r' || s[0] == '\n' then Unwrap(s[1..])
    else [s[0]] + Unwrap(s[1..])
  }

  /** base64.StdEncoding.DecodeString: CR and LF are dropped, then the rest
      is decoded. */
  function DecodeString(s: Str): Option<Str>
  {
    Decode(Unwrap(s))
  }

  /** The arithmetic of a full group: the 6-bit values of three bytes
      recombine into the bytes. */
  lemma GroupArith(x0: int, x1: int, x2: int)
    requires 0 <= x0 < 256 && 0 <= x1 < 256 && 0 <= x2 < 256
    ensures var v0, v1, v2, v3 := x0 / 4, (x0 % 4) * 16 + x1 / 16, (x1 % 16) * 4 + x2 / 64, x2 % 64;
      0 <= v0 < 64 && 0 <= v1 < 64 && 0 <= v2 < 64 && 0 <= v3 < 64 &&
      v0 * 4 + v1 / 16 == x0 && (v1 % 16) * 16 + v2 / 4 == x1 && (v2 % 4) * 64 + v3 == x2
  {
    var a, b := x0 % 4, x1 / 16;
    var c, d := x1 % 16, x2 / 64;
    assert x0 == (x0 / 4) * 4 + a && x1 == b * 16 + c && x2 == d * 64 + x2 % 64;
    assert (a * 16 + b) / 16 == a && (a * 16 + b) % 16 == b;
    assert (c * 4 + d) / 4 == c && (c * 4 + d) % 4 == d;
  }

  /** The arithmetic of a last group of one byte. */
  lemma OneArith(x0: int)
    requires 0 <= x0 < 256
    ensures var v0, v1 := x0 / 4, (x0 % 4) * 16;
      0 <= v0 < 64 && 0 <= v1 < 64 && v0 * 4 + v1 / 16 == x0
  {
    var a := x0 % 4;
    assert x0 == (x0 / 4) * 4 + a;
    assert (a * 16) / 16 == a;
  }

  /** The arithmetic of a last group of two bytes. */
  lemma TwoArith(x0: int, x1: int)
    requires 0 <= x0 < 256 && 0 <= x1 < 256
    ensures var v0, v1, v2 := x0 / 4, (x0 % 4) * 16 + x1 / 16, (x1 % 16) * 4;
      0 <= v0 < 64 && 0 <= v1 < 64 && 0 <= v2 < 64 &&
      v0 * 4 + v1 / 16 == x0 && (v1 % 16) * 16 + v2 / 4 == x1
  {
    var a, b, c := x0 % 4, x1 / 16, x1 % 16;
    assert x0 == (x0 / 4) * 4 + a && x1 == b * 16 + c;
    assert (a * 16 + b) / 16 == a && (a * 16 + b) % 16 == b;
    assert (c * 4) / 4 == c;
  }

  /** The four characters of a full group, and the bytes they carry. */
  lemma GroupChars(b0: Byte, b1: Byte, b2: Byte) returns (c0: Byte, c1: Byte, c2: Byte, c3: Byte)
    ensures EncodeGroup(b0, b1, b2) == [c0, c1, c2, c3]
    ensures IsChar64(c0) && IsChar64(c1) && IsChar64(c2) && IsChar64(c3)
    ensures B(Value64(c0) * 4 + Value64(c1) / 16) == b0
    ensures B((Value64(c1) % 16) * 16 + Value64(c2) / 4) == b1
    ensures B((Value64(c2) % 4) * 64 + Value64(c3)) == b2
  {
    var x0, x1, x2 := b0 as int, b1 as int, b2 as int;
    var v0, v1, v2, v3 := x0 / 4, (x0 % 4) * 16 + x1 / 16, (x1 % 16) * 4 + x2 / 64, x2 % 64;
    GroupArith(x0, x1, x2);
    ValueOfChar(v0); ValueOfChar(v1); ValueOfChar(v2); ValueOfChar(v3);
    c0, c1, c2, c3 := Char64(v0), Char64(v1), Char64(v2), Char64(v3);
  }

  lemma GroupRoundTrip(b0: Byte, b1: Byte, b2: Byte)
    ensures DecodeGroup(EncodeGroup(b0, b1, b2)[0], EncodeGroup(b0, b1, b2)[1],
                        EncodeGroup(b0, b1, b2)[2], EncodeGroup(b0, b1, b2)[3]) == Some([b0, b1, b2])
  {
    var c0, c1, c2, c3 := GroupChars(b0, b1, b2);
    assert DecodeGroup(c0, c1, c2, c3) == Some([b0, b1, b2]);
  }

  /** The byte the two characters of a last group of one byte carry. */
  lemma OneValue(b0: Byte)
    ensures var x0 := b0 as int; 0 <= x0 / 4 < 64 && 0 <= (x0 % 4) * 16 < 64
    ensures var x0 := b0 as int; B(Value64(Char64(x0 / 4)) * 4 + Value64(Char64((x0 % 4) * 16)) / 16) == b0
  {
    var x0 := b0 as int;
    OneArith(x0);
    ValueOfChar(x0 / 4); ValueOfChar((x0 % 4) * 16);
  }

  /** The bytes the three characters of a last group of two bytes carry. */
  lemma TwoValues(b0: Byte, b1: Byte)
    ensures var x0, x1 := b0 as int, b1 as int;
      var v0, v1, v2 := x0 / 4, (x0 % 4) * 16 + x1 / 16, (x1 % 16) * 4;
      0 <= v0 < 64 && 0 <= v1 < 64 && 0 <= v2 < 64 &&
      B(Value64(Char64(v0)) * 4 + Value64(Char64(v1)) / 16) == b0 &&
      B((Value64(Char64(v1)) % 16) * 16 + Value64(Char64(v2)) / 4) == b1
  {
    var x0, x1 := b0 as int, b1 as int;
    var v0, v1, v2 := x0 / 4, (x0 % 4) * 16 + x1 / 16, (x1 % 16) * 4;
    TwoArith(x0, x1);
    ValueOfChar(v0); ValueOfChar(v1); ValueOfChar(v2);
  }

  /** A last group of two bytes decodes to the bytes its three characters
      carry. */
  lemma DecodeLastTwo(c0: Byte, c1: Byte, c2: Byte)
    requires IsChar64(c0) && IsChar64(c1) && IsChar64(c2)
    ensures Decode([c0, c1, c2, '='])
         == Some([B(Value64(c0) * 4 + Value64(c1) / 16), B((Value64(c1) % 16) * 16 + Value64(c2) / 4)])
  {
  }

  /** A last group of one byte decodes to the byte its two characters carry. */
  lemma DecodeLastOne(c0: Byte, c1: Byte)
    requires IsChar64(c0) && IsChar64(c1)
    ensures Decode([c0, c1, '=', '=']) == Some([B(Value64(c0) * 4 + Value64(c1) / 16)])
  {
  }

  /** A padded last group of one byte decodes to the byte its characters carry. */
  lemma LastOneRoundTrip(s: Str, c0: Byte, c1: Byte)
    requires |s| == 1 && IsChar64(c0) && IsChar64(c1)
    requires B(Value64(c0) * 4 + Value64(c1) / 16) == s[0]
    ensures Decode([c0, c1, '=', '=']) == Some(s)
  {
    DecodeLastOne(c0, c1);
    assert [s[0]] == s;
  }

  /** A padded last group of two bytes decodes to the bytes its characters carry. */
  lemma LastTwoRoundTrip(s: Str, c0: Byte, c1: Byte, c2: Byte)
    requires |s| == 2 && IsChar64(c0) && IsChar64(c1) && IsChar64(c2)
    requires B(Value64(c0) * 4 + Value64(c1) / 16) == s[0]
    requires B((Value64(c1) % 16) * 16 + Value64(c2) / 4) == s[1]
    ensures Decode([c0, c1, c2, '=']) == Some(s)
  {
    DecodeLastTwo(c0, c1, c2);
    assert [s[0], s[1]] == s;
  }

  lemma OneRoundTrip(s: Str)
    requires |s| == 1
    ensures Decode(EncodeFinal(s)) == Some(s)
  {
    var x0 := s[0] as int;
    OneValue(s[0]);
    LastOneRoundTrip(s, Char64(x0 / 4), Char64((x0 % 4) * 16));
  }

  /** The three characters of a last group of two bytes, and the bytes they
      carry. */
  lemma TwoChars(s: Str) returns (c0: Byte, c1: Byte, c2: Byte)
    requires |s| == 2
    ensures EncodeFinal(s) == [c0, c1, c2, '=']
    ensures IsChar64(c0) && IsChar64(c1) && IsChar64(c2)
    ensures B(Value64(c0) * 4 + Value64(c1) / 16) == s[0]
    ensures B((Value64(c1) % 16) * 16 + Value64(c2) / 4) == s[1]
  {
    var x0, x1 := s[0] as int, s[1] as int;
    TwoValues(s[0], s[1]);
    c0, c1, c2 := Char64(x0 / 4), Char64((x0 % 4) * 16 + x1 / 16), Char64((x1 % 16) * 4);
  }

  lemma TwoRoundTrip(s: Str)
    requires |s| == 2
    ensures Decode(EncodeFinal(s)) == Some(s)
  {
    var c0, c1, c2 := TwoChars(s);
    LastTwoRoundTrip(s, c0, c1, c2);
  }

  lemma DecodeFront(g: Str, rest: Str, x: Str)
    requires |g| == 4 && DecodeGroup(g[0], g[1], g[2], g[3]) == Some(x)
    ensures rest == [] ==> Decode(g + rest) == Some(x)
    ensures rest != [] ==> Decode(g + rest) == (if Decode(rest).Some? then Some(x + Decode(rest).value) else None)
  {
    var e := g + rest;
    assert e[0] == g[0] && e[1] == g[1] && e[2] == g[2] && e[3] == g[3];
    if rest == [] {
      assert e == g;
      assert IsChar64(g[2]) && IsChar64(g[3]);
    } else {
      assert e[4..] == rest;
    }
  }

  lemma Front3(s: Str)
    requires |s| >= 3
    ensures [s[0], s[1], s[2]] + s[3..] == s
    ensures |s| == 3 ==> [s[0], s[1], s[2]] == s
  {
  }

  /** Decoding an encoded text gives the text back, for every text. */
  lemma {:induction false} DecodeEncode(s: Str)
    ensures Decode(Encode(s)) == Some(s)
    decreases |s|
  {
    if |s| == 1 {
      OneRoundTrip(s);
      assert Encode(s) == EncodeFinal(s);
    } else if |s| == 2 {
      TwoRoundTrip(s);
      assert Encode(s) == EncodeFinal(s);
    } else if |s| >= 3 {
      var g := EncodeGroup(s[0], s[1], s[2]);
      var rest := Encode(s[3..]);
      assert Encode(s) == g + rest;
      GroupRoundTrip(s[0], s[1], s[2]);
      DecodeFront(g, rest, [s[0], s[1], s[2]]);
      Front3(s);
      if |s| == 3 {
        assert rest == [];
      } else {
        DecodeEncode(s[3..]);
        assert rest != [];
      }
    }
  }

  /** Unwrapping works piece by piece. */
  lemma {:induction false} UnwrapConcat(a: Str, b: Str)
    ensures Unwrap(a + b) == Unwrap(a) + Unwrap(b)
    decreases |a|
  {
    if a == [] {
      assert a + b == b;
    } else {
      assert (a + b)[0] == a[0] && (a + b)[1..] == a[1..] + b;
      UnwrapConcat(a[1..], b);
      if a[0] != '\r' && a[0] != '\n' {
        assert [a[0]] + (Unwrap(a[1..]) + Unwrap(b)) == ([a[0]] + Unwrap(a[1..])) + Unwrap(b);
      }
    }
  }

  /** A CR or LF anywhere in the input changes nothing of what is decoded. */
  lemma DecodeStringSkips(a: Str, c: Byte, b: Str)
    requires c == '\r' || c == '\n'
    ensures DecodeString(a + [c] + b) == DecodeString(a + b)
  {
    assert Unwrap([c]) == [] by {
      assert [c][1..] == [];
    }
    UnwrapConcat(a + [c], b);
    UnwrapConcat(a, [c]);
    UnwrapConcat(a, b);
    assert Unwrap(a + [c]) == Unwrap(a);
  }

  /** Decoding an encoded line, as the decoder of the standard library
      does, gives back the bytes. */
  lemma DecodeStringEncode(s: Str)
    ensures DecodeString(Encode(s)) == Some(s)
  {
    EncodeIsOneLine(s);
    DecodeEncode(s);
  }
}
