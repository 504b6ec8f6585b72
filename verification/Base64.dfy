/** The standard base64 alphabet without padding (section 4 of RFC 4648), as Go's RawStdEncoding. */
module Base64 {
  import opened Options

  type sextet = v: int | 0 <= v < 64

  function CharOf(v: sextet): char {
    if v < 26 then 'A' + v as char
    else if v < 52 then 'a' + (v - 26) as char
    else if v < 62 then '0' + (v - 52) as char
    else if v == 62 then '+' else '/'
  }

  function ValueOf(c: char): Option<sextet> {
    if 'A' <= c <= 'Z' then Some(c as int - 'A' as int)
    else if 'a' <= c <= 'z' then Some(c as int - 'a' as int + 26)
    else if '0' <= c <= '9' then Some(c as int - '0' as int + 52)
    else if c == '+' then Some(62)
    else if c == '/' then Some(63)
    else None
  }

  function Encode(b: seq<byte>): string {
    if b == [] then ""
    else if |b| == 1 then [CharOf(b[0] / 4), CharOf(b[0] % 4 * 16)]
    else if |b| == 2 then [CharOf(b[0] / 4), CharOf(b[0] % 4 * 16 + b[1] / 16), CharOf(b[1] % 16 * 4)]
    else
      [CharOf(b[0] / 4), CharOf(b[0] % 4 * 16 + b[1] / 16), CharOf(b[1] % 16 * 4 + b[2] / 64), CharOf(b[2] % 64)]
      + Encode(b[3..])
  }

  function First(v0: sextet, v1: sextet): byte { v0 * 4 + v1 / 16 }

  function Second(v1: sextet, v2: sextet): byte { v1 % 16 * 16 + v2 / 4 }

  function Third(v2: sextet, v3: sextet): byte { v2 % 4 * 64 + v3 }

  /** The values of a string of alphabet characters. */
  function Values(s: string): Option<seq<sextet>> {
    if s == "" then Some([])
    else match (ValueOf(s[0]), Values(s[1..]))
      case (Some(v), Some(rest)) => Some([v] + rest)
      case _ => None
  }

  /** Leftover bits of the last value are ignored; a single leftover value is an error. */
  function Unpack(v: seq<sextet>): Option<seq<byte>> {
    if v == [] then Some([])
    else if |v| == 1 then None
    else if |v| == 2 then Some([First(v[0], v[1])])
    else if |v| == 3 then Some([First(v[0], v[1]), Second(v[1], v[2])])
    else match Unpack(v[4..])
      case Some(rest) => Some([First(v[0], v[1]), Second(v[1], v[2]), Third(v[2], v[3])] + rest)
      case None => None
  }

  /** The decoder skips line breaks wherever they stand. */
  function WithoutBreaks(s: string): string {
    if s == "" then ""
    else (if s[0] == '\r' || s[0] == '\n' then "" else [s[0]]) + WithoutBreaks(s[1..])
  }

  function Decode(s: string): Option<seq<byte>> {
    match Values(WithoutBreaks(s))
    case Some(v) => Unpack(v)
    case None => None
  }

  // ---------------------------------------------------------------------- the round trip

  function Pack(b: seq<byte>): seq<sextet> {
    if b == [] then []
    else if |b| == 1 then [b[0] / 4, b[0] % 4 * 16]
    else if |b| == 2 then [b[0] / 4, b[0] % 4 * 16 + b[1] / 16, b[1] % 16 * 4]
    else [b[0] / 4, b[0] % 4 * 16 + b[1] / 16, b[1] % 16 * 4 + b[2] / 64, b[2] % 64] + Pack(b[3..])
  }

  function Chars(v: seq<sextet>): string {
    seq(|v|, i requires 0 <= i < |v| => CharOf(v[i]))
  }

  lemma CharOfValue(v: sextet)
    ensures ValueOf(CharOf(v)) == Some(v)
    ensures CharOf(v) != '\r' && CharOf(v) != '\n' && CharOf(v) != '$'
  {
  }

  lemma {:induction false} EncodeIsChars(b: seq<byte>)
    ensures Encode(b) == Chars(Pack(b))
  {
    if |b| >= 3 {
      EncodeIsChars(b[3..]);
    }
  }

  lemma {:induction false} ValuesOfChars(v: seq<sextet>)
    ensures Values(Chars(v)) == Some(v) && WithoutBreaks(Chars(v)) == Chars(v)
    ensures forall i :: 0 <= i < |v| ==> Chars(v)[i] != '$'
  {
    if v != [] {
      CharOfValue(v[0]);
      ValuesOfChars(v[1..]);
      assert Chars(v)[1..] == Chars(v[1..]);
      assert Chars(v) == [CharOf(v[0])] + Chars(v[1..]);
      assert v == [v[0]] + v[1..];
    }
  }

  lemma FirstBack(b0: byte, b1: byte)
    ensures First(b0 / 4, b0 % 4 * 16 + b1 / 16) == b0
    ensures First(b0 / 4, b0 % 4 * 16) == b0
  {
  }

  lemma SecondBack(b0: byte, b1: byte, b2: byte)
    ensures Second(b0 % 4 * 16 + b1 / 16, b1 % 16 * 4 + b2 / 64) == b1
    ensures Second(b0 % 4 * 16 + b1 / 16, b1 % 16 * 4) == b1
  {
    var v1 := b0 % 4 * 16 + b1 / 16;
    assert v1 % 16 == b1 / 16;
  }

  lemma ThirdBack(b1: byte, b2: byte)
    ensures Third(b1 % 16 * 4 + b2 / 64, b2 % 64) == b2
  {
    var v2 := b1 % 16 * 4 + b2 / 64;
    assert v2 % 4 == b2 / 64;
  }

  lemma {:induction false} UnpackFour(v0: sextet, v1: sextet, v2: sextet, v3: sextet, rest: seq<sextet>)
    requires Unpack(rest).Some?
    ensures Unpack([v0, v1, v2, v3] + rest) == Some([First(v0, v1), Second(v1, v2), Third(v2, v3)] + Unpack(rest).value)
  {
    hide First, Second, Third;
    assert ([v0, v1, v2, v3] + rest)[4..] == rest;
  }

  /** Packing three bytes and what follows them. */
  lemma {:induction false} PackThree(b: seq<byte>) returns (v0: sextet, v1: sextet, v2: sextet, v3: sextet)
    requires |b| >= 3
    ensures Pack(b) == [v0, v1, v2, v3] + Pack(b[3..])
    ensures First(v0, v1) == b[0] && Second(v1, v2) == b[1] && Third(v2, v3) == b[2]
  {
    v0, v1, v2, v3 := b[0] / 4, b[0] % 4 * 16 + b[1] / 16, b[1] % 16 * 4 + b[2] / 64, b[2] % 64;
    FirstBack(b[0], b[1]);
    SecondBack(b[0], b[1], b[2]);
    ThirdBack(b[1], b[2]);
    hide First, Second, Third;
  }

  lemma {:induction false} UnpackOne(b0: byte)
    ensures Unpack(Pack([b0])) == Some([b0])
  {
    FirstBack(b0, 0);
    hide First;
    assert Pack([b0]) == [b0 / 4, b0 % 4 * 16];
  }

  lemma {:induction false} UnpackTwo(b0: byte, b1: byte)
    ensures Unpack(Pack([b0, b1])) == Some([b0, b1])
  {
    FirstBack(b0, b1);
    SecondBack(b0, b1, 0);
    hide First, Second;
    assert Pack([b0, b1]) == [b0 / 4, b0 % 4 * 16 + b1 / 16, b1 % 16 * 4];
  }

  lemma {:induction false} UnpackOfPack(b: seq<byte>)
    ensures Unpack(Pack(b)) == Some(b)
  {
    assert Unpack(Pack([])) == Some([]);
    hide *;
    if |b| == 0 {
      assert b == [];
    } else if |b| == 1 {
      UnpackOne(b[0]);
      assert b == [b[0]];
    } else if |b| == 2 {
      UnpackTwo(b[0], b[1]);
      assert b == [b[0], b[1]];
    } else {
      var v0, v1, v2, v3 := PackThree(b);
      UnpackOfPack(b[3..]);
      UnpackFour(v0, v1, v2, v3, Pack(b[3..]));
      assert b == [b[0], b[1], b[2]] + b[3..];
    }
  }

  /** Decoding what was encoded gives the bytes back; the encoding holds no dollar sign. */
  lemma DecodeOfEncode(b: seq<byte>)
    ensures Decode(Encode(b)) == Some(b)
    ensures forall i :: 0 <= i < |Encode(b)| ==> Encode(b)[i] != '$'
  {
    EncodeIsChars(b);
    ValuesOfChars(Pack(b));
    UnpackOfPack(b);
  }

  lemma {:induction false} EncodeThree(b0: byte, b1: byte, b2: byte, rest: seq<byte>)
    ensures Encode([b0, b1, b2] + rest)
            == [CharOf(b0 / 4), CharOf(b0 % 4 * 16 + b1 / 16), CharOf(b1 % 16 * 4 + b2 / 64), CharOf(b2 % 64)] + Encode(rest)
  {
    hide CharOf;
    assert ([b0, b1, b2] + rest)[3..] == rest;
  }

  lemma {:induction false} FooThen(rest: seq<byte>)
    ensures Encode([0x66, 0x6f, 0x6f] + rest) == "Zm9v" + Encode(rest)
  {
    EncodeThree(0x66, 0x6f, 0x6f, rest);
    assert CharOf(25) == 'Z' && CharOf(38) == 'm' && CharOf(61) == '9' && CharOf(47) == 'v';
    hide Encode, CharOf;
  }

  lemma {:induction false} ShortEncodings()
    ensures Encode([]) == "" && Encode([0x66]) == "Zg" && Encode([0x66, 0x6f]) == "Zm8"
    ensures Encode([0x62]) == "Yg" && Encode([0x62, 0x61]) == "YmE"
  {
  }

  lemma {:induction false} BarEncoding()
    ensures Encode([0x62, 0x61, 0x72] + []) == "YmFy"
  {
    EncodeThree(0x62, 0x61, 0x72, []);
    assert CharOf(24) == 'Y' && CharOf(38) == 'm' && CharOf(5) == 'F' && CharOf(50) == 'y' && Encode([]) == "";
    hide Encode, CharOf;
  }

  /** The vectors of section 10 of RFC 4648, without their padding: "" to "foobar". */
  lemma {:induction false} KnownEncodings()
    ensures var foo: seq<byte> := [0x66, 0x6f, 0x6f];
            && Encode([]) == "" && Encode([0x66]) == "Zg" && Encode([0x66, 0x6f]) == "Zm8" && Encode(foo + []) == "Zm9v"
            && Encode(foo + [0x62]) == "Zm9vYg" && Encode(foo + [0x62, 0x61]) == "Zm9vYmE"
            && Encode(foo + ([0x62, 0x61, 0x72] + [])) == "Zm9vYmFy"
  {
    hide *;
    ShortEncodings();
    BarEncoding();
    FooThen([]);
    FooThen([0x62]);
    FooThen([0x62, 0x61]);
    FooThen([0x62, 0x61, 0x72] + []);
  }

  /** The last two characters of the alphabet, and what the vectors above do not reach. */
  lemma {:induction false} PlusAndSlash()
    ensures Encode([0xfb, 0xff]) == "+/8"
  {
  }

  // ------------------------------------------------------------------ what else is accepted

  lemma {:induction false} BreaksFirst(c: char, rest: string)
    ensures WithoutBreaks([c] + rest) == (if c == '\r' || c == '\n' then "" else [c]) + WithoutBreaks(rest)
  {
    assert ([c] + rest)[1..] == rest;
  }

  lemma {:induction false} BreaksJoin(a: string, b: string)
    ensures WithoutBreaks(a + b) == WithoutBreaks(a) + WithoutBreaks(b)
  {
    assert WithoutBreaks("") == "";
    hide WithoutBreaks;
    if a == "" {
      assert a + b == b;
    } else {
      var c, rest := a[0], a[1..];
      BreaksJoin(rest, b);
      BreaksFirst(c, rest);
      BreaksFirst(c, rest + b);
      assert a == [c] + rest && a + b == [c] + (rest + b);
    }
  }

  /** A line break makes no difference, wherever it stands. */
  lemma {:induction false} LineBreaksAreSkipped(a: string, c: char, b: string)
    requires c == '\r' || c == '\n'
    ensures Decode(a + [c] + b) == Decode(a + b)
  {
    assert WithoutBreaks([c]) == "";
    hide WithoutBreaks, Values, Unpack;
    BreaksJoin(a + [c], b);
    BreaksJoin(a, [c]);
    BreaksJoin(a, b);
    assert WithoutBreaks(a) + "" == WithoutBreaks(a);
  }

  ghost predicate InAlphabet(s: string) {
    forall i :: 0 <= i < |s| ==>
      'A' <= s[i] <= 'Z' || 'a' <= s[i] <= 'z' || '0' <= s[i] <= '9' || s[i] == '+' || s[i] == '/'
  }

  lemma {:induction false} ValuesExactly(s: string)
    ensures Values(s).Some? <==> InAlphabet(s)
    ensures Values(s).Some? ==> |Values(s).value| == |s|
  {
    if s != "" {
      ValuesExactly(s[1..]);
      assert forall i :: 1 <= i < |s| ==> s[i] == s[1..][i - 1];
    }
  }

  lemma {:induction false} UnpackExactly(v: seq<sextet>)
    ensures Unpack(v).Some? <==> |v| % 4 != 1
    ensures Unpack(v).Some? ==> |Unpack(v).value| == |v| * 3 / 4
  {
    if |v| >= 4 {
      UnpackExactly(v[4..]);
    }
  }

  /**
   Exactly what decodes: characters of the alphabet, and not one more than a multiple of four, so
   the bits left over at the end may be anything; three bytes for every four characters.
   */
  lemma {:induction false} DecodesExactly(s: string)
    ensures Decode(s).Some? <==> |WithoutBreaks(s)| % 4 != 1 && InAlphabet(WithoutBreaks(s))
    ensures Decode(s).Some? ==> |Decode(s).value| == |WithoutBreaks(s)| * 3 / 4
  {
    hide WithoutBreaks, Values, Unpack, InAlphabet;
    ValuesExactly(WithoutBreaks(s));
    if Values(WithoutBreaks(s)).Some? {
      UnpackExactly(Values(WithoutBreaks(s)).value);
    }
  }
}
