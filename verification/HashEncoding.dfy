/**
 The printed form of an Argon2id hash in security/hashing: accepted parameters, printing,
 and parsing. The key derivation itself is any function that returns as many bytes as asked.
 */
module HashEncoding {
  import opened Options
  import opened Text
  import Base64

  type uint32 = n: int | 0 <= n < 0x1_0000_0000
  type uint8 = n: int | 0 <= n < 0x100

  datatype Config = Config(memory: uint32, time: uint32, parallelism: uint8, saltLen: uint32, keyLen: uint32)

  datatype NewError = MemoryTooSmall | SaltTooShort | KeyTooShort

  /** The accepted hasher is the config with its zero fields replaced by the defaults. */
  function New(cfg: Config): (r: Result<Config, NewError>)
    ensures r.Ok? ==>
              && r.value.time >= 1 && 1 <= r.value.parallelism && r.value.memory >= 8 * r.value.parallelism
              && r.value.saltLen >= 8 && r.value.keyLen >= 16
              && (r.value.memory == cfg.memory || (cfg.memory == 0 && r.value.memory == 65536))
              && (r.value.time == cfg.time || (cfg.time == 0 && r.value.time == 3))
              && (r.value.parallelism == cfg.parallelism || (cfg.parallelism == 0 && r.value.parallelism == 2))
              && (r.value.saltLen == cfg.saltLen || (cfg.saltLen == 0 && r.value.saltLen == 16))
              && (r.value.keyLen == cfg.keyLen || (cfg.keyLen == 0 && r.value.keyLen == 32))
    ensures r == Err(MemoryTooSmall) <==> 0 < cfg.memory < 8 * if cfg.parallelism == 0 then 2 else cfg.parallelism
    ensures r.Err? <==> r == Err(MemoryTooSmall) || 0 < cfg.saltLen < 8 || 0 < cfg.keyLen < 16
    ensures r == Err(SaltTooShort) ==> 0 < cfg.saltLen < 8
    ensures r == Err(KeyTooShort) ==> 0 < cfg.keyLen < 16 && !(0 < cfg.saltLen < 8)
  {
    var c := Config(if cfg.memory == 0 then 64 * 1024 else cfg.memory,
                    if cfg.time == 0 then 3 else cfg.time,
                    if cfg.parallelism == 0 then 2 else cfg.parallelism,
                    if cfg.saltLen == 0 then 16 else cfg.saltLen,
                    if cfg.keyLen == 0 then 32 else cfg.keyLen);
    if c.memory < 8 * c.parallelism then Err(MemoryTooSmall)
    else if c.saltLen < 8 then Err(SaltTooShort)
    else if c.keyLen < 16 then Err(KeyTooShort)
    else Ok(c)
  }

  // --------------------------------------------------------------------------- decimals

  predicate IsDigit(c: char) {
    '0' <= c <= '9'
  }

  function Digit(n: nat): char
    requires n < 10
  {
    '0' + n as char
  }

  /** %d of a number that is not negative. */
  function Decimal(n: nat): string {
    if n < 10 then [Digit(n)] else Decimal(n / 10) + [Digit(n % 10)]
  }

  /** The length of the longest prefix of digits. */
  function Span(s: string): (n: nat)
    ensures n <= |s| && forall i :: 0 <= i < n ==> IsDigit(s[i])
  {
    if s == "" || !IsDigit(s[0]) then 0 else 1 + Span(s[1..])
  }

  function NumberOf(s: string): nat
    requires forall i :: 0 <= i < |s| ==> IsDigit(s[i])
  {
    if s == "" then 0
    else
      assert IsDigit(s[|s| - 1]);
      10 * NumberOf(s[..|s| - 1]) + (s[|s| - 1] as int - '0' as int)
  }

  predicate IsBlank(c: char) {
    c == ' ' || c == '\t'
  }

  function SkipBlanks(s: string): string {
    if s != "" && IsBlank(s[0]) then SkipBlanks(s[1..]) else s
  }

  /** A run of digits worth at most `max`, and what follows it. */
  function ScanDigits(s: string, max: nat): Option<(nat, string)> {
    var n := Span(s);
    if n == 0 || NumberOf(s[..n]) > max then None else Some((NumberOf(s[..n]), s[n..]))
  }

  /** %d scanned into a uint32. */
  function ScanUint32(s: string): Option<(nat, string)> {
    ScanDigits(SkipBlanks(s), 0xffff_ffff)
  }

  /** %d scanned into an int: a sign may come first. */
  function ScanInt(s: string): Option<(int, string)> {
    var t := SkipBlanks(s);
    if t != "" && t[0] == '-' then
      (match ScanDigits(t[1..], 0x8000_0000_0000_0000)
       case Some((n, rest)) => (var m: int := n; Some((-m, rest)))
       case None => None)
    else ScanDigits(if t != "" && t[0] == '+' then t[1..] else t, 0x7fff_ffff_ffff_ffff)
  }

  /** A literal piece of a scan format. */
  function Expect(s: string, literal: string): Option<string> {
    if literal <= s then Some(s[|literal|..]) else None
  }

  // -------------------------------------------------------------------- printing, parsing

  const Version := 19

  datatype Params = Params(memory: nat, time: nat, parallelism: nat)

  function PrintParams(p: Params): string {
    "m=" + Decimal(p.memory) + ",t=" + Decimal(p.time) + ",p=" + Decimal(p.parallelism)
  }

  function Fields(p: Params, salt: seq<byte>, key: seq<byte>): seq<string> {
    ["", "argon2id", "v=" + Decimal(Version), PrintParams(p), Base64.Encode(salt), Base64.Encode(key)]
  }

  function Print(p: Params, salt: seq<byte>, key: seq<byte>): string {
    Join(Fields(p, salt, key), '$')
  }

  datatype DecodeError =
    | MalformedEncoding | UnsupportedAlgorithm | BadVersion | UnsupportedVersion
    | BadParameters | InvalidParameters | BadSalt | BadKey | EmptySaltOrKey

  datatype Decoded = Decoded(params: Params, salt: seq<byte>, key: seq<byte>)

  /** A literal followed by %d. */
  function ScanField(s: string, literal: string): Option<(nat, string)> {
    match Expect(s, literal) case Some(rest) => ScanUint32(rest) case None => None
  }

  /** The three numbers of the parameter field; what follows them is ignored. */
  function ScanParams(s: string): Option<Params> {
    match ScanField(s, "m=")
    case None => None
    case Some((m, s1)) =>
      match ScanField(s1, ",t=")
      case None => None
      case Some((t, s2)) =>
        match ScanField(s2, ",p=") case Some((p, _)) => Some(Params(m, t, p)) case None => None
  }

  function ScanVersion(s: string): Option<int> {
    match Expect(s, "v=")
    case None => None
    case Some(rest) => match ScanInt(rest) case Some((v, _)) => Some(v) case None => None
  }

  function Decode(encoded: string): Result<Decoded, DecodeError> {
    var parts := Split(encoded, '$');
    if |parts| != 6 || parts[0] != "" then Err(MalformedEncoding)
    else if parts[1] != "argon2id" then Err(UnsupportedAlgorithm)
    else
      match ScanVersion(parts[2])
      case None => Err(BadVersion)
      case Some(v) =>
        if v != Version then Err(UnsupportedVersion)
        else match ScanParams(parts[3])
          case None => Err(BadParameters)
          case Some(p) =>
            if p.time == 0 || p.parallelism == 0 || p.parallelism > 255 || p.memory < 8 * p.parallelism
            then Err(InvalidParameters)
            else match Base64.Decode(parts[4])
              case None => Err(BadSalt)
              case Some(salt) =>
                match Base64.Decode(parts[5])
                case None => Err(BadKey)
                case Some(key) =>
                  if |salt| == 0 || |key| == 0 then Err(EmptySaltOrKey) else Ok(Decoded(p, salt, key))
  }

  // ---------------------------------------------------------------------- the round trips

  ghost predicate Digits(s: string) {
    s != "" && forall i :: 0 <= i < |s| ==> IsDigit(s[i])
  }

  lemma {:induction false} DecimalBack(n: nat)
    ensures Digits(Decimal(n)) && NumberOf(Decimal(n)) == n && (n > 0 ==> Decimal(n)[0] != '0')
  {
    if n < 10 {
      assert Decimal(n)[..0] == "";
    } else {
      DecimalBack(n / 10);
      var d := Decimal(n);
      assert d[..|d| - 1] == Decimal(n / 10);
    }
  }

  lemma {:induction false} SpanStops(digits: string, rest: string)
    requires forall i :: 0 <= i < |digits| ==> IsDigit(digits[i])
    requires rest == "" || !IsDigit(rest[0])
    ensures Span(digits + rest) == |digits|
  {
    if digits == "" {
      assert digits + rest == rest;
    } else {
      SpanStops(digits[1..], rest);
      assert (digits + rest)[1..] == digits[1..] + rest;
    }
  }

  /** A printed number is scanned back, whatever non-digit follows it. */
  lemma ScanOfDecimal(n: nat, max: nat, rest: string)
    requires n <= max && (rest == "" || !IsDigit(rest[0]))
    ensures ScanDigits(Decimal(n) + rest, max) == Some((n, rest))
    ensures SkipBlanks(Decimal(n) + rest) == Decimal(n) + rest
  {
    DecimalBack(n);
    var d := Decimal(n);
    var s := d + rest;
    SpanStops(d, rest);
    assert s[..|d|] == d && s[|d|..] == rest;
    assert IsDigit(s[0]);
  }

  lemma ExpectBack(literal: string, rest: string)
    ensures Expect(literal + rest, literal) == Some(rest)
  {
    assert (literal + rest)[|literal|..] == rest;
  }

  lemma DecimalNineteen()
    ensures Decimal(Version) == Decimal(19) == "19"
  {
    assert Decimal(1) == "1" && Digit(9) == '9';
    assert Decimal(19) == Decimal(1) + [Digit(9)];
  }

  ghost predicate AllBlank(s: string) {
    forall i :: 0 <= i < |s| ==> s[i] == ' ' || s[i] == '\t'
  }

  lemma {:induction false} BlanksAreSkipped(blanks: string, rest: string)
    requires AllBlank(blanks) && (rest == "" || !IsBlank(rest[0]))
    ensures SkipBlanks(blanks + rest) == rest
  {
    if blanks == "" {
      assert blanks + rest == rest;
    } else {
      BlanksAreSkipped(blanks[1..], rest);
      assert (blanks + rest)[1..] == blanks[1..] + rest;
    }
  }

  lemma {:induction false} FieldBack(literal: string, blanks: string, n: nat, rest: string)
    requires n < 0x1_0000_0000 && (rest == "" || !IsDigit(rest[0])) && AllBlank(blanks)
    ensures ScanField(literal + (blanks + (Decimal(n) + rest)), literal) == Some((n, rest))
  {
    var d := Decimal(n);
    DecimalBack(n);
    assert (d + rest)[0] == d[0] && !IsBlank(d[0]);
    BlanksAreSkipped(blanks, d + rest);
    ExpectBack(literal, blanks + (d + rest));
    ScanOfDecimal(n, 0xffff_ffff, rest);
    hide Expect, Decimal, ScanDigits, SkipBlanks, AllBlank;
  }

  /** The parameter field with blanks before its numbers, and something after the last. */
  function LooseParams(p: Params, blanks: (string, string, string), junk: string): string {
    "m=" + blanks.0 + Decimal(p.memory) + ",t=" + blanks.1 + Decimal(p.time) + ",p=" + blanks.2 + Decimal(p.parallelism) + junk
  }

  lemma {:induction false} ParamsBack(p: Params, blanks: (string, string, string), junk: string)
    requires 0 <= p.memory < 0x1_0000_0000 && 0 <= p.time < 0x1_0000_0000 && 0 <= p.parallelism < 0x1_0000_0000
    requires AllBlank(blanks.0) && AllBlank(blanks.1) && AllBlank(blanks.2) && (junk == "" || !IsDigit(junk[0]))
    ensures ScanParams(LooseParams(p, blanks, junk)) == Some(p)
  {
    hide Decimal, ScanField, AllBlank;
    var dm, dt, dp := Decimal(p.memory), Decimal(p.time), Decimal(p.parallelism);
    var s2 := ",p=" + (blanks.2 + (dp + junk));
    var s1 := ",t=" + (blanks.1 + (dt + s2));
    FieldBack("m=", blanks.0, p.memory, s1);
    FieldBack(",t=", blanks.1, p.time, s2);
    FieldBack(",p=", blanks.2, p.parallelism, junk);
    assert LooseParams(p, blanks, junk) == "m=" + (blanks.0 + (dm + s1));
  }

  lemma {:induction false} VersionScans(blanks: string, sign: string, v: nat, junk: string)
    requires v < 0x8000_0000_0000_0000 && AllBlank(blanks) && (sign == "" || sign == "+")
    requires junk == "" || !IsDigit(junk[0])
    ensures ScanVersion("v=" + (blanks + (sign + (Decimal(v) + junk)))) == Some(v)
  {
    var d := Decimal(v);
    DecimalBack(v);
    var t := sign + (d + junk);
    assert d[0] == (d + junk)[0] && IsDigit(d[0]);
    ExpectBack("v=", blanks + t);
    hide Decimal, ScanDigits, SkipBlanks, AllBlank, Expect;
    BlanksAreSkipped(blanks, t);
    ScanOfDecimal(v, 0x7fff_ffff_ffff_ffff, junk);
    if sign == "" {
      assert t == d + junk;
    } else {
      assert t[1..] == d + junk;
    }
  }

  lemma {:induction false} LacksBoth(a: string, b: string, c: char)
    requires Lacks(a, c) && Lacks(b, c)
    ensures Lacks(a + b, c)
  {
  }

  lemma {:induction false} FiveDollars(a: string, b: string, c: string, d: string, e: string)
    ensures Join(["", a, b, c, d, e], '$') == "$" + a + "$" + b + "$" + c + "$" + d + "$" + e
  {
    assert ["", a, b, c, d, e] == [""] + ([a] + ([b] + ([c] + ([d] + [e]))));
    JoinFirst("", [a] + ([b] + ([c] + ([d] + [e]))), '$');
    JoinFirst(a, [b] + ([c] + ([d] + [e])), '$');
    JoinFirst(b, [c] + ([d] + [e]), '$');
    JoinFirst(c, [d] + [e], '$');
    JoinFirst(d, [e], '$');
    assert Join([e], '$') == e;
    hide Join;
  }

  /** The printed form, spelled out. */
  lemma {:induction false} PrintFormat(p: Params, salt: seq<byte>, key: seq<byte>)
    ensures Print(p, salt, key)
            == "$argon2id$v=19$" + ("m=" + Decimal(p.memory) + ",t=" + Decimal(p.time) + ",p=" + Decimal(p.parallelism))
               + "$" + Base64.Encode(salt) + "$" + Base64.Encode(key)
  {
    DecimalNineteen();
    assert PrintParams(p) == "m=" + Decimal(p.memory) + ",t=" + Decimal(p.time) + ",p=" + Decimal(p.parallelism);
    hide Decimal, Base64.Encode, PrintParams, Join;
    FiveDollars("argon2id", "v=19", PrintParams(p), Base64.Encode(salt), Base64.Encode(key));
    assert "v=" + "19" == "v=19" && "$" + "argon2id" + "$" + "v=19" + "$" == "$argon2id$v=19$";
  }

  lemma {:induction false} LooseLacks(p: Params, blanks: (string, string, string), junk: string)
    requires AllBlank(blanks.0) && AllBlank(blanks.1) && AllBlank(blanks.2) && Lacks(junk, '$')
    ensures Lacks(LooseParams(p, blanks, junk), '$')
  {
    DecimalBack(p.memory);
    DecimalBack(p.time);
    DecimalBack(p.parallelism);
    var dm, dt, dp := Decimal(p.memory), Decimal(p.time), Decimal(p.parallelism);
    var s := "m=" + blanks.0 + dm;
    assert Lacks(s, '$');
    LacksBoth(s, ",t=" + blanks.1 + dt, '$');
    var u := s + (",t=" + blanks.1 + dt);
    LacksBoth(u, ",p=" + blanks.2 + dp + junk, '$');
    hide Decimal;
    assert LooseParams(p, blanks, junk) == u + (",p=" + blanks.2 + dp + junk);
  }

  /**
   What else than the printed form parses to the same: blanks before a number, a plus sign before
   the version, and anything after a field's last number that is not a digit.
   */
  lemma {:induction false} DecodeOfLoose(
    p: Params, salt: seq<byte>, key: seq<byte>, blank: string, sign: string, blanks: (string, string, string), junk: string, more: string)
    requires 0 <= p.memory < 0x1_0000_0000 && 1 <= p.time < 0x1_0000_0000 && 1 <= p.parallelism <= 255
    requires p.memory >= 8 * p.parallelism && salt != [] && key != []
    requires AllBlank(blank) && AllBlank(blanks.0) && AllBlank(blanks.1) && AllBlank(blanks.2) && (sign == "" || sign == "+")
    requires (junk == "" || !IsDigit(junk[0])) && (more == "" || !IsDigit(more[0])) && Lacks(junk, '$') && Lacks(more, '$')
    ensures var fields := ["", "argon2id", "v=" + (blank + (sign + ("19" + junk))), LooseParams(p, blanks, more),
                           Base64.Encode(salt), Base64.Encode(key)];
            Decode(Join(fields, '$')) == Ok(Decoded(p, salt, key))
  {
    var version := "v=" + (blank + (sign + ("19" + junk)));
    hide Decimal, ScanVersion, ScanParams, LooseParams, Decode, Base64.Encode, Join;
    LooseLacks(p, blanks, more);
    LooseVersion(blank, sign, junk);
    ParamsBack(p, blanks, more);
    FieldsDecode(version, LooseParams(p, blanks, more), p, salt, key);
  }

  lemma {:induction false} LooseVersion(blank: string, sign: string, junk: string)
    requires AllBlank(blank) && (sign == "" || sign == "+") && (junk == "" || !IsDigit(junk[0])) && Lacks(junk, '$')
    ensures var version := "v=" + (blank + (sign + ("19" + junk)));
            ScanVersion(version) == Some(19) && Lacks(version, '$')
  {
    DecimalNineteen();
    VersionScans(blank, sign, 19, junk);
    hide ScanVersion, Decimal;
  }

  lemma {:induction false} FieldsDecode(version: string, params: string, p: Params, salt: seq<byte>, key: seq<byte>)
    requires ScanVersion(version) == Some(19) && ScanParams(params) == Some(p) && Lacks(version, '$') && Lacks(params, '$')
    requires 1 <= p.time && 1 <= p.parallelism <= 255 && p.memory >= 8 * p.parallelism && salt != [] && key != []
    ensures Decode(Join(["", "argon2id", version, params, Base64.Encode(salt), Base64.Encode(key)], '$'))
            == Ok(Decoded(p, salt, key))
  {
    Base64.DecodeOfEncode(salt);
    Base64.DecodeOfEncode(key);
    hide ScanVersion, ScanParams, Base64.Decode, Base64.Encode, Split, Join;
    SplitOfJoin(["", "argon2id", version, params, Base64.Encode(salt), Base64.Encode(key)], '$');
  }

  /** Printing and then parsing gives the same parameters, salt and key. */
  lemma {:induction false} DecodeOfPrint(p: Params, salt: seq<byte>, key: seq<byte>)
    requires 0 <= p.memory < 0x1_0000_0000 && 1 <= p.time < 0x1_0000_0000 && 1 <= p.parallelism <= 255
    requires p.memory >= 8 * p.parallelism && salt != [] && key != []
    ensures Decode(Print(p, salt, key)) == Ok(Decoded(p, salt, key))
  {
    DecimalNineteen();
    assert LooseParams(p, ("", "", ""), "") == PrintParams(p);
    assert "v=" + ("" + ("" + ("19" + ""))) == "v=" + "19";
    hide Decimal, LooseParams, PrintParams, Decode, Base64.Encode, Join;
    DecodeOfLoose(p, salt, key, "", "", ("", "", ""), "", "");
  }

  /** A printed hash of any other version is refused. */
  lemma {:induction false} OtherVersionsRefused(v: nat, params: string, salt: string, key: string)
    requires v != 19 && v < 0x8000_0000_0000_0000 && Lacks(params, '$') && Lacks(salt, '$') && Lacks(key, '$')
    ensures Decode(Join(["", "argon2id", "v=" + Decimal(v), params, salt, key], '$')) == Err(UnsupportedVersion)
  {
    var version := "v=" + Decimal(v);
    assert Lacks(version, '$') && ScanVersion(version) == Some(v) by {
      DecimalBack(v);
      hide Decimal, ScanVersion;
      LacksBoth("v=", Decimal(v), '$');
      VersionScans("", "", v, "");
      assert "" + ("" + (Decimal(v) + "")) == Decimal(v);
    }
    hide Decimal, ScanVersion, ScanParams, Base64.Decode, Split, Join;
    SplitOfJoin(["", "argon2id", version, params, salt, key], '$');
  }

  /** A config left at zero gets the defaults. */
  lemma DefaultConfig()
    ensures New(Config(0, 0, 0, 0, 0)) == Ok(Config(65536, 3, 2, 16, 32))
  {
  }

  /** For every config New accepts and every salt and key of its lengths. */
  lemma RoundTrip(cfg: Config, salt: seq<byte>, key: seq<byte>)
    requires New(cfg).Ok? && |salt| == New(cfg).value.saltLen && |key| == New(cfg).value.keyLen
    ensures var h := New(cfg).value;
            var p := Params(h.memory, h.time, h.parallelism);
            Decode(Print(p, salt, key)) == Ok(Decoded(p, salt, key))
  {
    var h := New(cfg).value;
    DecodeOfPrint(Params(h.memory, h.time, h.parallelism), salt, key);
  }

  /** Whatever the input, decoded parameters are ones that Argon2 accepts. */
  lemma DecodeIsSound(encoded: string)
    requires Decode(encoded).Ok?
    ensures var d, parts := Decode(encoded).value, Split(encoded, '$');
            && |parts| == 6 && parts[0] == "" && parts[1] == "argon2id"
            && Base64.Decode(parts[4]) == Some(d.salt) && Base64.Decode(parts[5]) == Some(d.key)
            && 1 <= d.params.parallelism <= 255 && d.params.time >= 1
            && d.params.memory >= 8 * d.params.parallelism && d.salt != [] && d.key != []
  {
    hide Split, ScanVersion, ScanParams, Base64.Decode;
  }

  /** Each error is given for its own reason. */
  lemma ErrorsAreJustified(encoded: string)
    requires Decode(encoded).Err?
    ensures var parts := Split(encoded, '$');
            match Decode(encoded).error
            case MalformedEncoding => |parts| != 6 || parts[0] != ""
            case UnsupportedAlgorithm => |parts| == 6 && parts[1] != "argon2id"
            case BadVersion => |parts| == 6 && ScanVersion(parts[2]).None?
            case UnsupportedVersion => |parts| == 6 && ScanVersion(parts[2]).Some? && ScanVersion(parts[2]).value != 19
            case BadParameters => |parts| == 6 && ScanParams(parts[3]).None?
            case InvalidParameters =>
              && |parts| == 6 && ScanParams(parts[3]).Some?
              && var p := ScanParams(parts[3]).value;
                 !(p.time >= 1 && 1 <= p.parallelism <= 255 && p.memory >= 8 * p.parallelism)
            case BadSalt => |parts| == 6 && Base64.Decode(parts[4]).None?
            case BadKey => |parts| == 6 && Base64.Decode(parts[5]).None?
            case EmptySaltOrKey => |parts| == 6 && (Base64.Decode(parts[4]) == Some([]) || Base64.Decode(parts[5]) == Some([]))
  {
    hide Split, ScanVersion, ScanParams, Base64.Decode;
  }

  // --------------------------------------------------------------------- hash and verify

  /** Argon2id: plaintext, salt, parameters and key length to key. */
  type Kdf = (seq<byte>, seq<byte>, Params, nat) -> seq<byte>

  ghost predicate FillsKey(kdf: Kdf) {
    forall plain, salt, p, n :: |kdf(plain, salt, p, n)| == n
  }

  function Hash(kdf: Kdf, h: Config, plain: seq<byte>, salt: seq<byte>): string {
    var p := Params(h.memory, h.time, h.parallelism);
    Print(p, salt, kdf(plain, salt, p, h.keyLen))
  }

  function Verify(kdf: Kdf, plain: seq<byte>, encoded: string): Result<bool, DecodeError> {
    match Decode(encoded)
    case Err(e) => Err(e)
    case Ok(d) => Ok(kdf(plain, d.salt, d.params, |d.key|) == d.key)
  }

  /** A hash verifies exactly against the plaintexts that derive the same key from its salt. */
  lemma VerifyOfHash(kdf: Kdf, cfg: Config, plain: seq<byte>, salt: seq<byte>, guess: seq<byte>)
    requires FillsKey(kdf) && New(cfg).Ok? && |salt| == New(cfg).value.saltLen
    ensures var h := New(cfg).value;
            var p := Params(h.memory, h.time, h.parallelism);
            && Verify(kdf, guess, Hash(kdf, h, plain, salt))
               == Ok(kdf(guess, salt, p, h.keyLen) == kdf(plain, salt, p, h.keyLen))
            && Verify(kdf, plain, Hash(kdf, h, plain, salt)) == Ok(true)
  {
    var h := New(cfg).value;
    var p := Params(h.memory, h.time, h.parallelism);
    RoundTrip(cfg, salt, kdf(plain, salt, p, h.keyLen));
    hide Decode, Print;
  }
}
