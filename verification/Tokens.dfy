/** The base64url codec of access tokens (section 5 of RFC 4648, padding stripped), and the tokens themselves. */
module Tokens {
  import opened Common
  import opened ChunkFormat

  // ---------- base64url ----------

  function Digit(v: nat): (c: char)
    requires v < 64
    ensures c != '=' && c != '.' && c < 128 as char
  {
    if v < 26 then ('A' as int + v) as char
    else if v < 52 then ('a' as int + (v - 26)) as char
    else if v < 62 then ('0' as int + (v - 52)) as char
    else if v == 62 then '-' else '_'
  }

  /** The decoder also takes the two digits of the standard alphabet. */
  function Value(c: char): Option<nat> {
    if 'A' <= c <= 'Z' then Some(c as int - 'A' as int)
    else if 'a' <= c <= 'z' then Some(c as int - 'a' as int + 26)
    else if '0' <= c <= '9' then Some(c as int - '0' as int + 52)
    else if c == '-' || c == '+' then Some(62)
    else if c == '_' || c == '/' then Some(63)
    else None
  }

  lemma ValueOfDigit(v: nat)
    requires v < 64
    ensures Value(Digit(v)) == Some(v)
  {
  }

  /** The digits of three bytes, and of the two or one that may be left over at the end, without padding. */
  function Group(a: Byte, b: Byte, c: Byte): (r: string)
    ensures |r| == 4
  {
    [Digit(a / 4), Digit(a % 4 * 16 + b / 16), Digit(b % 16 * 4 + c / 64), Digit(c % 64)]
  }

  function LastTwo(a: Byte, b: Byte): (r: string)
    ensures |r| == 3
  {
    [Digit(a / 4), Digit(a % 4 * 16 + b / 16), Digit(b % 16 * 4)]
  }

  function LastOne(a: Byte): (r: string)
    ensures |r| == 2
  {
    [Digit(a / 4), Digit(a % 4 * 16)]
  }

  function Encode(d: Bytes): string {
    if d == [] then ""
    else if |d| == 1 then LastOne(d[0])
    else if |d| == 2 then LastTwo(d[0], d[1])
    else Group(d[0], d[1], d[2]) + Encode(d[3..])
  }

  function Prepend(b: Byte, rest: Option<Bytes>): Option<Bytes> {
    match rest
    case None => None
    case Some(bytes) => Some([b] + bytes)
  }

  /**
   * The lenient decoder: `quad` digits of the current group are read, `left` holds their unused bits and `pads` counts
   * padding signs since. Foreign characters are skipped, padding that completes a group ends the input, and an
   * incomplete group at the end is an error.
   */
  function Read(s: string, quad: nat, left: nat, pads: nat): Option<Bytes>
    requires quad < 4 && left < 64 && (quad == 2 ==> left < 16) && (quad == 3 ==> left < 4)
  {
    if s == "" then (if quad == 0 then Some([]) else None)
    else if s[0] == '=' then
      if quad >= 2 && quad + pads + 1 >= 4 then Some([])
      else Read(s[1..], quad, left, if quad >= 2 then pads + 1 else pads)
    else match Value(s[0])
      case None => Read(s[1..], quad, left, pads)
      case Some(v) =>
        if quad == 0 then Read(s[1..], 1, v, 0)
        else if quad == 1 then Prepend(left * 4 + v / 16, Read(s[1..], 2, v % 16, 0))
        else if quad == 2 then Prepend(left * 16 + v / 4, Read(s[1..], 3, v % 4, 0))
        else Prepend(left * 64 + v, Read(s[1..], 0, 0, 0))
  }

  function Pads(n: nat): string {
    if n == 0 then "" else "=" + Pads(n - 1)
  }

  predicate IsAscii(s: string) {
    forall i | 0 <= i < |s| :: s[i] < 128 as char
  }

  function Decode(s: string): Option<Bytes> {
    var padding := 4 - |s| % 4;
    var padded := if padding != 4 then s + Pads(padding) else s;
    if IsAscii(s) then Read(padded, 0, 0, 0) else None
  }

  lemma ReadFirstTwo(a: Byte, b: Byte, rest: string)
    ensures Read([Digit(a / 4), Digit(a % 4 * 16 + b / 16)] + rest, 0, 0, 0) == Prepend(a, Read(rest, 2, b / 16, 0))
  {
    var w, x := Digit(a / 4), Digit(a % 4 * 16 + b / 16);
    assert ([w, x] + rest)[1..] == [x] + rest && ([x] + rest)[1..] == rest;
    ValueOfDigit(a / 4);
    ValueOfDigit(a % 4 * 16 + b / 16);
  }

  lemma ReadNextTwo(b: Byte, c: Byte, rest: string)
    ensures Read([Digit(b % 16 * 4 + c / 64), Digit(c % 64)] + rest, 2, b / 16, 0)
         == Prepend(b / 16 * 16 + b % 16, Prepend(c, Read(rest, 0, 0, 0)))
  {
    var y, z := Digit(b % 16 * 4 + c / 64), Digit(c % 64);
    assert ([y, z] + rest)[1..] == [z] + rest && ([z] + rest)[1..] == rest;
    ValueOfDigit(b % 16 * 4 + c / 64);
    ValueOfDigit(c % 64);
  }

  /** Reading a complete group of digits yields its three bytes. */
  lemma ReadGroup(a: Byte, b: Byte, c: Byte, rest: string)
    ensures Read(Group(a, b, c) + rest, 0, 0, 0) == Prepend(a, Prepend(b, Prepend(c, Read(rest, 0, 0, 0))))
  {
    var next := [Digit(b % 16 * 4 + c / 64), Digit(c % 64)] + rest;
    assert Group(a, b, c) + rest == [Digit(a / 4), Digit(a % 4 * 16 + b / 16)] + next;
    ReadFirstTwo(a, b, next);
    ReadNextTwo(b, c, rest);
  }

  lemma ReadLastOne(a: Byte)
    ensures Read(LastOne(a) + "==", 0, 0, 0) == Some([a])
  {
    assert LastOne(a) + "==" == [Digit(a / 4), Digit(a % 4 * 16 + 0 / 16)] + "==";
    ReadFirstTwo(a, 0, "==");
    assert "=="[1..] == "=";
    assert Read("=", 2, 0, 1) == Some([]);
    assert Read("==", 2, 0, 0) == Some([]);
    assert [a] + [] == [a];
  }

  lemma ReadLastTwo(a: Byte, b: Byte)
    ensures Read(LastTwo(a, b) + "=", 0, 0, 0) == Some([a, b])
  {
    var y := Digit(b % 16 * 4);
    assert LastTwo(a, b) + "=" == [Digit(a / 4), Digit(a % 4 * 16 + b / 16)] + ([y] + "=");
    ReadFirstTwo(a, b, [y] + "=");
    ValueOfDigit(b % 16 * 4);
    assert ([y] + "=")[1..] == "=";
    assert Read("=", 3, 0, 0) == Some([]);
    assert b / 16 * 16 + b % 16 * 4 / 4 == b;
    assert Read([y] + "=", 2, b / 16, 0) == Prepend(b, Some([]));
    assert [b] + [] == [b] && [a] + [b] == [a, b];
  }

  function Missing(n: nat): nat {
    if n % 4 == 0 then 0 else 4 - n % 4
  }

  function Padded(s: string): string {
    s + Pads(Missing(|s|))
  }

  lemma PaddedGroup(group: string, more: string)
    requires |group| == 4
    ensures Padded(group + more) == group + Padded(more)
  {
    assert Missing(|group + more|) == Missing(|more|);
  }

  lemma PaddedTail(s: string)
    ensures |s| == 2 ==> Padded(s) == s + "=="
    ensures |s| == 3 ==> Padded(s) == s + "="
  {
    assert Pads(1) == "=" && Pads(2) == "==";
  }

  predicate ReadsBack(d: Bytes) {
    Read(Padded(Encode(d)), 0, 0, 0) == Some(d)
  }

  lemma TailReadsBack(d: Bytes)
    requires |d| == 1 || |d| == 2
    ensures ReadsBack(d)
  {
    if |d| == 1 {
      PaddedTail(LastOne(d[0]));
      ReadLastOne(d[0]);
      assert d == [d[0]];
    } else {
      PaddedTail(LastTwo(d[0], d[1]));
      ReadLastTwo(d[0], d[1]);
      assert d == [d[0], d[1]];
    }
  }

  lemma GroupReadsBack(d: Bytes)
    requires |d| >= 3 && ReadsBack(d[3..])
    ensures ReadsBack(d)
  {
    var more := Encode(d[3..]);
    PaddedGroup(Group(d[0], d[1], d[2]), more);
    ReadGroup(d[0], d[1], d[2], Padded(more));
    assert d == [d[0]] + ([d[1]] + ([d[2]] + d[3..]));
  }

  lemma {:induction false} ReadPadded(d: Bytes)
    ensures ReadsBack(d)
  {
    if d == [] {
      assert Padded("") == "";
    } else if |d| < 3 {
      TailReadsBack(d);
    } else {
      ReadPadded(d[3..]);
      GroupReadsBack(d);
    }
  }

  /** Encodings are plain ASCII and contain neither padding nor the separator of tokens. */
  lemma {:induction false} EncodingIsClean(d: Bytes)
    ensures IsAscii(Encode(d)) && '.' !in Encode(d) && '=' !in Encode(d)
  {
    if |d| >= 3 {
      EncodingIsClean(d[3..]);
    }
  }

  lemma DecodeReads(s: string)
    requires IsAscii(s)
    ensures Decode(s) == Read(Padded(s), 0, 0, 0)
  {
    assert s + "" == s;
  }

  /** Stripping the padding loses nothing: every byte string is decoded from its encoding. */
  lemma DecodeEncode(d: Bytes)
    ensures Decode(Encode(d)) == Some(d)
  {
    EncodingIsClean(d);
    DecodeReads(Encode(d));
    ReadPadded(d);
  }

  // ---------- the encoding is that of the standard ----------

  const UPPER := "ABCDEFGHIJKLMNOPQRSTUVWXYZ"
  const LOWER := "abcdefghijklmnopqrstuvwxyz"
  const DECIMAL := "0123456789"

  /** Table 2 of RFC 4648; the decoder reads `+` and `/` like `-` and `_`. */
  lemma DigitIs(v: nat)
    requires v < 64
    ensures |UPPER| == |LOWER| == 26 && |DECIMAL| == 10
    ensures Digit(v) == if v < 26 then UPPER[v] else if v < 52 then LOWER[v - 26] else if v < 62 then DECIMAL[v - 52]
                        else if v == 62 then '-' else '_'
    ensures Value('+') == Value('-') == Some(62) && Value('/') == Value('_') == Some(63)
  {
  }

  function Pow64(k: nat): nat {
    if k == 0 then 1 else 64 * Pow64(k - 1)
  }

  /** The number that a string of digits is in base 64. */
  function Number(s: string): nat {
    if s == "" then 0
    else
      var last := Value(s[|s| - 1]);
      64 * Number(s[..|s| - 1]) + if last.Some? then last.value else 0
  }

  lemma {:induction false} NumberAppend(a: string, b: string)
    ensures Number(a + b) == Number(a) * Pow64(|b|) + Number(b)
  {
    if b == "" {
      assert a + b == a;
    } else {
      var n := |b| - 1;
      assert (a + b)[..|a| + n] == a + b[..n];
      NumberAppend(a, b[..n]);
      Shifted(Number(a), Pow64(n), Number(b[..n]), 64);
    }
  }

  lemma {:induction false} FromBytesAppend(a: Bytes, b: Bytes)
    ensures FromBytes(a + b) == FromBytes(a) * Pow256(|b|) + FromBytes(b)
  {
    if b == [] {
      assert a + b == a;
    } else {
      var n := |b| - 1;
      assert (a + b)[..|a| + n] == a + b[..n];
      FromBytesAppend(a, b[..n]);
      Shifted(FromBytes(a), Pow256(n), FromBytes(b[..n]), 256);
    }
  }

  lemma Shifted(x: nat, w: nat, y: nat, base: nat)
    ensures base * (x * w + y) == x * (base * w) + base * y
  {
  }

  /** The number of bits that fill up the last digit of n encoded bytes: none, four or two; as a factor. */
  function Filler(n: nat): nat {
    if n % 3 == 0 then 1 else if n % 3 == 1 then 16 else 4
  }

  lemma PowersOfThree(n: nat)
    ensures Pow64(n + 4) == 0x100_0000 * Pow64(n)
    ensures Pow256(n + 3) == 0x100_0000 * Pow256(n)
  {
    assert Pow64(n + 4) == 64 * Pow64(n + 3) && Pow64(n + 2) == 64 * Pow64(n + 1);
    assert Pow256(n + 3) == 256 * Pow256(n + 2) && Pow256(n + 2) == 256 * Pow256(n + 1);
  }

  /** The number of digits of n bytes. */
  function Width(n: nat): nat {
    (4 * n + 2) / 3
  }

  lemma ThreeMore(n: nat)
    ensures Width(n + 3) == Width(n) + 4 && Filler(n + 3) == Filler(n)
  {
  }

  lemma FewBytes(n: nat)
    requires n < 3
    ensures Pow64(Width(n)) == Pow256(n) * Filler(n)
  {
    assert Pow64(0) == 1 && Pow64(2) == 0x1000 && Pow64(3) == 64 * Pow64(2);
    assert Pow256(0) == 1 && Pow256(1) == 256 && Pow256(2) == 0x1_0000;
  }

  lemma {:induction false} EncodedWidth(n: nat)
    ensures Pow64(Width(n)) == Pow256(n) * Filler(n)
  {
    if n < 3 {
      FewBytes(n);
    } else {
      EncodedWidth(n - 3);
      ThreeMore(n - 3);
      PowersOfThree(Width(n - 3));
      PowersOfThree(n - 3);
      Regrouped(0x100_0000, Pow256(n - 3), Filler(n));
    }
  }

  lemma NumberOfFour(w: nat, x: nat, y: nat, z: nat)
    requires w < 64 && x < 64 && y < 64 && z < 64
    ensures Number([Digit(w)]) == w && Number([Digit(w), Digit(x)]) == 64 * w + x
    ensures Number([Digit(w), Digit(x), Digit(y)]) == 64 * (64 * w + x) + y
    ensures Number([Digit(w), Digit(x), Digit(y), Digit(z)]) == 64 * (64 * (64 * w + x) + y) + z
  {
    var a, b, c, d := Digit(w), Digit(x), Digit(y), Digit(z);
    ValueOfDigit(w);
    ValueOfDigit(x);
    ValueOfDigit(y);
    ValueOfDigit(z);
    assert [a][..0] == "" && [a, b][..1] == [a] && [a, b, c][..2] == [a, b] && [a, b, c, d][..3] == [a, b, c];
  }

  lemma FromThree(a: Byte, b: Byte, c: Byte)
    ensures FromBytes([a]) == a && FromBytes([a, b]) == 256 * a + b
    ensures FromBytes([a, b, c]) == 256 * (256 * a + b) + c
  {
    assert [a][..0] == [] && [a, b][..1] == [a] && [a, b, c][..2] == [a, b];
  }

  lemma GroupNumber(a: Byte, b: Byte, c: Byte)
    ensures Number(Group(a, b, c)) == FromBytes([a, b, c])
  {
    NumberOfFour(a / 4, a % 4 * 16 + b / 16, b % 16 * 4 + c / 64, c % 64);
    FromThree(a, b, c);
  }

  lemma TailNumbers(a: Byte, b: Byte)
    ensures Number(LastOne(a)) == FromBytes([a]) * 16
    ensures Number(LastTwo(a, b)) == FromBytes([a, b]) * 4
  {
    NumberOfFour(a / 4, a % 4 * 16, 0, 0);
    NumberOfFour(a / 4, a % 4 * 16 + b / 16, b % 16 * 4, 0);
    FromThree(a, b, 0);
  }

  lemma Assembled(x: nat, w: nat, f: nat, y: nat)
    ensures x * (w * f) + y * f == (x * w + y) * f
  {
  }

  predicate WritesNumber(d: Bytes) {
    Number(Encode(d)) == FromBytes(d) * Filler(|d|) && |Encode(d)| == Width(|d|)
  }

  lemma EncodeOneMore(head: Bytes, rest: Bytes)
    requires |head| == 3
    ensures Encode(head + rest) == Group(head[0], head[1], head[2]) + Encode(rest)
  {
    assert (head + rest)[3..] == rest;
  }

  lemma NumbersAssemble(head: Bytes, rest: Bytes, digits: string, more: string)
    requires Number(digits) == FromBytes(head) && Number(more) == FromBytes(rest) * Filler(|rest|)
    requires |more| == Width(|rest|)
    ensures Number(digits + more) == FromBytes(head + rest) * Filler(|rest|)
  {
    NumberAppend(digits, more);
    FromBytesAppend(head, rest);
    EncodedWidth(|rest|);
    Assembled(FromBytes(head), Pow256(|rest|), Filler(|rest|), FromBytes(rest));
  }

  lemma GroupWritesNumber(head: Bytes, rest: Bytes)
    requires |head| == 3 && WritesNumber(rest)
    ensures WritesNumber(head + rest)
  {
    assert head == [head[0], head[1], head[2]];
    GroupNumber(head[0], head[1], head[2]);
    NumbersAssemble(head, rest, Group(head[0], head[1], head[2]), Encode(rest));
    EncodeOneMore(head, rest);
    ThreeMore(|rest|);
  }

  /** The digits write in base 64 the number that the bytes write in base 256, filled up with zero bits to whole
      digits. With the length this fixes the encoding. */
  lemma {:induction false} EncodesTheNumber(d: Bytes)
    ensures Number(Encode(d)) == FromBytes(d) * Filler(|d|) && |Encode(d)| == (4 * |d| + 2) / 3
  {
    if |d| >= 3 {
      EncodesTheNumber(d[3..]);
      GroupWritesNumber(d[..3], d[3..]);
      assert d == d[..3] + d[3..];
    } else if d != [] {
      TailNumbers(d[0], d[|d| - 1]);
      assert d == if |d| == 1 then [d[0]] else [d[0], d[1]];
    }
  }

  /** The decoder skips what is neither a digit nor padding. */
  function DigitsAndPads(s: string): string {
    if s == "" then ""
    else (if s[0] == '=' || Value(s[0]).Some? then [s[0]] else "") + DigitsAndPads(s[1..])
  }

  lemma {:induction false} ForeignSkipped(s: string, quad: nat, left: nat, pads: nat)
    requires quad < 4 && left < 64 && (quad == 2 ==> left < 16) && (quad == 3 ==> left < 4)
    ensures Read(DigitsAndPads(s), quad, left, pads) == Read(s, quad, left, pads)
    decreases |s|
  {
    if s != "" {
      var t := DigitsAndPads(s[1..]);
      if s[0] == '=' {
        assert ([s[0]] + t)[1..] == t;
        ForeignSkipped(s[1..], quad, left, if quad >= 2 then pads + 1 else pads);
      } else if Value(s[0]).None? {
        assert DigitsAndPads(s) == t;
        ForeignSkipped(s[1..], quad, left, pads);
      } else {
        var v := Value(s[0]).value;
        assert ([s[0]] + t)[1..] == t;
        ForeignSkipped(s[1..], (quad + 1) % 4,
                       if quad == 0 then v else if quad == 1 then v % 16 else if quad == 2 then v % 4 else 0, 0);
      }
    }
  }

  /** Padding ends the input only where it completes a group: one sign after three digits, two after two. A single one
      after two digits, or any after fewer, is skipped. */
  lemma PaddingEnds(rest: string, quad: nat, left: nat, c: char)
    requires left < 4 && quad < 2 && Value(c).Some?
    ensures Read("=" + rest, 3, left, 0) == Some([])
    ensures Read("=" + ("=" + rest), 2, left, 0) == Some([])
    ensures Read("=" + ([c] + rest), 2, left, 0) == Read([c] + rest, 2, left, 0)
    ensures Read("=" + rest, quad, left, 0) == Read(rest, quad, left, 0)
  {
    assert ("=" + rest)[1..] == rest && ("=" + ("=" + rest))[1..] == "=" + rest;
    assert ("=" + ([c] + rest))[1..] == [c] + rest;
  }

  // ---------- access tokens ----------

  datatype UserRole = TENANT_ADMIN | OPERATOR | AUDITOR

  datatype TokenClaims = TokenClaims(iss: string, sub: string, aud: string, tenantId: string, role: UserRole,
                                     exp: int, iat: int, jti: string)

  const ISSUER := "boveda-pyme:auth"
  const AUDIENCE := "boveda-pyme:api"

  datatype HeaderCheck = Malformed | Disallowed | Accepted

  datatype TokenError =
    NotThreeParts | NotAscii | BadEncoding | HeaderMalformed | HeaderDisallowed | BadSignature | BadClaims
    | TokenExpired | UntrustedIssuer | WrongAudience

  /** JSON and Ed25519: the fixed header, the claims codec with its validation, and one key pair. */
  datatype Signer = Signer(
    header: Bytes,
    checkHeader: Bytes -> HeaderCheck,
    dump: TokenClaims -> Bytes,
    load: Bytes -> Option<TokenClaims>,
    sign: Bytes -> Bytes,
    verifies: (Bytes, Bytes) -> bool)
  {
    /** The header that is written is the one allowed, these claims survive JSON, and their signature verifies. */
    ghost predicate Lawful(claims: TokenClaims) {
      && checkHeader(header) == Accepted
      && load(dump(claims)) == Some(claims)
      && verifies(sign(Signed(this, claims)), Signed(this, claims))
    }
  }

  function Ascii(s: string): (r: Bytes)
    requires IsAscii(s)
  {
    seq(|s|, i requires 0 <= i < |s| => s[i] as int)
  }

  function Split(s: string, sep: char): (parts: seq<string>)
    ensures parts != []
  {
    if s == "" then [""]
    else if s[0] == sep then [""] + Split(s[1..], sep)
    else var parts := Split(s[1..], sep); [[s[0]] + parts[0]] + parts[1..]
  }

  lemma {:induction false} SplitFirst(a: string, sep: char, rest: string)
    requires sep !in a
    ensures Split(a + [sep] + rest, sep) == [a] + Split(rest, sep)
  {
    if a == "" {
      assert (a + [sep] + rest)[1..] == rest;
    } else {
      assert (a + [sep] + rest)[1..] == a[1..] + [sep] + rest;
      SplitFirst(a[1..], sep, rest);
      assert [a[0]] + a[1..] == a;
    }
  }

  lemma {:induction false} SplitNone(a: string, sep: char)
    requires sep !in a
    ensures Split(a, sep) == [a]
  {
    if a != "" {
      SplitNone(a[1..], sep);
      assert [a[0]] + a[1..] == a;
    }
  }

  lemma SplitThree(a: string, b: string, c: string, sep: char)
    requires sep !in a && sep !in b && sep !in c
    ensures Split(a + [sep] + b + [sep] + c, sep) == [a, b, c]
  {
    assert a + [sep] + b + [sep] + c == a + [sep] + (b + [sep] + c);
    SplitFirst(a, sep, b + [sep] + c);
    SplitFirst(b, sep, c);
    SplitNone(c, sep);
  }

  function SigningInput(header: string, payload: string): string {
    header + ['.'] + payload
  }

  /** The bytes that are signed when a token is created for these claims. */
  function Signed(signer: Signer, claims: TokenClaims): Bytes {
    EncodingIsClean(signer.header);
    EncodingIsClean(signer.dump(claims));
    Ascii(SigningInput(Encode(signer.header), Encode(signer.dump(claims))))
  }

  function CreateAccessToken(signer: Signer, claims: TokenClaims): string {
    var signature := signer.sign(Signed(signer, claims));
    SigningInput(Encode(signer.header), Encode(signer.dump(claims))) + ['.'] + Encode(signature)
  }

  /** The last checks, in their order. */
  function Judge(claims: TokenClaims, now: int): Result<TokenClaims, TokenError> {
    if claims.exp < now then Err(TokenExpired)
    else if claims.iss != ISSUER then Err(UntrustedIssuer)
    else if claims.aud != AUDIENCE then Err(WrongAudience)
    else Ok(claims)
  }

  function VerifyParts(signer: Signer, header: string, payload: string, signature: string, now: int)
    : Result<TokenClaims, TokenError>
  {
    if !IsAscii(SigningInput(header, payload)) then Err(NotAscii) else
    var headerBytes, signatureBytes, payloadBytes := Decode(header), Decode(signature), Decode(payload);
    if headerBytes.None? || signatureBytes.None? || payloadBytes.None? then Err(BadEncoding) else
    match signer.checkHeader(headerBytes.value)
    case Malformed => Err(HeaderMalformed)
    case Disallowed => Err(HeaderDisallowed)
    case Accepted =>
      if !signer.verifies(signatureBytes.value, Ascii(SigningInput(header, payload))) then Err(BadSignature) else
      var claims := signer.load(payloadBytes.value);
      if claims.None? then Err(BadClaims) else Judge(claims.value, now)
  }

  function VerifyAccessToken(signer: Signer, token: string, now: int): Result<TokenClaims, TokenError> {
    var parts := Split(token, '.');
    if |parts| != 3 then Err(NotThreeParts) else VerifyParts(signer, parts[0], parts[1], parts[2], now)
  }

  /**
   * A token of the own service verifies back to its claims exactly while it is unexpired and names the default issuer
   * and audience; otherwise the first of these checks that fails is reported.
   */
  lemma TokenRoundTrip(signer: Signer, claims: TokenClaims, now: int)
    requires signer.Lawful(claims)
    ensures
      var result := VerifyAccessToken(signer, CreateAccessToken(signer, claims), now);
      var trusted, meant := claims.iss == "boveda-pyme:auth", claims.aud == "boveda-pyme:api";
      && (result == Ok(claims) <==> now <= claims.exp && trusted && meant)
      && (result == Err(TokenExpired) <==> claims.exp < now)
      && (result == Err(UntrustedIssuer) <==> now <= claims.exp && !trusted)
      && (result == Err(WrongAudience) <==> now <= claims.exp && trusted && !meant)
  {
    var h, p := Encode(signer.header), Encode(signer.dump(claims));
    EncodingIsClean(signer.header);
    EncodingIsClean(signer.dump(claims));
    var signature := signer.sign(Signed(signer, claims));
    EncodingIsClean(signature);
    SplitThree(h, p, Encode(signature), '.');
    DecodeEncode(signer.header);
    DecodeEncode(signer.dump(claims));
    DecodeEncode(signature);
    assert VerifyParts(signer, h, p, Encode(signature), now) == Judge(claims, now);
  }

  // ---------- nothing else is accepted ----------

  lemma {:induction false} SplitParts(s: string, sep: char)
    ensures forall part | part in Split(s, sep) :: sep !in part
  {
    if s != "" {
      SplitParts(s[1..], sep);
      var rest := Split(s[1..], sep);
      assert rest == [rest[0]] + rest[1..];
    }
  }

  lemma AsciiInjective(s: string, t: string)
    requires IsAscii(s) && IsAscii(t) && Ascii(s) == Ascii(t)
    ensures s == t
  {
    assert |s| == |Ascii(s)| == |Ascii(t)| == |t|;
    forall i | 0 <= i < |s| ensures s[i] == t[i] {
      assert Ascii(s)[i] == Ascii(t)[i];
    }
  }

  lemma SigningInputInjective(h: string, p: string, g: string, q: string)
    requires '.' !in h && '.' !in p && '.' !in g && '.' !in q && SigningInput(h, p) == SigningInput(g, q)
    ensures h == g && p == q
  {
    SplitFirst(h, '.', p);
    SplitNone(p, '.');
    SplitFirst(g, '.', q);
    SplitNone(q, '.');
    assert [h] + [p] == [g] + [q];
    assert ([h] + [p])[0] == h && ([h] + [p])[1] == p && ([g] + [q])[0] == g && ([g] + [q])[1] == q;
  }

  lemma SamePayload(signer: Signer, claims: TokenClaims, header: string, payload: string)
    requires '.' !in header && '.' !in payload && IsAscii(SigningInput(header, payload))
    requires Ascii(SigningInput(header, payload)) == Signed(signer, claims)
    ensures Decode(payload) == Some(signer.dump(claims))
  {
    var h, p := Encode(signer.header), Encode(signer.dump(claims));
    EncodingIsClean(signer.header);
    EncodingIsClean(signer.dump(claims));
    AsciiInjective(SigningInput(header, payload), SigningInput(h, p));
    SigningInputInjective(header, payload, h, p);
    DecodeEncode(signer.dump(claims));
  }

  /** The signature that a string carries in its third part verifies on its first two. */
  predicate CarriesSignature(signer: Signer, token: string) {
    var parts := Split(token, '.');
    && |parts| == 3 && IsAscii(SigningInput(parts[0], parts[1]))
    && Decode(parts[2]).Some?
    && signer.verifies(Decode(parts[2]).value, Ascii(SigningInput(parts[0], parts[1])))
  }

  /** The code of the k-th character of what is signed. */
  function CodeAt(parts: seq<string>, k: nat): int
    requires |parts| >= 2 && k < |SigningInput(parts[0], parts[1])|
  {
    SigningInput(parts[0], parts[1])[k] as int
  }

  /** Claims are looked at exactly when the encodings are sound, the header is the one allowed and the signature
      verifies; and no signature is looked at under another header. */
  lemma ClaimsComeLast(signer: Signer, token: string, now: int)
    ensures
      var parts, result := Split(token, '.'), VerifyAccessToken(signer, token, now);
      && (result.Ok? || result.error in {BadClaims, TokenExpired, UntrustedIssuer, WrongAudience} <==>
            && CarriesSignature(signer, token) && Decode(parts[0]).Some? && Decode(parts[1]).Some?
            && signer.checkHeader(Decode(parts[0]).value) == Accepted)
      && (result == Err(BadSignature) ==>
            |parts| == 3 && Decode(parts[0]).Some? && signer.checkHeader(Decode(parts[0]).value) == Accepted)
      && (result == Err(NotThreeParts) <==> |parts| != 3)
      && (result == Err(NotAscii) <==>
            |parts| == 3 && exists k :: 0 <= k < |SigningInput(parts[0], parts[1])| && CodeAt(parts, k) > 127)
  {
    var parts := Split(token, '.');
    if |parts| == 3 {
      var signed := SigningInput(parts[0], parts[1]);
      forall k | 0 <= k < |signed| ensures signed[k] < 128 as char <==> CodeAt(parts, k) <= 127 {
      }
    }
  }

  /** If this string carries a signature that verifies, then on a message that was signed for issued claims. */
  ghost predicate NotForged(signer: Signer, issued: set<TokenClaims>, token: string) {
    CarriesSignature(signer, token) ==>
      var parts := Split(token, '.');
      exists c :: c in issued && Signed(signer, c) == Ascii(SigningInput(parts[0], parts[1]))
  }

  /** The tokens of issued claims are not forged. */
  lemma OwnTokensNotForged(signer: Signer, issued: set<TokenClaims>, claims: TokenClaims)
    requires claims in issued
    ensures NotForged(signer, issued, CreateAccessToken(signer, claims))
  {
    EncodingIsClean(signer.header);
    EncodingIsClean(signer.dump(claims));
    EncodingIsClean(signer.sign(Signed(signer, claims)));
    SplitThree(Encode(signer.header), Encode(signer.dump(claims)), Encode(signer.sign(Signed(signer, claims))), '.');
  }

  /** Whatever string is presented, unless it is forged, accepted claims are issued claims that pass all checks. */
  lemma AcceptedMeansIssued(signer: Signer, issued: set<TokenClaims>, token: string, now: int)
    requires forall c | c in issued :: signer.Lawful(c)
    requires NotForged(signer, issued, token)
    ensures
      var result := VerifyAccessToken(signer, token, now);
      result.Ok? ==>
        && result.value in issued && now <= result.value.exp
        && result.value.iss == ISSUER && result.value.aud == AUDIENCE
  {
    if VerifyAccessToken(signer, token, now).Ok? {
      var parts := Split(token, '.');
      SplitParts(token, '.');
      assert parts[0] in parts && parts[1] in parts;
      assert CarriesSignature(signer, token);
      var c :| c in issued && Signed(signer, c) == Ascii(SigningInput(parts[0], parts[1]));
      SamePayload(signer, c, parts[0], parts[1]);
    }
  }

  /**
   * One signer, both directions: of the strings that are not forged it accepts only current issued claims, and for
   * each of these there is such a string, the token created for them.
   */
  lemma AcceptsExactlyTheIssued(signer: Signer, issued: set<TokenClaims>, claims: TokenClaims, now: int)
    requires forall c | c in issued :: signer.Lawful(c)
    ensures
      (exists token :: NotForged(signer, issued, token) && VerifyAccessToken(signer, token, now) == Ok(claims)) <==>
      (claims in issued && now <= claims.exp && claims.iss == ISSUER && claims.aud == AUDIENCE)
  {
    if token :| NotForged(signer, issued, token) && VerifyAccessToken(signer, token, now) == Ok(claims) {
      AcceptedMeansIssued(signer, issued, token, now);
    }
    if claims in issued && now <= claims.exp && claims.iss == ISSUER && claims.aud == AUDIENCE {
      TokenRoundTrip(signer, claims, now);
      OwnTokensNotForged(signer, issued, claims);
      var token := CreateAccessToken(signer, claims);
      assert NotForged(signer, issued, token) && VerifyAccessToken(signer, token, now) == Ok(claims);
    }
  }
}
