/**
 Base64 as the gateway uses it: RawURLEncoding (sections 3.2 and 5 of RFC 4648) on the way out, and
 two decoders that restore the padding first, decodeBase64Url (pkg/proxy/provider.go) with the URL
 alphabet and base64UrlDecode (pkg/proxy/handler.go) by translating to the standard one.
 */
module Base64Url {
  import opened Bytes
  import opened Options

  datatype Alphabet = Standard | Url

  type Digit = d: int | 0 <= d < 64

  function Symbol(al: Alphabet, d: Digit): char {
    if d < 26 then 'A' + d as char
    else if d < 52 then 'a' + (d - 26) as char
    else if d < 62 then '0' + (d - 52) as char
    else if d == 62 then (if al.Url? then '-' else '+')
    else (if al.Url? then '_' else '/')
  }

  function Value(al: Alphabet, c: char): (v: Option<int>)
    ensures v.Some? ==> 0 <= v.value < 64
  {
    if 'A' <= c <= 'Z' then Some((c - 'A') as int)
    else if 'a' <= c <= 'z' then Some((c - 'a') as int + 26)
    else if '0' <= c <= '9' then Some((c - '0') as int + 52)
    else if c == Symbol(al, 62) then Some(62)
    else if c == Symbol(al, 63) then Some(63)
    else None
  }

  // ----- encoding -----

  // The four sextets of three bytes.
  function Sextet1(x: Byte): Digit { x / 4 }

  function Sextet2(x: Byte, y: Byte): Digit { x % 4 * 16 + y / 16 }

  function Sextet3(y: Byte, z: Byte): Digit { y % 16 * 4 + z / 64 }

  function Sextet4(z: Byte): Digit { z % 64 }

  /** As many symbols as n bytes need. */
  function Symbols(a: Digit, b: Digit, c: Digit, d: Digit, n: nat): string {
    [Symbol(Url, a), Symbol(Url, b)]
    + (if n > 1 then [Symbol(Url, c)] else []) + (if n > 2 then [Symbol(Url, d)] else [])
  }

  function EncodeBytes(x: Byte, y: Byte, z: Byte, n: nat): string {
    Symbols(Sextet1(x), Sextet2(x, y), Sextet3(y, z), Sextet4(z), n)
  }

  /** The symbols for one to three bytes; missing ones count as zero. */
  function EncodeGroup(g: Data): string
    requires 1 <= |g| <= 3
  {
    EncodeBytes(g[0], if |g| > 1 then g[1] else 0, if |g| > 2 then g[2] else 0, |g|)
  }

  /** RawURLEncoding.EncodeToString: no padding. */
  function Encode(d: Data): string {
    if d == [] then ""
    else if |d| <= 3 then EncodeGroup(d)
    else EncodeGroup(d[..3]) + Encode(d[3..])
  }

  // ----- decoding -----

  predicate LineBreak(c: char) { c == '\r' || c == '\n' }

  /** The decoder skips line breaks wherever they stand. */
  function SkipBreaks(s: string): string {
    if s == "" then "" else if LineBreak(s[0]) then SkipBreaks(s[1..]) else [s[0]] + SkipBreaks(s[1..])
  }

  predicate IsDigit(v: Option<int>) { v.Some? ==> 0 <= v.value < 64 }

  /** The bytes of four digits, the last one or two of which padding may replace in the last group. */
  function GroupBytes(a: Option<int>, b: Option<int>, c: Option<int>, d: Option<int>, pads: string, last: bool): Option<Data>
    requires IsDigit(a) && IsDigit(b) && IsDigit(c) && IsDigit(d) && |pads| == 2
  {
    if a.None? || b.None? then None
    else
      var first := a.value * 4 + b.value / 16;
      if c.None? then (if pads == "==" && last then Some([first]) else None)
      else
        var second := b.value % 16 * 16 + c.value / 4;
        if d.None? then (if pads[1] == '=' && last then Some([first, second]) else None)
        else Some([first, second, c.value % 4 * 64 + d.value])
  }

  /** One group of four symbols: its bytes, or None. */
  function Quantum(al: Alphabet, q: string, last: bool): Option<Data>
    requires |q| == 4
  {
    GroupBytes(Value(al, q[0]), Value(al, q[1]), Value(al, q[2]), Value(al, q[3]), q[2..], last)
  }

  function Quanta(al: Alphabet, s: string): Option<Data> {
    if s == "" then Some([])
    else if |s| < 4 then None
    else
      var head, tail := Quantum(al, s[..4], |s| == 4), Quanta(al, s[4..]);
      if head.None? || tail.None? then None else Some(head.value + tail.value)
  }

  /** DecodeString of the padded encodings. */
  function DecodeString(al: Alphabet, s: string): Option<Data> { Quanta(al, SkipBreaks(s)) }

  function Repeat(c: char, n: nat): string { seq(n, _ => c) }

  function Pad(s: string): string { if |s| % 4 > 0 then s + Repeat('=', 4 - |s| % 4) else s }

  function ReplaceAll(s: string, from: char, to: char): string {
    seq(|s|, i requires 0 <= i < |s| => if s[i] == from then to else s[i])
  }

  /** decodeBase64Url in provider.go. */
  function DecodeProvider(s: string): Option<Data> { DecodeString(Url, Pad(s)) }

  /** base64UrlDecode in handler.go. */
  function DecodeHandler(s: string): Option<Data> {
    DecodeString(Standard, ReplaceAll(ReplaceAll(Pad(s), '-', '+'), '_', '/'))
  }

  /** The alphabets of tables 1 and 2 of RFC 4648: three runs of consecutive characters and two symbols. */
  lemma AlphabetsAreTheTables(al: Alphabet)
    ensures Symbol(al, 0) == 'A' && Symbol(al, 25) == 'Z' && Symbol(al, 26) == 'a' && Symbol(al, 51) == 'z'
    ensures Symbol(al, 52) == '0' && Symbol(al, 61) == '9'
    ensures Symbol(Standard, 62) == '+' && Symbol(Standard, 63) == '/' && Symbol(Url, 62) == '-' && Symbol(Url, 63) == '_'
    ensures forall d: int :: 0 <= d < 61 && d != 25 && d != 51 ==> Symbol(al, d + 1) as int == Symbol(al, d) as int + 1
  {
  }

  /** Restoring the padding fills the last group of four with '='. */
  lemma PadFillsTheGroup(s: string)
    ensures |Pad(s)| % 4 == 0 && |s| <= |Pad(s)| < |s| + 4 && s == Pad(s)[..|s|]
    ensures forall i :: |s| <= i < |Pad(s)| ==> Pad(s)[i] == '='
  {
  }

  lemma {:induction false} SkippingAppends(a: string, b: string)
    ensures SkipBreaks(a + b) == SkipBreaks(a) + SkipBreaks(b)
  {
    if a == "" {
      assert a + b == b;
    } else {
      assert (a + b)[1..] == a[1..] + b;
      SkippingAppends(a[1..], b);
    }
  }

  /** Line breaks may stand anywhere. */
  lemma LineBreaksAreIgnored(al: Alphabet, a: string, c: char, b: string)
    requires c == '\r' || c == '\n'
    ensures DecodeString(al, a + [c] + b) == DecodeString(al, a + b)
  {
    SkippingAppends(a + [c], b);
    SkippingAppends(a, [c]);
    SkippingAppends(a, b);
    assert [c][1..] == "" && SkipBreaks([c]) == "";
    assert SkipBreaks(a) + "" == SkipBreaks(a);
  }

  /** Padding counts as zero bits. */
  function Bits(al: Alphabet, c: char): int { if Value(al, c).Some? then Value(al, c).value else 0 }

  /** The bytes of a group are the leading ones of its 24 bits, also if the bits that padding leaves over are not zero. */
  lemma QuantumIsItsBits(al: Alphabet, q: string, last: bool)
    requires |q| == 4 && Quantum(al, q, last).Some?
    ensures var d := Quantum(al, q, last).value;
            var n := Bits(al, q[0]) * 0x4_0000 + Bits(al, q[1]) * 0x1000 + Bits(al, q[2]) * 0x40 + Bits(al, q[3]);
            && |d| == (if q[2] == '=' then 1 else if q[3] == '=' then 2 else 3)
            && d[0] == n / 0x1_0000 && (|d| > 1 ==> d[1] == n / 0x100 % 256) && (|d| > 2 ==> d[2] == n % 256)
  {
    PaddingIsNoSymbol(al);
    assert q[2..] == [q[2], q[3]];
    FirstOfBits(Bits(al, q[0]), Bits(al, q[1]), Bits(al, q[2]), Bits(al, q[3]));
  }

  lemma FirstOfBits(a: int, b: int, c: int, d: int)
    requires 0 <= a < 64 && 0 <= b < 64 && 0 <= c < 64 && 0 <= d < 64
    ensures var n := a * 0x4_0000 + b * 0x1000 + c * 0x40 + d;
            && n / 0x1_0000 == a * 4 + b / 16
            && n / 0x100 % 256 == b % 16 * 16 + c / 4
            && n % 256 == c % 4 * 64 + d
  {
    var n := a * 0x4_0000 + b * 0x1000 + c * 0x40 + d;
    SixteenSplits(b);
    FourSplits(c);
    UniqueRemainder(n, 0x1_0000, a * 4 + b / 16, b % 16 * 0x1000 + c * 0x40 + d);
    UniqueRemainder(n, 0x100, (a * 4 + b / 16) * 0x100 + (b % 16 * 16 + c / 4), c % 4 * 64 + d);
    UniqueRemainder((a * 4 + b / 16) * 0x100 + (b % 16 * 16 + c / 4), 0x100, a * 4 + b / 16, b % 16 * 16 + c / 4);
  }

  lemma SixteenSplits(b: int)
    requires 0 <= b < 64
    ensures b == b / 16 * 16 + b % 16 && 0 <= b % 16 <= 15
  {
  }

  lemma FourSplits(c: int)
    requires 0 <= c < 64
    ensures c == c / 4 * 4 + c % 4 && 0 <= c % 4 <= 3 && 0 <= c / 4 <= 15
  {
  }

  // ----- round trip -----

  /** The digit of the last symbol has its n low bits clear, as a multiple of unit. */
  ghost predicate EndsInMultiple(e: string, unit: nat)
    requires unit > 0
  {
    e != "" && exists v: Digit :: e[|e| - 1] == Symbol(Url, v) && v % unit == 0
  }

  /** What the last digit of n bytes is a multiple of. */
  function Unit(n: nat): nat { if n % 3 == 1 then 16 else if n % 3 == 2 then 4 else 1 }

  lemma UnitRepeats(n: nat)
    ensures Unit(n + 3) == Unit(n)
  {
  }

  lemma LowBits(x: Byte, y: Byte)
    ensures Sextet2(x, 0) % 16 == 0 && Sextet3(y, 0) % 4 == 0
  {
    var (a, b) := (x % 4, y % 16);
    assert Sextet2(x, 0) == a * 16 && Sextet3(y, 0) == b * 4;
  }

  lemma LastSymbol(a: Digit, b: Digit, c: Digit, d: Digit, n: nat)
    requires 1 <= n <= 3
    ensures var e := Symbols(a, b, c, d, n);
            e != [] && e[|e| - 1] == Symbol(Url, if n == 1 then b else if n == 2 then c else d)
  {
  }

  lemma GroupPadBits(x: Byte, y: Byte, z: Byte, n: nat)
    requires 1 <= n <= 3 && (n == 1 ==> y == 0) && (n < 3 ==> z == 0)
    ensures EndsInMultiple(EncodeBytes(x, y, z, n), Unit(n))
  {
    LowBits(x, y);
    var (a, b, c, d) := (Sextet1(x), Sextet2(x, y), Sextet3(y, z), Sextet4(z));
    LastSymbol(a, b, c, d, n);
    LastIsMultiple(Symbols(a, b, c, d, n), if n == 1 then b else if n == 2 then c else d, Unit(n));
  }

  lemma LastIsMultiple(e: string, v: Digit, unit: nat)
    requires unit > 0 && e != "" && e[|e| - 1] == Symbol(Url, v) && v % unit == 0
    ensures EndsInMultiple(e, unit)
  {
  }

  lemma EndStays(h: string, t: string, unit: nat)
    requires unit > 0 && EndsInMultiple(t, unit)
    ensures EndsInMultiple(h + t, unit)
  {
    assert (h + t)[|h + t| - 1] == t[|t| - 1];
  }

  /** The bits of the last symbol that no byte uses are zero (section 3.5 of RFC 4648). */
  lemma {:induction false} PadBitsAreZero(d: Data)
    requires d != []
    ensures EndsInMultiple(Encode(d), if |d| % 3 == 1 then 16 else if |d| % 3 == 2 then 4 else 1)
  {
    if |d| <= 3 {
      GroupPadBits(d[0], if |d| > 1 then d[1] else 0, if |d| > 2 then d[2] else 0, |d|);
    } else {
      PadBitsAreZero(d[3..]);
      UnitRepeats(|d| - 3);
      EndStays(EncodeGroup(d[..3]), Encode(d[3..]), Unit(|d|));
    }
  }

  lemma SymbolsHaveValues(al: Alphabet, d: Digit)
    ensures Value(al, Symbol(al, d)) == Some(d)
    ensures !LineBreak(Symbol(al, d)) && Symbol(al, d) !in "=."
  {
    if d < 26 {
      assert 'A' <= Symbol(al, d) <= 'Z';
    } else if d < 52 {
      assert 'a' <= Symbol(al, d) <= 'z';
    } else if d < 62 {
      assert '0' <= Symbol(al, d) <= '9';
    }
  }

  ghost predicate IsSymbol(c: char) { Value(Url, c).Some? && !LineBreak(c) && c !in "=." }

  lemma GroupSymbols(g: Data)
    requires 1 <= |g| <= 3
    ensures |EncodeGroup(g)| == |g| + 1 && forall c :: c in EncodeGroup(g) ==> IsSymbol(c)
  {
    forall v: Digit ensures IsSymbol(Symbol(Url, v)) { SymbolsHaveValues(Url, v); }
  }

  lemma {:induction false} EncodedSymbols(d: Data)
    ensures forall c :: c in Encode(d) ==> IsSymbol(c)
  {
    if 1 <= |d| <= 3 {
      GroupSymbols(d);
    } else if |d| > 3 {
      GroupSymbols(d[..3]);
      EncodedSymbols(d[3..]);
    }
  }

  lemma {:induction false} NothingToSkip(s: string)
    requires forall c :: c in s ==> !LineBreak(c)
    ensures SkipBreaks(s) == s
  {
    if s != "" {
      assert s[0] in s;
      forall c | c in s[1..] ensures !LineBreak(c) { assert c in s; }
      NothingToSkip(s[1..]);
      assert s == [s[0]] + s[1..];
    }
  }

  // The three byte boundaries, each crossed by two neighbouring sextets.
  lemma FirstByte(x: Byte, y: Byte)
    ensures Sextet1(x) * 4 + Sextet2(x, y) / 16 == x
  {
  }

  lemma SecondByte(x: Byte, y: Byte, z: Byte)
    ensures Sextet2(x, y) % 16 * 16 + Sextet3(y, z) / 4 == y
  {
    assert Sextet2(x, y) % 16 == y / 16;
    assert Sextet3(y, z) / 4 == y % 16;
  }

  lemma ThirdByte(y: Byte, z: Byte)
    ensures Sextet3(y, z) % 4 * 64 + Sextet4(z) == z
  {
    assert Sextet3(y, z) % 4 == z / 64;
  }

  /** Four digits hold three bytes. */
  ghost predicate Hold(a: Digit, b: Digit, c: Digit, d: Digit, x: Byte, y: Byte, z: Byte) {
    a * 4 + b / 16 == x && b % 16 * 16 + c / 4 == y && c % 4 * 64 + d == z
  }

  lemma SextetsHold(x: Byte, y: Byte, z: Byte)
    ensures Hold(Sextet1(x), Sextet2(x, y), Sextet3(y, z), Sextet4(z), x, y, z)
  {
    FirstByte(x, y);
    SecondByte(x, y, z);
    ThirdByte(y, z);
  }

  lemma GroupOfDigits(a: Digit, b: Digit, c: Digit, d: Digit, x: Byte, y: Byte, z: Byte, pads: string, last: bool)
    requires Hold(a, b, c, d, x, y, z) && |pads| == 2
    ensures GroupBytes(Some(a), Some(b), Some(c), Some(d), pads, last) == Some([x, y, z])
    ensures last && pads[1] == '=' ==> GroupBytes(Some(a), Some(b), Some(c), None, pads, last) == Some([x, y])
    ensures last && pads == "==" ==> GroupBytes(Some(a), Some(b), None, None, pads, last) == Some([x])
  {
  }

  /** Symbols, or padding in the last two places, are read as the digits they stand for. */
  lemma QuantumOfSymbols(a: Digit, b: Digit, c: Option<Digit>, d: Option<Digit>, last: bool)
    ensures var none := Value(Url, '=');
            var q := [Symbol(Url, a), Symbol(Url, b),
                      if c.Some? then Symbol(Url, c.value) else '=', if d.Some? then Symbol(Url, d.value) else '='];
            && none.None?
            && Quantum(Url, q, last) == GroupBytes(Some(a), Some(b), c, d, q[2..], last)
  {
    SymbolsHaveValues(Url, a);
    SymbolsHaveValues(Url, b);
    if c.Some? { SymbolsHaveValues(Url, c.value); }
    if d.Some? { SymbolsHaveValues(Url, d.value); }
  }

  lemma PadSymbols(a: Digit, b: Digit, c: Digit, d: Digit, n: nat)
    requires 1 <= n <= 3
    ensures |Symbols(a, b, c, d, n)| == n + 1
    ensures Symbols(a, b, c, d, n) + Repeat('=', 3 - n) ==
              [Symbol(Url, a), Symbol(Url, b), if n > 1 then Symbol(Url, c) else '=', if n > 2 then Symbol(Url, d) else '=']
  {
  }

  lemma DigitsRoundTrip(a: Digit, b: Digit, c: Digit, d: Digit, x: Byte, y: Byte, z: Byte, n: nat, last: bool)
    returns (q: string)
    requires Hold(a, b, c, d, x, y, z) && 1 <= n <= 3 && (n < 3 ==> last)
    ensures |Symbols(a, b, c, d, n)| == n + 1 && q == Symbols(a, b, c, d, n) + Repeat('=', 3 - n)
    ensures |q| == 4 && Quantum(Url, q, last) == Some([x, y, z][..n])
  {
    PadSymbols(a, b, c, d, n);
    q := Symbols(a, b, c, d, n) + Repeat('=', 3 - n);
    QuantumOfSymbols(a, b, if n > 1 then Some(c) else None, if n > 2 then Some(d) else None, last);
    assert n == 1 ==> q[2..] == "==";
    GroupOfDigits(a, b, c, d, x, y, z, q[2..], last);
    assert [x, y, z][..n] == if n == 1 then [x] else if n == 2 then [x, y] else [x, y, z];
  }

  lemma BytesRoundTrip(x: Byte, y: Byte, z: Byte, n: nat, last: bool) returns (q: string)
    requires 1 <= n <= 3 && (n < 3 ==> last)
    ensures |EncodeBytes(x, y, z, n)| == n + 1 && q == EncodeBytes(x, y, z, n) + Repeat('=', 3 - n)
    ensures |q| == 4 && Quantum(Url, q, last) == Some([x, y, z][..n])
  {
    SextetsHold(x, y, z);
    q := DigitsRoundTrip(Sextet1(x), Sextet2(x, y), Sextet3(y, z), Sextet4(z), x, y, z, n, last);
  }

  /** A group, padded to four symbols, decodes to its bytes. */
  lemma GroupRoundTrip(g: Data, last: bool) returns (q: string)
    requires 1 <= |g| <= 3 && (|g| < 3 ==> last)
    ensures |EncodeGroup(g)| == |g| + 1 && EncodeGroup(g) + Repeat('=', 3 - |g|) == q
    ensures |q| == 4 && Quantum(Url, q, last) == Some(g)
  {
    var x, y, z := g[0], if |g| > 1 then g[1] else 0, if |g| > 2 then g[2] else 0;
    q := BytesRoundTrip(x, y, z, |g|, last);
    assert [x, y, z][..|g|] == g;
  }

  lemma PadAfterGroup(q: string, rest: string)
    requires |q| == 4
    ensures Pad(q + rest) == q + Pad(rest)
  {
  }

  lemma QuantaAfterGroup(al: Alphabet, q: string, rest: string)
    requires |q| == 4
    ensures Quanta(al, q + rest) ==
              var (head, tail) := (Quantum(al, q, rest == ""), Quanta(al, rest));
              if head.None? || tail.None? then None else Some(head.value + tail.value)
  {
    assert (q + rest)[..4] == q && (q + rest)[4..] == rest;
  }

  lemma PadLastGroup(e: string)
    requires 2 <= |e| <= 4
    ensures Pad(e) == e + Repeat('=', 4 - |e|)
  {
  }

  lemma {:induction false} QuantaOfEncoded(d: Data)
    ensures Quanta(Url, Pad(Encode(d))) == Some(d)
  {
    if 1 <= |d| <= 3 {
      var q := GroupRoundTrip(d, true);
      PadLastGroup(EncodeGroup(d));
      assert q + "" == q;
      QuantaAfterGroup(Url, q, "");
      assert d + [] == d;
    } else if |d| > 3 {
      var rest := Encode(d[3..]);
      QuantaOfEncoded(d[3..]);
      var q := GroupRoundTrip(d[..3], Pad(rest) == "");
      assert EncodeGroup(d[..3]) + Repeat('=', 0) == EncodeGroup(d[..3]);
      PadAfterGroup(q, rest);
      QuantaAfterGroup(Url, q, Pad(rest));
      assert d == d[..3] + d[3..];
    }
  }

  /** Restoring the padding and decoding undoes the unpadded encoding. */
  lemma DecodeOfEncode(d: Data)
    ensures DecodeProvider(Encode(d)) == Some(d)
  {
    EncodedSymbols(d);
    forall c | c in Pad(Encode(d)) ensures !LineBreak(c) {
      assert c in Encode(d) || c == '=';
    }
    NothingToSkip(Pad(Encode(d)));
    QuantaOfEncoded(d);
  }

  /** Known values, two from section 10 of RFC 4648 and one that needs the URL alphabet. */
  lemma KnownEncodings()
    ensures Encode([102, 111, 111, 98, 97, 114]) == "Zm9vYmFy"
    ensures Encode([102, 111, 111, 98]) == "Zm9vYg"
    ensures Encode([251, 255]) == "-_8"
  {
    assert [102, 111, 111, 98, 97, 114][..3] == [102, 111, 111];
    assert [102, 111, 111, 98, 97, 114][3..] == [98, 97, 114];
    assert [102, 111, 111, 98][..3] == [102, 111, 111];
    assert [102, 111, 111, 98][3..] == [98];
  }

  // ----- the two decoders -----

  function Translate(c: char): char { if c == '-' then '+' else if c == '_' then '/' else c }

  lemma TranslateKeepsValue(c: char)
    requires c != '+' && c != '/'
    ensures Value(Standard, Translate(c)) == Value(Url, c)
    ensures LineBreak(Translate(c)) == LineBreak(c) && (Translate(c) == '=' <==> c == '=')
  {
  }

  function TranslateAll(s: string): string { seq(|s|, i requires 0 <= i < |s| => Translate(s[i])) }

  ghost predicate UrlOnly(s: string) { '+' !in s && '/' !in s }

  lemma {:induction false} SkipTranslated(s: string)
    requires UrlOnly(s)
    ensures SkipBreaks(TranslateAll(s)) == TranslateAll(SkipBreaks(s)) && UrlOnly(SkipBreaks(s))
  {
    if s != "" {
      assert s[0] in s && s[0] != '+' && s[0] != '/';
      TranslateKeepsValue(s[0]);
      assert UrlOnly(s[1..]);
      SkipTranslated(s[1..]);
      assert TranslateAll(s)[1..] == TranslateAll(s[1..]);
      assert TranslateAll([s[0]] + SkipBreaks(s[1..])) == [Translate(s[0])] + TranslateAll(SkipBreaks(s[1..]));
    }
  }

  // Only where '=' stands matters in the padding.
  lemma PaddingOnly(a: Option<int>, b: Option<int>, c: Option<int>, d: Option<int>, p: string, p': string, last: bool)
    requires IsDigit(a) && IsDigit(b) && IsDigit(c) && IsDigit(d) && |p| == |p'| == 2
    requires (p[0] == '=' <==> p'[0] == '=') && (p[1] == '=' <==> p'[1] == '=')
    ensures GroupBytes(a, b, c, d, p, last) == GroupBytes(a, b, c, d, p', last)
  {
    assert p == [p[0], p[1]] && p' == [p'[0], p'[1]];
  }

  lemma QuantumTranslated(q: string, last: bool)
    requires |q| == 4 && UrlOnly(q)
    ensures Quantum(Standard, TranslateAll(q), last) == Quantum(Url, q, last)
  {
    var t := TranslateAll(q);
    forall i | 0 <= i < 4 ensures Value(Standard, t[i]) == Value(Url, q[i]) && (t[i] == '=' <==> q[i] == '=') {
      assert q[i] in q;
      TranslateKeepsValue(q[i]);
    }
    PaddingOnly(Value(Url, q[0]), Value(Url, q[1]), Value(Url, q[2]), Value(Url, q[3]), t[2..], q[2..], last);
  }

  lemma QuantaSplit(al: Alphabet, s: string)
    requires |s| >= 4
    ensures Quanta(al, s) ==
              var (head, tail) := (Quantum(al, s[..4], |s| == 4), Quanta(al, s[4..]));
              if head.None? || tail.None? then None else Some(head.value + tail.value)
  {
  }

  lemma {:induction false} QuantaTranslated(s: string)
    requires UrlOnly(s)
    ensures Quanta(Standard, TranslateAll(s)) == Quanta(Url, s)
  {
    if |s| >= 4 {
      assert UrlOnly(s[..4]) && UrlOnly(s[4..]);
      QuantaSplit(Url, s);
      QuantaSplit(Standard, TranslateAll(s));
      QuantumTranslated(s[..4], |s| == 4);
      QuantaTranslated(s[4..]);
      assert TranslateAll(s)[..4] == TranslateAll(s[..4]);
      assert TranslateAll(s)[4..] == TranslateAll(s[4..]);
    }
  }

  lemma HandlerTranslates(s: string)
    ensures DecodeHandler(s) == DecodeString(Standard, TranslateAll(Pad(s)))
  {
    assert ReplaceAll(ReplaceAll(Pad(s), '-', '+'), '_', '/') == TranslateAll(Pad(s));
  }

  lemma ForeignSymbolSpoilsQuantum(q: string, c: char, last: bool)
    requires |q| == 4 && c in q && (c == '+' || c == '/')
    ensures Quantum(Url, q, last).None?
  {
    assert Value(Url, c).None?;
    var i :| 0 <= i < 4 && q[i] == c;
    assert q[2..] == [q[2], q[3]];
  }

  lemma {:induction false} ForeignSymbolsFail(s: string, c: char)
    requires c in s && (c == '+' || c == '/')
    ensures Quanta(Url, s).None?
  {
    if |s| >= 4 {
      assert s == s[..4] + s[4..];
      if c in s[4..] {
        ForeignSymbolsFail(s[4..], c);
      } else {
        ForeignSymbolSpoilsQuantum(s[..4], c, |s| == 4);
      }
    }
  }

  lemma {:induction false} SkippingKeeps(s: string, c: char)
    requires c in s && !LineBreak(c)
    ensures c in SkipBreaks(s)
  {
    if s[0] != c { SkippingKeeps(s[1..], c); }
  }

  /** Groups of four symbols, '=' only as the last or the last two characters. */
  predicate WellFormed(al: Alphabet, u: string) {
    && |u| % 4 == 0
    && forall i :: 0 <= i < |u| ==>
         || Value(al, u[i]).Some?
         || (u[i] == '=' && (i == |u| - 1 || (i == |u| - 2 && u[|u| - 1] == '=')))
  }

  lemma PaddingIsNoSymbol(al: Alphabet)
    ensures Value(al, '=').None?
  {
  }

  lemma QuantumDecodesIff(al: Alphabet, q: string, last: bool)
    requires |q| == 4
    ensures Quantum(al, q, last).Some? <==> if last then WellFormed(al, q) else forall c :: c in q ==> Value(al, c).Some?
  {
    PaddingIsNoSymbol(al);
    assert q[2..] == [q[2], q[3]];
    assert q == [q[0], q[1], q[2], q[3]];
  }

  lemma WellFormedSplits(al: Alphabet, u: string)
    requires |u| > 4
    ensures WellFormed(al, u) <==> (forall c :: c in u[..4] ==> Value(al, c).Some?) && u[4..] != "" && WellFormed(al, u[4..])
  {
    PaddingIsNoSymbol(al);
    var (h, t) := (u[..4], u[4..]);
    assert forall i :: 4 <= i < |u| ==> u[i] == t[i - 4];
    assert forall i :: 0 <= i < 4 ==> u[i] == h[i];
    if WellFormed(al, u) {
      forall c | c in h ensures Value(al, c).Some? {
        var i :| 0 <= i < 4 && h[i] == c;
        assert u[i] == c;
      }
    }
  }

  /** What decodes is a matter of form alone. */
  lemma {:induction false} DecodesIffWellFormed(al: Alphabet, u: string)
    ensures Quanta(al, u).Some? <==> WellFormed(al, u)
  {
    if |u| >= 4 {
      QuantaSplit(al, u);
      QuantumDecodesIff(al, u[..4], |u| == 4);
      DecodesIffWellFormed(al, u[4..]);
      if |u| == 4 {
        assert u[..4] == u;
      } else {
        WellFormedSplits(al, u);
      }
    }
  }

  /** What the standard decoder reads in base64UrlDecode: padded, translated, line breaks skipped. */
  function HandlerReads(s: string): string { SkipBreaks(TranslateAll(Pad(s))) }

  /**
   The decoders agree, on success and on failure, exactly on strings without '+' and '/' and on
   malformed ones. On the others decodeBase64Url fails and base64UrlDecode does not.
   */
  lemma DecodersAgreeIff(s: string)
    ensures DecodeProvider(s) == DecodeHandler(s) <==> UrlOnly(s) || !WellFormed(Standard, HandlerReads(s))
    ensures !UrlOnly(s) ==> DecodeProvider(s).None?
    ensures DecodeHandler(s).Some? <==> WellFormed(Standard, HandlerReads(s))
  {
    HandlerTranslates(s);
    DecodesIffWellFormed(Standard, HandlerReads(s));
    if UrlOnly(s) {
      assert UrlOnly(Pad(s));
      SkipTranslated(Pad(s));
      QuantaTranslated(SkipBreaks(Pad(s)));
    } else {
      var c := if '+' in s then '+' else '/';
      assert c in Pad(s);
      SkippingKeeps(Pad(s), c);
      ForeignSymbolsFail(SkipBreaks(Pad(s)), c);
    }
  }

  ghost predicate StandardText(s: string) {
    |s| % 4 == 0 && (forall c :: c in s ==> Value(Standard, c).Some?)
  }

  /** So they disagree on all unpadded text of the standard alphabet that uses its own two symbols. */
  lemma DecodersDisagreeOnStandardText(s: string)
    requires StandardText(s) && !UrlOnly(s)
    ensures DecodeHandler(s).Some? && DecodeProvider(s).None?
  {
    forall c | c in s ensures !LineBreak(c) && Translate(c) == c { assert Value(Standard, c).Some?; }
    NothingToSkip(s);
    assert Pad(s) == s && TranslateAll(s) == s;
    DecodersAgreeIff(s);
  }

  lemma DecodersCanDisagree()
    ensures DecodeHandler("+/+/").Some? && DecodeProvider("+/+/").None?
  {
    var s := "+/+/";
    assert s[0] in s && s[1] in s;
    assert Value(Standard, '+').Some? && Value(Standard, '/').Some?;
    assert forall c :: c in s ==> c == '+' || c == '/';
    DecodersDisagreeOnStandardText(s);
  }
}
