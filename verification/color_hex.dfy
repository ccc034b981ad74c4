/** `UIColor(hex:)` up to, and not including, the division of each channel
    by 255: the `#` stripping, the hexadecimal scan and the byte extraction
    by mask and shift, with channels as integers 0..255. */
module ColorHex {
  import opened Wrappers

  /** `UInt64.max`: `scanHexInt64` saturates there on overflow. */
  const UInt64Max: nat := 0xFFFF_FFFF_FFFF_FFFF

  /** Channels before the `/ 255`, and whether the string was accepted. */
  datatype Rgba = Rgba(r: nat, g: nat, b: nat, a: nat, valid: bool)

  const Opaque: nat := 255
  const DefaultColor := Rgba(0, 0, 0, Opaque, false)

  /** `hex.replacingOccurrences(of: "#", with: "")`. */
  function RemoveHashes(s: string): (t: string)
    ensures '#' !in t
    ensures |t| <= |s|
  {
    if s == [] then []
    else if s[0] == '#' then RemoveHashes(s[1..])
    else [s[0]] + RemoveHashes(s[1..])
  }

  // --------------------------------------------------------------- scanner

  predicate IsHexDigit(c: char) {
    '0' <= c <= '9' || 'a' <= c <= 'f' || 'A' <= c <= 'F'
  }

  function HexDigitValue(c: char): (v: nat)
    requires IsHexDigit(c)
    ensures v < 16
  {
    if '0' <= c <= '9' then c as int - '0' as int
    else if 'a' <= c <= 'f' then c as int - 'a' as int + 10
    else c as int - 'A' as int + 10
  }

  predicate AllHex(s: string) {
    forall i :: 0 <= i < |s| ==> IsHexDigit(s[i])
  }

  /** The number a string of hexadecimal digits denotes. */
  function HexValue(s: string): nat
    requires AllHex(s)
  {
    if s == [] then 0 else HexValue(s[..|s| - 1]) * 16 + HexDigitValue(s[|s| - 1])
  }

  /** The scanner's default skipped characters (ASCII whitespace here). */
  predicate IsWhitespace(c: char) {
    c == ' ' || c == '\t' || c == '\n' || c == '\r'
  }

  function SkipWhitespace(s: string): (t: string)
    ensures t == [] || !IsWhitespace(t[0])
    ensures |t| <= |s| && t == s[|s| - |t|..]
  {
    if s != [] && IsWhitespace(s[0]) then SkipWhitespace(s[1..]) else s
  }

  /** The longest prefix of hexadecimal digits. */
  function HexPrefix(s: string): (p: string)
    ensures AllHex(p) && p <= s
    ensures |p| < |s| ==> !IsHexDigit(s[|p|])
  {
    if s != [] && IsHexDigit(s[0]) then [s[0]] + HexPrefix(s[1..]) else []
  }

  /** `Scanner(string: s).scanHexInt64(&n)`: skips leading whitespace and a
      `0x`/`0X` prefix, then reads as many hexadecimal digits as there are;
      `None` when there is none. */
  function ScanHexInt64(s: string): (n: Option<nat>)
    ensures n.Some? ==> n.value <= UInt64Max
  {
    var t := SkipWhitespace(s);
    var u := if |t| >= 3 && t[0] == '0' && (t[1] == 'x' || t[1] == 'X') && IsHexDigit(t[2]) then t[2..] else t;
    var digits := HexPrefix(u);
    if digits == [] then None
    else if HexValue(digits) > UInt64Max then Some(UInt64Max)
    else Some(HexValue(digits))
  }

  // ------------------------------------------------------------ extraction

  /** `1 << 8k`, the shift of byte `k`. */
  function ByteShift(k: nat): nat
    requires k < 4
  {
    if k == 0 then 1 else if k == 1 then 0x100 else if k == 2 then 0x1_0000 else 0x100_0000
  }

  /** `(n & (0xff << 8k)) >> 8k`: byte `k` of `n`, counting from the least significant. */
  function Byte(n: nat, k: nat): (v: nat)
    requires k < 4
    ensures v < 256
  {
    (n / ByteShift(k)) % 256
  }

  /** The colour `UIColor(hex:)` builds, before the division by 255. */
  function HexColor(hex: string): (c: Rgba)
    ensures c.r < 256 && c.g < 256 && c.b < 256 && c.a < 256
    ensures c.valid <==> (var s := RemoveHashes(hex); (|s| == 6 || |s| == 8) && ScanHexInt64(s).Some?)
    ensures !c.valid ==> c == DefaultColor
  {
    var hexColor := RemoveHashes(hex);
    match ScanHexInt64(hexColor)
    case None => DefaultColor
    case Some(n) =>
      if |hexColor| == 8 then Rgba(Byte(n, 3), Byte(n, 2), Byte(n, 1), Byte(n, 0), true)
      else if |hexColor| == 6 then Rgba(Byte(n, 2), Byte(n, 1), Byte(n, 0), Opaque, true)
      else DefaultColor
  }

  /** `init(hex:)`, branch by branch over its mutable locals. */
  method InitHex(hex: string) returns (color: Rgba)
    ensures color == HexColor(hex)
  {
    var r, g, b, a := 0, 0, 0, Opaque;
    var hexColor := RemoveHashes(hex);
    var hexNumber: nat := 0;
    var valid := false;
    var scanned := ScanHexInt64(hexColor);
    if scanned.Some? {
      hexNumber := scanned.value;
      if |hexColor| == 8 {
        r := (hexNumber / 0x100_0000) % 256;
        g := (hexNumber / 0x1_0000) % 256;
        b := (hexNumber / 0x100) % 256;
        a := hexNumber % 256;
        valid := true;
      } else if |hexColor| == 6 {
        r := (hexNumber / 0x1_0000) % 256;
        g := (hexNumber / 0x100) % 256;
        b := hexNumber % 256;
        valid := true;
      }
    }
    color := Rgba(r, g, b, a, valid);
  }

  datatype ThemeType = Background

  /** `ThemeType.rawValue`. */
  function ThemeRawValue(t: ThemeType): string
  {
    match t
    case Background => "1E1C1C"
  }

  /** `UIColor.theme(_:)`. */
  function Theme(t: ThemeType): (c: Rgba)
    ensures t == Background ==> c == Rgba(0x1E, 0x1C, 0x1C, Opaque, true)
  {
    assert HexByte(0x1E) + HexByte(0x1C) + HexByte(0x1C) == "1E1C1C";
    SixDigitRoundTrip(0x1E, 0x1C, 0x1C);
    HexColor(ThemeRawValue(t))
  }

  // ----------------------------------------------------------- properties

  /** The upper-case hexadecimal digit for `d`. */
  function HexDigitChar(d: nat): (c: char)
    requires d < 16
    ensures IsHexDigit(c) && HexDigitValue(c) == d
  {
    if d < 10 then ('0' as int + d) as char else ('A' as int + d - 10) as char
  }

  /** The two hexadecimal digits of a byte, most significant first. */
  function HexByte(v: nat): (s: string)
    requires v < 256
    ensures |s| == 2 && AllHex(s)
    ensures HexDigitValue(s[0]) * 16 + HexDigitValue(s[1]) == v
  {
    [HexDigitChar(v / 16), HexDigitChar(v % 16)]
  }

  /** Appending two digits shifts the value by one byte. */
  lemma AppendTwoDigits(a: string, c1: char, c2: char)
    requires AllHex(a) && IsHexDigit(c1) && IsHexDigit(c2)
    ensures AllHex(a + [c1, c2])
    ensures HexValue(a + [c1, c2]) == HexValue(a) * 256 + HexDigitValue(c1) * 16 + HexDigitValue(c2)
  {
    var s := a + [c1, c2];
    assert s[..|s| - 1] == a + [c1];
    assert (a + [c1])[..|a|] == a;
  }

  lemma {:induction false} HexPrefixOfHex(s: string)
    requires AllHex(s)
    ensures HexPrefix(s) == s
    decreases |s|
  {
    if s != [] {
      HexPrefixOfHex(s[1..]);
      assert s == [s[0]] + s[1..];
    }
  }

  /** Division by 256 or 65536 recovers quotient and remainder. */
  lemma DivModUnique(q: nat, d: nat, m: nat)
    requires d == 0x100 || d == 0x1_0000 || d == 0x100_0000
    requires m < d
    ensures (q * d + m) / d == q && (q * d + m) % d == m
  {
  }

  /** The three low bytes of `(r * 256 + g) * 256 + b` are `r`, `g` and `b`. */
  lemma BytesOfChannels(r: nat, g: nat, b: nat, n: nat)
    requires r < 256 && g < 256 && b < 256
    requires n == (r * 256 + g) * 256 + b
    ensures Byte(n, 2) == r && Byte(n, 1) == g && Byte(n, 0) == b
  {
    DivModUnique(r * 256 + g, 0x100, b);
    DivModUnique(r, 0x100, g);
    assert n == r * 0x1_0000 + (g * 256 + b);
    DivModUnique(r, 0x1_0000, g * 256 + b);
    DivModUnique(0, 0x100, r);
  }

  /** A non-empty string of hexadecimal digits whose value fits in 64 bits scans to that value. */
  lemma ScanDigits(s: string)
    requires AllHex(s) && |s| > 0 && HexValue(s) <= UInt64Max
    ensures ScanHexInt64(s) == Some(HexValue(s))
  {
    HexPrefixOfHex(s);
    assert !IsWhitespace(s[0]);
    var t := SkipWhitespace(s);
    assert t == s;
    assert !(|t| >= 3 && t[0] == '0' && (t[1] == 'x' || t[1] == 'X')) by {
      assert |s| < 2 || IsHexDigit(s[1]);
    }
  }

  /** The value of the digits of three bytes. */
  lemma SixDigitValue(r: nat, g: nat, b: nat)
    requires r < 256 && g < 256 && b < 256
    ensures var s := HexByte(r) + HexByte(g) + HexByte(b);
            |s| == 6 && AllHex(s) && HexValue(s) == (r * 256 + g) * 256 + b
  {
    var hr, hg, hb := HexByte(r), HexByte(g), HexByte(b);
    AppendTwoDigits([], hr[0], hr[1]);
    assert [] + [hr[0], hr[1]] == hr;
    AppendTwoDigits(hr, hg[0], hg[1]);
    assert hr + [hg[0], hg[1]] == hr + hg;
    AppendTwoDigits(hr + hg, hb[0], hb[1]);
    assert (hr + hg) + [hb[0], hb[1]] == hr + hg + hb;
  }

  /** A string of hexadecimal digits is parsed by the scanner alone. */
  lemma HexStringColor(s: string)
    requires AllHex(s) && |s| > 0 && HexValue(s) <= UInt64Max
    ensures RemoveHashes(s) == s && ScanHexInt64(s) == Some(HexValue(s))
  {
    assert forall i :: 0 <= i < |s| ==> s[i] != '#';
    RemoveHashesNoop(s);
    ScanDigits(s);
  }

  /** The colour of a hash-free string that scans, by its length. */
  lemma ScannedColor(s: string, n: nat)
    requires RemoveHashes(s) == s && ScanHexInt64(s) == Some(n)
    ensures |s| == 6 ==> HexColor(s) == Rgba(Byte(n, 2), Byte(n, 1), Byte(n, 0), Opaque, true)
    ensures |s| == 8 ==> HexColor(s) == Rgba(Byte(n, 3), Byte(n, 2), Byte(n, 1), Byte(n, 0), true)
  {
  }

  /** Six hexadecimal digits "RRGGBB" parse back to those channels, opaque. */
  lemma SixDigitRoundTrip(r: nat, g: nat, b: nat)
    requires r < 256 && g < 256 && b < 256
    ensures HexColor(HexByte(r) + HexByte(g) + HexByte(b)) == Rgba(r, g, b, Opaque, true)
  {
    var s := HexByte(r) + HexByte(g) + HexByte(b);
    SixDigitValue(r, g, b);
    var n := HexValue(s);
    HexStringColor(s);
    ScannedColor(s, n);
    BytesOfChannels(r, g, b, n);
  }

  /** The four bytes of `((r * 256 + g) * 256 + b) * 256 + a`. */
  lemma BytesOfFourChannels(r: nat, g: nat, b: nat, a: nat, n: nat)
    requires r < 256 && g < 256 && b < 256 && a < 256
    requires n == ((r * 256 + g) * 256 + b) * 256 + a
    ensures Byte(n, 3) == r && Byte(n, 2) == g && Byte(n, 1) == b && Byte(n, 0) == a
  {
    var low := (g * 256 + b) * 256 + a;
    DivModUnique((r * 256 + g) * 256 + b, 0x100, a);
    DivModUnique(r * 256 + g, 0x100, b);
    assert n == (r * 256 + g) * 0x1_0000 + (b * 256 + a);
    DivModUnique(r * 256 + g, 0x1_0000, b * 256 + a);
    DivModUnique(r, 0x100, g);
    assert n == r * 0x100_0000 + low;
    DivModUnique(r, 0x100_0000, low);
    DivModUnique(0, 0x100, r);
  }

  /** The value of the digits of four bytes. */
  lemma EightDigitValue(r: nat, g: nat, b: nat, a: nat)
    requires r < 256 && g < 256 && b < 256 && a < 256
    ensures var s := HexByte(r) + HexByte(g) + HexByte(b) + HexByte(a);
            |s| == 8 && AllHex(s) && HexValue(s) == ((r * 256 + g) * 256 + b) * 256 + a
  {
    SixDigitValue(r, g, b);
    var ha := HexByte(a);
    var six := HexByte(r) + HexByte(g) + HexByte(b);
    AppendTwoDigits(six, ha[0], ha[1]);
    assert six + [ha[0], ha[1]] == six + ha;
  }

  /** Eight hexadecimal digits "RRGGBBAA" parse back to those four channels. */
  lemma EightDigitRoundTrip(r: nat, g: nat, b: nat, a: nat)
    requires r < 256 && g < 256 && b < 256 && a < 256
    ensures HexColor(HexByte(r) + HexByte(g) + HexByte(b) + HexByte(a)) == Rgba(r, g, b, a, true)
  {
    var s := HexByte(r) + HexByte(g) + HexByte(b) + HexByte(a);
    EightDigitValue(r, g, b, a);
    HexStringColor(s);
    var n := HexValue(s);
    ScannedColor(s, n);
    BytesOfFourChannels(r, g, b, a, n);
  }

  lemma {:induction false} RemoveHashesAppend(x: string, y: string)
    ensures RemoveHashes(x + y) == RemoveHashes(x) + RemoveHashes(y)
    decreases |x|
  {
    if x != [] {
      assert (x + y)[1..] == x[1..] + y;
      RemoveHashesAppend(x[1..], y);
    } else {
      assert x + y == y;
    }
  }

  /** A '#' anywhere in the string is ignored. */
  lemma HashIsIgnored(x: string, y: string)
    ensures HexColor(x + "#" + y) == HexColor(x + y)
  {
    assert RemoveHashes(x + "#" + y) == RemoveHashes(x + y) by {
      RemoveHashesAppend(x + "#", y);
      RemoveHashesAppend(x, "#");
      RemoveHashesAppend(x, y);
      assert RemoveHashes("#") == [];
      assert RemoveHashes(x) + [] == RemoveHashes(x);
    }
  }

  lemma {:induction false} RemoveHashesNoop(s: string)
    requires '#' !in s
    ensures RemoveHashes(s) == s
    decreases |s|
  {
    if s != [] {
      assert s == [s[0]] + s[1..];
      RemoveHashesNoop(s[1..]);
    }
  }
}
