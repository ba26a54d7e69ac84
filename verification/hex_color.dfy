/** `hexToRgba`: the palette's `#rrggbb[aa]` strings read as three bytes
    with `parseInt(…, 16)`, plus the caller's alpha. */
module HexColor {
  import opened Wrappers
  import opened Text

  /** The value of a hexadecimal digit of either case. */
  function DigitValue(c: char): Option<nat> {
    if '0' <= c <= '9' then Some(c as nat - '0' as nat)
    else if 'a' <= c <= 'f' then Some(c as nat - 'a' as nat + 10)
    else if 'A' <= c <= 'F' then Some(c as nat - 'A' as nat + 10)
    else None
  }

  predicate IsHexDigit(c: char) {
    DigitValue(c).Some?
  }

  predicate AllHex(s: string) {
    forall i :: 0 <= i < |s| ==> IsHexDigit(s[i])
  }

  /** The longest prefix of `s` made of hexadecimal digits. */
  function HexPrefix(s: string): (r: string)
    ensures r <= s && AllHex(r)
    ensures |r| == |s| || !IsHexDigit(s[|r|])
  {
    if |s| > 0 && IsHexDigit(s[0]) then [s[0]] + HexPrefix(s[1..]) else []
  }

  /** The number a string of hexadecimal digits denotes. */
  function HexValue(ds: string): (v: nat)
    requires AllHex(ds)
  {
    if |ds| == 0 then 0
    else 16 * HexValue(ds[..|ds| - 1]) + DigitValue(ds[|ds| - 1]).value
  }

  /** `parseInt(s, 16)`: leading white space skipped, an optional sign, an
      optional `0x`/`0X` prefix, then the longest run of hexadecimal digits;
      `None` (the program's `NaN`) when that run is empty. */
  function ParseInt16(s: string): (r: Option<int>)
    ensures |s| >= 2 && IsHexDigit(s[0]) && IsHexDigit(s[1]) ==> r.Some?
  {
    if |s| > 0 && IsSpace(s[0]) then ParseInt16(s[1..])
    else
      var negative := |s| > 0 && s[0] == '-';
      ParseMagnitude(StripRadixPrefix(StripSign(s)), negative)
  }

  /** The string without a leading `+` or `-`. */
  function StripSign(t: string): (u: string)
    ensures u == t || (|t| > 0 && u == t[1..])
  {
    if |t| > 0 && (t[0] == '-' || t[0] == '+') then t[1..] else t
  }

  /** The string without a leading `0x` or `0X`. */
  function StripRadixPrefix(u: string): (b: string)
    ensures b == u || (|u| >= 2 && b == u[2..])
  {
    if |u| >= 2 && u[0] == '0' && (u[1] == 'x' || u[1] == 'X') then u[2..] else u
  }

  /** The value of the leading digits of `body`, negated when `negative`. */
  function ParseMagnitude(body: string, negative: bool): (r: Option<int>)
    ensures r.Some? <==> |body| > 0 && IsHexDigit(body[0])
  {
    var digits := HexPrefix(body);
    if |digits| == 0 then None
    else
      var v: int := HexValue(digits);
      Some(if negative then -v else v)
  }

  lemma TwoDigitsNeedNoStripping(s: string)
    requires |s| == 2 && IsHexDigit(s[0]) && IsHexDigit(s[1])
    ensures !IsSpace(s[0]) && s[0] != '-' && StripRadixPrefix(StripSign(s)) == s
  {
  }

  lemma TwoDigitsPrefixAndValue(s: string)
    requires |s| == 2 && IsHexDigit(s[0]) && IsHexDigit(s[1])
    ensures HexPrefix(s) == s
    ensures HexValue(s) == 16 * DigitValue(s[0]).value + DigitValue(s[1]).value
  {
    assert s[1..][1..] == [];
    assert HexPrefix(s[1..]) == s[1..];
    assert s[..1] == [s[0]] && [s[0]][..0] == [];
  }

  /** Two hexadecimal digits parse to the byte they spell. */
  lemma ParseTwoDigits(s: string)
    requires |s| == 2 && IsHexDigit(s[0]) && IsHexDigit(s[1])
    ensures ParseInt16(s) == Some((16 * DigitValue(s[0]).value + DigitValue(s[1]).value) as int)
    ensures 0 <= ParseInt16(s).value <= 255
  {
    TwoDigitsNeedNoStripping(s);
    TwoDigitsPrefixAndValue(s);
  }

  /** `hex.replace("#", "")`: only the first `#` is removed. */
  function RemoveFirstHash(s: string): (r: string)
    ensures '#' !in s ==> r == s
    ensures |s| > 0 && s[0] == '#' ==> r == s[1..]
  {
    if |s| == 0 then s
    else if s[0] == '#' then s[1..]
    else [s[0]] + RemoveFirstHash(s[1..])
  }

  /** Wherever the first `#` sits, it is the one character removed. */
  lemma {:induction false} RemoveFirstHashAt(s: string, i: nat)
    requires i < |s| && s[i] == '#' && '#' !in s[..i]
    ensures RemoveFirstHash(s) == s[..i] + s[i + 1..]
    decreases i
  {
    if i > 0 {
      assert s[0] != '#' by { assert s[..i][0] == s[0]; }
      assert s[1..][i - 1] == '#';
      assert '#' !in s[1..][..i - 1] by { assert s[1..][..i - 1] == s[..i][1..]; }
      calc {
        RemoveFirstHash(s);
        [s[0]] + RemoveFirstHash(s[1..]);
        { RemoveFirstHashAt(s[1..], i - 1); }
        [s[0]] + (s[1..][..i - 1] + s[1..][i..]);
        { assert s[1..][..i - 1] == s[1..i] && s[1..][i..] == s[i + 1..]; }
        [s[0]] + (s[1..i] + s[i + 1..]);
        { assert s[..i] == [s[0]] + s[1..i]; }
        s[..i] + s[i + 1..];
      }
    }
  }

  /** `s.slice(lo, hi)` for `0 <= lo <= hi`: the bounds are clamped to the
      length. */
  function Slice(s: string, lo: nat, hi: nat): (r: string)
    requires lo <= hi
    ensures |r| <= hi - lo
    ensures hi <= |s| ==> r == s[lo..hi]
  {
    var l := if lo < |s| then lo else |s|;
    var h := if hi < |s| then hi else |s|;
    s[l..h]
  }

  /** The value `rgba(r, g, b, a)` names; a channel is `None` where
      `parseInt` gave `NaN`. */
  datatype Rgba = Rgba(r: Option<int>, g: Option<int>, b: Option<int>, alpha: real)

  predicate IsByte(v: Option<int>) {
    v.Some? && 0 <= v.value <= 255
  }

  predicate ValidRgb(c: Rgba) {
    IsByte(c.r) && IsByte(c.g) && IsByte(c.b)
  }

  function HexToRgba(hex: string, a: real): (c: Rgba)
    ensures c.alpha == a
  {
    var m := RemoveFirstHash(hex);
    Rgba(ParseInt16(Slice(m, 0, 2)), ParseInt16(Slice(m, 2, 4)), ParseInt16(Slice(m, 4, 6)), a)
  }

  /** The alpha argument only sets the alpha channel. */
  lemma AlphaOnlySetsAlpha(hex: string, a: real, b: real)
    ensures HexToRgba(hex, a).(alpha := b) == HexToRgba(hex, b)
  {
  }

  /** A palette entry: `#` followed by at least six hexadecimal digits. */
  predicate IsHexColor(hex: string) {
    |hex| >= 7 && hex[0] == '#' && forall i :: 1 <= i < 7 ==> IsHexDigit(hex[i])
  }

  /** The byte spelled by the two digits at `hex[i..i+2]`. */
  function ByteAt(hex: string, i: nat): (v: int)
    requires i + 2 <= |hex| && IsHexDigit(hex[i]) && IsHexDigit(hex[i + 1])
    ensures 0 <= v <= 255
  {
    16 * DigitValue(hex[i]).value + DigitValue(hex[i + 1]).value
  }

  lemma ParseByteAt(hex: string, i: nat)
    requires i + 2 <= |hex| && IsHexDigit(hex[i]) && IsHexDigit(hex[i + 1])
    ensures ParseInt16(hex[i..i + 2]) == Some(ByteAt(hex, i))
  {
    var two := hex[i..i + 2];
    assert two[0] == hex[i] && two[1] == hex[i + 1];
    ParseTwoDigits(two);
  }

  lemma ChannelAt(hex: string, k: nat)
    requires IsHexColor(hex) && k <= 4
    ensures ParseInt16(Slice(hex[1..], k, k + 2)) == Some(ByteAt(hex, k + 1))
  {
    var m := hex[1..];
    assert Slice(m, k, k + 2) == m[k..k + 2];
    assert m[k..k + 2] == hex[k + 1..k + 3];
    assert IsHexDigit(hex[k + 1]) && IsHexDigit(hex[k + 2]);
    ParseByteAt(hex, k + 1);
  }

  /** A well-formed colour reads as its three bytes, each in 0..255. */
  lemma HexColorBytes(hex: string, a: real)
    requires IsHexColor(hex)
    ensures HexToRgba(hex, a) == Rgba(Some(ByteAt(hex, 1)), Some(ByteAt(hex, 3)), Some(ByteAt(hex, 5)), a)
    ensures ValidRgb(HexToRgba(hex, a))
  {
    assert RemoveFirstHash(hex) == hex[1..];
    ChannelAt(hex, 0);
    ChannelAt(hex, 2);
    ChannelAt(hex, 4);
  }

  /** Two colours that agree on their six digits read the same. */
  lemma SameDigitsSameColor(h1: string, h2: string, a: real)
    requires IsHexColor(h1) && IsHexColor(h2)
    requires forall i :: 1 <= i < 7 ==> h1[i] == h2[i]
    ensures HexToRgba(h1, a) == HexToRgba(h2, a)
  {
    assert h1[1] == h2[1] && h1[2] == h2[2] && h1[3] == h2[3];
    assert h1[4] == h2[4] && h1[5] == h2[5] && h1[6] == h2[6];
    var c := Rgba(Some(ByteAt(h1, 1)), Some(ByteAt(h1, 3)), Some(ByteAt(h1, 5)), a);
    assert c == Rgba(Some(ByteAt(h2, 1)), Some(ByteAt(h2, 3)), Some(ByteAt(h2, 5)), a);
    HexColorBytes(h1, a);
    HexColorBytes(h2, a);
  }

  /** Digits after the sixth, such as the alpha pair of `#35b8f5ff`, do not
      change the colour. */
  lemma HexColorIgnoresAlphaDigits(hex: string, a: real)
    requires IsHexColor(hex)
    ensures HexToRgba(hex, a) == HexToRgba(hex[..7], a)
  {
    SameDigitsSameColor(hex, hex[..7], a);
  }

  /** A nibble as a lower-case hexadecimal digit. */
  function NibbleChar(n: nat): (c: char)
    requires n < 16
    ensures DigitValue(c) == Some(n)
  {
    if n < 10 then ('0' as nat + n) as char else ('a' as nat + n - 10) as char
  }

  /** A byte as two hexadecimal digits. */
  function ToHex2(v: nat): (s: string)
    requires v <= 255
    ensures |s| == 2 && AllHex(s)
  {
    [NibbleChar(v / 16), NibbleChar(v % 16)]
  }

  /** The two digits of a byte spell it back. */
  lemma ToHex2Value(v: nat)
    requires v <= 255
    ensures 16 * DigitValue(ToHex2(v)[0]).value + DigitValue(ToHex2(v)[1]).value == v
  {
    assert DigitValue(ToHex2(v)[0]) == Some(v / 16);
    assert DigitValue(ToHex2(v)[1]) == Some(v % 16);
  }

  /** `#rrggbb` followed by anything is a well-formed colour spelling the
      three bytes. */
  lemma WrittenColor(r: int, g: int, b: int, tail: string)
    requires 0 <= r <= 255 && 0 <= g <= 255 && 0 <= b <= 255
    ensures IsHexColor("#" + ToHex2(r) + ToHex2(g) + ToHex2(b) + tail)
    ensures ByteAt("#" + ToHex2(r) + ToHex2(g) + ToHex2(b) + tail, 1) == r
    ensures ByteAt("#" + ToHex2(r) + ToHex2(g) + ToHex2(b) + tail, 3) == g
    ensures ByteAt("#" + ToHex2(r) + ToHex2(g) + ToHex2(b) + tail, 5) == b
  {
    var x, y, z := ToHex2(r), ToHex2(g), ToHex2(b);
    var hex := "#" + x + y + z + tail;
    assert hex[0] == '#';
    assert hex[1] == x[0] && hex[2] == x[1];
    assert hex[3] == y[0] && hex[4] == y[1];
    assert hex[5] == z[0] && hex[6] == z[1];
    ToHex2Value(r);
    ToHex2Value(g);
    ToHex2Value(b);
  }

  /** Writing a colour as `#rrggbb` followed by anything and reading it back
      with `hexToRgba` returns the same three bytes. */
  lemma HexRoundTrip(r: int, g: int, b: int, tail: string, a: real)
    requires 0 <= r <= 255 && 0 <= g <= 255 && 0 <= b <= 255
    ensures HexToRgba("#" + ToHex2(r) + ToHex2(g) + ToHex2(b) + tail, a)
         == Rgba(Some(r), Some(g), Some(b), a)
  {
    WrittenColor(r, g, b, tail);
    HexColorBytes("#" + ToHex2(r) + ToHex2(g) + ToHex2(b) + tail, a);
  }
}
