/** The polynomial string hash both chart and style code use to pick a
    palette slot: `h = (h * 31 + charCode) | 0` over the string, then
    `Math.abs(h) % mod`. */
module StringHash {

  const TWO_31: int := 0x8000_0000
  const TWO_32: int := 0x1_0000_0000

  predicate IsInt32(x: int) {
    -TWO_31 <= x < TWO_31
  }

  /** `x | 0`: the signed 32-bit integer congruent to `x` modulo 2^32. */
  function ToInt32(x: int): (r: int)
    ensures IsInt32(r)
    ensures (x - r) % TWO_32 == 0
  {
    (x + TWO_31) % TWO_32 - TWO_31
  }

  /** Two congruent inputs wrap to the same 32-bit value. */
  lemma ToInt32Congruent(x: int, y: int)
    requires (x - y) % TWO_32 == 0
    ensures ToInt32(x) == ToInt32(y)
  {
    var rx, ry := ToInt32(x), ToInt32(y);
    assert ((rx - ry) + (x - rx) - (y - ry)) % TWO_32 == 0;
    assert (rx - ry) % TWO_32 == 0;
  }

  lemma MultipleOfTwo32(k: int)
    ensures (k * TWO_32) % TWO_32 == 0
  {
  }

  /** `charCodeAt`: the code of one character. */
  function CharCode(c: char): nat {
    c as nat
  }

  /** The hash loop, one wrapped step per character, left to right. */
  function Hash32(s: string): (h: int)
    ensures IsInt32(h)
  {
    if |s| == 0 then 0 else ToInt32(31 * Hash32(s[..|s| - 1]) + CharCode(s[|s| - 1]))
  }

  /** The same polynomial over unbounded integers:
      sum of code(s[i]) * 31^(|s|-1-i). */
  function PolyHash(s: string): int {
    if |s| == 0 then 0 else 31 * PolyHash(s[..|s| - 1]) + CharCode(s[|s| - 1])
  }

  /** A multiple of a multiple of 2^32 is one too. */
  lemma ScaledMultiple(k: int, d: int)
    requires d % TWO_32 == 0
    ensures (k * d) % TWO_32 == 0
  {
    var q := d / TWO_32;
    assert d == q * TWO_32;
    assert k * d == (k * q) * TWO_32;
    MultipleOfTwo32(k * q);
  }

  /** Wrapping at every step gives the same result as computing the
      polynomial exactly and wrapping once at the end. */
  lemma {:induction false} Hash32IsWrappedPolyHash(s: string)
    ensures Hash32(s) == ToInt32(PolyHash(s))
    decreases |s|
  {
    if |s| > 0 {
      var init, c := s[..|s| - 1], CharCode(s[|s| - 1]);
      Hash32IsWrappedPolyHash(init);
      var h, p := Hash32(init), PolyHash(init);
      ScaledMultiple(31, p - h);
      assert (31 * p + c) - (31 * h + c) == 31 * (p - h);
      ToInt32Congruent(31 * p + c, 31 * h + c);
    }
  }

  /** `Math.abs(h) % mod` for a positive `mod`. `Math.abs` works on doubles,
      so `-2^31` maps to `2^31` and does not overflow. */
  function IndexFor(h: int, mod: int): (r: int)
    requires mod > 0
    ensures 0 <= r < mod
  {
    (if h < 0 then -h else h) % mod
  }

  /** A string whose hash is the most negative 32-bit value still lands in
      range; modulo 10 it is slot 8. */
  lemma MostNegativeHashInRange(mod: int)
    requires mod > 0
    ensures 0 <= IndexFor(-TWO_31, mod) < mod
    ensures IndexFor(-TWO_31, 10) == 8
  {
  }
}
