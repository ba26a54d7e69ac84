/** Calendar months as the charts see them: the `YYYY-MM` keys of
    `lastNMonthsKeys`, the trailing window of them, and the key-to-position
    `Map` built from it. The wall clock is a parameter (`now`). */
module MonthWindow {
  import opened FirstSeen

  /** A zero-based month, as `Date.prototype.getMonth` returns it. */
  type Month0 = m: int | 0 <= m < 12

  datatype YearMonth = YearMonth(year: int, month: Month0)

  /** Months since January of year 0. */
  function Ordinal(ym: YearMonth): int {
    ym.year * 12 + ym.month
  }

  /** `new Date(year, month, 1)`: an out-of-range month carries into the
      year (floor division; Dafny's `/` and `%` by a positive divisor are
      exactly that). */
  function DateFromParts(year: int, month: int): (ym: YearMonth)
    ensures Ordinal(ym) == year * 12 + month
  {
    YearMonth(year + month / 12, month % 12)
  }

  /** A month is determined by its ordinal. */
  lemma OrdinalInjective(a: YearMonth, b: YearMonth)
    requires Ordinal(a) == Ordinal(b)
    ensures a == b
  {
  }

  /** The `n` calendar months ending with `now`, oldest first; empty when
      `n <= 0`, as the `for (i = n - 1; i >= 0; i--)` loop runs no times. */
  function Window(now: YearMonth, n: int): (w: seq<YearMonth>)
    ensures |w| == if n > 0 then n else 0
    ensures n > 0 ==> w[|w| - 1] == now
    ensures forall j :: 0 <= j < |w| ==> Ordinal(w[j]) == Ordinal(now) - (|w| - 1 - j)
  {
    if n <= 0 then []
    else
      var w := seq(n, j requires 0 <= j < n => DateFromParts(now.year, now.month - (n - 1 - j)));
      assert forall j :: 0 <= j < n ==> w[j] == DateFromParts(now.year, now.month - (n - 1 - j));
      assert Ordinal(w[n - 1]) == Ordinal(now);
      OrdinalInjective(w[n - 1], now);
      w
  }

  /** Consecutive entries are consecutive months; December is followed by
      January of the next year. */
  lemma WindowIsConsecutive(now: YearMonth, n: int, j: nat)
    requires j + 1 < |Window(now, n)|
    ensures Ordinal(Window(now, n)[j + 1]) == Ordinal(Window(now, n)[j]) + 1
    ensures Window(now, n)[j].month == 11 ==> Window(now, n)[j + 1] == YearMonth(Window(now, n)[j].year + 1, 0)
    ensures Window(now, n)[j].month < 11 ==> Window(now, n)[j + 1] == YearMonth(Window(now, n)[j].year, Window(now, n)[j].month + 1)
  {
    var w := Window(now, n);
    if w[j].month == 11 {
      OrdinalInjective(w[j + 1], YearMonth(w[j].year + 1, 0));
    } else {
      OrdinalInjective(w[j + 1], YearMonth(w[j].year, w[j].month + 1));
    }
  }

  /** The window holds no month twice, and holds exactly the months whose
      ordinal is within `n` of `now`'s. */
  lemma WindowMembership(now: YearMonth, n: int, ym: YearMonth)
    ensures ym in Window(now, n) <==> Ordinal(now) - n < Ordinal(ym) <= Ordinal(now)
    ensures ym in Window(now, n) ==> Window(now, n)[Ordinal(ym) - Ordinal(now) + n - 1] == ym
  {
    var w := Window(now, n);
    if Ordinal(now) - n < Ordinal(ym) <= Ordinal(now) {
      var j := Ordinal(ym) - Ordinal(now) + n - 1;
      OrdinalInjective(w[j], ym);
    }
  }

  lemma WindowDistinct(now: YearMonth, n: int)
    ensures forall i, j :: 0 <= i < j < |Window(now, n)| ==> Window(now, n)[i] != Window(now, n)[j]
  {
  }

  /** One decimal digit. */
  function DigitChar(d: int): (c: char)
    requires 0 <= d < 10
    ensures c != '-'
  {
    ('0' as int + d) as char
  }

  /** `String(n)` for a natural number: decimal, no leading zeros. */
  function NatToDecimal(n: nat): (s: string)
    ensures |s| >= 1 && s[0] != '-'
    ensures n < 10 <==> |s| == 1
  {
    if n < 10 then [DigitChar(n)] else NatToDecimal(n / 10) + [DigitChar(n % 10)]
  }

  /** `String(i)` for an integer. */
  function IntToDecimal(i: int): string {
    if i < 0 then "-" + NatToDecimal(-i) else NatToDecimal(i)
  }

  lemma {:induction false} NatToDecimalInjective(a: nat, b: nat)
    requires NatToDecimal(a) == NatToDecimal(b)
    ensures a == b
    decreases a
  {
    var sa, sb := NatToDecimal(a), NatToDecimal(b);
    if a >= 10 && b >= 10 {
      assert sa[..|sa| - 1] == NatToDecimal(a / 10);
      assert sb[..|sb| - 1] == NatToDecimal(b / 10);
      NatToDecimalInjective(a / 10, b / 10);
      assert sa[|sa| - 1] == DigitChar(a % 10);
      assert sb[|sb| - 1] == DigitChar(b % 10);
    }
  }

  lemma IntToDecimalInjective(a: int, b: int)
    requires IntToDecimal(a) == IntToDecimal(b)
    ensures a == b
  {
    var sa, sb := IntToDecimal(a), IntToDecimal(b);
    if a < 0 && b < 0 {
      assert sa[1..] == NatToDecimal(-a) && sb[1..] == NatToDecimal(-b);
      NatToDecimalInjective(-a, -b);
    } else if a >= 0 && b >= 0 {
      NatToDecimalInjective(a, b);
    }
  }

  /** `String(m + 1).padStart(2, "0")`. */
  function Pad2(k: int): (s: string)
    requires 1 <= k <= 12
    ensures |s| == 2
  {
    if k < 10 then "0" + NatToDecimal(k) else NatToDecimal(k)
  }

  lemma Pad2Injective(a: int, b: int)
    requires 1 <= a <= 12 && 1 <= b <= 12 && Pad2(a) == Pad2(b)
    ensures a == b
  {
    var sa, sb := Pad2(a), Pad2(b);
    assert sa[1] == sb[1];
    if a >= 10 && b >= 10 {
      NatToDecimalInjective(a, b);
    }
  }

  /** The key string `${year}-${String(month + 1).padStart(2, "0")}`. */
  function KeyString(ym: YearMonth): string {
    IntToDecimal(ym.year) + "-" + Pad2(ym.month + 1)
  }

  /** Distinct months have distinct keys, so matching keys is matching
      months. */
  lemma KeyStringInjective(a: YearMonth, b: YearMonth)
    requires KeyString(a) == KeyString(b)
    ensures a == b
  {
    KeyStringParts(a);
    KeyStringParts(b);
    IntToDecimalInjective(a.year, b.year);
    Pad2Injective(a.month + 1, b.month + 1);
  }

  /** The year's digits, the dash and the two month digits, in place. */
  lemma KeyStringParts(ym: YearMonth)
    ensures var y, k := IntToDecimal(ym.year), KeyString(ym);
      |k| == |y| + 3 && k[..|y|] == y && k[|y| + 1..] == Pad2(ym.month + 1)
  {
  }

  /** `new Map(keys.map((k, i) => [k, i]))`: each key to its position, a
      later duplicate overriding an earlier one. */
  function PositionMap(keys: seq<string>): (m: map<string, nat>)
    ensures m.Keys == set k | k in keys
    ensures forall k :: k in m ==> m[k] < |keys| && keys[m[k]] == k
  {
    if |keys| == 0 then map[]
    else PositionMap(keys[..|keys| - 1])[keys[|keys| - 1] := |keys| - 1]
  }

  /** With distinct keys the map gives each key its own position. */
  lemma PositionMapOfDistinct(keys: seq<string>, j: nat)
    requires Distinct(keys) && j < |keys|
    ensures PositionMap(keys)[keys[j]] == j
  {
  }

  /** The keys of the window, in window order. */
  function WindowKeys(now: YearMonth, n: int): (ks: seq<string>)
    ensures |ks| == |Window(now, n)|
  {
    seq(|Window(now, n)|, j requires 0 <= j < |Window(now, n)| => KeyString(Window(now, n)[j]))
  }

  lemma WindowKeysDistinct(now: YearMonth, n: int)
    ensures Distinct(WindowKeys(now, n))
  {
    var w, ks := Window(now, n), WindowKeys(now, n);
    forall i, j | 0 <= i < j < |ks|
      ensures ks[i] != ks[j]
    {
      if ks[i] == ks[j] {
        KeyStringInjective(w[i], w[j]);
      }
    }
  }

  /** Looking a month's key up in the window's position map finds it exactly
      when the month is in the window, at the month's own position. */
  lemma LookupMonth(now: YearMonth, n: int, ym: YearMonth)
    ensures KeyString(ym) in PositionMap(WindowKeys(now, n)) <==> ym in Window(now, n)
    ensures ym in Window(now, n) ==>
      Window(now, n)[PositionMap(WindowKeys(now, n))[KeyString(ym)]] == ym
  {
    var w, ks := Window(now, n), WindowKeys(now, n);
    var m := PositionMap(ks);
    if KeyString(ym) in m {
      var j := m[KeyString(ym)];
      KeyStringInjective(w[j], ym);
    }
    if ym in w {
      var j :| 0 <= j < |w| && w[j] == ym;
      assert ks[j] == KeyString(ym);
    }
  }

  /** Entry `j` of the window is the month the source's loop builds at
      `i = n - 1 - j`. */
  lemma WindowEntry(now: YearMonth, n: int, j: nat)
    requires j < |Window(now, n)|
    ensures Window(now, n)[j] == DateFromParts(now.year, now.month - (n - 1 - j))
  {
    var w := Window(now, n);
    var d := DateFromParts(now.year, now.month - (n - 1 - j));
    assert Ordinal(w[j]) == Ordinal(d);
    OrdinalInjective(w[j], d);
  }

  /** Key `j` of the window is the key the source's loop builds at
      `i = n - 1 - j`. */
  lemma WindowKeyAt(now: YearMonth, n: int, j: nat, i: int)
    requires j < |Window(now, n)| && i == n - 1 - j
    ensures WindowKeys(now, n)[j] == KeyString(DateFromParts(now.year, now.month - i))
  {
    WindowEntry(now, n, j);
  }

  lemma PrefixSnoc(s: seq<string>, j: nat)
    requires j < |s|
    ensures s[..j + 1] == s[..j] + [s[j]]
  {
  }

  lemma WindowKeysFacts(now: YearMonth, n: int)
    ensures |WindowKeys(now, n)| == (if n > 0 then n else 0)
    ensures Distinct(WindowKeys(now, n))
    ensures forall j :: 0 <= j < |WindowKeys(now, n)| ==> WindowKeys(now, n)[j] == KeyString(Window(now, n)[j])
    ensures n > 0 ==> WindowKeys(now, n)[n - 1] == KeyString(now)
  {
    WindowKeysDistinct(now, n);
  }

  /** `lastNMonthsKeys(n)`, with the current month passed in. */
  method LastNMonthsKeys(now: YearMonth, n: int) returns (keys: seq<string>)
    ensures |keys| == (if n > 0 then n else 0)
    ensures Distinct(keys)
    ensures forall j :: 0 <= j < |keys| ==> keys[j] == KeyString(Window(now, n)[j])
    ensures n > 0 ==> keys[|keys| - 1] == KeyString(now)
  {
    ghost var ks := WindowKeys(now, n);
    keys := [];
    var i := n - 1;
    while i >= 0
      invariant if n > 0 then -1 <= i < n else i == n - 1
      invariant |keys| == n - 1 - i
      invariant keys == ks[..|keys|]
    {
      var dt := DateFromParts(now.year, now.month - i);
      WindowKeyAt(now, n, |keys|, i);
      PrefixSnoc(ks, |keys|);
      keys := keys + [KeyString(dt)];
      i := i - 1;
    }
    assert keys == ks;
    WindowKeysFacts(now, n);
  }
}
