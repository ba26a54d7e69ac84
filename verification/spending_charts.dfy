/** `app/components/SpendingCharts.tsx`: the chart palette and its
    case-sensitive label hash, the monthly bar chart over a trailing window,
    the per-category doughnut and the two KPIs. `new Date(t.date)` is the
    parameter `dateOf` (`None` for an invalid date) and the current month is
    the parameter `now`. */
module SpendingCharts {
  import opened Wrappers
  import opened Text
  import opened Sums
  import opened FirstSeen
  import opened Transactions
  import opened StringHash
  import opened HexColor
  import opened MonthWindow
  import CategoryStyle

  /** This file's own `CATEGORY_BASE`: ten six-digit colours. */
  const CATEGORY_BASE: seq<string> := [
    "#6366F1", "#10B981", "#0EA5E9", "#F59E0B", "#F43F5E",
    "#8B5CF6", "#14B8A6", "#84CC16", "#3B82F6", "#FB923C"
  ]

  lemma PaletteIsValid(a: real)
    ensures |CATEGORY_BASE| == 10
    ensures forall i :: 0 <= i < 10 ==> IsHexColor(CATEGORY_BASE[i])
    ensures forall i :: 0 <= i < 10 ==> ValidRgb(HexToRgba(CATEGORY_BASE[i], a))
  {
    forall i | 0 <= i < 10
      ensures IsHexColor(CATEGORY_BASE[i]) && ValidRgb(HexToRgba(CATEGORY_BASE[i], a))
    {
      HexColorBytes(CATEGORY_BASE[i], a);
    }
  }

  /** This file's `hashLabelToIndex`: the same hash and slot as the shared
      helper's, but of the label exactly as given, with no trimming and no
      case folding. */
  function HashLabelToIndex(name: string, mod: int): (idx: int)
    requires mod > 0
    ensures 0 <= idx < mod
    ensures idx == IndexFor(ToInt32(PolyHash(name)), mod)
  {
    CategoryStyle.SlotOf(name, mod)
  }

  lemma HashOfFood()
    ensures Hash32("Food") == 2195582
  {
    assert "F"[..0] == "";
    assert Hash32("F") == 70;
    assert "Fo"[..1] == "F";
    assert Hash32("Fo") == 2281;
    assert "Foo"[..2] == "Fo";
    assert Hash32("Foo") == 70822;
    assert "Food"[..3] == "Foo";
  }

  lemma HashOfLowerFood()
    ensures Hash32("food") == 3148894
  {
    assert "f"[..0] == "";
    assert Hash32("f") == 102;
    assert "fo"[..1] == "f";
    assert Hash32("fo") == 3273;
    assert "foo"[..2] == "fo";
    assert Hash32("foo") == 101574;
    assert "food"[..3] == "foo";
  }

  /** Unlike the normalising hash of the style constants, this one tells
      "Food" from "food". */
  lemma HashIsCaseSensitive()
    ensures HashLabelToIndex("Food", 10) == 2
    ensures HashLabelToIndex("food", 10) == 4
    ensures CategoryStyle.HashLabelToIndex("Food", 10) == CategoryStyle.HashLabelToIndex("food", 10)
  {
    HashOfFood();
    HashLabelIsHash32Slot("Food", 10);
    HashOfLowerFood();
    HashLabelIsHash32Slot("food", 10);
    StyleHashFoldsFood();
  }

  /** The slot is the 32-bit hash's slot. */
  lemma HashLabelIsHash32Slot(name: string, mod: int)
    requires mod > 0
    ensures HashLabelToIndex(name, mod) == IndexFor(Hash32(name), mod)
  {
    Hash32IsWrappedPolyHash(name);
  }

  lemma StyleHashFoldsFood()
    ensures CategoryStyle.HashLabelToIndex("Food", 10) == CategoryStyle.HashLabelToIndex("food", 10)
  {
    FoodNormalizesAlike();
    CategoryStyle.HashIgnoresCase("Food", "food", 10);
  }

  /** "Food" and "food" have nothing to trim and lower-case alike. */
  lemma FoodNormalizesAlike()
    ensures Lower(Trim("Food")) == Lower(Trim("food"))
  {
    FoodIsTrimmed();
    FoodLowersAlike();
  }

  lemma FoodIsTrimmed()
    ensures Trim("Food") == "Food" && Trim("food") == "food"
  {
    Trim4("Food");
    Trim4("food");
  }

  lemma FoodLowersAlike()
    ensures Lower("Food") == Lower("food")
  {
    assert Lower("Food")[0] == 'f' == Lower("food")[0];
  }

  /** A four-letter word has nothing to trim. */
  lemma Trim4(w: string)
    requires |w| == 4 && forall i :: 0 <= i < 4 ==> 'A' <= w[i] <= 'z'
    ensures Trim(w) == w
  {
    assert !IsSpace(w[0]) && !IsSpace(w[3]);
    TrimStartNoLeadingSpace(w);
    TrimEndNoTrailingSpace(w);
  }

  /** The palette colour, at alpha `a`, of a label's slot. */
  function LabelColor(name: string, a: real): (c: Rgba)
    ensures ValidRgb(c) && c.alpha == a
  {
    PaletteIsValid(a);
    HexToRgba(CATEGORY_BASE[HashLabelToIndex(name, |CATEGORY_BASE|)], a)
  }

  /** This file's `colorsForLabels`: fill at alpha 0.88, hover at 0.7. */
  function ColorsForLabels(labels: seq<string>): (c: CategoryStyle.Colors)
    ensures |c.bg| == |labels| && |c.hover| == |labels|
    ensures forall i :: 0 <= i < |labels| ==>
      ValidRgb(c.bg[i]) && c.bg[i].alpha == 0.88 && c.bg[i].(alpha := 0.7) == c.hover[i]
    ensures forall i :: 0 <= i < |labels| ==>
      c.bg[i] == HexToRgba(CATEGORY_BASE[HashLabelToIndex(labels[i], 10)], 0.88) &&
      c.hover[i] == HexToRgba(CATEGORY_BASE[HashLabelToIndex(labels[i], 10)], 0.7)
    ensures forall i, j :: 0 <= i < |labels| && 0 <= j < |labels| ==>
      (HashLabelToIndex(labels[i], 10) == HashLabelToIndex(labels[j], 10) ==> c.bg[i] == c.bg[j])
  {
    var bg := seq(|labels|, i requires 0 <= i < |labels| => LabelColor(labels[i], 0.88));
    var hover := seq(|labels|, i requires 0 <= i < |labels| => LabelColor(labels[i], 0.7));
    forall i | 0 <= i < |labels|
      ensures bg[i].(alpha := 0.7) == hover[i]
    {
      AlphaOnlySetsAlpha(CATEGORY_BASE[HashLabelToIndex(labels[i], 10)], 0.88, 0.7);
    }
    CategoryStyle.Colors(bg, hover)
  }

  // ---------------------------------------------------------------------
  // Monthly totals

  /** A transaction's share of one month's bucket. */
  function InMonth(t: Transaction, dateOf: string -> Option<YearMonth>, ym: YearMonth): real {
    if dateOf(t.date) == Some(ym) then Coerce(t.amount) else 0.0
  }

  /** The reference for one bucket: the coerced amounts of the transactions
      dated in month `ym`. */
  function MonthTotal(ts: seq<Transaction>, dateOf: string -> Option<YearMonth>, ym: YearMonth): real {
    if |ts| == 0 then 0.0
    else MonthTotal(ts[..|ts| - 1], dateOf, ym) + InMonth(ts[|ts| - 1], dateOf, ym)
  }

  /** The reference for the whole bar chart: one `MonthTotal` per month of
      the window. */
  function Buckets(ts: seq<Transaction>, dateOf: string -> Option<YearMonth>, w: seq<YearMonth>): (b: seq<real>)
    ensures |b| == |w|
  {
    seq(|w|, j requires 0 <= j < |w| => MonthTotal(ts, dateOf, w[j]))
  }

  /** A transaction's contribution to the bar chart as a whole. */
  function InWindow(t: Transaction, dateOf: string -> Option<YearMonth>, w: seq<YearMonth>): real {
    match dateOf(t.date)
    case None => 0.0
    case Some(d) => if d in w then Coerce(t.amount) else 0.0
  }

  /** The coerced amounts of the transactions dated inside the window. */
  function InWindowTotal(ts: seq<Transaction>, dateOf: string -> Option<YearMonth>, w: seq<YearMonth>): real {
    if |ts| == 0 then 0.0
    else InWindowTotal(ts[..|ts| - 1], dateOf, w) + InWindow(ts[|ts| - 1], dateOf, w)
  }

  /** `index` maps the key of each month of `w`, and only those, to the
      month's position. */
  ghost predicate IndexesWindow(index: map<string, nat>, w: seq<YearMonth>) {
    (forall d: YearMonth :: KeyString(d) in index <==> d in w) &&
    (forall d: YearMonth :: KeyString(d) in index ==> index[KeyString(d)] < |w| && w[index[KeyString(d)]] == d)
  }

  lemma WindowIsIndexed(now: YearMonth, n: int)
    ensures IndexesWindow(PositionMap(WindowKeys(now, n)), Window(now, n))
  {
    forall d: YearMonth
      ensures KeyString(d) in PositionMap(WindowKeys(now, n)) <==> d in Window(now, n)
    {
      LookupMonth(now, n, d);
    }
    forall d: YearMonth | KeyString(d) in PositionMap(WindowKeys(now, n))
      ensures Window(now, n)[PositionMap(WindowKeys(now, n))[KeyString(d)]] == d
    {
      LookupMonth(now, n, d);
    }
  }

  /** One pass of the loop: look the transaction's month key up and add its
      amount to that bucket, or skip it. */
  method AddToBucket(data: seq<real>, done: seq<Transaction>, t: Transaction, dateOf: string -> Option<YearMonth>,
                     index: map<string, nat>, ghost w: seq<YearMonth>)
    returns (data': seq<real>)
    requires forall a, b :: 0 <= a < b < |w| ==> w[a] != w[b]
    requires IndexesWindow(index, w)
    requires data == Buckets(done, dateOf, w)
    ensures data' == Buckets(done + [t], dateOf, w)
  {
    data' := data;
    match dateOf(t.date) {
      case None =>
        BucketsSnocOut(done, t, dateOf, w);
      case Some(d) =>
        var k := KeyString(d);
        if k in index {
          var p := index[k];
          BucketsSnocIn(done, t, dateOf, w, p);
          data' := data[p := data[p] + Coerce(t.amount)];
        } else {
          BucketsSnocOut(done, t, dateOf, w);
        }
    }
  }

  /** Twelve zeros are the buckets of no transactions. */
  lemma BucketsOfNothing(dateOf: string -> Option<YearMonth>, w: seq<YearMonth>)
    ensures Buckets([], dateOf, w) == seq(|w|, _ => 0.0)
  {
  }

  /** The loop over the transactions, from `Array(keys.length).fill(0)`. */
  method FillBuckets(ts: seq<Transaction>, dateOf: string -> Option<YearMonth>, index: map<string, nat>,
                     size: nat, ghost w: seq<YearMonth>)
    returns (data: seq<real>)
    requires size == |w| && forall a, b :: 0 <= a < b < |w| ==> w[a] != w[b]
    requires IndexesWindow(index, w)
    ensures data == Buckets(ts, dateOf, w)
  {
    data := seq(size, _ => 0.0);
    BucketsOfNothing(dateOf, w);
    assert ts[..0] == [];
    for i := 0 to |ts|
      invariant data == Buckets(ts[..i], dateOf, w)
    {
      assert ts[..i + 1] == ts[..i] + [ts[i]];
      data := AddToBucket(data, ts[..i], ts[i], dateOf, index, w);
    }
    assert ts[..|ts|] == ts;
  }

  /** `aggregateByMonthLastN(transactions, n)` with the month keys in place of
      their locale labels: `n` keys (none when `n <= 0`) and one total per
      key, zero for a month no transaction falls in. */
  method AggregateByMonthLastN(ts: seq<Transaction>, n: int, now: YearMonth, dateOf: string -> Option<YearMonth>)
    returns (keys: seq<string>, data: seq<real>)
    ensures |keys| == (if n > 0 then n else 0) && |data| == |keys|
    ensures forall j :: 0 <= j < |keys| ==> keys[j] == KeyString(Window(now, n)[j])
    ensures data == Buckets(ts, dateOf, Window(now, n))
    ensures |ts| == 0 ==> forall j :: 0 <= j < |data| ==> data[j] == 0.0
  {
    keys := LastNMonthsKeys(now, n);
    ghost var w := Window(now, n);
    assert keys == WindowKeys(now, n);
    var index := PositionMap(keys);
    WindowIsIndexed(now, n);
    WindowDistinct(now, n);
    data := FillBuckets(ts, dateOf, index, |keys|, w);
    if |ts| == 0 {
      BucketsOfNothing(dateOf, w);
    }
  }

  /** `MonthTotal` distributes over concatenation. */
  lemma {:induction false} MonthTotalAppend(a: seq<Transaction>, b: seq<Transaction>, dateOf: string -> Option<YearMonth>, ym: YearMonth)
    ensures MonthTotal(a + b, dateOf, ym) == MonthTotal(a, dateOf, ym) + MonthTotal(b, dateOf, ym)
    decreases |b|
  {
    if |b| == 0 {
      assert a + b == a;
    } else {
      assert (a + b)[..|a + b| - 1] == a + b[..|b| - 1];
      MonthTotalAppend(a, b[..|b| - 1], dateOf, ym);
    }
  }

  /** A transaction whose date does not parse, or whose month lies outside
      the window, changes no bucket, wherever it sits in the list. */
  lemma IgnoredTransactionChangesNoBucket(a: seq<Transaction>, t: Transaction, b: seq<Transaction>,
                                          dateOf: string -> Option<YearMonth>, w: seq<YearMonth>)
    requires dateOf(t.date).None? || dateOf(t.date).value !in w
    ensures Buckets(a + [t] + b, dateOf, w) == Buckets(a + b, dateOf, w)
  {
    forall j | 0 <= j < |w|
      ensures MonthTotal(a + [t] + b, dateOf, w[j]) == MonthTotal(a + b, dateOf, w[j])
    {
      MonthTotalAppend(a + [t], b, dateOf, w[j]);
      MonthTotalAppend(a, [t], dateOf, w[j]);
      MonthTotalAppend(a, b, dateOf, w[j]);
      assert [t][..0] == [];
    }
  }

  /** Adding a transaction dated in the window's month `p` adds its amount
      to bucket `p` and leaves every other bucket alone. */
  lemma BucketsSnocIn(ts: seq<Transaction>, t: Transaction, dateOf: string -> Option<YearMonth>, w: seq<YearMonth>, p: nat)
    requires forall i, j :: 0 <= i < j < |w| ==> w[i] != w[j]
    requires p < |w| && dateOf(t.date) == Some(w[p])
    ensures Buckets(ts + [t], dateOf, w) == Buckets(ts, dateOf, w)[p := Buckets(ts, dateOf, w)[p] + Coerce(t.amount)]
  {
    assert (ts + [t])[..|ts|] == ts;
  }

  /** Adding a transaction dated outside the window, or not dated at all,
      changes no bucket. */
  lemma BucketsSnocOut(ts: seq<Transaction>, t: Transaction, dateOf: string -> Option<YearMonth>, w: seq<YearMonth>)
    requires dateOf(t.date).None? || dateOf(t.date).value !in w
    ensures Buckets(ts + [t], dateOf, w) == Buckets(ts, dateOf, w)
  {
    assert (ts + [t])[..|ts|] == ts;
  }

  /** Conservation: the bars add up to the total of the transactions dated
      inside the window. */
  lemma {:induction false} BucketsSumToInWindowTotal(ts: seq<Transaction>, dateOf: string -> Option<YearMonth>, w: seq<YearMonth>)
    requires forall i, j :: 0 <= i < j < |w| ==> w[i] != w[j]
    ensures Sum(Buckets(ts, dateOf, w)) == InWindowTotal(ts, dateOf, w)
    decreases |ts|
  {
    if |ts| == 0 {
      SumZeros(Buckets(ts, dateOf, w));
    } else {
      var init, t := ts[..|ts| - 1], ts[|ts| - 1];
      assert ts == init + [t];
      BucketsSumToInWindowTotal(init, dateOf, w);
      if dateOf(t.date).Some? && dateOf(t.date).value in w {
        var p :| 0 <= p < |w| && w[p] == dateOf(t.date).value;
        BucketsSnocIn(init, t, dateOf, w, p);
        SumUpdate(Buckets(init, dateOf, w), p, Coerce(t.amount));
      } else {
        BucketsSnocOut(init, t, dateOf, w);
      }
    }
  }

  /** When every transaction is dated inside the window, the bars add up to
      the "Total Spent" figure. */
  lemma {:induction false} AllInWindowTotal(ts: seq<Transaction>, dateOf: string -> Option<YearMonth>, w: seq<YearMonth>)
    requires forall i :: 0 <= i < |ts| ==> dateOf(ts[i].date).Some? && dateOf(ts[i].date).value in w
    ensures InWindowTotal(ts, dateOf, w) == Total(ts)
    decreases |ts|
  {
    if |ts| > 0 {
      var init, t := ts[..|ts| - 1], ts[|ts| - 1];
      assert ts == init + [t];
      AllInWindowTotal(init, dateOf, w);
      TotalSnoc(init, t);
    }
  }

  // ---------------------------------------------------------------------
  // Category totals

  /** A JavaScript `Map<string, number>`: its keys in insertion order and
      its entries. */
  datatype CategoryBuckets = CategoryBuckets(labels: seq<string>, totals: map<string, real>)

  /** `buckets.get(c) || 0`. */
  function Get(b: CategoryBuckets, c: string): real {
    if c in b.totals then b.totals[c] else 0.0
  }

  /** `buckets.set(c, v)`: an existing key keeps its place, a new key goes
      last. */
  function SetBucket(b: CategoryBuckets, c: string, v: real): CategoryBuckets {
    CategoryBuckets(if c in b.labels then b.labels else b.labels + [c], b.totals[c := v])
  }

  /** No label twice, and no entry without its label. */
  predicate WellFormed(b: CategoryBuckets) {
    Distinct(b.labels) && forall c :: c in b.totals ==> c in b.labels
  }

  /** `labels.map((l) => buckets.get(l) || 0)`. */
  function Data(b: CategoryBuckets): (d: seq<real>)
    ensures |d| == |b.labels|
  {
    seq(|b.labels|, i requires 0 <= i < |b.labels| => Get(b, b.labels[i]))
  }

  /** The new running total `(prev + Number(t.amount)) || 0`: a `NaN`
      amount makes the sum `NaN`, which `|| 0` turns into 0. */
  function Accumulate(prev: real, a: Amount): (r: real)
    ensures a.NaN? ==> r == 0.0
    ensures a.Num? ==> r == prev + a.value
  {
    match a
    case NaN => 0.0
    case Num(v) => prev + v
  }

  /** What the loop reads from a transaction: its grouping key and its
      amount. */
  datatype Entry = Entry(key: string, amount: Amount)

  function Entries(ts: seq<Transaction>): (es: seq<Entry>)
    ensures |es| == |ts|
  {
    seq(|ts|, i requires 0 <= i < |ts| => Entry(CategoryKey(ts[i].category), ts[i].amount))
  }

  function EntryKeys(es: seq<Entry>): (ks: seq<string>)
    ensures |ks| == |es|
  {
    seq(|es|, i requires 0 <= i < |es| => es[i].key)
  }

  /** The map after `set`ting each entry in turn. */
  function Aggregate(es: seq<Entry>): CategoryBuckets {
    if |es| == 0 then CategoryBuckets([], map[])
    else
      var prev := Aggregate(es[..|es| - 1]);
      var e := es[|es| - 1];
      SetBucket(prev, e.key, Accumulate(Get(prev, e.key), e.amount))
  }

  /** `aggregateByCategory`. */
  function AggregateByCategory(ts: seq<Transaction>): CategoryBuckets {
    Aggregate(Entries(ts))
  }

  /** One more entry is one more `set` on the running map. */
  lemma AggregateSnoc(es: seq<Entry>, e: Entry)
    ensures Aggregate(es + [e]) == SetBucket(Aggregate(es), e.key, Accumulate(Get(Aggregate(es), e.key), e.amount))
  {
    assert (es + [e])[..|es|] == es;
  }

  /** Setting an existing key changes its slice in place; setting a new key
      adds a slice at the end. */
  lemma DataAfterSet(b: CategoryBuckets, k: string, v: real)
    requires WellFormed(b)
    ensures WellFormed(SetBucket(b, k, v))
    ensures k in b.labels ==> Data(SetBucket(b, k, v)) == Data(b)[IndexOf(b.labels, k) := v]
    ensures k !in b.labels ==> Data(SetBucket(b, k, v)) == Data(b) + [v]
  {
    if k in b.labels {
      DataAfterSetOld(b, k, v);
    } else {
      DataAfterSetNew(b, k, v);
    }
  }

  lemma DataAfterSetOld(b: CategoryBuckets, k: string, v: real)
    requires WellFormed(b) && k in b.labels
    ensures WellFormed(SetBucket(b, k, v))
    ensures Data(SetBucket(b, k, v)) == Data(b)[IndexOf(b.labels, k) := v]
  {
    var r := SetBucket(b, k, v);
    var p := IndexOf(b.labels, k);
    assert r.labels == b.labels;
    forall i | 0 <= i < |b.labels|
      ensures Data(r)[i] == Data(b)[p := v][i]
    {
      if i != p {
        assert b.labels[i] != k;
      }
    }
  }

  lemma DataAfterSetNew(b: CategoryBuckets, k: string, v: real)
    requires WellFormed(b) && k !in b.labels
    ensures WellFormed(SetBucket(b, k, v))
    ensures Data(SetBucket(b, k, v)) == Data(b) + [v]
  {
    var r := SetBucket(b, k, v);
    assert r.labels == b.labels + [k];
    forall i | 0 <= i < |r.labels|
      ensures Data(r)[i] == (Data(b) + [v])[i]
    {
      if i < |b.labels| {
        assert r.labels[i] == b.labels[i] != k;
      }
    }
    forall i, j | 0 <= i < j < |r.labels|
      ensures r.labels[i] != r.labels[j]
    {
      if j == |b.labels| {
        assert r.labels[i] in b.labels;
      }
    }
  }

  lemma {:induction false} AggregateWellFormed(es: seq<Entry>)
    ensures WellFormed(Aggregate(es))
    decreases |es|
  {
    if |es| > 0 {
      var init, e := es[..|es| - 1], es[|es| - 1];
      AggregateWellFormed(init);
      var b := Aggregate(init);
      DataAfterSet(b, e.key, Accumulate(Get(b, e.key), e.amount));
    }
  }

  lemma AggregateLabels(es: seq<Entry>)
    ensures Aggregate(es).labels == Dedup(EntryKeys(es))
    ensures forall c :: c in Aggregate(es).totals <==> c in EntryKeys(es)
  {
    AggregateLabelOrder(es);
    AggregateTotalKeys(es);
  }

  lemma {:induction false} AggregateLabelOrder(es: seq<Entry>)
    ensures Aggregate(es).labels == Dedup(EntryKeys(es))
    decreases |es|
  {
    if |es| > 0 {
      var init := es[..|es| - 1];
      AggregateLabelOrder(init);
      assert EntryKeys(es)[..|es| - 1] == EntryKeys(init);
    }
  }

  lemma {:induction false} AggregateTotalKeys(es: seq<Entry>)
    ensures forall c :: c in Aggregate(es).totals <==> c in EntryKeys(es)
    decreases |es|
  {
    if |es| > 0 {
      var init, e := es[..|es| - 1], es[|es| - 1];
      AggregateTotalKeys(init);
      assert EntryKeys(es) == EntryKeys(init) + [e.key];
    }
  }


  /** The labels are the distinct keys in first-seen order, and they are
      exactly the keys the map holds entries for. */
  lemma LabelsInFirstSeenOrder(ts: seq<Transaction>)
    ensures AggregateByCategory(ts).labels == Dedup(Keys(ts))
    ensures forall c :: c in AggregateByCategory(ts).totals <==> c in Keys(ts)
  {
    assert EntryKeys(Entries(ts)) == Keys(ts);
    AggregateLabels(Entries(ts));
  }

  lemma CategoryLabelsFirstSeen(ts: seq<Transaction>)
    ensures AggregateByCategory(ts).labels == Dedup(Keys(ts))
  {
    assert EntryKeys(Entries(ts)) == Keys(ts);
    AggregateLabelOrder(Entries(ts));
  }

  /** The coerced amounts of the entries with key `c`. */
  function LabelSum(es: seq<Entry>, c: string): real {
    if |es| == 0 then 0.0
    else LabelSum(es[..|es| - 1], c) + (if es[|es| - 1].key == c then Coerce(es[|es| - 1].amount) else 0.0)
  }

  lemma LabelSumSnoc(es: seq<Entry>, e: Entry, c: string)
    ensures LabelSum(es + [e], c) == LabelSum(es, c) + (if e.key == c then Coerce(e.amount) else 0.0)
  {
    assert (es + [e])[..|es|] == es;
  }

  /** The position just after the last entry with key `c` whose amount is
      not a number; 0 when there is none. */
  function LastReset(es: seq<Entry>, c: string): (r: nat)
    ensures r <= |es|
  {
    if |es| == 0 then 0
    else if es[|es| - 1].key == c && es[|es| - 1].amount.NaN? then |es|
    else LastReset(es[..|es| - 1], c)
  }

  /** A category's total is the sum of its amounts since its last
      non-numeric amount: that one reset the running total to 0. */
  lemma {:induction false} TotalSinceReset(es: seq<Entry>, c: string)
    ensures Get(Aggregate(es), c) == LabelSum(es[LastReset(es, c)..], c)
    decreases |es|
  {
    if |es| == 0 {
      assert es[0..] == [];
    } else {
      var init, e := es[..|es| - 1], es[|es| - 1];
      GetAfterLast(es, c);
      if e.key == c && e.amount.NaN? {
        assert es[|es|..] == [];
      } else {
        var r0 := LastReset(init, c);
        calc {
          Get(Aggregate(es), c);
          { TotalSinceReset(init, c); }
          LabelSum(init[r0..], c) + (if e.key == c then Coerce(e.amount) else 0.0);
          { LabelSumSnoc(init[r0..], e, c); }
          LabelSum(init[r0..] + [e], c);
          { SuffixSnoc(es, r0); }
          LabelSum(es[r0..], c);
        }
      }
    }
  }

  lemma SuffixSnoc(es: seq<Entry>, r: nat)
    requires r < |es|
    ensures es[r..] == es[..|es| - 1][r..] + [es[|es| - 1]]
  {
  }

  /** The last entry changes only its own key's total, by `Accumulate`. */
  lemma GetAfterLast(es: seq<Entry>, c: string)
    requires |es| > 0
    ensures var b, e := Aggregate(es[..|es| - 1]), es[|es| - 1];
      Get(Aggregate(es), c) == if e.key == c then Accumulate(Get(b, c), e.amount) else Get(b, c)
  {
  }

  /** The same, stated on the transactions. */
  lemma CategoryTotalSinceReset(ts: seq<Transaction>, c: string)
    ensures Get(AggregateByCategory(ts), c) == LabelSum(Entries(ts)[LastReset(Entries(ts), c)..], c)
  {
    TotalSinceReset(Entries(ts), c);
  }

  lemma {:induction false} NoReset(es: seq<Entry>, c: string)
    requires forall i :: 0 <= i < |es| ==> es[i].amount.Num?
    ensures LastReset(es, c) == 0
    decreases |es|
  {
    if |es| > 0 {
      NoReset(es[..|es| - 1], c);
    }
  }

  /** With every amount numeric nothing resets, and each category total is
      the sum of the amounts of its transactions. */
  lemma NumericCategoryTotal(ts: seq<Transaction>, c: string)
    requires AllNumeric(ts)
    ensures Get(AggregateByCategory(ts), c) == LabelSum(Entries(ts), c)
  {
    NoReset(Entries(ts), c);
    TotalSinceReset(Entries(ts), c);
    assert Entries(ts)[0..] == Entries(ts);
  }

  /** The reset in one picture: 5, then a non-numeric amount, then 3 in the
      same category total 3, not 8. */
  lemma ResetExample(t1: Transaction, t2: Transaction, t3: Transaction)
    requires t1.category == t2.category == t3.category == "Food"
    requires t1.amount == Num(5.0) && t2.amount == NaN && t3.amount == Num(3.0)
    ensures Get(AggregateByCategory([t1, t2, t3]), CategoryKey("Food")) == 3.0
  {
    var es := Entries([t1, t2, t3]);
    var c := CategoryKey("Food");
    assert es[1] == Entry(c, NaN) && es[2] == Entry(c, Num(3.0));
    ResetAtSecond(es, c);
    TotalSinceReset(es, c);
  }

  /** Three entries whose middle one is a non-numeric amount of `c`:
      the total of `c` restarts there and is the third amount. */
  lemma ResetAtSecond(es: seq<Entry>, c: string)
    requires |es| == 3 && es[1].key == c && es[1].amount.NaN?
    requires es[2].key == c && es[2].amount.Num?
    ensures LastReset(es, c) == 2
    ensures LabelSum(es[2..], c) == Coerce(es[2].amount)
  {
    assert es[..2][1] == es[1];
    assert es[2..] == [es[2]] && es[2..][..0] == [];
  }

  /** A single-entry sequence sums to its entry. */
  lemma SumSingleton(v: real)
    ensures Sum([v]) == v
  {
    assert [v][..0] == [];
  }

  /** The coerced amounts of the entries, in order. */
  function EntryAmounts(es: seq<Entry>): (xs: seq<real>)
    ensures |xs| == |es|
  {
    seq(|es|, i requires 0 <= i < |es| => Coerce(es[i].amount))
  }

  /** Adding `x` to one key's running total adds `x` to the sum of the
      slices, whether the key is old or new. */
  lemma DataSumStep(b: CategoryBuckets, k: string, x: real)
    requires WellFormed(b)
    ensures Sum(Data(SetBucket(b, k, Get(b, k) + x))) == Sum(Data(b)) + x
  {
    if k in b.labels {
      DataSumStepOld(b, k, x);
    } else {
      DataSumStepNew(b, k, x);
    }
  }

  lemma DataSumStepOld(b: CategoryBuckets, k: string, x: real)
    requires WellFormed(b) && k in b.labels
    ensures Sum(Data(SetBucket(b, k, Get(b, k) + x))) == Sum(Data(b)) + x
  {
    DataAfterSet(b, k, Get(b, k) + x);
    var p := IndexOf(b.labels, k);
    assert Data(b)[p] == Get(b, k);
    SumUpdate(Data(b), p, x);
  }

  lemma DataSumStepNew(b: CategoryBuckets, k: string, x: real)
    requires WellFormed(b) && k !in b.labels
    ensures Sum(Data(SetBucket(b, k, Get(b, k) + x))) == Sum(Data(b)) + x
  {
    assert Get(b, k) == 0.0;
    DataAfterSet(b, k, x);
    SumAppend(Data(b), [x]);
    SumSingleton(x);
  }

  /** The last entry's amount is the last term of the amounts' sum. */
  lemma EntryAmountsSnoc(es: seq<Entry>)
    requires |es| > 0
    ensures Sum(EntryAmounts(es)) == Sum(EntryAmounts(es[..|es| - 1])) + Coerce(es[|es| - 1].amount)
  {
    assert EntryAmounts(es)[..|es| - 1] == EntryAmounts(es[..|es| - 1]);
  }

  /** With every amount numeric the slices add up to the entries' amounts. */
  lemma {:induction false} DataSumsToTotal(es: seq<Entry>)
    requires forall i :: 0 <= i < |es| ==> es[i].amount.Num?
    ensures Sum(Data(Aggregate(es))) == Sum(EntryAmounts(es))
    decreases |es|
  {
    if |es| > 0 {
      var init, x := es[..|es| - 1], es[|es| - 1].amount.value;
      calc {
        Sum(Data(Aggregate(es)));
        { AggregateWellFormed(init); DataSumAccumulate(Aggregate(init), es[|es| - 1]); }
        Sum(Data(Aggregate(init))) + x;
        { DataSumsToTotal(init); }
        Sum(EntryAmounts(init)) + x;
        { EntryAmountsSnoc(es); }
        Sum(EntryAmounts(es));
      }
    }
  }

  /** Adding a numeric amount to its key's bucket adds it to the sum of the
      slices. */
  lemma DataSumAccumulate(b: CategoryBuckets, e: Entry)
    requires WellFormed(b) && e.amount.Num?
    ensures Sum(Data(SetBucket(b, e.key, Accumulate(Get(b, e.key), e.amount)))) == Sum(Data(b)) + e.amount.value
  {
    DataSumStep(b, e.key, e.amount.value);
  }

  /** Conservation: with every amount numeric, the slices add up to the
      "Total Spent" figure. */
  lemma CategoryDataSumsToTotal(ts: seq<Transaction>)
    requires AllNumeric(ts)
    ensures Sum(Data(AggregateByCategory(ts))) == Total(ts)
  {
    DataSumsToTotal(Entries(ts));
    assert EntryAmounts(Entries(ts)) == Amounts(ts);
  }

  /** With no positive amount, no category total is positive: a sum of
      non-positive terms and a reset to 0 both stay at or below 0. */
  lemma {:induction false} NonPositiveTotals(es: seq<Entry>, c: string)
    requires forall i :: 0 <= i < |es| ==> Coerce(es[i].amount) <= 0.0
    ensures Get(Aggregate(es), c) <= 0.0
    decreases |es|
  {
    if |es| > 0 {
      var init := es[..|es| - 1];
      NonPositiveTotals(init, c);
      NonPositiveTotals(init, es[|es| - 1].key);
      assert Coerce(es[|es| - 1].amount) <= 0.0;
    }
  }

  // ---------------------------------------------------------------------
  // The doughnut and the KPIs

  /** `hasCatData`: a non-empty list with some positive category total. */
  predicate HasCatData(ts: seq<Transaction>) {
    var data := Data(AggregateByCategory(ts));
    |ts| > 0 && exists i :: 0 <= i < |data| && data[i] > 0.0
  }

  /** The `hasData` conjunct adds nothing: there is category data exactly
      when some key's total is positive. */
  lemma HasCatDataIffPositiveTotal(ts: seq<Transaction>)
    ensures HasCatData(ts) <==> exists c :: c in Keys(ts) && Get(AggregateByCategory(ts), c) > 0.0
  {
    var b := AggregateByCategory(ts);
    LabelsInFirstSeenOrder(ts);
    if HasCatData(ts) {
      var i :| 0 <= i < |Data(b)| && Data(b)[i] > 0.0;
      assert b.labels[i] in Keys(ts);
    }
    if exists c :: c in Keys(ts) && Get(b, c) > 0.0 {
      var c :| c in Keys(ts) && Get(b, c) > 0.0;
      var i := IndexOf(b.labels, c);
      assert Data(b)[i] > 0.0;
    }
  }

  /** A positive total of numeric amounts always shows real slices. */
  lemma PositiveTotalHasCatData(ts: seq<Transaction>)
    requires AllNumeric(ts) && Total(ts) > 0.0
    ensures HasCatData(ts)
  {
    CategoryDataSumsToTotal(ts);
    PositiveSumHasPositiveTerm(Data(AggregateByCategory(ts)));
    assert |ts| > 0;
  }

  /** A list of refunds and non-numeric amounts shows the placeholder. */
  lemma NoPositiveAmountNoCatData(ts: seq<Transaction>)
    requires forall i :: 0 <= i < |ts| ==> Coerce(ts[i].amount) <= 0.0
    ensures !HasCatData(ts)
  {
    var b := AggregateByCategory(ts);
    forall i | 0 <= i < |Data(b)|
      ensures Data(b)[i] <= 0.0
    {
      NonPositiveTotals(Entries(ts), b.labels[i]);
    }
  }

  /** The placeholder slice's colours. */
  const PLACEHOLDER_COLORS: CategoryStyle.Colors := CategoryStyle.Colors(
    [Rgba(Some(203), Some(213), Some(225), 0.6)],
    [Rgba(Some(203), Some(213), Some(225), 0.8)])

  datatype Doughnut = Doughnut(labels: seq<string>, data: seq<real>, colors: CategoryStyle.Colors)

  /** The doughnut's dataset: the categories when there is category data,
      otherwise a single grey "No data" slice of size 1. */
  function CategoryChart(ts: seq<Transaction>): (d: Doughnut)
    ensures |d.labels| >= 1 && |d.data| == |d.labels|
    ensures |d.colors.bg| == |d.labels| && |d.colors.hover| == |d.labels|
    ensures HasCatData(ts) ==> (d.labels == Dedup(Keys(ts)) &&
      forall i :: 0 <= i < |d.labels| ==> d.data[i] == Get(AggregateByCategory(ts), d.labels[i]))
    ensures HasCatData(ts) ==> d.colors == ColorsForLabels(d.labels)
    ensures !HasCatData(ts) ==> d.labels == ["No data"] && d.data == [1.0] && d.colors == PLACEHOLDER_COLORS
  {
    if HasCatData(ts) then CategorySlices(ts)
    else Doughnut(["No data"], [1.0], PLACEHOLDER_COLORS)
  }

  /** The doughnut of the category totals, one slice per category. */
  function CategorySlices(ts: seq<Transaction>): (d: Doughnut)
    requires HasCatData(ts)
    ensures |d.labels| >= 1 && |d.data| == |d.labels|
    ensures |d.colors.bg| == |d.labels| && |d.colors.hover| == |d.labels|
    ensures d.labels == Dedup(Keys(ts))
    ensures forall i :: 0 <= i < |d.labels| ==> d.data[i] == Get(AggregateByCategory(ts), d.labels[i])
    ensures d.colors == ColorsForLabels(d.labels)
  {
    var b := AggregateByCategory(ts);
    CategoryLabelsFirstSeen(ts);
    Doughnut(b.labels, Data(b), ColorsForLabels(b.labels))
  }


  /** The KPI header. */
  datatype Kpis = Kpis(total: real, avg: real, count: nat)

  /** `total` and `avg` (0 for an empty list). */
  function ComputeKpis(ts: seq<Transaction>): (k: Kpis)
    ensures k.count == |ts|
    ensures k.avg * (k.count as real) == k.total
    ensures |ts| == 0 ==> k.total == 0.0 && k.avg == 0.0
  {
    var total := Total(ts);
    if |ts| == 0 then
      Kpis(total, 0.0, 0)
    else
      Kpis(total, total / (|ts| as real), |ts|)
  }

  /** The "Total Spent" figure agrees with the doughnut when every amount
      is numeric. */
  lemma KpiTotalMatchesSlices(ts: seq<Transaction>)
    requires AllNumeric(ts)
    ensures Sum(Data(AggregateByCategory(ts))) == ComputeKpis(ts).total
  {
    CategoryDataSumsToTotal(ts);
  }

  /** The "Total Spent" figure agrees with the bar chart when every
      transaction is dated inside the window. */
  lemma KpiTotalMatchesBars(ts: seq<Transaction>, dateOf: string -> Option<YearMonth>, now: YearMonth, n: int)
    requires forall i :: 0 <= i < |ts| ==> dateOf(ts[i].date).Some? && dateOf(ts[i].date).value in Window(now, n)
    ensures Sum(Buckets(ts, dateOf, Window(now, n))) == ComputeKpis(ts).total
  {
    WindowDistinct(now, n);
    BucketsSumToInWindowTotal(ts, dateOf, Window(now, n));
    AllInWindowTotal(ts, dateOf, Window(now, n));
  }
}
