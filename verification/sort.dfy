/** `app/hooks/useSort.ts`: the sort state, its comparator and the stable
    copy-and-sort of the transaction list. */
module Sort {
  import opened Text
  import opened Transactions

  datatype SortBy = ByDate | ByAmount | ByCategory
  datatype SortDir = Asc | Desc

  datatype SortState = SortState(sortBy: SortBy, sortDir: SortDir)

  /** The state the hook starts in: newest date first. */
  const INITIAL: SortState := SortState(ByDate, Desc)

  /** Under the initial state a transaction sorts before another exactly
      when its date is later, and ties exactly on equal dates. */
  lemma InitialIsNewestFirst(a: Transaction, b: Transaction)
    ensures Compare(INITIAL, a, b) < 0.0 <==> LexCmp(b.date, a.date) < 0
    ensures Compare(INITIAL, a, b) == 0.0 <==> a.date == b.date
  {
    LexCmpAntisymmetric(a.date, b.date);
  }

  /** `toggleSortDir`. */
  function ToggleDir(d: SortDir): (r: SortDir)
    ensures r != d
  {
    if d == Asc then Desc else Asc
  }

  lemma ToggleDirInvolution(d: SortDir)
    ensures ToggleDir(ToggleDir(d)) == d
  {
  }

  /** Toggling changes the direction and nothing else. */
  function Toggle(s: SortState): (r: SortState)
    ensures r.sortBy == s.sortBy && r.sortDir != s.sortDir
  {
    s.(sortDir := ToggleDir(s.sortDir))
  }

  /** Toggling twice restores the state. */
  lemma ToggleInvolution(s: SortState)
    ensures Toggle(Toggle(s)) == s
  {
  }

  /** `setSortBy`: a new key, the direction kept. */
  function SetSortBy(s: SortState, key: SortBy): (r: SortState)
    ensures r.sortBy == key && r.sortDir == s.sortDir
  {
    s.(sortBy := key)
  }

  /** Choosing a key and toggling the direction do not interfere. */
  lemma SetSortByCommutesWithToggle(s: SortState, key: SortBy)
    ensures Toggle(SetSortBy(s, key)) == SetSortBy(Toggle(s), key)
  {
  }

  /** `cmp` before the direction is applied. Dates compare code point by
      code point; amounts by `a.amount - b.amount`, where a `NaN`
      difference counts as +0 as `Array.prototype.sort` treats it;
      categories ignoring ASCII case. */
  function KeyCompare(key: SortBy, a: Transaction, b: Transaction): real {
    match key
    case ByDate => LexCmp(a.date, b.date) as real
    case ByAmount =>
      (match (a.amount, b.amount)
       case (Num(x), Num(y)) => x - y
       case _ => 0.0)
    case ByCategory => LexCmp(Lower(a.category), Lower(b.category)) as real
  }

  /** The comparator passed to `sort`: `cmp` for ascending, `-cmp` for
      descending. */
  function Compare(st: SortState, a: Transaction, b: Transaction): real {
    if st.sortDir == Asc then KeyCompare(st.sortBy, a, b) else -KeyCompare(st.sortBy, a, b)
  }

  /** Swapping the arguments negates the result, for every pair. */
  lemma CompareAntisymmetric(st: SortState, a: Transaction, b: Transaction)
    ensures Compare(st, a, b) == -Compare(st, b, a)
  {
    match st.sortBy
    case ByDate => LexCmpAntisymmetric(a.date, b.date);
    case ByAmount =>
    case ByCategory => LexCmpAntisymmetric(Lower(a.category), Lower(b.category));
  }

  /** The comparator is consistent on `t` unless it sorts by amount and
      `t`'s amount is not a number. */
  predicate Comparable(key: SortBy, t: Transaction) {
    key != ByAmount || t.amount.Num?
  }

  predicate AllComparable(key: SortBy, s: seq<Transaction>) {
    forall i :: 0 <= i < |s| ==> Comparable(key, s[i])
  }

  lemma KeyCompareTransitive(key: SortBy, a: Transaction, b: Transaction, c: Transaction)
    requires Comparable(key, a) && Comparable(key, b) && Comparable(key, c)
    requires KeyCompare(key, a, b) <= 0.0 && KeyCompare(key, b, c) <= 0.0
    ensures KeyCompare(key, a, c) <= 0.0
  {
    match key
    case ByDate => LexCmpTransitive(a.date, b.date, c.date);
    case ByAmount =>
    case ByCategory => LexCmpTransitive(Lower(a.category), Lower(b.category), Lower(c.category));
  }

  /** On comparable elements the comparator is a total preorder. */
  lemma CompareTransitive(st: SortState, a: Transaction, b: Transaction, c: Transaction)
    requires Comparable(st.sortBy, a) && Comparable(st.sortBy, b) && Comparable(st.sortBy, c)
    requires Compare(st, a, b) <= 0.0 && Compare(st, b, c) <= 0.0
    ensures Compare(st, a, c) <= 0.0
  {
    if st.sortDir == Asc {
      KeyCompareTransitive(st.sortBy, a, b, c);
    } else {
      CompareAntisymmetric(st, a, b);
      CompareAntisymmetric(st, b, c);
      CompareAntisymmetric(st, a, c);
      KeyCompareTransitive(st.sortBy, c, b, a);
    }
  }

  /** Comparing equal is an equivalence on comparable elements. */
  lemma TiesTransitive(st: SortState, a: Transaction, b: Transaction, c: Transaction)
    requires Comparable(st.sortBy, a) && Comparable(st.sortBy, b) && Comparable(st.sortBy, c)
    requires Compare(st, a, b) == 0.0 && Compare(st, b, c) == 0.0
    ensures Compare(st, a, c) == 0.0
  {
    CompareAntisymmetric(st, a, b);
    CompareAntisymmetric(st, b, c);
    CompareAntisymmetric(st, a, c);
    CompareTransitive(st, a, b, c);
    CompareTransitive(st, c, b, a);
  }

  /** Without the comparability premise the preorder breaks: 1 ties with a
      non-numeric amount, which ties with 0, yet 1 sorts after 0. */
  lemma NaNBreaksTransitivity(a: Transaction, b: Transaction, c: Transaction)
    requires a.amount == Num(1.0) && b.amount == NaN && c.amount == Num(0.0)
    ensures KeyCompare(ByAmount, a, b) == 0.0 && KeyCompare(ByAmount, b, c) == 0.0
    ensures KeyCompare(ByAmount, a, c) > 0.0
  {
  }

  /** Insert `x` after the last element that does not sort after it. */
  function Insert(st: SortState, s: seq<Transaction>, x: Transaction): (r: seq<Transaction>)
    ensures multiset(r) == multiset(s) + multiset{x}
    ensures |r| == |s| + 1
    ensures |s| == 0 ==> r == [x]
    ensures |s| > 0 ==> r[|r| - 1] == x || r[|r| - 1] == s[|s| - 1]
  {
    if |s| == 0 then [x]
    else if Compare(st, s[|s| - 1], x) <= 0.0 then s + [x]
    else
      var init := s[..|s| - 1];
      assert s == init + [s[|s| - 1]];
      Insert(st, init, x) + [s[|s| - 1]]
  }

  /** `[...transactions].sort(comparator)`: a stable insertion sort of a
      copy; the input is a value and is left as it was. */
  function SortList(st: SortState, s: seq<Transaction>): (r: seq<Transaction>)
    ensures multiset(r) == multiset(s)
    ensures |r| == |s|
  {
    if |s| == 0 then []
    else
      var init := s[..|s| - 1];
      assert s == init + [s[|s| - 1]];
      Insert(st, SortList(st, init), s[|s| - 1])
  }

  /** Each element compares at most 0 with its successor. */
  predicate SortedAdjacent(st: SortState, r: seq<Transaction>) {
    forall i :: 0 <= i < |r| - 1 ==> Compare(st, r[i], r[i + 1]) <= 0.0
  }

  lemma {:induction false} InsertKeepsSorted(st: SortState, s: seq<Transaction>, x: Transaction)
    requires SortedAdjacent(st, s)
    ensures SortedAdjacent(st, Insert(st, s, x))
    decreases |s|
  {
    if |s| > 0 && Compare(st, s[|s| - 1], x) > 0.0 {
      var init, last := s[..|s| - 1], s[|s| - 1];
      InsertKeepsSorted(st, init, x);
      var r' := Insert(st, init, x);
      CompareAntisymmetric(st, last, x);
      if |init| > 0 {
        assert Compare(st, init[|init| - 1], last) <= 0.0;
      }
      assert Compare(st, r'[|r'| - 1], last) <= 0.0;
      var r := r' + [last];
      forall i | 0 <= i < |r| - 1
        ensures Compare(st, r[i], r[i + 1]) <= 0.0
      {
        if i < |r'| - 1 {
          assert r[i] == r'[i] && r[i + 1] == r'[i + 1];
        }
      }
    }
  }

  /** Adjacent elements of the result are in order, whatever the input,
      because the comparator is antisymmetric on every pair. */
  lemma {:induction false} SortIsSortedAdjacent(st: SortState, s: seq<Transaction>)
    ensures SortedAdjacent(st, SortList(st, s))
    decreases |s|
  {
    if |s| > 0 {
      SortIsSortedAdjacent(st, s[..|s| - 1]);
      InsertKeepsSorted(st, SortList(st, s[..|s| - 1]), s[|s| - 1]);
    }
  }

  /** With a consistent comparator, any two elements are in order, not just
      neighbours. */
  lemma SortIsSorted(st: SortState, s: seq<Transaction>)
    requires AllComparable(st.sortBy, s)
    ensures forall i, j :: 0 <= i < j < |SortList(st, s)| ==>
      Compare(st, SortList(st, s)[i], SortList(st, s)[j]) <= 0.0
  {
    var r := SortList(st, s);
    SortIsSortedAdjacent(st, s);
    forall i | 0 <= i < |r|
      ensures Comparable(st.sortBy, r[i])
    {
      assert r[i] in multiset(s);
    }
    forall i, j | 0 <= i < j < |r|
      ensures Compare(st, r[i], r[j]) <= 0.0
    {
      SortedChain(st, r, i, j);
    }
  }

  lemma {:induction false} SortedChain(st: SortState, r: seq<Transaction>, i: nat, j: nat)
    requires SortedAdjacent(st, r) && AllComparable(st.sortBy, r)
    requires i < j < |r|
    ensures Compare(st, r[i], r[j]) <= 0.0
    decreases j - i
  {
    if i + 1 < j {
      SortedChain(st, r, i + 1, j);
      CompareTransitive(st, r[i], r[i + 1], r[j]);
    }
  }

  /** The elements of `s` that tie with `x`, in order. */
  function Ties(st: SortState, s: seq<Transaction>, x: Transaction): seq<Transaction> {
    if |s| == 0 then []
    else Ties(st, s[..|s| - 1], x) + (if Compare(st, s[|s| - 1], x) == 0.0 then [s[|s| - 1]] else [])
  }

  lemma TiesSnoc(st: SortState, s: seq<Transaction>, y: Transaction, x: Transaction)
    ensures Ties(st, s + [y], x) == Ties(st, s, x) + (if Compare(st, y, x) == 0.0 then [y] else [])
  {
    assert (s + [y])[..|s|] == s;
  }

  /** Of two elements out of order, at most one ties with a third. */
  lemma NotBothTie(st: SortState, last: Transaction, y: Transaction, x: Transaction)
    requires Comparable(st.sortBy, last) && Comparable(st.sortBy, y) && Comparable(st.sortBy, x)
    requires Compare(st, last, y) > 0.0
    ensures Compare(st, y, x) != 0.0 || Compare(st, last, x) != 0.0
  {
    if Compare(st, y, x) == 0.0 && Compare(st, last, x) == 0.0 {
      CompareAntisymmetric(st, y, x);
      TiesTransitive(st, last, x, y);
    }
  }

  lemma {:induction false} InsertKeepsTies(st: SortState, s: seq<Transaction>, y: Transaction, x: Transaction)
    requires AllComparable(st.sortBy, s) && Comparable(st.sortBy, y) && Comparable(st.sortBy, x)
    ensures Ties(st, Insert(st, s, y), x) == Ties(st, s, x) + (if Compare(st, y, x) == 0.0 then [y] else [])
    decreases |s|
  {
    if |s| == 0 {
      assert Insert(st, s, y) == [] + [y];
      TiesSnoc(st, [], y, x);
    } else if Compare(st, s[|s| - 1], y) <= 0.0 {
      TiesSnoc(st, s, y, x);
    } else {
      var init, last := s[..|s| - 1], s[|s| - 1];
      var ty := if Compare(st, y, x) == 0.0 then [y] else [];
      var tl := if Compare(st, last, x) == 0.0 then [last] else [];
      assert AllComparable(st.sortBy, init) by {
        assert forall i :: 0 <= i < |init| ==> init[i] == s[i];
      }
      NotBothTie(st, last, y, x);
      calc {
        Ties(st, Insert(st, s, y), x);
        Ties(st, Insert(st, init, y) + [last], x);
        { TiesSnoc(st, Insert(st, init, y), last, x); }
        Ties(st, Insert(st, init, y), x) + tl;
        { InsertKeepsTies(st, init, y, x); }
        Ties(st, init, x) + ty + tl;
        { assert ty == [] || tl == []; }
        Ties(st, init, x) + tl + ty;
        { assert s == init + [last]; TiesSnoc(st, init, last, x); }
        Ties(st, s, x) + ty;
      }
    }
  }

  /** Stability: the elements that tie with any `x` come out in the order
      they went in. Descending order negates the comparator, so ties keep
      their input order there too. */
  lemma {:induction false} SortIsStable(st: SortState, s: seq<Transaction>, x: Transaction)
    requires AllComparable(st.sortBy, s) && Comparable(st.sortBy, x)
    ensures Ties(st, SortList(st, s), x) == Ties(st, s, x)
    decreases |s|
  {
    if |s| > 0 {
      var init, last := s[..|s| - 1], s[|s| - 1];
      assert s == init + [last];
      SortIsStable(st, init, x);
      var r := SortList(st, init);
      forall i | 0 <= i < |r|
        ensures Comparable(st.sortBy, r[i])
      {
        assert r[i] in multiset(init);
      }
      InsertKeepsTies(st, r, last, x);
      TiesSnoc(st, init, last, x);
    }
  }

  /** Two elements already in order stay in order. */
  lemma SortTwo(st: SortState, a: Transaction, b: Transaction)
    requires Compare(st, a, b) <= 0.0
    ensures SortList(st, [a, b]) == [a, b]
  {
    assert [a, b][..1] == [a] && [a][..0] == [];
    assert SortList(st, [a]) == [a];
  }

  /** Descending is not the reverse of ascending: two records with the same
      date stay in input order under both directions. */
  lemma DescendingIsNotReversedAscending(a: Transaction, b: Transaction)
    requires a.date == b.date && a != b
    ensures SortList(SortState(ByDate, Asc), [a, b]) == [a, b]
    ensures SortList(SortState(ByDate, Desc), [a, b]) == [a, b]
  {
    SortTwo(SortState(ByDate, Asc), a, b);
    SortTwo(SortState(ByDate, Desc), a, b);
  }

  /** How the three labels of the next example compare, descending. */
  lemma CategoryExampleCompares(a: Transaction, b: Transaction, c: Transaction)
    requires a.category == "Banana" && b.category == "apple" && c.category == "Cherry"
    ensures Compare(SortState(ByCategory, Desc), a, b) == -1.0
    ensures Compare(SortState(ByCategory, Desc), b, c) == 1.0
    ensures Compare(SortState(ByCategory, Desc), a, c) == 1.0
  {
    var la, lb, lc := Lower(a.category), Lower(b.category), Lower(c.category);
    assert la[0] == 'b' && |la| > 0;
    assert lb[0] == 'a' && |lb| > 0;
    assert lc[0] == 'c' && |lc| > 0;
    assert LexCmp(la, lb) == 1;
    assert LexCmp(lb, lc) == -1;
    assert LexCmp(la, lc) == -1;
  }

  /** Three elements where the third sorts before both others, which are
      already in order, come out third-first. */
  lemma SortThree(st: SortState, a: Transaction, b: Transaction, c: Transaction)
    requires Compare(st, a, b) <= 0.0 && Compare(st, b, c) > 0.0 && Compare(st, a, c) > 0.0
    ensures SortList(st, [a, b, c]) == [c, a, b]
  {
    assert [a, b, c][..2] == [a, b];
    SortTwo(st, a, b);
    InsertFront(st, a, b, c);
  }

  lemma InsertFront(st: SortState, a: Transaction, b: Transaction, c: Transaction)
    requires Compare(st, b, c) > 0.0 && Compare(st, a, c) > 0.0
    ensures Insert(st, [a, b], c) == [c, a, b]
  {
    assert [a, b][..1] == [a];
    InsertBeforeOne(st, a, c);
  }

  lemma InsertBeforeOne(st: SortState, a: Transaction, c: Transaction)
    requires Compare(st, a, c) > 0.0
    ensures Insert(st, [a], c) == [c, a]
  {
    assert [a][..0] == [];
  }


  /** Sorting `"Banana"`, `"apple"`, `"Cherry"` by category, descending,
      gives `"Cherry"`, `"Banana"`, `"apple"`. */
  lemma CategoryDescendingExample(a: Transaction, b: Transaction, c: Transaction)
    requires a.category == "Banana" && b.category == "apple" && c.category == "Cherry"
    ensures SortList(SortState(ByCategory, Desc), [a, b, c]) == [c, a, b]
  {
    CategoryExampleCompares(a, b, c);
    SortThree(SortState(ByCategory, Desc), a, b, c);
  }
}
