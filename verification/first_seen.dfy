/** First-seen order: what a JavaScript `Map` keeps its keys in, and what
    the list view hands out colour slots by. */
module FirstSeen {

  predicate Distinct(s: seq<string>) {
    forall i, j :: 0 <= i < j < |s| ==> s[i] != s[j]
  }

  /** Position of the first occurrence of `x` in `s`. */
  function IndexOf(s: seq<string>, x: string): (i: nat)
    requires x in s
    ensures i < |s| && s[i] == x
    ensures forall j :: 0 <= j < i ==> s[j] != x
  {
    if s[0] == x then 0 else 1 + IndexOf(s[1..], x)
  }

  /** The distinct elements of `xs`, each where it first occurs. */
  function Dedup(xs: seq<string>): (d: seq<string>)
    ensures forall x :: x in d <==> x in xs
    ensures Distinct(d)
    ensures |d| <= |xs|
  {
    if |xs| == 0 then []
    else
      var d := Dedup(xs[..|xs| - 1]);
      if xs[|xs| - 1] in d then d else d + [xs[|xs| - 1]]
  }

  /** Dedup of a longer list: the new element is kept only if it is new. */
  lemma DedupSnoc(xs: seq<string>, x: string)
    ensures Dedup(xs + [x]) == if x in Dedup(xs) then Dedup(xs) else Dedup(xs) + [x]
  {
    assert (xs + [x])[..|xs|] == xs;
  }

  /** Appending an element does not move the first occurrence of another. */
  lemma IndexOfAppend(s: seq<string>, z: string, x: string)
    requires x in s
    ensures IndexOf(s + [z], x) == IndexOf(s, x)
  {
    var i := IndexOf(s, x);
    var k := IndexOf(s + [z], x);
    assert (s + [z])[i] == x;
    assert s[k] == x;
  }

  /** Dedup lists the distinct elements in the order of their first
      occurrences. */
  lemma {:induction false} DedupFirstSeenOrder(xs: seq<string>, i: nat, j: nat)
    requires i < j < |Dedup(xs)|
    ensures IndexOf(xs, Dedup(xs)[i]) < IndexOf(xs, Dedup(xs)[j])
    decreases |xs|
  {
    var init, z := xs[..|xs| - 1], xs[|xs| - 1];
    assert xs == init + [z];
    var d' := Dedup(init);
    var a, b := Dedup(xs)[i], Dedup(xs)[j];
    if j < |d'| {
      assert a == d'[i] && b == d'[j];
      DedupFirstSeenOrder(init, i, j);
      IndexOfAppend(init, z, a);
      IndexOfAppend(init, z, b);
    } else {
      assert b == z && z !in init;
      assert a == d'[i] && a in init;
      IndexOfAppend(init, z, a);
      assert IndexOf(xs, b) == |init|;
    }
  }

  /** Deduplicating a prefix yields a prefix of the deduplicated whole: the
      slots already handed out are never renumbered. */
  lemma {:induction false} DedupPrefix(xs: seq<string>, k: nat)
    requires k <= |xs|
    ensures Dedup(xs[..k]) <= Dedup(xs)
    decreases |xs|
  {
    if k < |xs| {
      var init := xs[..|xs| - 1];
      assert xs[..k] == init[..k];
      DedupPrefix(init, k);
    } else {
      assert xs[..k] == xs;
    }
  }
}
