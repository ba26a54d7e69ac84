/** The transaction record (`types/Transaction.ts`) and the two coercions
    every component applies to it: `Number(amount) || 0` and
    `(category || "Uncategorized").trim()`. */
module Transactions {
  import opened Wrappers
  import opened Text
  import opened Sums

  /** A JavaScript number as the program sees an amount: a finite value, or
      `NaN` (what a non-numeric amount becomes). */
  datatype Amount = Num(value: real) | NaN

  /** `Number(amount) || 0`: `NaN` counts as zero. */
  function Coerce(a: Amount): real {
    match a
    case Num(v) => v
    case NaN => 0.0
  }

  /** A stored transaction; the demo store's record has the same shape. */
  datatype Transaction = Transaction(
    id: string,
    amount: Amount,
    category: string,
    date: string,
    notes: string,
    createdAt: Option<string>)

  /** What the form hands to its caller: a transaction without `id` and
      `createdAt`. */
  datatype NewTransaction = NewTransaction(
    amount: Amount,
    category: string,
    date: string,
    notes: string)

  const UNCATEGORIZED: string := "Uncategorized"

  /** `category || "Uncategorized"`: only the empty string is falsy. */
  function OrUncategorized(c: string): (r: string)
    ensures r != ""
    ensures c != "" ==> r == c
  {
    if c == "" then UNCATEGORIZED else c
  }

  /** The grouping key `(category || "Uncategorized").trim()`, written with
      the default already trimmed (`CategoryKeyIsTrimmedDefault` shows the
      two agree). */
  function CategoryKey(c: string): string {
    if c == "" then UNCATEGORIZED else Trim(c)
  }

  lemma CategoryKeyIsTrimmedDefault(c: string)
    ensures CategoryKey(c) == Trim(OrUncategorized(c))
  {
    if c == "" {
      TrimUncategorized();
    }
  }

  /** The default is substituted before trimming, so a white-space-only
      category becomes the empty key, not "Uncategorized". */
  lemma CategoryKeyCases(c: string)
    ensures c == "" ==> CategoryKey(c) == UNCATEGORIZED
    ensures c != "" && AllSpace(c) ==> CategoryKey(c) == ""
    ensures c != "" && !AllSpace(c) ==> CategoryKey(c) != "" && CategoryKey(c) == Trim(c)
  {
    TrimUncategorized();
    TrimEmptyIffAllSpace(OrUncategorized(c));
  }

  lemma TrimUncategorized()
    ensures Trim(UNCATEGORIZED) == UNCATEGORIZED
  {
    var u := UNCATEGORIZED;
    assert !IsSpace(u[0]) && !IsSpace(u[|u| - 1]);
    TrimStartNoLeadingSpace(u);
    TrimEndNoTrailingSpace(u);
  }

  /** The grouping key of every transaction, in list order. */
  function Keys(ts: seq<Transaction>): (ks: seq<string>)
    ensures |ks| == |ts|
    ensures forall i :: 0 <= i < |ts| ==> ks[i] == CategoryKey(ts[i].category)
  {
    seq(|ts|, i requires 0 <= i < |ts| => CategoryKey(ts[i].category))
  }

  predicate AllNumeric(ts: seq<Transaction>) {
    forall i :: 0 <= i < |ts| ==> ts[i].amount.Num?
  }

  /** The coerced amounts, in list order. */
  function Amounts(ts: seq<Transaction>): seq<real> {
    seq(|ts|, i requires 0 <= i < |ts| => Coerce(ts[i].amount))
  }

  /** `transactions.reduce((s, t) => s + (Number(t.amount) || 0), 0)`. */
  function Total(ts: seq<Transaction>): real {
    Sum(Amounts(ts))
  }

  lemma TotalSnoc(ts: seq<Transaction>, t: Transaction)
    ensures Total(ts + [t]) == Total(ts) + Coerce(t.amount)
  {
    assert Amounts(ts + [t])[..|ts|] == Amounts(ts);
  }
}
