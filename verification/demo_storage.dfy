/** `lib/demoStorage.ts`: the signed-out demo list, kept as JSON under one
    key of the browser's session storage. The storage is a value passed in
    and returned; the clock and the random id suffix are parameters. */
module DemoStorage {
  import opened Wrappers
  import opened Transactions
  import opened HexColor
  import opened MonthWindow

  /** The storage key the list lives under. */
  const KEY: string := "pf_demo_transactions_v1"

  /** What a storage slot holds: the text `JSON.stringify` wrote for a list,
      represented by the list `JSON.parse` reads back from it, or any other
      text. */
  datatype Stored = Serialized(items: seq<Transaction>) | Raw(text: string)

  type Storage = map<string, Stored>

  /** An amount after `JSON.stringify` and `JSON.parse`: `NaN` is written as
      `null`, which every reader of the amount (`Number(x) || 0`, the
      subtraction in the sort comparator) takes as 0. */
  function JsonAmount(a: Amount): (r: Amount)
    ensures r.Num? && Coerce(r) == Coerce(a)
    ensures a.Num? ==> r == a
  {
    match a
    case Num(_) => a
    case NaN => Num(0.0)
  }

  /** A list after a JSON round trip. */
  function Json(l: seq<Transaction>): (r: seq<Transaction>)
    ensures |r| == |l| && AllNumeric(r)
    ensures forall i :: 0 <= i < |l| ==> r[i] == l[i].(amount := JsonAmount(l[i].amount))
  {
    seq(|l|, i requires 0 <= i < |l| => l[i].(amount := JsonAmount(l[i].amount)))
  }

  /** The round trip loses nothing from a list whose amounts are numbers. */
  lemma JsonKeepsNumericList(l: seq<Transaction>)
    requires AllNumeric(l)
    ensures Json(l) == l
  {
  }

  /** Writing a list that was read back changes nothing. */
  lemma JsonIdempotent(l: seq<Transaction>)
    ensures Json(Json(l)) == Json(l)
  {
    JsonKeepsNumericList(Json(l));
  }

  /** Every total the charts compute is the same before and after. */
  lemma JsonKeepsTotal(l: seq<Transaction>)
    ensures Amounts(Json(l)) == Amounts(l)
    ensures Total(Json(l)) == Total(l)
  {
    assert Amounts(Json(l)) == Amounts(l);
  }

  lemma JsonAppend(a: seq<Transaction>, b: seq<Transaction>)
    ensures Json(a + b) == Json(a) + Json(b)
  {
  }

  /** `loadDemo`: the stored list; an empty list when nothing is stored,
      when the stored text is empty, or when it is not JSON (`JSON.parse`
      throws and the `catch` answers `[]`). */
  function LoadDemo(st: Storage): (l: seq<Transaction>)
    ensures KEY !in st ==> l == []
    ensures KEY in st && st[KEY].Raw? ==> l == []
  {
    if KEY in st && st[KEY].Serialized? then st[KEY].items else []
  }

  /** `saveDemo`: overwrite the slot with the serialised list. */
  function SaveDemo(st: Storage, l: seq<Transaction>): (st': Storage)
    ensures KEY in st'
    ensures forall k :: k != KEY ==> (k in st' <==> k in st)
    ensures forall k :: k != KEY && k in st ==> st'[k] == st[k]
  {
    st[KEY := Serialized(Json(l))]
  }

  /** Loading what was saved gives the list back, up to the JSON round
      trip. */
  lemma LoadAfterSave(st: Storage, l: seq<Transaction>)
    ensures LoadDemo(SaveDemo(st, l)) == Json(l)
    ensures AllNumeric(l) ==> LoadDemo(SaveDemo(st, l)) == l
  {
  }

  /** A later save replaces an earlier one completely. */
  lemma SaveOverwrites(st: Storage, l1: seq<Transaction>, l2: seq<Transaction>)
    ensures SaveDemo(SaveDemo(st, l1), l2) == SaveDemo(st, l2)
  {
  }

  /** The id `demo_${Date.now()}_${Math.random().toString(36).slice(2, 8)}`:
      the millisecond clock in decimal and six characters of the random
      number's base-36 text after its `0.`. */
  function DemoId(millis: nat, random36: string): (id: string)
    ensures |id| > 5 && id[..5] == "demo_"
  {
    "demo_" + NatToDecimal(millis) + "_" + Slice(random36, 2, 8)
  }

  datatype Added = Added(storage: Storage, item: Transaction)

  /** `addDemo(t)`: the new record, with its id and `createdAt` stamp, goes
      to the front of the stored list; the record is returned. */
  function AddDemo(st: Storage, t: NewTransaction, nowIso: string, millis: nat, random36: string): (r: Added)
    ensures r.item.createdAt == Some(nowIso) && r.item.id == DemoId(millis, random36)
    ensures r.item.amount == t.amount && r.item.category == t.category
    ensures r.item.date == t.date && r.item.notes == t.notes
    ensures LoadDemo(r.storage) == Json([r.item] + LoadDemo(st))
    ensures forall k :: k != KEY && k in st ==> k in r.storage && r.storage[k] == st[k]
  {
    var item := Transaction(DemoId(millis, random36), t.amount, t.category, t.date, t.notes, Some(nowIso));
    Added(SaveDemo(st, [item] + LoadDemo(st)), item)
  }

  /** Whatever `saveDemo` wrote reads back with numeric amounts. */
  lemma SavedListIsNumeric(st: Storage, l: seq<Transaction>)
    ensures AllNumeric(LoadDemo(SaveDemo(st, l)))
  {
  }

  /** On a list `saveDemo` wrote, `addDemo` puts the new record in front and
      leaves the old records as they were, in their order. */
  lemma AddDemoPrepends(st: Storage, t: NewTransaction, nowIso: string, millis: nat, random36: string)
    requires AllNumeric(LoadDemo(st)) && t.amount.Num?
    ensures var r := AddDemo(st, t, nowIso, millis, random36);
      LoadDemo(r.storage) == [r.item] + LoadDemo(st)
      && |LoadDemo(r.storage)| == |LoadDemo(st)| + 1
  {
    var r := AddDemo(st, t, nowIso, millis, random36);
    var l := [r.item] + LoadDemo(st);
    assert AllNumeric(l) by {
      forall i | 0 <= i < |l|
        ensures l[i].amount.Num?
      {
        if i > 0 {
          assert l[i] == LoadDemo(st)[i - 1];
        }
      }
    }
    JsonKeepsNumericList(l);
  }

  /** `list.filter((x) => x.id !== id)`. */
  function WithoutId(l: seq<Transaction>, id: string): (r: seq<Transaction>)
    ensures |r| <= |l|
    ensures forall x :: x in r <==> x in l && x.id != id
  {
    if |l| == 0 then []
    else
      var init, last := l[..|l| - 1], l[|l| - 1];
      assert l == init + [last];
      WithoutId(init, id) + (if last.id != id then [last] else [])
  }

  lemma WithoutIdSnoc(l: seq<Transaction>, x: Transaction, id: string)
    ensures WithoutId(l + [x], id) == WithoutId(l, id) + (if x.id != id then [x] else [])
  {
    assert (l + [x])[..|l|] == l;
  }

  /** The filter works piecewise, so the records it keeps stay in their
      order. */
  lemma {:induction false} WithoutIdAppend(a: seq<Transaction>, b: seq<Transaction>, id: string)
    ensures WithoutId(a + b, id) == WithoutId(a, id) + WithoutId(b, id)
    decreases |b|
  {
    if |b| == 0 {
      assert a + b == a;
    } else {
      var init, last := b[..|b| - 1], b[|b| - 1];
      var kept := if last.id != id then [last] else [];
      assert b == init + [last];
      assert a + b == (a + init) + [last];
      calc {
        WithoutId(a + b, id);
        { WithoutIdSnoc(a + init, last, id); }
        WithoutId(a + init, id) + kept;
        { WithoutIdAppend(a, init, id); }
        (WithoutId(a, id) + WithoutId(init, id)) + kept;
        WithoutId(a, id) + (WithoutId(init, id) + kept);
        { WithoutIdSnoc(init, last, id); }
        WithoutId(a, id) + WithoutId(b, id);
      }
    }
  }

  /** Nothing is removed when no record has the id. */
  lemma {:induction false} WithoutAbsentId(l: seq<Transaction>, id: string)
    requires forall i :: 0 <= i < |l| ==> l[i].id != id
    ensures WithoutId(l, id) == l
    decreases |l|
  {
    if |l| > 0 {
      var init, last := l[..|l| - 1], l[|l| - 1];
      assert forall i :: 0 <= i < |init| ==> init[i] == l[i];
      WithoutAbsentId(init, id);
      assert WithoutId(l, id) == WithoutId(init, id) + [last];
      assert l == init + [last];
    }
  }

  lemma {:induction false} WithoutIdJson(l: seq<Transaction>, id: string)
    ensures WithoutId(Json(l), id) == Json(WithoutId(l, id))
    decreases |l|
  {
    if |l| > 0 {
      var init, last := l[..|l| - 1], l[|l| - 1];
      SplitLast(l);
      WithoutIdJson(init, id);
      WithoutIdJsonSnoc(init, last, id);
    }
  }

  /** A non-empty list is its front followed by its last record. */
  lemma SplitLast(l: seq<Transaction>)
    requires |l| > 0
    ensures l == l[..|l| - 1] + [l[|l| - 1]]
  {
  }

  /** The step of the induction: the last record is kept or dropped alike
      before and after the round trip. */
  lemma WithoutIdJsonSnoc(init: seq<Transaction>, last: Transaction, id: string)
    requires WithoutId(Json(init), id) == Json(WithoutId(init, id))
    ensures WithoutId(Json(init + [last]), id) == Json(WithoutId(init + [last], id))
  {
    var j := Json([last])[0];
    var kept := if last.id != id then [last] else [];
    assert Json([last]) == [j];
    assert (if j.id != id then [j] else []) == Json(kept);
    calc {
      WithoutId(Json(init + [last]), id);
      { JsonAppend(init, [last]); }
      WithoutId(Json(init) + [j], id);
      { WithoutIdSnoc(Json(init), j, id); }
      WithoutId(Json(init), id) + Json(kept);
      Json(WithoutId(init, id)) + Json(kept);
      { JsonAppend(WithoutId(init, id), kept); }
      Json(WithoutId(init, id) + kept);
      { WithoutIdSnoc(init, last, id); }
      Json(WithoutId(init + [last], id));
    }
  }

  /** `removeDemo(id)`: every record with that id is dropped and the list
      saved again. */
  function RemoveDemo(st: Storage, id: string): (st': Storage)
    ensures forall x :: x in LoadDemo(st') ==> x.id != id
    ensures LoadDemo(st') == Json(WithoutId(LoadDemo(st), id))
    ensures forall k :: k != KEY && k in st ==> k in st' && st'[k] == st[k]
  {
    SaveDemo(st, WithoutId(LoadDemo(st), id))
  }

  /** Removing an id no record has leaves the list as it was. */
  lemma RemoveAbsentId(st: Storage, id: string)
    requires forall x :: x in LoadDemo(st) ==> x.id != id
    requires AllNumeric(LoadDemo(st))
    ensures LoadDemo(RemoveDemo(st, id)) == LoadDemo(st)
  {
    WithoutAbsentId(LoadDemo(st), id);
    JsonKeepsNumericList(LoadDemo(st));
  }

  /** Removing twice is removing once. */
  lemma RemoveIdempotent(st: Storage, id: string)
    ensures RemoveDemo(RemoveDemo(st, id), id) == RemoveDemo(st, id)
  {
    var l := WithoutId(LoadDemo(st), id);
    WithoutIdJson(l, id);
    WithoutAbsentId(l, id);
    JsonIdempotent(l);
  }

  lemma RemoveAfterPrepend(item: Transaction, l: seq<Transaction>)
    requires forall x :: x in l ==> x.id != item.id
    ensures Json(WithoutId(Json([item] + l), item.id)) == Json(l)
  {
    var id := item.id;
    calc {
      Json(WithoutId(Json([item] + l), id));
      { WithoutIdJson([item] + l, id); }
      Json(Json(WithoutId([item] + l, id)));
      { WithoutIdOwnId(item, l); }
      Json(Json(WithoutId(l, id)));
      { WithoutAbsentId(l, id); }
      Json(Json(l));
      { JsonIdempotent(l); }
      Json(l);
    }
  }

  /** A record at the front goes when its own id is removed. */
  lemma WithoutIdOwnId(item: Transaction, l: seq<Transaction>)
    ensures WithoutId([item] + l, item.id) == WithoutId(l, item.id)
  {
    var id := item.id;
    WithoutIdAppend([item], l, id);
    assert WithoutId([item], id) == [] by {
      assert [item] == [] + [item];
      WithoutIdSnoc([], item, id);
    }
    assert [] + WithoutId(l, id) == WithoutId(l, id);
  }

  /** Adding a record whose id is new and then removing it leaves the list
      as it was (after one JSON round trip). */
  lemma RemoveUndoesAdd(st: Storage, t: NewTransaction, nowIso: string, millis: nat, random36: string)
    requires forall x :: x in LoadDemo(st) ==> x.id != DemoId(millis, random36)
    ensures LoadDemo(RemoveDemo(AddDemo(st, t, nowIso, millis, random36).storage, DemoId(millis, random36)))
         == Json(LoadDemo(st))
  {
    var a := AddDemo(st, t, nowIso, millis, random36);
    RemoveAfterPrepend(a.item, LoadDemo(st));
  }

  /** A slot holding anything but a serialised list reads as empty, and the
      next `addDemo` overwrites it with a one-record list. */
  lemma AddOverUnreadableSlot(st: Storage, t: NewTransaction, nowIso: string, millis: nat, random36: string)
    requires KEY in st && st[KEY].Raw?
    ensures |LoadDemo(AddDemo(st, t, nowIso, millis, random36).storage)| == 1
  {
  }
}
