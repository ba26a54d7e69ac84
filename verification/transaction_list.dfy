/** `app/components/TransactionList.tsx`: each row's colour slot, handed out
    per category in the order categories first appear in the list, and the
    text a row shows. Formatting through `Intl` is left out. */
module TransactionList {
  import opened Text
  import opened FirstSeen
  import opened Transactions

  const CHIP_CLASSES: seq<string> := [
    "bg-indigo-100 text-indigo-700 border-indigo-200",
    "bg-emerald-100 text-emerald-700 border-emerald-200",
    "bg-sky-100 text-sky-700 border-sky-200",
    "bg-amber-100 text-amber-800 border-amber-200",
    "bg-rose-100 text-rose-700 border-rose-200",
    "bg-violet-100 text-violet-700 border-violet-200",
    "bg-cyan-100 text-cyan-700 border-cyan-200"
  ]

  const AVATAR_BG: seq<string> := [
    "from-indigo-500 to-violet-500",
    "from-emerald-500 to-teal-500",
    "from-sky-500 to-blue-500",
    "from-amber-500 to-orange-500",
    "from-rose-500 to-pink-500",
    "from-violet-500 to-fuchsia-500",
    "from-cyan-500 to-teal-500"
  ]

  /** `CHIP_CLASSES.length`; the avatar palette has as many entries, so one
      slot picks both. */
  const SLOTS: nat := 7

  lemma PalettesHaveSlots()
    ensures |CHIP_CLASSES| == SLOTS && |AVATAR_BG| == SLOTS
  {
  }

  /** The render's `catIndex` map and `next` counter. */
  datatype Slots = Slots(catIndex: map<string, nat>, next: nat)

  const NO_SLOTS: Slots := Slots(map[], 0)

  datatype Indexed = Indexed(slots: Slots, index: nat)

  /** The map step of `getIndex` for an already computed key: a key seen
      before keeps its slot; a new key gets `next % 7` and bumps `next`. */
  function Assign(s: Slots, key: string): (r: Indexed)
    ensures key in r.slots.catIndex && r.slots.catIndex[key] == r.index
    ensures r.slots.catIndex.Keys == s.catIndex.Keys + {key}
    ensures forall k :: k in s.catIndex ==> r.slots.catIndex[k] == s.catIndex[k]
    ensures key !in s.catIndex ==> r.index < SLOTS
  {
    if key in s.catIndex then Indexed(s, s.catIndex[key])
    else Indexed(Slots(s.catIndex[key := s.next % SLOTS], s.next + 1), s.next % SLOTS)
  }

  /** `getIndex(cat)`. */
  function GetIndex(s: Slots, cat: string): (r: Indexed)
    ensures r == Assign(s, CategoryKey(cat))
  {
    Assign(s, CategoryKey(cat))
  }

  /** What `catIndex` and `next` hold after the keys `seen` went through
      `getIndex`: one entry per distinct key, whose value is the key's
      first-seen rank modulo 7. */
  ghost predicate Tracks(s: Slots, seen: seq<string>) {
    && s.next == |Dedup(seen)|
    && (forall k :: k in s.catIndex <==> k in seen)
    && (forall k :: k in s.catIndex ==> k in seen && s.catIndex[k] == IndexOf(Dedup(seen), k) % SLOTS)
  }

  lemma TracksNothing()
    ensures Tracks(NO_SLOTS, [])
  {
  }

  /** `getIndex` keeps the map in step with the keys seen so far, and
      returns the key's first-seen rank modulo 7. */
  lemma AssignTracks(s: Slots, seen: seq<string>, key: string)
    requires Tracks(s, seen)
    ensures Tracks(Assign(s, key).slots, seen + [key])
    ensures Assign(s, key).index == IndexOf(Dedup(seen + [key]), key) % SLOTS
  {
    DedupSnoc(seen, key);
    if key in s.catIndex {
      AssignSeenKey(s, seen, key);
    } else {
      AssignNewKey(s, seen, key);
    }
  }

  lemma AssignSeenKey(s: Slots, seen: seq<string>, key: string)
    requires Tracks(s, seen) && key in s.catIndex
    requires Dedup(seen + [key]) == Dedup(seen)
    ensures Tracks(Assign(s, key).slots, seen + [key])
    ensures Assign(s, key).index == IndexOf(Dedup(seen + [key]), key) % SLOTS
  {
    assert Assign(s, key).slots == s;
    forall k
      ensures k in s.catIndex <==> k in seen + [key]
    {
      if k == key {
        assert (seen + [key])[|seen|] == key;
      }
    }
  }

  lemma AssignNewKey(s: Slots, seen: seq<string>, key: string)
    requires Tracks(s, seen) && key !in s.catIndex
    requires Dedup(seen + [key]) == Dedup(seen) + [key]
    ensures Tracks(Assign(s, key).slots, seen + [key])
    ensures Assign(s, key).index == IndexOf(Dedup(seen + [key]), key) % SLOTS
  {
    var d := Dedup(seen);
    var d' := d + [key];
    var m := Assign(s, key).slots.catIndex;
    assert key !in d;
    assert IndexOf(d', key) == |d|;
    forall k
      ensures k in m <==> k in seen + [key]
    {
      assert k in seen + [key] <==> k in seen || k == key;
    }
    forall k | k in m
      ensures m[k] == IndexOf(d', k) % SLOTS
    {
      if k != key {
        IndexOfAppend(d, key, k);
      }
    }
  }

  /** Asking again for a key returns the same slot and changes nothing. */
  lemma AssignAgain(s: Slots, key: string)
    ensures Assign(Assign(s, key).slots, key) == Indexed(Assign(s, key).slots, Assign(s, key).index)
  {
  }

  /** Every slot `getIndex` hands out picks an entry of both palettes. */
  lemma AssignInRange(s: Slots, seen: seq<string>, key: string)
    requires Tracks(s, seen)
    ensures Assign(s, key).index < |CHIP_CLASSES| && Assign(s, key).index < |AVATAR_BG|
  {
    AssignTracks(s, seen, key);
  }

  /** One list item: the delete target, the colour slot, the avatar
      letter, the chip label and the amount shown (before currency
      formatting). The slot picks the chip and avatar classes. */
  datatype Row = Row(
    id: string,
    slot: nat,
    initial: string,
    chipText: string,
    shown: real)
  {
    function Chip(): string
      requires slot < SLOTS
    {
      CHIP_CLASSES[slot]
    }

    function Avatar(): string
      requires slot < SLOTS
    {
      AVATAR_BG[slot]
    }
  }

  /** What the component renders: the empty-list placeholder or the list. */
  datatype View = NoTransactionsYet | Rows(rows: seq<Row>)

  /** `(t.category?.[0] || "?").toUpperCase()`: the first character of the
      raw, untrimmed category, upper-cased; `"?"` for an empty category. */
  function AvatarLetter(c: string): (r: string)
    ensures |r| == 1 && !('a' <= r[0] <= 'z')
    ensures r == "?" <==> c == "" || c[0] == '?'
    ensures c != "" ==> Lower(r) == Lower(c[..1])
    ensures c != "" && !('a' <= c[0] <= 'z') ==> r == c[..1]
  {
    if |c| == 0 then "?" else [UpperChar(c[0])]
  }

  /** The letter ignores case, but not leading white space: a category
      typed as `" food"` shows a blank avatar although it groups as
      `"food"`. */
  lemma AvatarLetterIgnoresCase(a: string, b: string)
    requires Lower(a) == Lower(b)
    ensures AvatarLetter(a) == AvatarLetter(b)
  {
    if |a| > 0 {
      assert Lower(a)[0] == Lower(b)[0];
    }
  }

  lemma AvatarLetterOfPaddedCategory()
    ensures AvatarLetter(" food") == " "
    ensures CategoryKey(" food") == "food"
  {
    assert " food"[..1] == " ";
    PaddedFoodKey();
  }

  lemma PaddedFoodKey()
    ensures CategoryKey(" food") == "food"
  {
    var c := " food";
    assert IsSpace(c[0]) && !IsSpace(c[1]);
    assert TrimStart(c) == TrimStart(c[1..]);
    TrimStartNoLeadingSpace(c[1..]);
    assert TrimStart(c) == "food";
    assert !IsSpace("food"[3]);
    TrimEndNoTrailingSpace("food");
  }

  /** The row for `t` given its slot. The chip shows `category ||
      "Uncategorized"`, untrimmed; the amount `Number(amount) || 0`. */
  function MakeRow(t: Transaction, slot: nat): (r: Row)
    requires slot < SLOTS
    ensures r.slot == slot && r.id == t.id && r.chipText != ""
  {
    Row(t.id, slot, AvatarLetter(t.category), OrUncategorized(t.category), Coerce(t.amount))
  }

  /** The first-seen rank of row `j`'s key: how many distinct keys appear
      before that key's first occurrence. */
  function Rank(ts: seq<Transaction>, j: nat): (k: nat)
    requires j < |ts|
    ensures k < |Dedup(Keys(ts))| && Dedup(Keys(ts))[k] == CategoryKey(ts[j].category)
  {
    var ks := Keys(ts);
    assert ks[j] in ks;
    IndexOf(Dedup(ks), ks[j])
  }

  /** The slot row `j` of the list gets: its rank modulo 7. */
  function SlotOf(ts: seq<Transaction>, j: nat): (slot: nat)
    requires j < |ts|
    ensures slot < SLOTS
    ensures Rank(ts, j) < SLOTS ==> slot == Rank(ts, j)
  {
    var r := Rank(ts, j);
    SmallSlot(r);
    r % SLOTS
  }

  lemma SmallSlot(r: nat)
    ensures r < SLOTS ==> r % SLOTS == r
  {
  }

  /** The first occurrence in a list is the first occurrence in any prefix
      that contains it. */
  lemma IndexOfPrefix(p: seq<string>, s: seq<string>, x: string)
    requires p <= s && x in p
    ensures IndexOf(s, x) == IndexOf(p, x)
  {
    var i := IndexOf(p, x);
    assert s[i] == x;
  }

  /** The rank a key gets when it is first met equals its rank in the whole
      list. */
  lemma RankAtFirstMeeting(ks: seq<string>, j: nat)
    requires j < |ks|
    ensures ks[j] in Dedup(ks[..j + 1]) && ks[j] in Dedup(ks)
    ensures IndexOf(Dedup(ks[..j + 1]), ks[j]) == IndexOf(Dedup(ks), ks[j])
  {
    assert ks[..j + 1][j] == ks[j];
    DedupPrefix(ks, j + 1);
    IndexOfPrefix(Dedup(ks[..j + 1]), Dedup(ks), ks[j]);
  }

  /** The slot the `j`-th key gets when `getIndex` first meets it. */
  ghost function RankSlot(ks: seq<string>, j: nat): nat
    requires j < |ks|
  {
    assert ks[..j + 1][j] == ks[j];
    IndexOf(Dedup(ks[..j + 1]), ks[j]) % SLOTS
  }

  /** `getIndex` applied to the `i`-th key, given the state after the
      keys before it. */
  lemma StepTracks(s: Slots, ks: seq<string>, i: nat, r: Indexed)
    requires i < |ks| && Tracks(s, ks[..i]) && r == Assign(s, ks[i])
    ensures Tracks(r.slots, ks[..i + 1]) && r.index == RankSlot(ks, i)
  {
    assert ks[..i] + [ks[i]] == ks[..i + 1];
    AssignTracks(s, ks[..i], ks[i]);
  }

  /** `rows` are the first rows of the list, each with the slot its key
      got when first met. */
  ghost predicate RowsSoFar(rows: seq<Row>, ts: seq<Transaction>, ks: seq<string>) {
    && |rows| <= |ts| == |ks|
    && forall j :: 0 <= j < |rows| ==> rows[j] == MakeRow(ts[j], RankSlot(ks, j))
  }

  lemma RowsSoFarSnoc(rows: seq<Row>, ts: seq<Transaction>, ks: seq<string>, row: Row)
    requires RowsSoFar(rows, ts, ks) && |rows| < |ts|
    requires row == MakeRow(ts[|rows|], RankSlot(ks, |rows|))
    ensures RowsSoFar(rows + [row], ts, ks)
  {
  }

  /** One iteration of `transactions.map`: look up the slot and build the
      row. */
  method RenderStep(s: Slots, rows: seq<Row>, ts: seq<Transaction>, ghost ks: seq<string>)
      returns (s': Slots, rows': seq<Row>)
    requires RowsSoFar(rows, ts, ks) && |rows| < |ts|
    requires ks[|rows|] == CategoryKey(ts[|rows|].category)
    requires Tracks(s, ks[..|rows|])
    ensures RowsSoFar(rows', ts, ks) && |rows'| == |rows| + 1
    ensures Tracks(s', ks[..|rows'|])
  {
    var i := |rows|;
    var r := GetIndex(s, ts[i].category);
    StepTracks(s, ks, i, r);
    s' := r.slots;
    var row := MakeRow(ts[i], r.index);
    RowsSoFarSnoc(rows, ts, ks, row);
    rows' := rows + [row];
  }

  /** `transactions.map(...)` with `getIndex` run over the list in order. */
  method RenderRows(ts: seq<Transaction>, ghost ks: seq<string>) returns (rows: seq<Row>)
    requires ks == Keys(ts)
    ensures |rows| == |ts|
    ensures forall j :: 0 <= j < |ts| ==> rows[j] == MakeRow(ts[j], RankSlot(ks, j))
  {
    var s := NO_SLOTS;
    rows := [];
    while |rows| < |ts|
      invariant RowsSoFar(rows, ts, ks)
      invariant Tracks(s, ks[..|rows|])
      decreases |ts| - |rows|
    {
      s, rows := RenderStep(s, rows, ts, ks);
    }
  }

  /** The whole component. */
  method Render(ts: seq<Transaction>) returns (v: View)
    ensures |ts| == 0 <==> v == NoTransactionsYet
    ensures v.Rows? ==> |v.rows| == |ts|
    ensures v.Rows? ==> forall j :: 0 <= j < |ts| ==> v.rows[j] == MakeRow(ts[j], SlotOf(ts, j))
  {
    if |ts| == 0 {
      return NoTransactionsYet;
    }
    var rows := RenderRows(ts, Keys(ts));
    forall j | 0 <= j < |ts|
      ensures RankSlot(Keys(ts), j) == SlotOf(ts, j)
    {
      RankAtFirstMeeting(Keys(ts), j);
    }
    return Rows(rows);
  }

  /** Rows whose categories share a key share a slot, and so their chip and
      avatar colours. */
  lemma SameKeySameSlot(ts: seq<Transaction>, i: nat, j: nat)
    requires i < |ts| && j < |ts|
    requires CategoryKey(ts[i].category) == CategoryKey(ts[j].category)
    ensures SlotOf(ts, i) == SlotOf(ts, j)
    ensures Rank(ts, i) == Rank(ts, j)
  {
    var ks := Keys(ts);
    assert ks[i] == ks[j];
  }

  /** The first seven distinct keys get seven different slots. */
  lemma SlotsDistinctUpToSeven(ts: seq<Transaction>, i: nat, j: nat)
    requires i < |ts| && j < |ts|
    requires Rank(ts, i) < SLOTS && Rank(ts, j) < SLOTS
    ensures SlotOf(ts, i) == SlotOf(ts, j) <==> CategoryKey(ts[i].category) == CategoryKey(ts[j].category)
  {
    if CategoryKey(ts[i].category) == CategoryKey(ts[j].category) {
      SameKeySameSlot(ts, i, j);
    }
  }

  /** The eighth distinct key wraps around to the first one's slot. */
  lemma EighthKeyWraps(ts: seq<Transaction>, i: nat, j: nat)
    requires i < |ts| && j < |ts|
    requires Rank(ts, i) == 0 && Rank(ts, j) == SLOTS
    ensures SlotOf(ts, i) == SlotOf(ts, j)
    ensures CategoryKey(ts[i].category) != CategoryKey(ts[j].category)
  {
  }

  /** An empty category and one typed as `"Uncategorized"` share a key, so
      a slot; a white-space-only one has a key of its own. */
  lemma EmptyCategorySharesUncategorizedSlot(ts: seq<Transaction>, i: nat, j: nat)
    requires i < |ts| && j < |ts|
    requires ts[i].category == "" && ts[j].category == UNCATEGORIZED
    ensures SlotOf(ts, i) == SlotOf(ts, j)
    ensures MakeRow(ts[i], SlotOf(ts, i)).chipText == MakeRow(ts[j], SlotOf(ts, j)).chipText
  {
    CategoryKeyCases(ts[i].category);
    CategoryKeyCases(ts[j].category);
    TrimUncategorized();
  }
}
