/** `constants/categoryStyle.ts`: the shared palette, the normalising label
    hash, per-label colours and the category meta (colour slot and icon). */
module CategoryStyle {
  import opened Wrappers
  import opened Text
  import opened StringHash
  import opened HexColor
  import opened Transactions

  /** `CATEGORY_BASE`; four entries carry an alpha pair. */
  const CATEGORY_BASE: seq<string> := [
    "#6366F1", "#35b8f5ff", "#f55d0bff", "#10b953ff", "#F43F5E",
    "#8B5CF6", "#14b8b5ff", "#84CC16", "#3b76f6ff", "#FB923C"
  ]

  /** Every palette entry is a well-formed colour, so every slot reads as
      three bytes in 0..255 whatever alpha is asked for. */
  lemma PaletteIsValid(a: real)
    ensures |CATEGORY_BASE| == 10
    ensures forall i :: 0 <= i < 10 ==> IsHexColor(CATEGORY_BASE[i])
    ensures forall i :: 0 <= i < 10 ==> ValidRgb(HexToRgba(CATEGORY_BASE[i], a))
  {
    forall i | 0 <= i < 10
      ensures IsHexColor(CATEGORY_BASE[i]) && ValidRgb(HexToRgba(CATEGORY_BASE[i], a))
    {
      HexColorBytes(CATEGORY_BASE[i], a);
    }
  }

  /** `(labelRaw || "Uncategorized").trim().toLowerCase()`. */
  function NormalizeLabel(raw: string): string {
    Lower(CategoryKey(raw))
  }

  /** `hashLabelToIndex` of this file: the 32-bit hash of the normalised
      label, as a slot in `[0, mod)`. */
  function HashLabelToIndex(raw: string, mod: int): (idx: int)
    requires mod > 0
    ensures 0 <= idx < mod
    ensures idx == IndexFor(ToInt32(PolyHash(NormalizeLabel(raw))), mod)
  {
    SlotOf(NormalizeLabel(raw), mod)
  }

  /** The slot of an already normalised label. */
  function SlotOf(norm: string, mod: int): (idx: int)
    requires mod > 0
    ensures 0 <= idx < mod
    ensures idx == IndexFor(ToInt32(PolyHash(norm)), mod)
  {
    Hash32IsWrappedPolyHash(norm);
    IndexFor(Hash32(norm), mod)
  }

  /** For a non-empty label the normalised form is the lower-cased trim. */
  lemma NormalizeNonEmpty(raw: string)
    requires raw != ""
    ensures NormalizeLabel(raw) == Lower(Trim(raw))
  {
    TrimEmptyIffAllSpace(raw);
  }

  /** Labels that differ only in ASCII case get the same slot, as do labels
      that differ only in surrounding white space (the empty label aside,
      which becomes "Uncategorized"). */
  lemma HashIgnoresCase(a: string, b: string, mod: int)
    requires mod > 0 && a != "" && b != ""
    requires Lower(Trim(a)) == Lower(Trim(b))
    ensures HashLabelToIndex(a, mod) == HashLabelToIndex(b, mod)
  {
    NormalizeNonEmpty(a);
    NormalizeNonEmpty(b);
  }

  lemma HashIgnoresPadding(p: string, s: string, q: string, mod: int)
    requires mod > 0 && s != "" && AllSpace(p) && AllSpace(q)
    ensures HashLabelToIndex(p + s + q, mod) == HashLabelToIndex(s, mod)
  {
    TrimIgnoresPadding(p, s, q);
    assert |p + s + q| > 0;
    HashIgnoresCase(p + s + q, s, mod);
  }

  /** A white-space-only label trims to the empty string; the hash of the
      empty string is 0, so its slot is 0. */
  lemma WhitespaceLabelIsSlotZero(raw: string, mod: int)
    requires mod > 0 && raw != "" && AllSpace(raw)
    ensures HashLabelToIndex(raw, mod) == 0
  {
  }

  /** The empty label is hashed as "uncategorized", whatever its case. */
  lemma EmptyLabelIsUncategorized(mod: int)
    requires mod > 0
    ensures HashLabelToIndex("", mod) == HashLabelToIndex("Uncategorized", mod)
    ensures HashLabelToIndex("", mod) == HashLabelToIndex("UNCATEGORIZED", mod)
  {
    TrimUncategorized();
    var u := "UNCATEGORIZED";
    assert !IsSpace(u[0]) && !IsSpace(u[|u| - 1]);
    TrimStartNoLeadingSpace(u);
    TrimEndNoTrailingSpace(u);
    assert Lower(u) == Lower(UNCATEGORIZED);
  }

  /** The fill and hover colours of a chart's slices. */
  datatype Colors = Colors(bg: seq<Rgba>, hover: seq<Rgba>)

  /** The palette colour, at alpha `a`, of the slot of a normalised label. */
  function SlotColor(norm: string, a: real): (c: Rgba)
    ensures ValidRgb(c) && c.alpha == a
  {
    PaletteIsValid(a);
    HexToRgba(CATEGORY_BASE[SlotOf(norm, |CATEGORY_BASE|)], a)
  }

  lemma SlotColorAlpha(norm: string, a: real, b: real)
    ensures SlotColor(norm, a).(alpha := b) == SlotColor(norm, b)
  {
    AlphaOnlySetsAlpha(CATEGORY_BASE[SlotOf(norm, |CATEGORY_BASE|)], a, b);
  }

  /** `colorsForLabels` of this file: each label's palette colour at alpha
      0.88 (fill) and 0.7 (hover). */
  function ColorsForLabels(labels: seq<string>): (c: Colors)
    ensures |c.bg| == |labels| && |c.hover| == |labels|
    ensures forall i :: 0 <= i < |labels| ==>
      ValidRgb(c.bg[i]) && c.bg[i].alpha == 0.88 && c.bg[i].(alpha := 0.7) == c.hover[i]
    ensures forall i :: 0 <= i < |labels| ==>
      c.bg[i] == HexToRgba(CATEGORY_BASE[HashLabelToIndex(labels[i], 10)], 0.88) &&
      c.hover[i] == HexToRgba(CATEGORY_BASE[HashLabelToIndex(labels[i], 10)], 0.7)
    ensures forall i, j :: 0 <= i < |labels| && 0 <= j < |labels| ==>
      (NormalizeLabel(labels[i]) == NormalizeLabel(labels[j]) ==> c.bg[i] == c.bg[j] && c.hover[i] == c.hover[j])
  {
    var bg := seq(|labels|, i requires 0 <= i < |labels| => SlotColor(NormalizeLabel(labels[i]), 0.88));
    var hover := seq(|labels|, i requires 0 <= i < |labels| => SlotColor(NormalizeLabel(labels[i]), 0.7));
    forall i | 0 <= i < |labels|
      ensures bg[i].(alpha := 0.7) == hover[i]
    {
      SlotColorAlpha(NormalizeLabel(labels[i]), 0.88, 0.7);
    }
    Colors(bg, hover)
  }

  /** The icons of `ICONS`, plus the generic fallback. */
  datatype Icon =
    | AttachMoney | LocalGroceryStore | Restaurant | DirectionsCar | Home | Movie
    | MedicalServices | FitnessCenter | School | ShoppingCart | Payments | Savings
    | CategoryIcon

  /** `ICONS`: exact, case-sensitive category names. */
  const ICONS: map<string, Icon> := map[
    "Income" := AttachMoney,
    "Food/Groceries" := LocalGroceryStore,
    "Groceries" := LocalGroceryStore,
    "Dining" := Restaurant,
    "Transport" := DirectionsCar,
    "Rent" := Home,
    "Housing" := Home,
    "Entertainment" := Movie,
    "Health" := MedicalServices,
    "Fitness" := FitnessCenter,
    "Education" := School,
    "Shopping" := ShoppingCart,
    "Utilities" := Payments,
    "Bills" := Payments,
    "Savings" := Savings
  ]

  /** The members every object literal inherits from `Object.prototype`;
      none of them is `undefined`. */
  const OBJECT_PROTOTYPE_KEYS: set<string> := {
    "constructor", "hasOwnProperty", "isPrototypeOf", "propertyIsEnumerable",
    "toString", "toLocaleString", "valueOf", "__proto__",
    "__defineGetter__", "__defineSetter__", "__lookupGetter__", "__lookupSetter__"
  }

  /** What `ICONS[category] ?? CategoryIcon` evaluates to on a plain object:
      an own entry, an inherited `Object.prototype` member (a value that is
      not an icon component), or the fallback. */
  datatype IconLookup = OwnIcon(icon: Icon) | Inherited(member: string) | Fallback

  /** The lookup as written: the `??` fallback applies only to names that
      are neither own nor inherited properties. */
  function IconLookupAsWritten(category: string): (r: IconLookup)
    ensures r.Inherited? <==> category !in ICONS && category in OBJECT_PROTOTYPE_KEYS
  {
    if category in ICONS then OwnIcon(ICONS[category])
    else if category in OBJECT_PROTOTYPE_KEYS then Inherited(category)
    else Fallback
  }

  /** A user can type "constructor" as a category: the written lookup then
      yields `Object` itself rather than an icon component. */
  lemma InheritedMemberReachesIcon()
    ensures IconLookupAsWritten("constructor") == Inherited("constructor")
    ensures IconLookupAsWritten("toString").Inherited?
  {
  }

  /** The evidently intended lookup: own entries only, everything else the
      generic icon. */
  function IconFor(category: string): (icon: Icon)
    ensures category in ICONS ==> icon == ICONS[category]
    ensures icon == CategoryIcon <==> category !in ICONS
  {
    assert CategoryIcon !in ICONS.Values;
    if category in ICONS then
      assert ICONS[category] in ICONS.Values;
      ICONS[category]
    else CategoryIcon
  }

  /** The corrected lookup agrees with the written one on every own entry
      and on every ordinary name, and gives the generic icon exactly where
      the written one leaks a prototype member or falls back. */
  lemma IconForMatchesIntent(category: string)
    ensures IconLookupAsWritten(category).OwnIcon? ==> IconFor(category) == IconLookupAsWritten(category).icon
    ensures !IconLookupAsWritten(category).OwnIcon? <==> IconFor(category) == CategoryIcon
  {
  }

  /** The lookup is exact: "Groceries" has its icon, "groceries" and "food"
      get the generic one. */
  lemma IconLookupIsCaseSensitive()
    ensures IconFor("Groceries") == LocalGroceryStore
    ensures IconFor("groceries") == CategoryIcon
    ensures IconFor("food") == CategoryIcon
  {
  }

  /** What `getCategoryMeta` returns. */
  datatype CategoryMeta = CategoryMeta(
    category: string, color: string, bg: Rgba, border: Rgba, icon: Icon, idx: int)

  /** `getCategoryMeta`: the display category, its colour slot, the slot's
      colour at alpha 0.14 (background) and 0.28 (border) and the icon. The
      slot is hashed from the already-normalised category, so it is
      normalised twice. */
  function GetCategoryMeta(raw: string): (m: CategoryMeta)
    ensures m.category == CategoryKey(raw)
    ensures m.idx == HashLabelToIndex(m.category, 10) && 0 <= m.idx < 10 && m.color == CATEGORY_BASE[m.idx]
    ensures m.bg == HexToRgba(m.color, 0.14)
    ensures ValidRgb(m.bg) && m.bg.alpha == 0.14 && m.border == m.bg.(alpha := 0.28)
    ensures m.category in ICONS ==> m.icon == ICONS[m.category]
    ensures m.category !in ICONS ==> m.icon == CategoryIcon
  {
    PaletteIsValid(0.14);
    PaletteIsValid(0.28);
    var category := CategoryKey(raw);
    var idx := HashLabelToIndex(category, |CATEGORY_BASE|);
    var color := CATEGORY_BASE[idx];
    CategoryMeta(category, color, HexToRgba(color, 0.14), HexToRgba(color, 0.28), IconFor(category), idx)
  }

  /** For any label that does not trim to the empty string, the meta's slot
      is the slot `hashLabelToIndex` gives the raw label. */
  lemma MetaSlotAgreesWithHash(raw: string)
    requires CategoryKey(raw) != ""
    ensures GetCategoryMeta(raw).idx == HashLabelToIndex(raw, 10)
  {
    var c := CategoryKey(raw);
    if raw == "" {
      TrimUncategorized();
    } else {
      TrimIdempotent(raw);
    }
    assert CategoryKey(c) == c;
  }

  /** A white-space-only label is the exception: the meta's category is the
      empty string, which the hash then reads as "uncategorized", while
      hashing the raw label gives slot 0. */
  lemma MetaSlotOfWhitespaceLabel(raw: string)
    requires raw != "" && AllSpace(raw)
    ensures GetCategoryMeta(raw).category == ""
    ensures GetCategoryMeta(raw).idx == HashLabelToIndex("", 10)
    ensures HashLabelToIndex(raw, 10) == 0
  {
  }
}
