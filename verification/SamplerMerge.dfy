/** What merging one schema into another (function `U` of module 4128) keeps of each, without its own functions. */
module SamplerMerge {
  import opened Optional
  import opened ObjectPrototype
  import opened Sampler

  // ----- Lists of required names -----

  /** The first place of x. */
  function IndexOf(s: seq<Text>, x: Text): (i: nat)
    requires x in s
    ensures i < |s| && s[i] == x && x !in s[..i]
  {
    if s[0] == x then 0 else 1 + IndexOf(s[1..], x)
  }

  /** Names in the order in which they first come in s, each once. */
  ghost predicate InOrderOf(s: seq<Text>, r: seq<Text>) {
    && (forall i :: 0 <= i < |r| ==> r[i] in s)
    && (forall i, j :: 0 <= i < j < |r| && r[i] in s && r[j] in s ==> IndexOf(s, r[i]) < IndexOf(s, r[j]))
  }

  /** r is the target's list, and behind it the names of s that are missing, each once, in the order of s. */
  ghost predicate ListsRequired(s: seq<Text>, target: seq<Text>, r: seq<Text>) {
    && target <= r
    && (forall x :: x in r <==> x in target || x in s)
    && (forall i :: |target| <= i < |r| ==> r[i] !in target)
    && InOrderOf(s, r[|target|..])
  }

  lemma IndexBehind(s: seq<Text>, x: Text)
    requires s != [] && x in s && x != s[0]
    ensures x in s[1..] && IndexOf(s, x) == 1 + IndexOf(s[1..], x)
  {
  }

  lemma {:induction false} LiftRequiredLists(s: seq<Text>, target: seq<Text>)
    ensures ListsRequired(s, target, LiftRequired(s, target))
    decreases |s|
  {
    hide InOrderOf;
    var r := LiftRequired(s, target);
    if s == [] {
      assert r[|target|..] == [];
      NothingInOrder(s);
    } else {
      hide ListsRequired;
      if s[0] in target {
        LiftRequiredLists(s[1..], target);
        NameIsThere(s, target, r);
      } else {
        LiftRequiredLists(s[1..], target + [s[0]]);
        NameIsAdded(s, target, r);
      }
    }
  }

  lemma NameIsThere(s: seq<Text>, target: seq<Text>, r: seq<Text>)
    requires s != [] && s[0] in target && ListsRequired(s[1..], target, r)
    ensures ListsRequired(s, target, r)
  {
    hide InOrderOf;
    assert s == [s[0]] + s[1..];
    OneNameLess(s, r[|target|..], target);
  }

  lemma NameIsAdded(s: seq<Text>, target: seq<Text>, r: seq<Text>)
    requires s != [] && s[0] !in target && ListsRequired(s[1..], target + [s[0]], r)
    ensures ListsRequired(s, target, r)
  {
    hide InOrderOf;
    var tail, more := r[|target| + 1..], target + [s[0]];
    assert s == [s[0]] + s[1..];
    assert r == more + tail && r[|more|..] == tail;
    assert r[|target|..] == [s[0]] + tail;
    OneNameMore(s, tail, target);
    assert forall x :: x in more <==> x in target || x == s[0];
    assert forall i :: |target| < i < |r| ==> r[i] !in more;
    assert r[|target|] == s[0];
  }

  lemma NothingInOrder(s: seq<Text>)
    ensures InOrderOf(s, [])
  {
  }

  lemma OneNameLess(s: seq<Text>, r: seq<Text>, target: seq<Text>)
    requires s != [] && s[0] in target && InOrderOf(s[1..], r) && forall i :: 0 <= i < |r| ==> r[i] !in target
    ensures InOrderOf(s, r)
  {
    forall i, j | 0 <= i < j < |r| ensures IndexOf(s, r[i]) < IndexOf(s, r[j]) {
      IndexBehind(s, r[i]);
      IndexBehind(s, r[j]);
    }
  }

  lemma OneNameMore(s: seq<Text>, tail: seq<Text>, target: seq<Text>)
    requires s != [] && InOrderOf(s[1..], tail) && forall i :: 0 <= i < |tail| ==> tail[i] !in target + [s[0]]
    ensures InOrderOf(s, [s[0]] + tail)
  {
    var r := [s[0]] + tail;
    forall i | 0 <= i < |tail| ensures tail[i] != s[0] && tail[i] in s && IndexOf(s, tail[i]) == 1 + IndexOf(s[1..], tail[i]) {
      assert s[0] in target + [s[0]];
      IndexBehind(s, tail[i]);
    }
    forall i, j | 0 <= i < j < |r| ensures IndexOf(s, r[i]) < IndexOf(s, r[j]) {
      assert r[j] == tail[j - 1];
      if i > 0 {
        assert r[i] == tail[i - 1];
      }
    }
  }

  /** There is one list in this order with the same names. */
  lemma {:induction false} OneOrder(s: seq<Text>, a: seq<Text>, b: seq<Text>)
    requires InOrderOf(s, a) && InOrderOf(s, b) && forall x :: x in a <==> x in b
    ensures a == b
    decreases |a|
  {
    if a == [] {
      FirstIsIn(b);
    } else {
      assert a[0] in a && b != [];
      SameFirst(s, a, b);
      SameRest(s, a, b);
      TailInOrder(s, a);
      TailInOrder(s, b);
      OneOrder(s, a[1..], b[1..]);
      assert a == [a[0]] + a[1..] && b == [b[0]] + b[1..];
    }
  }

  lemma FirstIsIn(b: seq<Text>)
    ensures b != [] ==> b[0] in b
  {
  }

  lemma TailInOrder(s: seq<Text>, a: seq<Text>)
    requires a != [] && InOrderOf(s, a)
    ensures InOrderOf(s, a[1..])
  {
  }

  lemma FirstIsLeast(s: seq<Text>, a: seq<Text>, x: Text)
    requires x in a && InOrderOf(s, a)
    ensures a[0] in s && x in s && IndexOf(s, a[0]) <= IndexOf(s, x)
  {
    var i :| 0 <= i < |a| && a[i] == x;
    if i > 0 {
      assert IndexOf(s, a[0]) < IndexOf(s, a[i]);
    }
  }

  lemma SameFirst(s: seq<Text>, a: seq<Text>, b: seq<Text>)
    requires a != [] && b != [] && InOrderOf(s, a) && InOrderOf(s, b) && forall x :: x in a <==> x in b
    ensures a[0] == b[0]
  {
    hide InOrderOf;
    assert a[0] in a && b[0] in b;
    FirstIsLeast(s, a, b[0]);
    FirstIsLeast(s, b, a[0]);
    assert s[IndexOf(s, a[0])] == s[IndexOf(s, b[0])];
  }

  lemma SameRest(s: seq<Text>, a: seq<Text>, b: seq<Text>)
    requires a != [] && b != [] && InOrderOf(s, a) && InOrderOf(s, b) && a[0] == b[0] && forall x :: x in a <==> x in b
    ensures forall x :: x in a[1..] <==> x in b[1..]
  {
    FirstNotAgain(s, a);
    FirstNotAgain(s, b);
    forall x ensures x in a[1..] <==> x in b[1..] {
      assert x in a <==> x == a[0] || x in a[1..];
      assert x in b <==> x == b[0] || x in b[1..];
    }
  }

  lemma FirstNotAgain(s: seq<Text>, a: seq<Text>)
    requires a != [] && InOrderOf(s, a)
    ensures a[0] !in a[1..]
  {
    forall j | 0 <= j < |a[1..]| ensures a[1..][j] != a[0] {
      assert IndexOf(s, a[0]) < IndexOf(s, a[j + 1]);
    }
  }

  lemma OneList(s: seq<Text>, target: seq<Text>, a: seq<Text>, b: seq<Text>)
    requires ListsRequired(s, target, a) && ListsRequired(s, target, b)
    ensures a == b
  {
    hide InOrderOf;
    var n := |target|;
    assert a == target + a[n..] && b == target + b[n..];
    forall x ensures x in a[n..] <==> x in b[n..] {
      assert x in a[n..] <==> x in a && x !in target;
      assert x in b[n..] <==> x in b && x !in target;
    }
    OneOrder(s, a[n..], b[n..]);
  }

  // ----- Schemas -----

  /** What the target does not define is the source's, and nothing of the target is overwritten. */
  predicate Fills<T(==)>(source: Option<T>, target: Option<T>, r: Option<T>) {
    && (target.Some? ==> r == target)
    && (target.None? ==> r == source)
  }

  ghost predicate FillsDetails(source: map<Text, Json>, target: map<Text, Json>, r: map<Text, Json>) {
    && (forall key :: key in r <==> key in source || key in target)
    && (forall key :: key in target ==> key in r && r[key] == target[key])
    && (forall key :: key in source && key !in target ==> key in r && r[key] == source[key])
  }

  function ByName(s: Schema): (r: map<Text, Schema>) {
    if s.properties.NoProperties? then map[] else s.properties.byName
  }

  /** The properties of the target stay; those of the source come along that are visible, not there yet and not
      inherited by every object. */
  ghost predicate FillsProperties(c: Config, source: Schema, target: Schema, r: Schema) {
    && (r.properties.NoProperties? <==> source.properties.NoProperties? && target.properties.NoProperties?)
    && (forall name :: name in ByName(r) <==>
          || name in ByName(target)
          || (name in ByName(source) && Visible(c, ByName(source)[name]) && !Inherits(name)))
    && (forall name :: name in ByName(target) ==> name in ByName(r) && ByName(r)[name] == ByName(target)[name])
    && (forall name :: name in ByName(r) && name !in ByName(target) ==>
          name in ByName(source) && ByName(r)[name] == ByName(source)[name])
  }

  ghost predicate FillsRequired(source: Schema, target: Schema, r: Schema) {
    && (source.required.None? ==> r.required == target.required)
    && (source.required.Some? ==> r.required.Some?)
    && (source.required.Some? ==>
          ListsRequired(source.required.value, if target.required.None? then [] else target.required.value, r.required.value))
  }

  ghost predicate FillsFields(c: Config, source: Schema, target: Schema, r: Schema) {
    && Fills(source.example, target.example, r.example) && Fills(source.fallback, target.fallback, r.fallback)
    && Fills(source.enumerated, target.enumerated, r.enumerated) && Fills(source.kind, target.kind, r.kind)
    && Fills(source.minProperties, target.minProperties, r.minProperties)
    && Fills(source.maxProperties, target.maxProperties, r.maxProperties)
    && Fills(source.minItems, target.minItems, r.minItems) && Fills(source.maxItems, target.maxItems, r.maxItems)
    && FillsDetails(source.details, target.details, r.details)
    && FillsProperties(c, source, target, r) && FillsRequired(source, target, r)
    && r.oneOf == target.oneOf && r.anyOf == target.anyOf && r.additional == target.additional
    && r.deprecated == target.deprecated && r.readOnly == target.readOnly && r.writeOnly == target.writeOnly
  }

  function ItemsOf(s: Schema): (r: Schema) {
    if s.items.None? then EMPTY else s.items.value
  }

  /** r is what becomes of the target when the source is merged into it, down to the items of items. */
  ghost predicate Merges(c: Config, source: Schema, target: Schema, r: Schema)
    decreases source
  {
    && FillsFields(c, source, target, r)
    && (source.items.None? ==> r.items == target.items)
    && (source.items.Some? ==> r.items.Some? && Merges(c, source.items.value, ItemsOf(target), r.items.value))
  }

  lemma LiftFillsProperties(c: Config, source: Schema, target: Schema)
    ensures FillsProperties(c, source, target, Lift(c, source, target))
  {
    hide Visible, Inherits, LiftRequired;
  }

  lemma LiftFillsRequired(c: Config, source: Schema, target: Schema)
    ensures FillsRequired(source, target, Lift(c, source, target))
  {
    hide ListsRequired, LiftProperties;
    if source.required.Some? {
      LiftRequiredLists(source.required.value, if target.required.None? then [] else target.required.value);
    }
  }

  lemma LiftFillsFields(c: Config, source: Schema, target: Schema)
    ensures FillsFields(c, source, target, Lift(c, source, target))
  {
    hide FillsProperties, FillsRequired, LiftRequired, LiftProperties;
    LiftFillsProperties(c, source, target);
    LiftFillsRequired(c, source, target);
  }

  /** `U` merges. */
  lemma {:induction false} LiftMerges(c: Config, source: Schema, target: Schema)
    ensures Merges(c, source, target, Lift(c, source, target))
    decreases source
  {
    hide FillsFields, Lift;
    LiftFillsFields(c, source, target);
    LiftKeepsRest(c, source, target);
    if source.items.Some? {
      LiftMerges(c, source.items.value, ItemsOf(target));
    }
  }

  lemma OneDetails(source: map<Text, Json>, target: map<Text, Json>, a: map<Text, Json>, b: map<Text, Json>)
    requires FillsDetails(source, target, a) && FillsDetails(source, target, b)
    ensures a == b
  {
    assert a.Keys == b.Keys;
  }

  lemma OneProperties(c: Config, source: Schema, target: Schema, a: Schema, b: Schema)
    requires FillsProperties(c, source, target, a) && FillsProperties(c, source, target, b)
    ensures a.properties == b.properties
  {
    hide Visible, Inherits;
    assert ByName(a).Keys == ByName(b).Keys;
    assert ByName(a) == ByName(b);
  }

  lemma OneRequired(source: Schema, target: Schema, a: Schema, b: Schema)
    requires FillsRequired(source, target, a) && FillsRequired(source, target, b)
    ensures a.required == b.required
  {
    hide ListsRequired;
    if source.required.Some? {
      OneList(source.required.value, if target.required.None? then [] else target.required.value, a.required.value,
              b.required.value);
    }
  }

  /** There is one merge only. */
  lemma {:induction false} OneMerge(c: Config, source: Schema, target: Schema, a: Schema, b: Schema)
    requires Merges(c, source, target, a) && Merges(c, source, target, b)
    ensures a == b
    decreases source
  {
    hide FillsDetails, FillsProperties, FillsRequired;
    OneDetails(source.details, target.details, a.details, b.details);
    OneProperties(c, source, target, a, b);
    OneRequired(source, target, a, b);
    if source.items.Some? {
      OneMerge(c, source.items.value, ItemsOf(target), a.items.value, b.items.value);
    }
  }

  /** Merging again changes nothing. */
  lemma MergingAgain(c: Config, source: Schema, target: Schema)
    ensures Lift(c, source, Lift(c, source, target)) == Lift(c, source, target)
  {
    hide Lift, Merges;
    var r := Lift(c, source, target);
    LiftMerges(c, source, target);
    MergedIsFull(c, source, target, r);
    LiftMerges(c, source, r);
    OneMerge(c, source, r, Lift(c, source, r), r);
  }

  lemma {:induction false} MergedIsFull(c: Config, source: Schema, target: Schema, r: Schema)
    requires Merges(c, source, target, r)
    ensures Merges(c, source, r, r)
    decreases source
  {
    hide FillsRequired, FillsProperties, Visible;
    FullProperties(c, source, target, r);
    FullRequired(source, target, r);
    if source.items.Some? {
      MergedIsFull(c, source.items.value, ItemsOf(target), r.items.value);
    }
  }

  lemma FullProperties(c: Config, source: Schema, target: Schema, r: Schema)
    requires FillsProperties(c, source, target, r)
    ensures FillsProperties(c, source, r, r)
  {
    hide Visible, Inherits;
  }

  lemma FullRequired(source: Schema, target: Schema, r: Schema)
    requires FillsRequired(source, target, r)
    ensures FillsRequired(source, r, r)
  {
    if source.required.Some? {
      var list := r.required.value;
      assert list[|list|..] == [];
    }
  }

  // ----- Where it is used -----

  /** Without an example or default of its own a schema is completed by the first variant of oneOf, or of anyOf if there is
      no oneOf. */
  lemma MergedVariant(c: Config, s: Schema)
    ensures HasPlain(s) ==> Merged(c, s) == s
    ensures !HasPlain(s) && s.oneOf.Variants? && s.oneOf.list != [] ==> Merges(c, s.oneOf.list[0], s, Merged(c, s))
    ensures !HasPlain(s) && (s.oneOf.NoVariants? || s.oneOf.list == []) && s.anyOf.Variants? && s.anyOf.list != [] ==>
              Merges(c, s.anyOf.list[0], s, Merged(c, s))
    ensures (s.oneOf.NoVariants? || s.oneOf.list == []) && (s.anyOf.NoVariants? || s.anyOf.list == []) ==> Merged(c, s) == s
  {
    hide Merges, Lift;
    if Variant(s).Some? {
      LiftMerges(c, Variant(s).value, s);
    }
  }

  /** Of the items of an array every variant of anyOf is completed by the items, or of oneOf if there is no anyOf. */
  lemma ItemVariants(c: Config, items: Schema, i: nat)
    requires i < Count(items)
    ensures items.anyOf.Variants? ==>
              Count(items) == |items.anyOf.list| && Merges(c, items, items.anyOf.list[i], ItemSchema(c, items, i))
    ensures items.anyOf.NoVariants? && items.oneOf.Variants? ==>
              Count(items) == |items.oneOf.list| && Merges(c, items, items.oneOf.list[i], ItemSchema(c, items, i))
    ensures items.anyOf.NoVariants? && items.oneOf.NoVariants? ==> Count(items) == 1 && ItemSchema(c, items, i) == items
  {
    hide Merges, Lift;
    if items.anyOf.Variants? {
      LiftMerges(c, items, items.anyOf.list[i]);
    } else if items.oneOf.Variants? {
      LiftMerges(c, items, items.oneOf.list[i]);
    }
  }

  const SPECIFIC := EMPTY.(kind := Some("string"), example := Some(Words("specific")))
  const GENERIC := EMPTY.(example := Some(Words("generic")), anyOf := Variants([SPECIFIC]))
  const LIST_OF_BOTH := EMPTY.(kind := Some("array"), items := Some(GENERIC))

  /** The example of a variant goes before that of the items. */
  lemma SpecificGoesFirst(c: Config, r: Json, n: nat)
    requires Samples(c, LIST_OF_BOTH, r, n) && c.sanitize(Words("specific")) == Words("specific")
    ensures r == Arr([Words("specific")])
  {
    hide Lift, Samples, Merges;
    ArrayOfItems(c, LIST_OF_BOTH, r, n);
    var raw :| ElementsOf(c, GENERIC, raw, n - 1) && |r.elements| == PaddedLength(LIST_OF_BOTH, |raw|)
               && Repeats(r.elements, raw, CutLength(LIST_OF_BOTH, |raw|));
    assert |raw| == 1;
    ItemVariants(c, GENERIC, 0);
    var item := ItemSchema(c, GENERIC, 0);
    assert Samples(c, item, raw[0], n - 1);
    MergedFieldsOf(c, GENERIC, SPECIFIC, item);
    PlainItem(c, item, raw[0], n - 1);
    assert r.elements == [raw[0]];
  }

  lemma ArrayOfItems(c: Config, s: Schema, r: Json, n: nat)
    requires Samples(c, s, r, n) && s.kind == Some("array") && s.items.Some? && !HasPlain(s)
    requires s.oneOf.NoVariants? && s.anyOf.NoVariants?
    ensures n > 0 && r.Arr? && exists raw :: ElementsOf(c, s.items.value, raw, n - 1) && |r.elements| == PaddedLength(s, |raw|)
                                              && Repeats(r.elements, raw, CutLength(s, |raw|))
  {
    hide Lift, ElementsOf, Repeats, PaddedLength, CutLength, HasFields, KeepsLimits;
  }

  lemma MergedFieldsOf(c: Config, source: Schema, target: Schema, r: Schema)
    requires Merges(c, source, target, r)
    ensures Fills(source.example, target.example, r.example) && Fills(source.kind, target.kind, r.kind)
  {
    hide FillsProperties, FillsRequired, FillsDetails;
  }

  lemma PlainItem(c: Config, s: Schema, r: Json, n: nat)
    requires Samples(c, s, r, n) && s.kind == Some("string") && s.example.Some? && s.example.value.Words?
    requires c.sanitize(s.example.value) == s.example.value
    ensures r == s.example.value
  {
    hide Lift, ElementsOf, Repeats, PaddedLength, CutLength, HasFields, KeepsLimits;
  }
}
