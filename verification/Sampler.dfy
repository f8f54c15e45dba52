/** The example sampler (module 4128 of swagger-ui.js, 2473 of the other bundle): `z` without XML and without an example
    given from outside. It recurses over a schema, and before that merges a variant of oneOf or anyOf into it. */
module Sampler {
  import opened Optional
  import opened Decimals
  import opened JsNumbers
  import opened ObjectPrototype

  type Text = seq<char>

  datatype Json = Absent | Null | Words(text: Text) | Number(value: int) | Flag(on: bool)
                | Arr(elements: seq<Json>) | Obj(fields: map<Text, Json>)

  datatype Additional = Nothing | Anything | Of(schema: Schema)

  datatype Properties = NoProperties | Properties(byName: map<Text, Schema>)

  datatype Variants = NoVariants | Variants(list: seq<Schema>)

  /** `details` holds xml and the limits of numbers and strings. */
  datatype Schema = Schema(
    kind: Option<Text>, example: Option<Json>, fallback: Option<Json>, enumerated: Option<seq<Json>>,
    properties: Properties, required: Option<seq<Text>>, additional: Additional,
    items: Option<Schema>, oneOf: Variants, anyOf: Variants,
    minProperties: Option<int>, maxProperties: Option<int>, minItems: Option<int>, maxItems: Option<int>,
    deprecated: bool, readOnly: bool, writeOnly: bool, details: map<Text, Json>)

  const EMPTY := Schema(None, None, None, None, NoProperties, None, Nothing, None, NoVariants, NoVariants,
                        None, None, None, None,
                        false, false, false, map[])

  /** The options; what is made of a schema that is neither object nor array; and the library functions for examples: the
      removal of `$$ref` keys, a number as text, and JSON.parse, which may fail. */
  datatype Config = Config(includeReadOnly: bool, includeWriteOnly: bool, leaf: Schema -> Json,
                           sanitize: Json -> Json, show: int -> Text, parse: Text -> Option<Json>)

  predicate Visible(c: Config, s: Schema) {
    !s.deprecated && (!s.readOnly || c.includeReadOnly) && (!s.writeOnly || c.includeWriteOnly)
  }

  function Names(s: Schema): (r: set<Text>) {
    if s.properties.NoProperties? then {} else s.properties.byName.Keys
  }

  // ----- Merging -----

  function First<T>(a: Option<T>, b: Option<T>): (r: Option<T>) {
    if a.Some? then a else b
  }

  /** The keys of the source's list that are missing go behind those of the target. */
  function LiftRequired(source: seq<Text>, target: seq<Text>): (r: seq<Text>) {
    if source == [] then target
    else LiftRequired(source[1..], if source[0] in target then target else target + [source[0]])
  }

  /** Visible properties that the target does not have, neither by itself nor by inheritance. */
  function LiftProperties(c: Config, source: map<Text, Schema>, target: map<Text, Schema>): (r: map<Text, Schema>) {
    target + map name | name in source && Visible(c, source[name]) && name !in target && !Inherits(name) :: source[name]
  }

  /** `U`: what the target does not define itself comes from the source. */
  function Lift(c: Config, source: Schema, target: Schema): (r: Schema)
    decreases source
  {
    target.(
      example := First(target.example, source.example),
      fallback := First(target.fallback, source.fallback),
      enumerated := First(target.enumerated, source.enumerated),
      kind := First(target.kind, source.kind),
      minProperties := First(target.minProperties, source.minProperties),
      maxProperties := First(target.maxProperties, source.maxProperties),
      minItems := First(target.minItems, source.minItems),
      maxItems := First(target.maxItems, source.maxItems),
      details := source.details + target.details,
      required := if source.required.None? then target.required
                  else Some(LiftRequired(source.required.value, if target.required.None? then [] else target.required.value)),
      properties := if source.properties.NoProperties? then target.properties
                    else Properties(LiftProperties(c, source.properties.byName,
                                             if target.properties.NoProperties? then map[] else target.properties.byName)),
      items := if source.items.None? then target.items
               else Some(Lift(c, source.items.value, if target.items.None? then EMPTY else target.items.value)))
  }

  predicate HasPlain(s: Schema) {
    s.example.Some? || s.fallback.Some?
  }

  /** The variant that is merged in, if any. */
  function Variant(s: Schema): (r: Option<Schema>) {
    if HasPlain(s) then None
    else if s.oneOf.Variants? && s.oneOf.list != [] then Some(s.oneOf.list[0])
    else if s.anyOf.Variants? && s.anyOf.list != [] then Some(s.anyOf.list[0])
    else None
  }

  /** The schema as it is after the merge. */
  function Merged(c: Config, s: Schema): (r: Schema) {
    if Variant(s).None? then s else Lift(c, Variant(s).value, s)
  }

  /** Whether an example or default is taken as it is. */
  predicate UsesPlain(c: Config, s: Schema) {
    HasPlain(s) || (Variant(s).Some? && Variant(s).value.example.Some?)
  }

  const NUMBER_LIMITS: seq<Text> := ["minimum", "maximum", "exclusiveMinimum", "exclusiveMaximum"]

  /** The type, recovered from what else is defined; a schema with an example or default does not become a string. */
  function KindOf(m: Schema, plain: bool): (kind: Option<Text>) {
    if m.kind.Some? then m.kind
    else if m.properties.Properties? || m.additional != Nothing || m.maxProperties.Some? || m.minProperties.Some? then
      Some("object")
    else if m.items.Some? || m.minItems.Some? || m.maxItems.Some? then Some("array")
    else if exists key :: key in NUMBER_LIMITS && key in m.details then Some("number")
    else if !plain && m.enumerated.None? then Some("string")
    else None
  }

  function Kind(m: Schema): (kind: Option<Text>) {
    KindOf(m, false)
  }

  /** The branch of `z` for an example or default, which without XML never goes into the schema. */
  function PlainSample(c: Config, m: Schema): (r: Json) {
    var sample := c.sanitize(PlainValue(m));
    var kind := KindOf(m, true);
    if sample.Number? && kind == Some("string") then Words(c.show(sample.value))
    else if !sample.Words? || kind == Some("string") then sample
    else if c.parse(sample.text).Some? then c.parse(sample.text).value
    else sample
  }

  function PlainValue(m: Schema): (r: Json) {
    if m.example.Some? then m.example.value else if m.fallback.Some? then m.fallback.value else Absent
  }

  // ----- Depth -----

  /** No chain of properties, items, additionalProperties, oneOf and anyOf from s on is longer than n. */
  ghost predicate Fits(s: Schema, n: nat)
    decreases n
  {
    && n > 0
    && (s.properties.Properties? ==> forall name :: name in s.properties.byName ==> Fits(s.properties.byName[name], n - 1))
    && (s.items.Some? ==> Fits(s.items.value, n - 1))
    && (s.additional.Of? ==> Fits(s.additional.schema, n - 1))
    && (s.oneOf.Variants? ==> forall i :: 0 <= i < |s.oneOf.list| ==> Fits(s.oneOf.list[i], n - 1))
    && (s.anyOf.Variants? ==> forall i :: 0 <= i < |s.anyOf.list| ==> Fits(s.anyOf.list[i], n - 1))
  }

  lemma {:induction false} FitsMore(s: Schema, n: nat, m: nat)
    requires Fits(s, n) && n <= m
    ensures Fits(s, m)
    decreases n
  {
    if s.properties.Properties? {
      forall name | name in s.properties.byName ensures Fits(s.properties.byName[name], m - 1) {
        FitsMore(s.properties.byName[name], n - 1, m - 1);
      }
    }
    if s.items.Some? {
      FitsMore(s.items.value, n - 1, m - 1);
    }
    if s.additional.Of? {
      FitsMore(s.additional.schema, n - 1, m - 1);
    }
    if s.oneOf.Variants? {
      forall i | 0 <= i < |s.oneOf.list| ensures Fits(s.oneOf.list[i], m - 1) { FitsMore(s.oneOf.list[i], n - 1, m - 1); }
    }
    if s.anyOf.Variants? {
      forall i | 0 <= i < |s.anyOf.list| ensures Fits(s.anyOf.list[i], m - 1) { FitsMore(s.anyOf.list[i], n - 1, m - 1); }
    }
  }

  lemma FitsProperty(s: Schema, n: nat, name: Text)
    requires Fits(s, n) && s.properties.Properties? && name in s.properties.byName
    ensures n > 0 && Fits(s.properties.byName[name], n - 1)
  {
  }

  lemma LiftedPropertiesFit(c: Config, source: Schema, target: Schema, n: nat)
    requires Fits(source, n) && Fits(target, n)
    ensures var r := Lift(c, source, target).properties;
            r.Properties? ==> forall name :: name in r.byName ==> n > 0 && Fits(r.byName[name], n - 1)
  {
    hide Fits;
    var r := Lift(c, source, target).properties;
    if r.Properties? {
      forall name | name in r.byName ensures n > 0 && Fits(r.byName[name], n - 1) {
        if target.properties.Properties? && name in target.properties.byName {
          FitsProperty(target, n, name);
        } else {
          FitsProperty(source, n, name);
        }
      }
    }
  }

  lemma EmptyFits(n: nat)
    requires n > 0
    ensures Fits(EMPTY, n)
  {
  }

  lemma FitsItems(s: Schema, n: nat)
    requires Fits(s, n) && s.items.Some?
    ensures n > 1 && Fits(s.items.value, n - 1)
  {
    assert Fits(s.items.value, n - 1);
  }

  lemma LiftKeepsRest(c: Config, source: Schema, target: Schema)
    ensures var r := Lift(c, source, target);
            && r.oneOf == target.oneOf && r.anyOf == target.anyOf && r.additional == target.additional
            && r.items == if source.items.None? then target.items
                          else Some(Lift(c, source.items.value, if target.items.None? then EMPTY else target.items.value))
  {
  }

  /** Merging does not make a schema deeper than both. */
  lemma {:induction false} LiftFits(c: Config, source: Schema, target: Schema, n: nat)
    requires Fits(source, n) && Fits(target, n)
    ensures Fits(Lift(c, source, target), n)
    decreases source
  {
    hide Lift;
    LiftKeepsRest(c, source, target);
    LiftedPropertiesFit(c, source, target, n);
    if source.items.Some? {
      FitsItems(source, n);
      if target.items.None? {
        EmptyFits(n - 1);
        LiftFits(c, source.items.value, EMPTY, n - 1);
      } else {
        FitsItems(target, n);
        LiftFits(c, source.items.value, target.items.value, n - 1);
      }
    }
  }

  lemma MergedFits(c: Config, s: Schema, n: nat)
    requires Fits(s, n)
    ensures Fits(Merged(c, s), n)
  {
    if Variant(s).Some? {
      FitsMore(Variant(s).value, n - 1, n);
      LiftFits(c, Variant(s).value, s, n);
    }
  }

  /** Every schema is finite. */
  lemma {:induction false} EverySchemaFits(s: Schema) returns (n: nat)
    ensures Fits(s, n)
    decreases s, 1
  {
    var a, b, d, e, f := 0, 0, 0, 0, 0;
    if s.properties.Properties? { a := PropertiesFit(s, s.properties.byName, s.properties.byName.Keys); }
    if s.items.Some? { b := EverySchemaFits(s.items.value); }
    if s.additional.Of? { d := EverySchemaFits(s.additional.schema); }
    if s.oneOf.Variants? { e := VariantsFit(s, s.oneOf.list, |s.oneOf.list|); }
    if s.anyOf.Variants? { f := VariantsFit(s, s.anyOf.list, |s.anyOf.list|); }
    n := a + b + d + e + f + 1;
    if s.properties.Properties? {
      forall name | name in s.properties.byName ensures Fits(s.properties.byName[name], n - 1) {
        FitsMore(s.properties.byName[name], a, n - 1);
      }
    }
    if s.items.Some? { FitsMore(s.items.value, b, n - 1); }
    if s.additional.Of? { FitsMore(s.additional.schema, d, n - 1); }
    if s.oneOf.Variants? {
      forall i | 0 <= i < |s.oneOf.list| ensures Fits(s.oneOf.list[i], n - 1) { FitsMore(s.oneOf.list[i], e, n - 1); }
    }
    if s.anyOf.Variants? {
      forall i | 0 <= i < |s.anyOf.list| ensures Fits(s.anyOf.list[i], n - 1) { FitsMore(s.anyOf.list[i], f, n - 1); }
    }
  }

  lemma {:induction false} PropertiesFit(s: Schema, properties: map<Text, Schema>, names: set<Text>) returns (n: nat)
    requires s.properties == Properties(properties) && names <= properties.Keys
    ensures forall name :: name in names ==> Fits(properties[name], n)
    decreases s, 0, |names|
  {
    n := 0;
    if names != {} {
      var name :| name in names;
      var a := EverySchemaFits(properties[name]);
      var b := PropertiesFit(s, properties, names - {name});
      n := a + b;
      FitsMore(properties[name], a, n);
      forall other | other in names - {name} ensures Fits(properties[other], n) { FitsMore(properties[other], b, n); }
    }
  }

  lemma {:induction false} VariantsFit(s: Schema, variants: seq<Schema>, count: nat) returns (n: nat)
    requires (s.oneOf == Variants(variants) || s.anyOf == Variants(variants)) && count <= |variants|
    ensures forall i :: 0 <= i < count ==> Fits(variants[i], n)
    decreases s, 0, count
  {
    n := 0;
    if count > 0 {
      var a := EverySchemaFits(variants[count - 1]);
      var b := VariantsFit(s, variants, count - 1);
      n := a + b;
      FitsMore(variants[count - 1], a, n);
      forall i | 0 <= i < count - 1 ensures Fits(variants[i], n) { FitsMore(variants[i], b, n); }
    }
  }

  // ----- Arrays -----

  /** Where slice(0, end) cuts a list of length n. */
  function SliceEnd(n: nat, end: int): (r: nat)
    ensures r <= n
  {
    if end < 0 then (if n + end < 0 then 0 else n + end) else if end < n then end else n
  }

  function CutLength(m: Schema, n: nat): (r: nat)
    ensures r <= n
  {
    if m.maxItems.None? then n else SliceEnd(n, m.maxItems.value)
  }

  function PaddedLength(m: Schema, n: nat): (r: nat) {
    if m.minItems.None? || m.minItems.value < CutLength(m, n) then CutLength(m, n) else m.minItems.value
  }

  /** r repeats the first n elements from the beginning; from no elements nothing but undefined comes. */
  ghost predicate Repeats(r: seq<Json>, elements: seq<Json>, n: nat)
    requires n <= |elements|
  {
    forall k :: 0 <= k < |r| ==> r[k] == if n == 0 then Absent else elements[k % n]
  }

  /** `Y`: the list is cut to maxItems and then filled up to minItems by repeating it from its beginning. */
  method HandleMinMaxItems(m: Schema, elements: seq<Json>) returns (r: seq<Json>)
    ensures |r| == PaddedLength(m, |elements|) && Repeats(r, elements, CutLength(m, |elements|))
  {
    hide Repeats;
    r := elements;
    if m.maxItems.Some? {
      r := r[..SliceEnd(|r|, m.maxItems.value)];
    }
    ghost var n := CutLength(m, |elements|);
    assert r == elements[..n];
    RepeatsItself(elements, n);
    if m.minItems.Some? {
      var i := 0;
      while |r| < m.minItems.value
        invariant |r| == n + i && (i == 0 || |r| <= m.minItems.value) && Repeats(r, elements, n)
      {
        RepeatsOnce(r, elements, n, i);
        r := r + [if |r| == 0 then Absent else r[i % |r|]];
        i := i + 1;
      }
    }
  }

  lemma RepeatsItself(elements: seq<Json>, n: nat)
    requires n <= |elements|
    ensures Repeats(elements[..n], elements, n)
  {
    forall k | 0 <= k < n ensures k % n == k { SmallRemainder(k, n); }
  }

  /** The index runs behind the end by n, and the growing length never catches up with it. */
  lemma RepeatsOnce(r: seq<Json>, elements: seq<Json>, n: nat, i: nat)
    requires n <= |elements| && |r| == n + i && Repeats(r, elements, n)
    ensures Repeats(r + [if |r| == 0 then Absent else r[i % |r|]], elements, n)
  {
    if n > 0 {
      SmallRemainder(i, |r|);
      NextRemainder(i, n);
    }
  }

  lemma SmallRemainder(k: nat, n: nat)
    requires k < n
    ensures k % n == k
  {
  }

  lemma NextRemainder(i: nat, n: nat)
    requires n > 0
    ensures (n + i) % n == i % n
  {
    var q, r := i / n, i % n;
    assert n + i == (q + 1) * n + r by { assert (q + 1) * n == q * n + n; }
    DivMod(n + i, n, q + 1, r);
  }

  // ----- Objects -----

  /** `$` */
  predicate ExceededMax(m: Schema, added: nat) {
    m.maxProperties.Some? && added >= m.maxProperties.value
  }

  /** `te` */
  predicate IsOptional(m: Schema, name: Text) {
    m.required.None? || m.required.value == [] || name !in m.required.value
  }

  /** `ee`: without XML nothing that was added is ever found, so all the required names count as missing. */
  function RequiredToAdd(m: Schema): (n: nat) {
    if m.required.None? then 0 else |m.required.value|
  }

  /** `ne` */
  predicate CanAdd(m: Schema, name: Text, added: nat) {
    || m.maxProperties.None?
    || (!ExceededMax(m, added) && (!IsOptional(m, name) || m.maxProperties.value - added - RequiredToAdd(m) > 0))
  }

  function AdditionalName(i: nat): (name: Text) {
    "additionalProp" + Digits(i)
  }

  ghost predicate IsAdditional(name: Text) {
    exists i: nat :: name == AdditionalName(i)
  }

  function VisibleNames(c: Config, m: Schema): (r: set<Text>) {
    if m.properties.NoProperties? then {}
    else set name | name in m.properties.byName && Visible(c, m.properties.byName[name])
  }

  /** The names, each once. */
  ghost predicate IsOrder(order: seq<Text>, names: set<Text>) {
    && Distinct(order)
    && (forall name :: name in names <==> name in order)
  }

  predicate Distinct(order: seq<Text>) {
    forall i, j :: 0 <= i < j < |order| ==> order[i] != order[j]
  }

  /** The visible ones of the names, in their order. */
  function VisibleOrder(c: Config, m: Schema, order: seq<Text>): (r: seq<Text>) {
    if order == [] then []
    else
      var name := order[|order| - 1];
      VisibleOrder(c, m, order[..|order| - 1]) + (if name in VisibleNames(c, m) then [name] else [])
  }

  /** The names for which there is room, when they come in this order. */
  function AddedNames(m: Schema, order: seq<Text>): (r: set<Text>) {
    if order == [] then {}
    else
      var before := AddedNames(m, order[..|order| - 1]);
      if CanAdd(m, order[|order| - 1], |before|) then before + {order[|order| - 1]} else before
  }

  /** How many additional properties follow so many others: enough for minProperties, or three, within maxProperties. */
  function AdditionalCount(m: Schema, added: nat): (k: nat) {
    if m.additional == Nothing || ExceededMax(m, added) then 0
    else if m.additional == Anything then 1
    else
      var wanted := if m.minProperties.Some? && added < m.minProperties.value then m.minProperties.value - added else 3;
      if m.maxProperties.Some? && m.maxProperties.value - added < wanted then m.maxProperties.value - added else wanted
  }

  /** The names additionalProp1 to additionalPropK. */
  function FirstAdditional(k: nat): (r: set<Text>) {
    if k == 0 then {} else FirstAdditional(k - 1) + {AdditionalName(k)}
  }

  /** What the limits of a schema promise about the keys of its sample. */
  ghost predicate KeepsLimits(c: Config, m: Schema, fields: set<Text>) {
    && (forall name :: name in fields ==> name in VisibleNames(c, m) || IsAdditional(name))
    && (m.maxProperties.Some? ==> |fields| <= (if m.maxProperties.value < 0 then 0 else m.maxProperties.value))
    && (m.maxProperties.None? ==> VisibleNames(c, m) <= fields)
    && (m.maxProperties.Some? && m.required.Some? && |m.required.value| <= m.maxProperties.value ==>
          forall name :: name in VisibleNames(c, m) && name in m.required.value ==> name in fields)
    && (m.additional.Of? && m.minProperties.Some?
        && (m.maxProperties.None? || m.minProperties.value <= m.maxProperties.value)
        && (forall name :: name in VisibleNames(c, m) ==> !IsAdditional(name)) ==>
          |fields| >= m.minProperties.value)
  }

  /** How many samples an array begins with: one for each variant of its items, or one. */
  function Count(items: Schema): (n: nat) {
    if items.anyOf.Variants? then |items.anyOf.list| else if items.oneOf.Variants? then |items.oneOf.list| else 1
  }

  /** The schemas from which an array is sampled: the variants of its items, each with the items merged in, or the items. */
  function ItemSchema(c: Config, items: Schema, i: nat): (r: Schema)
    requires i < Count(items)
  {
    if items.anyOf.Variants? then Lift(c, items, items.anyOf.list[i])
    else if items.oneOf.Variants? then Lift(c, items, items.oneOf.list[i])
    else items
  }

  /** What r may be as a sample of s, down to the depth n. */
  ghost predicate Samples(c: Config, s: Schema, r: Json, n: nat)
    decreases n, 0
  {
    var m := Merged(c, s);
    if n == 0 then false
    else if UsesPlain(c, s) then r == PlainSample(c, m)
    else if Kind(m) == Some("object") then
      r.Obj? && KeepsLimits(c, m, r.fields.Keys) && HasFields(c, m, r.fields, n - 1)
    else if Kind(m) == Some("array") then
      if m.items.None? then r == Absent
      else r.Arr? && exists raw :: ElementsOf(c, m.items.value, raw, n - 1) && |r.elements| == PaddedLength(m, |raw|)
                                   && Repeats(r.elements, raw, CutLength(m, |raw|))
    else r == c.leaf(m.(kind := Kind(m)))
  }

  /** The fields of an object; nothing is said about the order in which its properties come. */
  ghost predicate HasFields(c: Config, m: Schema, fields: map<Text, Json>, n: nat)
    decreases n, 3
  {
    exists order :: FieldsFollow(c, m, fields, order, n)
  }

  /** The fields are exactly the visible properties for which there is room in this order, and the additional ones. */
  ghost predicate FieldsFollow(c: Config, m: Schema, fields: map<Text, Json>, order: seq<Text>, n: nat)
    decreases n, 2
  {
    && IsOrder(order, VisibleNames(c, m))
    && var k := AdditionalCount(m, |AddedNames(m, order)|);
       fields.Keys == AddedNames(m, order) + FirstAdditional(k) && FieldsOf(c, m, fields, k, n)
  }

  /** Every value is a sample of what its key stands for. */
  ghost predicate FieldsOf(c: Config, m: Schema, fields: map<Text, Json>, k: nat, n: nat)
    decreases n, 1, 1
  {
    forall name :: name in fields ==> FieldOf(c, m, k, name, fields[name], n)
  }

  /** v stands under the name: a sample of the additional schema for the first k additional names, also where a property
      has such a name, and else a sample of the property. */
  ghost predicate FieldOf(c: Config, m: Schema, k: nat, name: Text, v: Json, n: nat)
    decreases n, 1, 0
  {
    if name in FirstAdditional(k) then
      (m.additional.Of? && Samples(c, m.additional.schema, v, n)) || (m.additional.Anything? && v == Obj(map[]))
    else
      name in VisibleNames(c, m) && Samples(c, m.properties.byName[name], v, n)
  }

  /** The elements of an array before they are cut and repeated. */
  ghost predicate ElementsOf(c: Config, items: Schema, raw: seq<Json>, n: nat)
    decreases n, 1, 0
  {
    |raw| == Count(items) && forall i :: 0 <= i < |raw| ==> Samples(c, ItemSchema(c, items, i), raw[i], n)
  }

  /** `z`; the depth bounds the recursion, although variants are merged into the schema on the way. */
  method Sample(c: Config, s: Schema, ghost n: nat) returns (r: Json)
    requires Fits(s, n)
    ensures Samples(c, s, r, n)
    decreases n, 1
  {
    hide Lift, Fits, KeepsLimits, HasFields, Kind, Repeats, PaddedLength, CutLength, ElementsOf, FieldOf, UsesPlain, Merged,
         PlainSample;
    var m := Merged(c, s);
    MergedFits(c, s, n);
    FitsPositive(s, n);
    if UsesPlain(c, s) {
      return PlainSample(c, m);
    }
    var kind := Kind(m);
    if kind == Some("object") {
      var fields := SampleObject(c, m, n);
      return Obj(fields);
    } else if kind == Some("array") {
      if m.items.None? {
        return Absent;
      }
      var raw := SampleItems(c, m, n);
      var elements := HandleMinMaxItems(m, raw);
      ElementsAreCounted(c, m.items.value, raw, n - 1);
      return Arr(elements);
    } else {
      return c.leaf(m.(kind := kind));
    }
  }

  lemma FitsPositive(s: Schema, n: nat)
    requires Fits(s, n)
    ensures n > 0
  {
  }

  lemma ElementsAreCounted(c: Config, items: Schema, raw: seq<Json>, n: nat)
    requires ElementsOf(c, items, raw, n)
    ensures |raw| == Count(items)
  {
  }

  lemma FitsVariants(s: Schema, n: nat)
    requires Fits(s, n)
    ensures n > 0
    ensures s.oneOf.Variants? ==> forall i :: 0 <= i < |s.oneOf.list| ==> Fits(s.oneOf.list[i], n - 1)
    ensures s.anyOf.Variants? ==> forall i :: 0 <= i < |s.anyOf.list| ==> Fits(s.anyOf.list[i], n - 1)
  {
  }

  lemma ItemSchemaFits(c: Config, items: Schema, i: nat, n: nat)
    requires Fits(items, n) && i < Count(items)
    ensures Fits(ItemSchema(c, items, i), n)
  {
    hide Lift, Fits;
    FitsVariants(items, n);
    if items.anyOf.Variants? {
      FitsMore(items.anyOf.list[i], n - 1, n);
      LiftFits(c, items, items.anyOf.list[i], n);
    } else if items.oneOf.Variants? {
      FitsMore(items.oneOf.list[i], n - 1, n);
      LiftFits(c, items, items.oneOf.list[i], n);
    }
  }

  /** The elements before they are cut and repeated. */
  method SampleItems(c: Config, m: Schema, ghost n: nat) returns (raw: seq<Json>)
    requires Fits(m, n) && m.items.Some?
    ensures n > 0 && ElementsOf(c, m.items.value, raw, n - 1)
    decreases n, 0
  {
    hide Lift, Samples, Fits;
    var items := m.items.value;
    FitsItems(m, n);
    raw := [];
    if items.anyOf.Variants? {
      for i := 0 to |items.anyOf.list|
        invariant |raw| == i && forall k :: 0 <= k < i ==> Samples(c, ItemSchema(c, items, k), raw[k], n - 1)
      {
        ItemSchemaFits(c, items, i, n - 1);
        var sample := Sample(c, Lift(c, items, items.anyOf.list[i]), n - 1);
        raw := raw + [sample];
      }
    } else if items.oneOf.Variants? {
      for i := 0 to |items.oneOf.list|
        invariant |raw| == i && forall k :: 0 <= k < i ==> Samples(c, ItemSchema(c, items, k), raw[k], n - 1)
      {
        ItemSchemaFits(c, items, i, n - 1);
        var sample := Sample(c, Lift(c, items, items.oneOf.list[i]), n - 1);
        raw := raw + [sample];
      }
    } else {
      var sample := Sample(c, items, n - 1);
      raw := [sample];
    }
  }

  lemma OneMoreProperty(c: Config, m: Schema, fields: map<Text, Json>, name: Text, v: Json, n: nat)
    requires FieldsOf(c, m, fields, 0, n) && name in VisibleNames(c, m) && Samples(c, m.properties.byName[name], v, n)
    ensures FieldsOf(c, m, fields[name := v], 0, n)
  {
    hide Samples, VisibleNames;
  }

  /** What additional property number k + 1 stands for. */
  ghost predicate IsAdditionalSample(c: Config, m: Schema, v: Json, n: nat) {
    (m.additional.Of? && Samples(c, m.additional.schema, v, n)) || (m.additional.Anything? && v == Obj(map[]))
  }

  lemma OneMoreAdditional(c: Config, m: Schema, fields: map<Text, Json>, k: nat, v: Json, n: nat)
    requires FieldsOf(c, m, fields, k, n) && IsAdditionalSample(c, m, v, n)
    ensures FieldsOf(c, m, fields[AdditionalName(k + 1) := v], k + 1, n)
  {
    hide Samples, VisibleNames, AdditionalName;
  }

  /** The required names among the visible properties gone through are in; the others left room for all required ones. */
  ghost predicate Fair(m: Schema, gone: set<Text>, fields: set<Text>, added: nat) {
    && fields <= gone && added == |fields|
    && (m.maxProperties.None? ==> gone <= fields)
    && (m.maxProperties.Some? && m.maxProperties.value >= 0 ==> added <= m.maxProperties.value)
    && (m.maxProperties.Some? && m.maxProperties.value < 0 ==> added == 0)
    && (m.maxProperties.Some? && m.required.Some? && |m.required.value| <= m.maxProperties.value ==>
          && (forall name :: name in gone && name in m.required.value ==> name in fields)
          && |OptionalNames(m, fields)| <= m.maxProperties.value - |m.required.value|)
  }

  ghost function OptionalNames(m: Schema, fields: set<Text>): (r: set<Text>) {
    set name | name in fields && (m.required.None? || name !in m.required.value)
  }

  ghost function RequiredNames(m: Schema, fields: set<Text>): (r: set<Text>) {
    set name | name in fields && m.required.Some? && name in m.required.value
  }

  lemma {:induction false} SetOfList(names: set<Text>, list: seq<Text>)
    requires forall name :: name in names ==> name in list
    ensures |names| <= |list|
    decreases |list|
  {
    if list == [] {
      assert names == {};
    } else {
      SetOfList(names - {list[0]}, list[1..]);
      assert names <= (names - {list[0]}) + {list[0]};
      SubsetSize(names, (names - {list[0]}) + {list[0]});
    }
  }

  lemma {:induction false} SubsetSize(a: set<Text>, b: set<Text>)
    requires a <= b
    ensures |a| <= |b|
    decreases |a|
  {
    if a != {} {
      var x :| x in a;
      SubsetSize(a - {x}, b - {x});
    }
  }

  lemma Partition(m: Schema, fields: set<Text>)
    ensures |fields| == |OptionalNames(m, fields)| + |RequiredNames(m, fields)|
  {
    assert fields == OptionalNames(m, fields) + RequiredNames(m, fields);
    assert OptionalNames(m, fields) !! RequiredNames(m, fields);
  }

  /** A required name always finds room. */
  lemma RequiredFindsRoom(m: Schema, gone: set<Text>, fields: set<Text>, added: nat, name: Text)
    requires Fair(m, gone, fields, added) && name !in gone
    requires m.maxProperties.Some? && m.required.Some? && |m.required.value| <= m.maxProperties.value
    requires name in m.required.value
    ensures CanAdd(m, name, added)
  {
    Partition(m, fields);
    assert name !in RequiredNames(m, fields);
    SetOfList(RequiredNames(m, fields) + {name}, m.required.value);
  }

  lemma FairSkips(m: Schema, gone: set<Text>, fields: set<Text>, added: nat, name: Text)
    requires Fair(m, gone, fields, added) && name !in gone && !CanAdd(m, name, added)
    ensures Fair(m, gone + {name}, fields, added)
  {
    if m.maxProperties.Some? && m.required.Some? && |m.required.value| <= m.maxProperties.value && name in m.required.value {
      RequiredFindsRoom(m, gone, fields, added, name);
    }
  }

  lemma FairAdds(m: Schema, gone: set<Text>, fields: set<Text>, added: nat, name: Text)
    requires Fair(m, gone, fields, added) && name !in gone && CanAdd(m, name, added)
    ensures Fair(m, gone + {name}, fields + {name}, added + 1)
  {
    assert OptionalNames(m, fields + {name})
           == if m.required.None? || name !in m.required.value then OptionalNames(m, fields) + {name}
              else OptionalNames(m, fields);
    Partition(m, fields);
  }

  /** The keys once some of the additional ones, numbered below i, are in. */
  ghost predicate Extended(c: Config, m: Schema, fields: set<Text>, added: nat, i: nat) {
    && (forall name :: name in fields ==> name in VisibleNames(c, m) || IsAdditional(name))
    && |fields| <= added
    && (m.maxProperties.Some? ==> added <= (if m.maxProperties.value < 0 then 0 else m.maxProperties.value))
    && (m.maxProperties.None? ==> VisibleNames(c, m) <= fields)
    && (m.maxProperties.Some? && m.required.Some? && |m.required.value| <= m.maxProperties.value ==>
          forall name :: name in VisibleNames(c, m) && name in m.required.value ==> name in fields)
    && ((forall name :: name in VisibleNames(c, m) ==> !IsAdditional(name)) ==>
          |fields| == added && forall j: nat :: i <= j ==> AdditionalName(j) !in fields)
  }

  lemma FairIsExtended(c: Config, m: Schema, fields: set<Text>, added: nat)
    requires Fair(m, VisibleNames(c, m), fields, added)
    ensures Extended(c, m, fields, added, 1)
  {
    forall j: nat ensures IsAdditional(AdditionalName(j)) {}
    hide VisibleNames, AdditionalName;
  }

  lemma ExtendedAdds(c: Config, m: Schema, fields: set<Text>, added: nat, i: nat)
    requires Extended(c, m, fields, added, i) && !ExceededMax(m, added)
    ensures Extended(c, m, fields + {AdditionalName(i)}, added + 1, i + 1)
  {
    assert IsAdditional(AdditionalName(i));
    forall j: nat | AdditionalName(j) == AdditionalName(i) ensures j == i {
      assert AdditionalName(j)[14..] == Digits(j) && AdditionalName(i)[14..] == Digits(i);
      DigitsDiffer(j, i);
    }
    hide VisibleNames, AdditionalName, IsAdditional;
  }

  lemma ExtendedKeepsLimits(c: Config, m: Schema, fields: set<Text>, added: nat, i: nat)
    requires Extended(c, m, fields, added, i)
    requires m.additional.Of? && m.minProperties.Some? ==> added >= m.minProperties.value || ExceededMax(m, added)
    ensures KeepsLimits(c, m, fields)
  {
    hide VisibleNames, IsAdditional;
  }

  method SampleObject(c: Config, m: Schema, ghost n: nat) returns (fields: map<Text, Json>)
    requires Fits(m, n)
    ensures n > 0 && KeepsLimits(c, m, fields.Keys) && HasFields(c, m, fields, n - 1)
    decreases n, 0, 1
  {
    hide Lift, Samples, Fair, CanAdd, Extended, KeepsLimits, VisibleNames, IsAdditional, Fits, FieldsOf, FieldOf,
         FieldsFollow, FirstAdditional, AddedNames, IsOrder, VisibleOrder, AdditionalName, IsAdditionalSample;
    FitsPositive(m, n);
    var order := AnyOrder(Names(m));
    var added;
    fields, added := AddProperties(c, m, order, n);
    FairIsExtended(c, m, fields.Keys, added);
    ghost var visible := VisibleOrder(c, m, order);
    VisibleOrderIsOrder(c, m, order);
    AddedIsSize(m, VisibleNames(c, m), fields.Keys, added);
    NoAdditional(fields.Keys);
    if ExceededMax(m, added) || m.additional == Nothing {
      ExtendedKeepsLimits(c, m, fields.Keys, added, 1);
      Followed(c, m, fields, visible, 0, n - 1);
      return;
    }
    match m.additional
    case Anything =>
      fields := AddAnything(c, m, fields, added, n - 1);
      Followed(c, m, fields, visible, 1, n - 1);
    case Of(schema) =>
      FitsAdditional(m, n);
      var sample := Sample(c, schema, n - 1);
      fields := AddAdditional(c, m, sample, fields, added, n - 1);
      Followed(c, m, fields, visible, AdditionalCount(m, added), n - 1);
  }

  lemma NoAdditional(keys: set<Text>)
    ensures keys + FirstAdditional(0) == keys
  {
  }

  lemma Followed(c: Config, m: Schema, fields: map<Text, Json>, order: seq<Text>, k: nat, n: nat)
    requires IsOrder(order, VisibleNames(c, m)) && k == AdditionalCount(m, |AddedNames(m, order)|)
    requires fields.Keys == AddedNames(m, order) + FirstAdditional(k) && FieldsOf(c, m, fields, k, n)
    ensures FieldsFollow(c, m, fields, order, n)
  {
  }

  /** Without a schema for the additional properties there is one, an empty object. */
  method AddAnything(c: Config, m: Schema, fields0: map<Text, Json>, added0: nat, ghost n: nat)
    returns (fields: map<Text, Json>)
    requires Extended(c, m, fields0.Keys, added0, 1) && FieldsOf(c, m, fields0, 0, n)
    requires m.additional.Anything? && !ExceededMax(m, added0)
    ensures KeepsLimits(c, m, fields.Keys) && FieldsOf(c, m, fields, 1, n)
    ensures fields.Keys == fields0.Keys + FirstAdditional(1)
  {
    hide Extended, KeepsLimits, Samples, FieldsOf, FieldOf, VisibleNames;
    ExtendedAdds(c, m, fields0.Keys, added0, 1);
    FirstAdditionalName();
    hide AdditionalName;
    OneMoreAdditional(c, m, fields0, 0, Obj(map[]), n);
    fields := fields0["additionalProp1" := Obj(map[])];
    NextAdditional(0);
    NoAdditional(fields0.Keys);
    assert fields.Keys == fields0.Keys + {AdditionalName(1)};
    ExtendedKeepsLimits(c, m, fields.Keys, added0 + 1, 2);
  }

  lemma NextAdditional(k: nat)
    ensures FirstAdditional(k + 1) == FirstAdditional(k) + {AdditionalName(k + 1)}
  {
  }

  lemma {:induction false} VisibleOrderHas(c: Config, m: Schema, order: seq<Text>)
    requires Distinct(order)
    ensures Distinct(VisibleOrder(c, m, order))
    ensures forall name :: name in VisibleOrder(c, m, order) <==> name in order && name in VisibleNames(c, m)
    decreases |order|
  {
    hide VisibleNames;
    if order == [] {
    } else {
      var n := |order| - 1;
      VisibleOrderHas(c, m, order[..n]);
      assert order == order[..n] + [order[n]];
    }
  }

  lemma VisibleOrderIsOrder(c: Config, m: Schema, order: seq<Text>)
    requires IsOrder(order, Names(m))
    ensures IsOrder(VisibleOrder(c, m, order), VisibleNames(c, m))
  {
    hide VisibleOrder;
    VisibleOrderHas(c, m, order);
  }

  /** The properties of an object come in some order. */
  method AnyOrder(names: set<Text>) returns (order: seq<Text>)
    ensures IsOrder(order, names)
  {
    order := [];
    var todo := names;
    while todo != {}
      invariant todo <= names && IsOrder(order, names - todo)
      decreases |todo|
    {
      var name :| name in todo;
      order := order + [name];
      todo := todo - {name};
    }
  }

  lemma FitsAdditional(m: Schema, n: nat)
    requires Fits(m, n) && m.additional.Of?
    ensures n > 0 && Fits(m.additional.schema, n - 1)
  {
  }

  /** The loop over the properties, in the order in which they come. */
  method AddProperties(c: Config, m: Schema, order: seq<Text>, ghost n: nat) returns (fields: map<Text, Json>, added: nat)
    requires Fits(m, n) && IsOrder(order, Names(m))
    ensures n > 0 && Fair(m, VisibleNames(c, m), fields.Keys, added) && FieldsOf(c, m, fields, 0, n - 1)
    ensures fields.Keys == AddedNames(m, VisibleOrder(c, m, order))
    decreases n, 0, 0, 1
  {
    hide Lift, Samples, Fair, CanAdd, VisibleNames, Fits, Visible, FieldOf, AddedNames, VisibleOrder;
    FitsPositive(m, n);
    fields := map[];
    added := 0;
    ghost var gone := {};
    FairAtFirst(m);
    NothingAdded(c, m);
    assert fields.Keys == {} && order[..0] == [];
    for k := 0 to |order|
      invariant Fair(m, gone, fields.Keys, added) && FieldsOf(c, m, fields, 0, n - 1)
      invariant forall name :: name in gone <==> name in order[..k] && name in VisibleNames(c, m)
      invariant fields.Keys == AddedNames(m, VisibleOrder(c, m, order[..k]))
    {
      var name := order[k];
      assert order[..k + 1] == order[..k] + [name];
      VisibleOrNot(c, m, name);
      NextVisible(c, m, order[..k], name);
      if Visible(c, m.properties.byName[name]) {
        NextAdded(m, VisibleOrder(c, m, order[..k]), name);
        AddedIsSize(m, gone, fields.Keys, added);
        fields, added := AddProperty(c, m, gone, name, fields, added, n);
        gone := gone + {name};
      }
    }
    assert order[..|order|] == order;
    VisibleIsNamed(c, m);
    assert gone == VisibleNames(c, m);
  }

  lemma NothingAdded(c: Config, m: Schema)
    ensures AddedNames(m, VisibleOrder(c, m, [])) == {}
  {
  }

  lemma NextVisible(c: Config, m: Schema, order: seq<Text>, name: Text)
    ensures VisibleOrder(c, m, order + [name])
            == if name in VisibleNames(c, m) then VisibleOrder(c, m, order) + [name] else VisibleOrder(c, m, order)
  {
    hide VisibleNames;
    assert (order + [name])[..|order|] == order;
  }

  lemma NextAdded(m: Schema, order: seq<Text>, name: Text)
    ensures AddedNames(m, order + [name])
            == if CanAdd(m, name, |AddedNames(m, order)|) then AddedNames(m, order) + {name} else AddedNames(m, order)
  {
    hide CanAdd;
    assert (order + [name])[..|order|] == order;
  }

  lemma AddedIsSize(m: Schema, gone: set<Text>, fields: set<Text>, added: nat)
    requires Fair(m, gone, fields, added)
    ensures added == |fields|
  {
  }

  /** `Z`: adds a property, if there is room for it. */
  method AddProperty(c: Config, m: Schema, ghost gone: set<Text>, name: Text, fields: map<Text, Json>, added: nat,
                     ghost n: nat)
    returns (newFields: map<Text, Json>, newAdded: nat)
    requires Fits(m, n) && n > 0 && name in VisibleNames(c, m) && name !in gone && Fair(m, gone, fields.Keys, added)
    requires FieldsOf(c, m, fields, 0, n - 1)
    ensures Fair(m, gone + {name}, newFields.Keys, newAdded) && FieldsOf(c, m, newFields, 0, n - 1)
    ensures newFields.Keys == if CanAdd(m, name, added) then fields.Keys + {name} else fields.Keys
    decreases n, 0, 0, 0
  {
    hide Lift, Samples, Fair, CanAdd, Fits, FieldsOf, FieldOf, VisibleNames;
    if !CanAdd(m, name, added) {
      FairSkips(m, gone, fields.Keys, added, name);
      return fields, added;
    }
    FairAdds(m, gone, fields.Keys, added, name);
    VisibleIsThere(c, m, name);
    FitsProperty(m, n, name);
    var sample := Sample(c, m.properties.byName[name], n - 1);
    OneMoreProperty(c, m, fields, name, sample, n - 1);
    newFields := fields[name := sample];
    assert newFields.Keys == fields.Keys + {name};
    newAdded := added + 1;
  }

  lemma VisibleIsThere(c: Config, m: Schema, name: Text)
    requires name in VisibleNames(c, m)
    ensures m.properties.Properties? && name in m.properties.byName
  {
  }

  lemma FairAtFirst(m: Schema)
    ensures Fair(m, {}, {}, 0)
  {
    assert OptionalNames(m, {}) == {};
  }

  lemma VisibleIsNamed(c: Config, m: Schema)
    ensures VisibleNames(c, m) <= Names(m)
  {
  }

  lemma VisibleOrNot(c: Config, m: Schema, name: Text)
    requires name in Names(m)
    ensures name in VisibleNames(c, m) <==> Visible(c, m.properties.byName[name])
  {
  }

  lemma FirstAdditionalName()
    ensures AdditionalName(1) == "additionalProp1"
  {
  }

  /** The loop over the additional properties: up to minProperties if there are fewer, and otherwise three. */
  method AddAdditional(c: Config, m: Schema, sample: Json, fields0: map<Text, Json>, added0: nat, ghost n: nat)
    returns (fields: map<Text, Json>)
    requires Extended(c, m, fields0.Keys, added0, 1) && FieldsOf(c, m, fields0, 0, n) && !ExceededMax(m, added0)
    requires m.additional.Of? && Samples(c, m.additional.schema, sample, n)
    ensures var k := AdditionalCount(m, added0);
            && KeepsLimits(c, m, fields.Keys) && FieldsOf(c, m, fields, k, n)
            && fields.Keys == fields0.Keys + FirstAdditional(k)
  {
    hide Extended, KeepsLimits, AdditionalName, Samples, FieldsOf, FieldOf, FirstAdditional;
    fields := fields0;
    var added := added0;
    var toGenerateCount :=
      if m.minProperties.Some? && added < m.minProperties.value then m.minProperties.value - added else 3;
    var i := 1;
    NoAdditional(fields0.Keys);
    while i <= toGenerateCount
      invariant 1 <= i <= toGenerateCount + 1 && added == added0 + (i - 1)
      invariant m.maxProperties.Some? ==> added <= m.maxProperties.value
      invariant Extended(c, m, fields.Keys, added, i) && FieldsOf(c, m, fields, i - 1, n)
      invariant fields.Keys == fields0.Keys + FirstAdditional(i - 1)
    {
      if ExceededMax(m, added) {
        ExtendedKeepsLimits(c, m, fields.Keys, added, i);
        return;
      }
      ExtendedAdds(c, m, fields.Keys, added, i);
      OneMoreAdditional(c, m, fields, i - 1, sample, n);
      NextAdditional(i - 1);
      ghost var keys := fields.Keys;
      fields := fields[AdditionalName(i) := sample];
      assert fields.Keys == keys + {AdditionalName(i)};
      added := added + 1;
      i := i + 1;
    }
    ExtendedKeepsLimits(c, m, fields.Keys, added, i);
  }

  /** For every schema there is a bound, so sampling always ends. */
  method SampleFromSchema(c: Config, s: Schema) returns (r: Json)
    ensures exists n: nat :: Samples(c, s, r, n)
  {
    ghost var n := EverySchemaFits(s);
    r := Sample(c, s, n);
  }
}
