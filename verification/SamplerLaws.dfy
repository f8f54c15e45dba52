/** What the branches of the example sampler (module 4128) go by, as statements on the fields of a schema and on samples. */
module SamplerLaws {
  import opened Optional
  import opened Sampler
  import opened SamplerMerge

  // ----- The type -----

  predicate LooksLikeObject(m: Schema) {
    m.properties.Properties? || m.additional != Nothing || m.maxProperties.Some? || m.minProperties.Some?
  }

  predicate LooksLikeArray(m: Schema) {
    m.items.Some? || m.minItems.Some? || m.maxItems.Some?
  }

  predicate LooksLikeNumber(m: Schema) {
    "minimum" in m.details || "maximum" in m.details || "exclusiveMinimum" in m.details || "exclusiveMaximum" in m.details
  }

  /** A type that is given goes before everything, and of what is defined the marks of an object go before those of an
      array, and these before the limits of a number; a string is what is left, unless there is an enumeration or an
      example. */
  lemma KindOfSchema(m: Schema, plain: bool)
    ensures m.kind.Some? ==> KindOf(m, plain) == m.kind
    ensures m.kind.None? && LooksLikeObject(m) ==> KindOf(m, plain) == Some("object")
    ensures m.kind.None? && !LooksLikeObject(m) && LooksLikeArray(m) ==> KindOf(m, plain) == Some("array")
    ensures m.kind.None? && !LooksLikeObject(m) && !LooksLikeArray(m) && LooksLikeNumber(m) ==>
              KindOf(m, plain) == Some("number")
    ensures m.kind.None? && !LooksLikeObject(m) && !LooksLikeArray(m) && !LooksLikeNumber(m) ==>
              KindOf(m, plain) == if plain || m.enumerated.Some? then None else Some("string")
  {
    assert NUMBER_LIMITS[0] == "minimum" && NUMBER_LIMITS[1] == "maximum";
    assert NUMBER_LIMITS[2] == "exclusiveMinimum" && NUMBER_LIMITS[3] == "exclusiveMaximum";
  }

  /** Without a type and an example, the sample of a schema with an object's marks is an object, and of one with items and
      none of these marks an array. */
  lemma ShapeOfSample(c: Config, s: Schema, r: Json, n: nat)
    requires Samples(c, s, r, n) && !UsesPlain(c, s) && Merged(c, s).kind.None?
    ensures var m := Merged(c, s);
            && (LooksLikeObject(m) ==> r.Obj?)
            && (!LooksLikeObject(m) && m.items.Some? ==> r.Arr?)
  {
    hide Lift, Merged, UsesPlain, KeepsLimits, HasFields, ElementsOf, Repeats, PaddedLength, CutLength, KindOf;
    KindOfSchema(Merged(c, s), false);
  }

  // ----- Examples and defaults -----

  /** An example goes before a default. Nothing is done to it but that a number for a string is written out, and that the
      text of an example for anything else is taken as JSON if it is JSON. */
  lemma PlainSampleOf(c: Config, m: Schema)
    ensures m.example.Some? ==> PlainValue(m) == m.example.value
    ensures m.example.None? && m.fallback.Some? ==> PlainValue(m) == m.fallback.value
    ensures var v, text := c.sanitize(PlainValue(m)), KindOf(m, true) == Some("string");
            && (v.Number? ==> PlainSample(c, m) == if text then Words(c.show(v.value)) else v)
            && (!v.Number? && !v.Words? ==> PlainSample(c, m) == v)
            && (v.Words? && text ==> PlainSample(c, m) == v)
            && (v.Words? && !text ==>
                  PlainSample(c, m) == if c.parse(v.text).Some? then c.parse(v.text).value else v)
  {
    hide KindOf;
  }

  /** A schema with an example of its own is sampled by it, whatever else it says. */
  lemma ExampleIsTaken(c: Config, s: Schema, r: Json, n: nat)
    requires Samples(c, s, r, n) && s.example.Some?
    ensures r == PlainSample(c, s) && PlainValue(s) == s.example.value
  {
    hide Lift, KeepsLimits, HasFields, ElementsOf, Repeats, PaddedLength, CutLength, KindOf, PlainSample;
  }

  /** Without an example or default of its own, a schema is sampled by the example of its variant, if there is one; a
      default of the variant does not do. */
  lemma ExampleOfVariant(c: Config, s: Schema, r: Json, n: nat)
    requires Samples(c, s, r, n) && !HasPlain(s) && Variant(s).Some?
    ensures UsesPlain(c, s) <==> Variant(s).value.example.Some?
    ensures Variant(s).value.example.Some? ==>
              r == PlainSample(c, Merged(c, s)) && PlainValue(Merged(c, s)) == Variant(s).value.example.value
  {
    hide KeepsLimits, HasFields, ElementsOf, Repeats, PaddedLength, CutLength, KindOf, PlainSample, Merges, Lift;
    LiftMerges(c, Variant(s).value, s);
    MergedFieldsOf(c, Variant(s).value, s, Merged(c, s));
  }

  // ----- Visibility -----

  lemma VisibleExactlyWhen(c: Config, s: Schema)
    ensures Visible(c, s) <==>
              !(s.deprecated || (s.readOnly && !c.includeReadOnly) || (s.writeOnly && !c.includeWriteOnly))
  {
  }

  /** A property that is deprecated, or that may not be read or written here, does not show in a sample. */
  lemma HiddenIsNotShown(c: Config, s: Schema, r: Json, n: nat, name: Text)
    requires Samples(c, s, r, n) && !UsesPlain(c, s) && Kind(Merged(c, s)) == Some("object")
    requires name in Names(Merged(c, s)) && !Visible(c, Merged(c, s).properties.byName[name]) && !IsAdditional(name)
    ensures r.Obj? && name !in r.fields
  {
    hide Lift, Merged, UsesPlain, HasFields, ElementsOf, Repeats, PaddedLength, CutLength, KindOf, Visible, IsAdditional;
  }

  // ----- Limits -----

  /** The length of an array: within its limits where they allow it, and that of the list where it keeps to them. */
  lemma ArrayLimits(m: Schema, n: nat)
    ensures m.minItems.Some? ==> PaddedLength(m, n) >= m.minItems.value
    ensures m.maxItems.Some? && m.maxItems.value >= 0 && (m.minItems.None? || m.minItems.value <= m.maxItems.value) ==>
              PaddedLength(m, n) <= m.maxItems.value
    ensures m.maxItems.Some? && m.maxItems.value < 0 && m.minItems.None? ==>
              PaddedLength(m, n) == if n + m.maxItems.value < 0 then 0 else n + m.maxItems.value
    ensures (m.minItems.None? || m.minItems.value <= n) && (m.maxItems.None? || n <= m.maxItems.value) ==> PaddedLength(m, n) == n
  {
  }

  /** How many additional properties there are: three, or as many as minProperties asks for, and never more than fit. */
  lemma AdditionalLimits(m: Schema, added: nat)
    requires m.additional.Of? && (m.maxProperties.Some? ==> added <= m.maxProperties.value)
    ensures var k := AdditionalCount(m, added);
            && (m.maxProperties.Some? ==> added + k <= m.maxProperties.value)
            && (m.maxProperties.None? && (m.minProperties.None? || m.minProperties.value <= added) ==> k == 3)
            && (m.maxProperties.Some? && added < m.maxProperties.value ==> k > 0)
    ensures m.minProperties.Some? && added < m.minProperties.value
            && (m.maxProperties.None? || m.minProperties.value <= m.maxProperties.value) ==>
              added + AdditionalCount(m, added) == m.minProperties.value
  {
  }

  /** The keys of an object: the visible properties that find room in some order, and as many additional names. */
  lemma KeysOfSample(c: Config, s: Schema, r: Json, n: nat)
    requires Samples(c, s, r, n) && !UsesPlain(c, s) && Kind(Merged(c, s)) == Some("object")
    ensures var m := Merged(c, s);
            r.Obj? && exists order :: IsOrder(order, VisibleNames(c, m))
                                      && r.fields.Keys == AddedNames(m, order) + FirstAdditional(AdditionalCount(m, |AddedNames(m, order)|))
  {
    hide Lift, Merged, UsesPlain, ElementsOf, Repeats, PaddedLength, CutLength, KindOf, AddedNames, FirstAdditional, IsOrder,
         KeepsLimits, FieldsOf, AdditionalCount;
    var order :| FieldsFollow(c, Merged(c, s), r.fields, order, n - 1);
  }
}
