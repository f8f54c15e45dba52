/** When the sampler uses all the room that maxProperties leaves (module 4128, `ne`). An optional property is refused
    unless every required name still has room, and the required ones that are already in are counted once more. */
module SamplerRoom {
  import opened Optional
  import opened Sampler

  predicate IsRequired(m: Schema, name: Text) {
    !IsOptional(m, name)
  }

  /** maxProperties, where a negative number is like 0. */
  function Room(m: Schema): (n: nat)
    requires m.maxProperties.Some?
  {
    if m.maxProperties.value < 0 then 0 else m.maxProperties.value
  }

  function Min(a: int, b: int): (r: int) {
    if a < b then a else b
  }

  /** How many of the names are required. */
  function Required(m: Schema, order: seq<Text>): (n: nat)
    ensures n <= |order|
  {
    if order == [] then 0
    else Required(m, order[..|order| - 1]) + (if IsRequired(m, order[|order| - 1]) then 1 else 0)
  }

  /** How many required names stand before the k-th optional one, counted from 1. */
  function RequiredBefore(m: Schema, order: seq<Text>, k: int): (n: nat)
    requires 1 <= k <= |order| - Required(m, order)
  {
    var before := order[..|order| - 1];
    if k <= |before| - Required(m, before) then RequiredBefore(m, before, k) else Required(m, before)
  }

  /** How many of the added names are optional. */
  function OptionalAdded(m: Schema, order: seq<Text>): (n: nat) {
    if order == [] then 0
    else
      var before, name := order[..|order| - 1], order[|order| - 1];
      OptionalAdded(m, before) + (if !IsRequired(m, name) && CanAdd(m, name, |AddedNames(m, before)|) then 1 else 0)
  }

  // ----- What is added -----

  lemma {:induction false} AddedAreNames(m: Schema, order: seq<Text>)
    ensures forall name :: name in AddedNames(m, order) ==> name in order
  {
    if order == [] {
    } else {
      AddedAreNames(m, order[..|order| - 1]);
      hide CanAdd;
    }
  }

  /** The required names are no more than the list of them is long. */
  lemma {:induction false} RequiredAreListed(m: Schema, order: seq<Text>) returns (names: set<Text>)
    requires Distinct(order)
    ensures |names| == Required(m, order)
    ensures forall name :: name in names ==> name in order && IsRequired(m, name)
    ensures Required(m, order) <= RequiredToAdd(m)
  {
    if order == [] {
      names := {};
    } else {
      var n := |order| - 1;
      names := RequiredAreListed(m, order[..n]);
      if IsRequired(m, order[n]) {
        names := names + {order[n]};
        SetOfList(names, m.required.value);
      }
    }
  }

  /** The numbers that decide about the next name. */
  ghost predicate Counted(m: Schema, order: seq<Text>)
    requires m.maxProperties.Some?
  {
    var q, o := Required(m, order), OptionalAdded(m, order);
    && |AddedNames(m, order)| == Min(q, Room(m)) + o
    && (o == 0 || o <= Room(m) - RequiredToAdd(m))
    && o <= |order| - q
    && (o < |order| - q ==> o + q >= Room(m) - RequiredToAdd(m))
  }

  /** A required name is added as long as there is any room, and an optional one as long as there is room for all the
      required names besides what is in. */
  lemma NextDecision(m: Schema, order: seq<Text>, name: Text)
    requires m.maxProperties.Some? && Counted(m, order) && Required(m, order) <= RequiredToAdd(m)
    requires IsRequired(m, name) ==> Required(m, order) < RequiredToAdd(m)
    ensures var q, o, added := Required(m, order), OptionalAdded(m, order), |AddedNames(m, order)|;
            CanAdd(m, name, added) <==> if IsRequired(m, name) then q < Room(m) else o + q < Room(m) - RequiredToAdd(m)
  {
    hide AddedNames, Required, OptionalAdded;
  }

  lemma CountsGrow(m: Schema, order: seq<Text>, name: Text)
    requires m.maxProperties.Some? && name !in order
    ensures var next, can := order + [name], CanAdd(m, name, |AddedNames(m, order)|);
            && Required(m, next) == Required(m, order) + (if IsRequired(m, name) then 1 else 0)
            && OptionalAdded(m, next) == OptionalAdded(m, order) + (if !IsRequired(m, name) && can then 1 else 0)
            && |AddedNames(m, next)| == |AddedNames(m, order)| + (if can then 1 else 0)
  {
    hide CanAdd, IsOptional;
    assert (order + [name])[..|order|] == order;
    AddedAreNames(m, order);
    NextAdded(m, order, name);
  }

  lemma CountedNext(m: Schema, order: seq<Text>, name: Text)
    requires m.maxProperties.Some? && Counted(m, order) && name !in order
    requires Required(m, order + [name]) <= RequiredToAdd(m)
    ensures Counted(m, order + [name])
  {
    hide AddedNames, Required, OptionalAdded, CanAdd, IsRequired;
    CountsGrow(m, order, name);
    NextDecision(m, order, name);
  }

  lemma {:induction false} AllCounted(m: Schema, order: seq<Text>)
    requires m.maxProperties.Some? && Distinct(order)
    ensures Counted(m, order) && Required(m, order) <= RequiredToAdd(m)
    decreases |order|
  {
    var _ := RequiredAreListed(m, order);
    if order == [] {
    } else {
      var n := |order| - 1;
      AllCounted(m, order[..n]);
      assert order == order[..n] + [order[n]];
      hide Counted, Required;
      CountedNext(m, order[..n], order[n]);
    }
  }

  // ----- How many optional ones -----

  lemma BeforeInLonger(m: Schema, order: seq<Text>, name: Text, k: int)
    requires 1 <= k <= |order + [name]| - Required(m, order + [name])
    ensures RequiredBefore(m, order + [name], k)
            == if k <= |order| - Required(m, order) then RequiredBefore(m, order, k) else Required(m, order)
  {
    assert (order + [name])[..|order|] == order;
  }

  /** The k-th optional name is added exactly when the required names before it leave room for all of them. */
  lemma {:induction false} OptionalIsAdded(m: Schema, order: seq<Text>, k: int)
    requires m.maxProperties.Some? && Distinct(order) && 1 <= k <= |order| - Required(m, order)
    ensures OptionalAdded(m, order) >= k <==> k - 1 + RequiredBefore(m, order, k) < Room(m) - RequiredToAdd(m)
    decreases |order|
  {
    var n := |order| - 1;
    var before, name := order[..n], order[n];
    assert order == before + [name];
    AllCounted(m, before);
    AllCounted(m, order);
    if k <= |before| - Required(m, before) {
      OptionalIsAdded(m, before, k);
    }
    OneMoreOptional(m, before, name, k);
  }

  lemma OneMoreOptional(m: Schema, before: seq<Text>, name: Text, k: int)
    requires m.maxProperties.Some? && name !in before && Counted(m, before)
    requires Required(m, before + [name]) <= RequiredToAdd(m)
    requires 1 <= k <= |before + [name]| - Required(m, before + [name])
    requires k <= |before| - Required(m, before) ==>
               (OptionalAdded(m, before) >= k
                <==> k - 1 + RequiredBefore(m, before, k) < Room(m) - RequiredToAdd(m))
    ensures OptionalAdded(m, before + [name]) >= k
            <==> k - 1 + RequiredBefore(m, before + [name], k) < Room(m) - RequiredToAdd(m)
  {
    hide AddedNames, Required, OptionalAdded, RequiredBefore, CanAdd, IsRequired;
    CountsGrow(m, before, name);
    NextDecision(m, before, name);
    BeforeInLonger(m, before, name, k);
  }

  // ----- The object is filled up -----

  /** How many optional properties it takes. */
  function Lacking(m: Schema, order: seq<Text>): (k: int)
    requires m.maxProperties.Some?
  {
    Min(Room(m), |order|) - Required(m, order)
  }

  /** As many visible properties are in as fit, exactly when no optional one is needed for that or few enough required
      ones stand before the last optional one that is needed. */
  lemma FillsUpExactlyWhen(m: Schema, order: seq<Text>)
    requires m.maxProperties.Some? && Distinct(order)
    ensures |AddedNames(m, order)| <= Min(Room(m), |order|)
    ensures var k := Lacking(m, order);
            |AddedNames(m, order)| == Min(Room(m), |order|)
            <==> k <= 0 || RequiredBefore(m, order, k) <= Room(m) - RequiredToAdd(m) - k
  {
    AllCounted(m, order);
    var k := Lacking(m, order);
    if k > 0 {
      OptionalIsAdded(m, order, k);
    }
    hide AddedNames, Required, OptionalAdded, RequiredBefore;
  }

  /** If every required name is listed once and visible, that is: at most maxProperties less what fits. */
  lemma FillsUpWhenAllAreVisible(m: Schema, order: seq<Text>)
    requires m.maxProperties.Some? && Distinct(order) && RequiredToAdd(m) == Required(m, order)
    ensures var k := Lacking(m, order);
            |AddedNames(m, order)| == Min(Room(m), |order|)
            <==> k <= 0 || RequiredBefore(m, order, k) <= Room(m) - Min(Room(m), |order|)
  {
    FillsUpExactlyWhen(m, order);
    hide AddedNames, Required, RequiredBefore;
  }

  const TWO_PLACES := EMPTY.(required := Some(["a"]), maxProperties := Some(2))

  /** Two places, a required property and an optional one after it: one place stays empty. */
  lemma PlaceStaysEmpty()
    ensures AddedNames(TWO_PLACES, ["a", "b"]) == {"a"}
  {
    OneIsAdded("a");
    NextAdded(TWO_PLACES, ["a"], "b");
    hide AddedNames;
    assert ["a", "b"] == ["a"] + ["b"];
  }

  /** The other way round both are taken. */
  lemma PlacesAreTaken()
    ensures AddedNames(TWO_PLACES, ["b", "a"]) == {"b", "a"}
  {
    OneIsAdded("b");
    NextAdded(TWO_PLACES, ["b"], "a");
    hide AddedNames;
    assert ["b", "a"] == ["b"] + ["a"];
  }

  lemma OneIsAdded(name: Text)
    requires name == "a" || name == "b"
    ensures AddedNames(TWO_PLACES, [name]) == {name}
  {
    assert AddedNames(TWO_PLACES, []) == {};
    assert [name][..0] == [];
  }
}
