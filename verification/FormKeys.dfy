/** swagger-ui.js: form entries with repeated names become an object with numbered keys (module 1890, the inner function
    of `be`), and the request snippets recover the names from the keys (module 8223, `k`). */
module FormKeys {
  import opened Decimals
  import opened ObjectPrototype
  import opened Optional

  type Text = seq<char>

  datatype Value = Words(text: Text) | File(id: nat)
  {
    /** An empty text is falsy. */
    predicate Truthy() { this != Words("") }
  }

  datatype Entry = Entry(name: Text, value: Value)

  const SEPARATOR: Text := "_**[]"

  // ----- Keys -----

  function Hashed(name: Text, i: nat): (key: Text) {
    name + SEPARATOR + Digits(i)
  }

  predicate StandsAt(s: Text, i: nat) {
    i + |SEPARATOR| <= |s| && s[i..i + |SEPARATOR|] == SEPARATOR
  }

  /** A name that does not contain the separator. */
  ghost predicate Plain(name: Text) {
    forall i: nat :: !StandsAt(name, i)
  }

  /** The place of the first separator from i on, or -1. */
  function IndexOf(s: Text, i: nat): (r: int)
    requires i <= |s|
    ensures r == -1 ==> forall k: nat :: i <= k ==> !StandsAt(s, k)
    ensures r != -1 ==> i <= r && StandsAt(s, r) && forall k: nat :: i <= k < r ==> !StandsAt(s, k)
    decreases |s| - i
  {
    if StandsAt(s, i) then i else if i == |s| then -1 else IndexOf(s, i + 1)
  }

  /** White space as `trim` sees it. */
  predicate Space(c: char) {
    c in " \t\n\r" || c as int in {0x0b, 0x0c, 0xa0, 0x1680, 0x2028, 0x2029, 0x202f, 0x205f, 0x3000, 0xfeff}
    || 0x2000 <= c as int <= 0x200a
  }

  function Trim(s: Text): (r: Text)
    ensures Trimmed(r)
    ensures Trimmed(s) ==> r == s
  {
    if s != [] && Space(s[0]) then Trim(s[1..])
    else if s != [] && Space(s[|s| - 1]) then Trim(s[..|s| - 1])
    else s
  }

  predicate Trimmed(s: Text) {
    s == [] || (!Space(s[0]) && !Space(s[|s| - 1]))
  }

  /** `k` of module 8223. */
  function ExtractKey(key: Text): (name: Text) {
    var i := IndexOf(key, 0);
    if i < 0 then key else Trim(key[..i])
  }

  /** The separator begins where the name ends, and nowhere before. */
  lemma SeparatorAfterName(name: Text, rest: Text)
    requires Plain(name)
    ensures IndexOf(name + SEPARATOR + rest, 0) == |name|
  {
    var s := name + SEPARATOR + rest;
    assert s[|name|..|name| + 5] == SEPARATOR;
    assert StandsAt(s, |name|);
    forall i: nat | i < |name| ensures !StandsAt(s, i) {
      if i + 5 <= |name| {
        assert s[i..i + 5] == name[i..i + 5];
        assert !StandsAt(name, i);
      } else {
        // only the first character of the separator is an underscore
        assert s[|name|] == SEPARATOR[0];
        assert s[i..i + 5][|name| - i] == s[|name|];
      }
    }
  }

  /** `trim` cuts white space off both ends, and nothing else. */
  lemma {:induction false} TrimCuts(s: Text) returns (i: nat, j: nat)
    ensures i <= j <= |s| && Trim(s) == s[i..j]
    ensures forall k :: 0 <= k < i || j <= k < |s| ==> Space(s[k])
    decreases |s|
  {
    hide Space;
    if s != [] && Space(s[0]) {
      i, j := TrimCuts(s[1..]);
      i, j := i + 1, j + 1;
    } else if s != [] && Space(s[|s| - 1]) {
      i, j := TrimCuts(s[..|s| - 1]);
    } else {
      i, j := 0, |s|;
    }
  }

  /** A name is given back by itself, and a numbered key gives it back trimmed. */
  lemma ExtractsName(name: Text, i: nat)
    requires Plain(name)
    ensures ExtractKey(name) == name && ExtractKey(Hashed(name, i)) == Trim(name)
  {
    hide Trim;
    SeparatorAfterName(name, Digits(i));
    assert Hashed(name, i)[..|name|] == name;
  }

  lemma KeysDiffer(name: Text, i: nat, other: Text, j: nat)
    requires Plain(name) && Plain(other)
    ensures Hashed(name, i) != other
    ensures Hashed(name, i) == Hashed(other, j) ==> name == other && i == j
  {
    SeparatorAfterName(name, Digits(i));
    SeparatorAfterName(other, Digits(j));
    var s := Hashed(name, i);
    assert StandsAt(s, |name|);
    if s == Hashed(other, j) {
      assert s[..|name|] == name && s[..|other|] == other;
      assert s[|name| + 5..] == Digits(i) && s[|name| + 5..] == Digits(j);
      DigitsDiffer(i, j);
    }
  }

  // ----- What is kept -----

  /** The values of a name that survive: a falsy value is forgotten when it is the only one so far and another comes. */
  function Kept(entries: seq<Entry>, name: Text): (r: seq<Value>) {
    if entries == [] then []
    else
      var e := entries[|entries| - 1];
      var before := Kept(entries[..|entries| - 1], name);
      if e.name != name then before
      else if |before| == 1 && !before[0].Truthy() then [e.value]
      else before + [e.value]
  }

  /** All the values of a name, in order. */
  function ValuesOf(entries: seq<Entry>, name: Text): (r: seq<Value>) {
    if entries == [] then []
    else
      var e := entries[|entries| - 1];
      ValuesOf(entries[..|entries| - 1], name) + (if e.name == name then [e.value] else [])
  }

  /** The object has a single value under its name, several under numbered keys, and nothing else. */
  ghost predicate Represents(obj: map<Text, Value>, entries: seq<Entry>) {
    && (forall key :: key in obj ==> Plain(key) || exists name, i: nat :: Plain(name) && key == Hashed(name, i))
    && (forall name :: Plain(name) ==> HasName(obj, name, Kept(entries, name)))
  }

  /** The part of it about one name. */
  ghost predicate HasName(obj: map<Text, Value>, name: Text, kept: seq<Value>) {
    && (name in obj <==> |kept| == 1)
    && (name in obj ==> obj[name] == kept[0])
    && (forall i: nat :: Hashed(name, i) in obj <==> |kept| >= 2 && 1 <= i <= |kept|)
    && (forall i: nat :: Hashed(name, i) in obj ==> 1 <= i <= |kept| && obj[Hashed(name, i)] == kept[i - 1])
  }

  /** What an entry does to the values kept of a name. */
  function KeptNext(before: seq<Value>, value: Value): (r: seq<Value>) {
    if |before| == 1 && !before[0].Truthy() then [value] else before + [value]
  }

  lemma KeptStep(entries: seq<Entry>, e: Entry, name: Text)
    ensures Kept(entries + [e], name)
            == if e.name == name then KeptNext(Kept(entries, name), e.value) else Kept(entries, name)
  {
    assert (entries + [e])[..|entries|] == entries;
  }

  lemma Lookup(obj: map<Text, Value>, entries: seq<Entry>, name: Text)
    requires Represents(obj, entries) && Plain(name)
    ensures HasName(obj, name, Kept(entries, name))
  {
  }

  /** A name that the entry does not bear is not touched by changes to the keys of the entry's name. */
  lemma OtherName(obj: map<Text, Value>, r: map<Text, Value>, kept: seq<Value>, name: Text, changed: Text)
    requires HasName(obj, name, kept) && Plain(name) && Plain(changed) && name != changed
    requires forall key :: (key in obj) != (key in r) || (key in obj && obj[key] != r[key]) ==>
               key == changed || exists j: nat :: key == Hashed(changed, j)
    ensures HasName(r, name, kept)
  {
    forall j: nat ensures Hashed(changed, j) != name { KeysDiffer(changed, j, name, 0); }
    forall i: nat ensures Hashed(name, i) != changed && forall j: nat :: Hashed(changed, j) != Hashed(name, i) {
      KeysDiffer(name, i, changed, 0);
      forall j: nat ensures Hashed(changed, j) != Hashed(name, i) { KeysDiffer(name, i, changed, j); }
    }
  }

  lemma OwnKeys(name: Text)
    requires Plain(name)
    ensures forall i: nat :: Hashed(name, i) != name
    ensures forall i: nat, j: nat :: Hashed(name, i) == Hashed(name, j) ==> i == j
  {
    forall i: nat ensures Hashed(name, i) != name { KeysDiffer(name, i, name, 0); }
    forall i: nat, j: nat ensures Hashed(name, i) == Hashed(name, j) ==> i == j { KeysDiffer(name, i, name, j); }
  }

  /** The first value of a name, or one in place of a falsy value. */
  lemma SingleOwn(obj: map<Text, Value>, kept: seq<Value>, name: Text, value: Value)
    requires HasName(obj, name, kept) && Plain(name) && |kept| < 2 && (kept != [] ==> !kept[0].Truthy())
    ensures HasName(obj[name := value], name, KeptNext(kept, value))
  {
    hide Hashed;
    OwnKeys(name);
  }

  /** The second value: the first one moves to a numbered key. */
  lemma SecondOwn(obj: map<Text, Value>, kept: seq<Value>, name: Text, value: Value)
    requires HasName(obj, name, kept) && Plain(name) && |kept| == 1 && kept[0].Truthy()
    ensures HasName((obj[Hashed(name, 1) := obj[name]] - {name})[Hashed(name, 2) := value], name, KeptNext(kept, value))
  {
    hide Hashed;
    OwnKeys(name);
    var r := (obj[Hashed(name, 1) := obj[name]] - {name})[Hashed(name, 2) := value];
    forall i: nat ensures Hashed(name, i) in r <==> 1 <= i <= 2 {
      assert Hashed(name, i) !in obj;
    }
  }

  /** One more value after that. */
  lemma NextOwn(obj: map<Text, Value>, kept: seq<Value>, name: Text, value: Value)
    requires HasName(obj, name, kept) && Plain(name) && |kept| >= 2
    ensures HasName(obj[Hashed(name, |kept| + 1) := value], name, KeptNext(kept, value))
  {
    hide Hashed;
    OwnKeys(name);
  }

  /** When only keys of the entry's name change, and these as its values do, the object represents one entry more. */
  lemma OneMoreEntry(obj: map<Text, Value>, entries: seq<Entry>, e: Entry, r: map<Text, Value>)
    requires Represents(obj, entries) && Plain(e.name)
    requires forall key :: (key in obj) != (key in r) || (key in obj && obj[key] != r[key]) ==>
               key == e.name || exists j: nat :: key == Hashed(e.name, j)
    requires HasName(r, e.name, KeptNext(Kept(entries, e.name), e.value))
    ensures Represents(r, entries + [e])
  {
    hide HasName, Kept, KeptNext, Hashed, Plain;
    forall name | Plain(name) ensures HasName(r, name, Kept(entries + [e], name)) {
      KeptStep(entries, e, name);
      if name != e.name {
        OtherName(obj, r, Kept(entries, name), name, e.name);
      }
    }
  }

  /** How many values are kept decides what the loop does. */
  ghost predicate Tracks(trackKeys: map<Text, nat>, entries: seq<Entry>) {
    && (forall name :: name in trackKeys ==> Plain(name) && trackKeys[name] == |Kept(entries, name)| >= 2)
    && (forall name :: Plain(name) && |Kept(entries, name)| >= 2 ==> name in trackKeys)
  }

  lemma TracksNext(trackKeys: map<Text, nat>, entries: seq<Entry>, e: Entry)
    requires Tracks(trackKeys, entries) && Plain(e.name)
    ensures var n := |KeptNext(Kept(entries, e.name), e.value)|;
            Tracks(if n >= 2 then trackKeys[e.name := n] else trackKeys, entries + [e])
  {
    hide Kept, KeptNext, Plain;
    forall name
      ensures Kept(entries + [e], name)
              == if e.name == name then KeptNext(Kept(entries, name), e.value) else Kept(entries, name)
    {
      KeptStep(entries, e, name);
    }
    KeptGrows(Kept(entries, e.name), e.value);
  }

  lemma KeptGrows(kept: seq<Value>, value: Value)
    ensures |kept| >= 2 ==> |KeptNext(kept, value)| == |kept| + 1
    ensures |KeptNext(kept, value)| == if |kept| == 1 && !kept[0].Truthy() then 1 else |kept| + 1
  {
  }

  /** What comes of the entries: an error, if a name is that of an inherited function, and otherwise the object. */
  ghost predicate Gives(r: Option<map<Text, Value>>, entries: seq<Entry>) {
    && (r.None? <==> exists e :: e in entries && InheritsFunction(e.name))
    && (r.Some? ==> Represents(r.value, entries))
  }

  /** The loop over the entries. A name that the object inherits looks like a repeated one, and the function found under
      it has a length that cannot be assigned to. */
  method HashKeys(entries: seq<Entry>) returns (r: Option<map<Text, Value>>)
    requires forall e :: e in entries ==> Plain(e.name) && e.name != PROTO
    ensures Gives(r, entries)
  {
    hide Represents, HasName, Kept, KeptNext, Plain, Tracks, Hashed, InheritsFunction;
    var newObj: map<Text, Value> := map[];
    var trackKeys: map<Text, nat> := map[];
    Nothing();
    for n := 0 to |entries|
      invariant Represents(newObj, entries[..n]) && Tracks(trackKeys, entries[..n])
      invariant forall e :: e in entries[..n] ==> !InheritsFunction(e.name)
    {
      var name, value := entries[n].name, entries[n].value;
      assert entries[..n + 1] == entries[..n] + [entries[n]];
      var found := InheritsFunction(name) || (name in newObj && newObj[name].Truthy());
      if !found && name !in trackKeys {
        FirstTurn(newObj, trackKeys, entries[..n], entries[n]);
        newObj := newObj[name := value];
      } else if InheritsFunction(name) {
        assert entries[n] in entries;
        return None;
      } else {
        OtherTurn(newObj, trackKeys, entries[..n], entries[n]);
        if name !in trackKeys {
          assert trackKeys[name := 1][name := 2] == trackKeys[name := 2];
          trackKeys := trackKeys[name := 1];
          newObj := newObj[Hashed(name, 1) := newObj[name]] - {name};
        }
        trackKeys := trackKeys[name := trackKeys[name] + 1];
        newObj := newObj[Hashed(name, trackKeys[name]) := value];
      }
    }
    assert entries[..|entries|] == entries;
    return Some(newObj);
  }

  lemma Nothing()
    ensures Represents(map[], []) && Tracks(map[], [])
  {
  }

  lemma FirstTurn(obj: map<Text, Value>, trackKeys: map<Text, nat>, entries: seq<Entry>, e: Entry)
    requires Represents(obj, entries) && Tracks(trackKeys, entries) && Plain(e.name)
    requires !(e.name in obj && obj[e.name].Truthy()) && e.name !in trackKeys
    ensures Represents(obj[e.name := e.value], entries + [e]) && Tracks(trackKeys, entries + [e])
  {
    var kept := Kept(entries, e.name);
    Lookup(obj, entries, e.name);
    assert |kept| < 2 && (kept != [] ==> !kept[0].Truthy());
    SingleOwn(obj, kept, e.name, e.value);
    KeptGrows(kept, e.value);
    TracksNext(trackKeys, entries, e);
    hide Represents, HasName, Kept, KeptNext, Plain, Tracks, Hashed;
    OneMoreEntry(obj, entries, e, obj[e.name := e.value]);
  }

  lemma OtherTurn(obj: map<Text, Value>, trackKeys: map<Text, nat>, entries: seq<Entry>, e: Entry)
    requires Represents(obj, entries) && Tracks(trackKeys, entries) && Plain(e.name)
    requires (e.name in obj && obj[e.name].Truthy()) || e.name in trackKeys
    ensures e.name !in trackKeys ==>
              && e.name in obj
              && Represents((obj[Hashed(e.name, 1) := obj[e.name]] - {e.name})[Hashed(e.name, 2) := e.value], entries + [e])
              && Tracks(trackKeys[e.name := 2], entries + [e])
    ensures e.name in trackKeys ==>
              && Represents(obj[Hashed(e.name, trackKeys[e.name] + 1) := e.value], entries + [e])
              && Tracks(trackKeys[e.name := trackKeys[e.name] + 1], entries + [e])
  {
    var name, kept := e.name, Kept(entries, e.name);
    hide Represents, Kept, KeptNext, Plain, Hashed;
    Lookup(obj, entries, name);
    KeptGrows(kept, e.value);
    TracksNext(trackKeys, entries, e);
    if name in trackKeys {
      NextOwn(obj, kept, name, e.value);
      OneMoreEntry(obj, entries, e, obj[Hashed(name, trackKeys[name] + 1) := e.value]);
    } else {
      SecondOwn(obj, kept, name, e.value);
      OneMoreEntry(obj, entries, e, (obj[Hashed(name, 1) := obj[name]] - {name})[Hashed(name, 2) := e.value]);
    }
  }

  // ----- Nothing is lost, and order is kept -----

  /** A falsy value is dropped as long as another one follows. */
  function DropFalsy(vs: seq<Value>): (r: seq<Value>) {
    if |vs| >= 2 && !vs[0].Truthy() then DropFalsy(vs[1..]) else vs
  }

  lemma {:induction false} DropFalsyGrows(vs: seq<Value>, v: Value)
    ensures DropFalsy(vs + [v]) == KeptNext(DropFalsy(vs), v)
    ensures vs != [] ==> DropFalsy(vs) != []
    decreases |vs|
  {
    if vs == [] {
      assert vs + [v] == [v];
    } else if vs[0].Truthy() {
    } else {
      assert (vs + [v])[1..] == vs[1..] + [v];
      DropFalsyGrows(vs[1..], v);
      if |vs| == 1 {
        assert vs[1..] == [];
      }
    }
  }

  /** Of the values of a name, all are kept in order but the falsy ones at the beginning. */
  lemma {:induction false} KeptAreTheLast(entries: seq<Entry>, name: Text)
    ensures Kept(entries, name) == DropFalsy(ValuesOf(entries, name))
  {
    if entries == [] {
    } else {
      var e, before := entries[|entries| - 1], entries[..|entries| - 1];
      KeptAreTheLast(before, name);
      assert before + [e] == entries;
      KeptStep(before, e, name);
      DropFalsyGrows(ValuesOf(before, name), e.value);
      assert ValuesOf(before, name) + [] == ValuesOf(before, name);
      hide Kept, KeptNext, DropFalsy;
    }
  }

  lemma {:induction false} DropFalsyIsShorter(vs: seq<Value>)
    ensures |DropFalsy(vs)| <= |vs|
  {
    if |vs| >= 2 && !vs[0].Truthy() {
      DropFalsyIsShorter(vs[1..]);
    }
  }

  /** Of two entries of one name, the first one empty, only the second is left. */
  lemma EmptyFirstIsLost()
    ensures Kept([Entry("a", Words("")), Entry("a", Words("x"))], "a") == [Words("x")]
    ensures ValuesOf([Entry("a", Words("")), Entry("a", Words("x"))], "a") == [Words(""), Words("x")]
  {
    var first, second := Entry("a", Words("")), Entry("a", Words("x"));
    assert [first][..0] == [] && [first, second][..1] == [first];
    assert Kept([first], "a") == [Words("")];
    assert ValuesOf([first], "a") == [Words("")];
  }

  /** An entry called toString makes the conversion fail. */
  lemma InheritedNameFails(r: Option<map<Text, Value>>)
    requires Gives(r, [Entry("toString", Words("x"))])
    ensures r.None?
  {
    assert Entry("toString", Words("x")) in [Entry("toString", Words("x"))];
    assert FUNCTIONS[5] == "toString";
  }

  /** Exactly when the first of several values is falsy, something is lost. */
  lemma AllAreKept(entries: seq<Entry>, name: Text)
    ensures Kept(entries, name) == ValuesOf(entries, name)
            <==> |ValuesOf(entries, name)| < 2 || ValuesOf(entries, name)[0].Truthy()
  {
    var vs := ValuesOf(entries, name);
    KeptAreTheLast(entries, name);
    if |vs| >= 2 && !vs[0].Truthy() {
      DropFalsyIsShorter(vs[1..]);
    }
  }

  /** The keys from which a name is extracted, with a given value. */
  function KeysOf(obj: map<Text, Value>, name: Text, v: Value): (r: set<Text>) {
    set key | key in obj && ExtractKey(key) == name && obj[key] == v
  }

  function NumberedKeys(kept: seq<Value>, name: Text, v: Value): (r: set<Text>) {
    set i | 1 <= i <= |kept| && kept[i - 1] == v :: Hashed(name, i)
  }

  lemma NumberedKeysStep(before: seq<Value>, last: Value, name: Text, v: Value)
    requires Plain(name)
    ensures var key, less := Hashed(name, |before| + 1), NumberedKeys(before, name, v);
            && key !in less
            && NumberedKeys(before + [last], name, v) == if last == v then less + {key} else less
  {
    OwnKeys(name);
    hide Hashed, Plain;
  }

  lemma NoNumberedKeys(name: Text, v: Value)
    ensures NumberedKeys([], name, v) == {}
  {
  }

  lemma {:induction false} NumberedKeysCount(kept: seq<Value>, name: Text, v: Value)
    requires Plain(name)
    ensures |NumberedKeys(kept, name, v)| == multiset(kept)[v]
    decreases |kept|
  {
    hide NumberedKeys, Hashed, Plain;
    if kept == [] {
      NoNumberedKeys(name, v);
    } else {
      var n := |kept| - 1;
      NumberedKeysCount(kept[..n], name, v);
      NumberedKeysStep(kept[..n], kept[n], name, v);
      assert kept == kept[..n] + [kept[n]];
    }
  }

  lemma {:induction false} KeptHasName(entries: seq<Entry>, name: Text)
    requires Kept(entries, name) != []
    ensures exists e :: e in entries && e.name == name
  {
    var n := |entries| - 1;
    if entries[n].name == name {
      assert entries[n] in entries;
    } else {
      KeptHasName(entries[..n], name);
      var e :| e in entries[..n] && e.name == name;
      assert e in entries;
    }
  }

  lemma PlainHasNoSeparator(key: Text)
    requires Plain(key)
    ensures ExtractKey(key) == key
  {
  }

  /** No name that is kept several times begins or ends with white space. */
  ghost predicate RepeatedAreTrimmed(entries: seq<Entry>) {
    forall name :: |Kept(entries, name)| >= 2 ==> Trimmed(name)
  }

  /** The keys that give back a name are the name itself or its numbered keys. */
  lemma KeysOfName(obj: map<Text, Value>, entries: seq<Entry>, key: Text)
    requires Represents(obj, entries) && key in obj && RepeatedAreTrimmed(entries)
    requires forall e :: e in entries ==> Plain(e.name)
    ensures var name := ExtractKey(key);
            && Plain(name) && Kept(entries, name) != []
            && (key == name || exists i: nat :: key == Hashed(name, i))
  {
    hide Trim, Trimmed, Kept;
    if Plain(key) {
      PlainHasNoSeparator(key);
      Lookup(obj, entries, key);
    } else {
      var name, i: nat :| Plain(name) && key == Hashed(name, i);
      Lookup(obj, entries, name);
      ExtractsName(name, i);
      TrimsNothing(name);
    }
  }

  lemma TrimsNothing(name: Text)
    ensures Trimmed(name) ==> Trim(name) == name
  {
  }

  lemma KeysOfAre(obj: map<Text, Value>, entries: seq<Entry>, name: Text, v: Value)
    requires Represents(obj, entries) && Plain(name) && RepeatedAreTrimmed(entries)
    requires forall e :: e in entries ==> Plain(e.name)
    ensures var kept := Kept(entries, name);
            KeysOf(obj, name, v) == if |kept| == 1 then (if kept[0] == v then {name} else {}) else NumberedKeys(kept, name, v)
  {
    hide Represents, Kept, Hashed, Plain, Trimmed, ExtractKey, Trim;
    var kept := Kept(entries, name);
    Lookup(obj, entries, name);
    TrimsNothing(name);
    forall i: nat ensures ExtractKey(Hashed(name, i)) == Trim(name) && ExtractKey(name) == name { ExtractsName(name, i); }
    assert ExtractKey(name) == name by { ExtractsName(name, 0); }
    OwnKeys(name);
    forall key | key in KeysOf(obj, name, v)
      ensures key == name || exists i: nat :: key == Hashed(name, i)
    {
      KeysOfName(obj, entries, key);
    }
  }

  lemma KeysOfCount(obj: map<Text, Value>, entries: seq<Entry>, name: Text, v: Value)
    requires Represents(obj, entries) && Plain(name) && RepeatedAreTrimmed(entries)
    requires forall e :: e in entries ==> Plain(e.name)
    ensures |KeysOf(obj, name, v)| == multiset(Kept(entries, name))[v]
  {
    hide Represents, Kept, Plain, Trimmed, KeysOf, NumberedKeys;
    var kept := Kept(entries, name);
    KeysOfAre(obj, entries, name, v);
    NumberedKeysCount(kept, name, v);
    if |kept| == 1 {
      assert kept == [kept[0]];
    }
  }

  lemma {:induction false} ValuesCount(entries: seq<Entry>, name: Text, v: Value)
    ensures multiset(ValuesOf(entries, name))[v] == multiset(entries)[Entry(name, v)]
  {
    if entries == [] {
    } else {
      var n := |entries| - 1;
      ValuesCount(entries[..n], name, v);
      assert entries == entries[..n] + [entries[n]];
    }
  }

  /** The name of each entry is extracted as often as it was given, with the same value. */
  ghost predicate Recovers(obj: map<Text, Value>, entries: seq<Entry>, name: Text) {
    forall v :: |KeysOf(obj, name, v)| == multiset(entries)[Entry(name, v)]
  }

  /** The entries of one name are all recovered exactly when no falsy value comes before another one. */
  lemma NameIsRecovered(entries: seq<Entry>, obj: map<Text, Value>, name: Text)
    requires Represents(obj, entries) && Plain(name) && RepeatedAreTrimmed(entries)
    requires forall e :: e in entries ==> Plain(e.name)
    ensures Recovers(obj, entries, name) <==> |ValuesOf(entries, name)| < 2 || ValuesOf(entries, name)[0].Truthy()
  {
    hide Represents, Plain, Trimmed, KeysOf, Kept, ValuesOf, RepeatedAreTrimmed;
    var kept, vs := Kept(entries, name), ValuesOf(entries, name);
    forall v ensures |KeysOf(obj, name, v)| == multiset(kept)[v] && multiset(entries)[Entry(name, v)] == multiset(vs)[v] {
      KeysOfCount(obj, entries, name, v);
      ValuesCount(entries, name, v);
    }
    AllAreKept(entries, name);
    KeptAreTheLast(entries, name);
    SameOrShorter(vs);
    if Recovers(obj, entries, name) {
      assert multiset(kept) == multiset(vs);
      assert |multiset(kept)| == |kept| && |multiset(vs)| == |vs|;
    }
  }

  /** A name with white space around it that is kept several times is given back without it. */
  lemma PaddedIsLost(entries: seq<Entry>, obj: map<Text, Value>, name: Text)
    requires Represents(obj, entries) && Plain(name) && !Trimmed(name) && |Kept(entries, name)| >= 2
    requires forall e :: e in entries ==> Plain(e.name)
    ensures !Recovers(obj, entries, name) && exists e :: e in entries && e.name == name
  {
    hide Represents, Trimmed, Trim, Plain, ExtractKey, Kept, Hashed;
    KeptHasName(entries, name);
    var e :| e in entries && e.name == name;
    Lookup(obj, entries, name);
    forall key | key in obj ensures ExtractKey(key) != name {
      PaddedIsNoKey(obj, entries, name, key);
    }
    assert KeysOf(obj, name, e.value) == {};
    assert e == Entry(name, e.value);
    assert multiset(entries)[e] > 0;
  }

  lemma PaddedIsNoKey(obj: map<Text, Value>, entries: seq<Entry>, name: Text, key: Text)
    requires Represents(obj, entries) && Plain(name) && !Trimmed(name) && name !in obj && key in obj
    ensures ExtractKey(key) != name
  {
    hide Trimmed, HasName, Kept;
    if Plain(key) {
      PlainHasNoSeparator(key);
    } else {
      var other, i: nat :| Plain(other) && key == Hashed(other, i);
      ExtractsName(other, i);
      TrimIsTrimmed(other);
    }
  }

  lemma TrimIsTrimmed(name: Text)
    ensures Trimmed(Trim(name))
  {
  }

  /** Two values under a name with a space before it: neither of them is found under that name again. */
  lemma PaddedNameIsLost(obj: map<Text, Value>)
    requires Represents(obj, [Entry(" a", Words("x")), Entry(" a", Words("y"))])
    ensures KeysOf(obj, " a", Words("x")) == {}
  {
    hide Represents, Trimmed, Trim, ExtractKey, Hashed;
    var first, second := Entry(" a", Words("x")), Entry(" a", Words("y"));
    assert [first][..0] == [] && [first, second][..1] == [first];
    assert Kept([first], " a") == [Words("x")];
    assert Kept([first, second], " a") == [Words("x"), Words("y")];
    SpaceIsNotTrimmed();
    ShortIsPlain(" a");
    Lookup(obj, [first, second], " a");
    forall key | key in obj ensures ExtractKey(key) != " a" {
      PaddedIsNoKey(obj, [first, second], " a", key);
    }
  }

  lemma SpaceIsNotTrimmed()
    ensures !Trimmed(" a")
  {
    assert " a"[0] == ' ' && ' ' in " \t\n\r" by { assert " \t\n\r"[0] == ' '; }
  }

  lemma ShortIsPlain(name: Text)
    requires |name| < 5
    ensures Plain(name)
  {
  }

  /** What has to hold of the values of a name. */
  ghost predicate ComesBack(entries: seq<Entry>, name: Text) {
    || |ValuesOf(entries, name)| < 2
    || (ValuesOf(entries, name)[0].Truthy() && Trimmed(name))
  }

  /** The conversion succeeds and every entry is recovered from its result, exactly when no name is that of an inherited
      function, and of a name with several values the first one is not empty and the name has no white space around it. */
  lemma NoEntryIsLost(entries: seq<Entry>, r: Option<map<Text, Value>>)
    requires Gives(r, entries)
    requires forall e :: e in entries ==> Plain(e.name) && e.name != PROTO
    ensures r.Some? && (forall e :: e in entries ==> Recovers(r.value, entries, e.name))
            <==> forall e :: e in entries ==> !InheritsFunction(e.name) && ComesBack(entries, e.name)
  {
    hide Represents, Plain, Trimmed, Recovers, ValuesOf, InheritsFunction, Kept;
    forall name ensures |Kept(entries, name)| >= 2 ==> Plain(name) && |ValuesOf(entries, name)| >= 2 {
      if |Kept(entries, name)| >= 2 {
        KeptHasName(entries, name);
        KeptAreFewer(entries, name);
      }
    }
    if r.Some? {
      if RepeatedAreTrimmed(entries) {
        forall e | e in entries ensures Recovers(r.value, entries, e.name) <==> ComesBack(entries, e.name) {
          NameIsRecovered(entries, r.value, e.name);
          AllAreKept(entries, e.name);
        }
      } else {
        var name :| |Kept(entries, name)| >= 2 && !Trimmed(name);
        PaddedIsLost(entries, r.value, name);
      }
    }
  }

  lemma KeptAreFewer(entries: seq<Entry>, name: Text)
    ensures |Kept(entries, name)| <= |ValuesOf(entries, name)|
  {
    KeptAreTheLast(entries, name);
    SameOrShorter(ValuesOf(entries, name));
    hide Kept, ValuesOf;
  }

  /** Nothing is recovered that was not given. */
  lemma NothingIsMadeUp(entries: seq<Entry>, obj: map<Text, Value>, key: Text)
    requires Represents(obj, entries) && key in obj && RepeatedAreTrimmed(entries)
    requires forall e :: e in entries ==> Plain(e.name)
    ensures multiset(entries)[Entry(ExtractKey(key), obj[key])] > 0
  {
    hide Represents, Plain, Trimmed, Kept, ValuesOf, ExtractKey, RepeatedAreTrimmed;
    var name, v := ExtractKey(key), obj[key];
    KeysOfName(obj, entries, key);
    KeysOfCount(obj, entries, name, v);
    assert key in KeysOf(obj, name, v);
    KeptAreTheLast(entries, name);
    DropFalsyIsSuffix(ValuesOf(entries, name));
    ValuesCount(entries, name, v);
  }

  lemma {:induction false} DropFalsyIsSuffix(vs: seq<Value>)
    ensures forall v :: multiset(DropFalsy(vs))[v] <= multiset(vs)[v]
  {
    if |vs| >= 2 && !vs[0].Truthy() {
      DropFalsyIsSuffix(vs[1..]);
      assert vs == [vs[0]] + vs[1..];
    }
  }

  lemma {:induction false} SameOrShorter(vs: seq<Value>)
    ensures DropFalsy(vs) == vs || |DropFalsy(vs)| < |vs|
  {
    if |vs| >= 2 && !vs[0].Truthy() {
      DropFalsyIsShorter(vs[1..]);
    }
  }
}
