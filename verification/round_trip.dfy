/**
 The writer and the reader put together: when merging the JSON of one value into another
 makes the second agree with the first.
 */
module RoundTrip {
  import opened JsonValues
  import opened Reflection
  import opened FromJson
  import opened FromJsonProperties
  import opened ToJson

  // ---------------------------------------------------------------------------------------
  // The vocabulary of the theorem
  // ---------------------------------------------------------------------------------------

  /** Values that the JSON form can carry: enumerators have names, no sequence holds an
      associative container, keys and mapped values are of types that the reader can build, and
      the keys lose nothing when written. */
  ghost predicate Supported(w: World, t: Type, v: Value)
    decreases v
  {
    match v
    case VEnum(code) => t.TEnum? && NameOf(t.names, code).Some?
    case VSeq(elems) =>
      t.TSeq? && forall i :: 0 <= i < |elems| ==> !t.elem.TMap? && !t.elem.TSet? && Supported(w, t.elem, elems[i])
    case VMap(entries) =>
      t.TMap? && forall k :: k in entries ==>
        && Extractable(w, t.key) && Supported(w, t.key, k) && Complete(w, t.key, k)
        && Extractable(w, t.val) && Supported(w, t.val, entries[k])
    case VSet(keys) => t.TSet? && forall k :: k in keys ==> Convertible(w, t.key) && Supported(w, t.key, k)
    case VObj(fields) =>
      forall i :: 0 <= i < |Properties(w, t)| && Properties(w, t)[i].serialized ==>
        var p := Properties(w, t)[i];
        p.name in fields && Supported(w, p.ty, fields[p.name])
    case _ => true
  }

  /** Types whose values are written as a scalar that converts back: the scalars themselves, and
      classes without properties that convert to a text and from it. */
  predicate Convertible(w: World, t: Type) {
    IsAtom(t) || (t.TClass? && t.cls in w.classes && w.classes[t.cls].props == []
                  && var s := w.text(t, VObj(map[])); s.Some? && Convert(w, JString(s.value), t).Some?)
  }

  /** Types of which the reader builds a fresh value from what the writer makes of one. */
  predicate Extractable(w: World, t: Type) {
    || Convertible(w, t)
    || (t.TClass? && t.cls in w.classes && w.classes[t.cls].constructible && w.classes[t.cls].props != [])
  }

  /** Every property at every depth is serialised. */
  ghost predicate Complete(w: World, t: Type, v: Value)
    decreases v
  {
    match v
    case VSeq(elems) => t.TSeq? && forall i :: 0 <= i < |elems| ==> Complete(w, t.elem, elems[i])
    case VMap(entries) => t.TMap? && forall k :: k in entries ==> Complete(w, t.val, entries[k])
    case VObj(fields) =>
      forall i :: 0 <= i < |Properties(w, t)| ==>
        var p := Properties(w, t)[i];
        p.serialized && p.name in fields && Complete(w, p.ty, fields[p.name])
    case _ => true
  }

  /** `b` equals `a` in everything that is serialised. */
  ghost predicate Agree(w: World, t: Type, a: Value, b: Value)
    decreases a
  {
    match a
    case VSeq(elems) =>
      && t.TSeq? && b.VSeq? && |b.elems| == |elems|
      && forall i :: 0 <= i < |elems| ==> Agree(w, t.elem, elems[i], b.elems[i])
    case VMap(entries) =>
      && t.TMap? && b.VMap? && b.entries.Keys == entries.Keys
      && forall k :: k in entries ==> Agree(w, t.val, entries[k], b.entries[k])
    case VObj(fields) =>
      && b.VObj?
      && forall i :: 0 <= i < |Properties(w, t)| && Properties(w, t)[i].serialized ==>
           var p := Properties(w, t)[i];
           p.name in fields && p.name in b.fields && Agree(w, p.ty, fields[p.name], b.fields[p.name])
    case _ => b == a
  }

  /** The target `b` holds nothing that merging the JSON of `a` would have to remove: at every
      place both have, `b`'s associative containers have entries of `a` only. */
  ghost predicate Mergeable(w: World, t: Type, a: Value, b: Value)
    decreases a
  {
    match a
    case VSeq(elems) =>
      t.TSeq? && b.VSeq? && forall i :: 0 <= i < |elems| && i < |b.elems| ==> Mergeable(w, t.elem, elems[i], b.elems[i])
    case VMap(entries) =>
      && t.TMap? && b.VMap? && b.entries.Keys <= entries.Keys
      && forall k :: k in b.entries && k in entries ==> Agree(w, t.val, entries[k], b.entries[k])
    case VSet(keys) => b.VSet? && b.keys <= keys
    case VObj(fields) =>
      && b.VObj?
      && forall i :: 0 <= i < |Properties(w, t)| && Properties(w, t)[i].serialized ==>
           var p := Properties(w, t)[i];
           p.name in fields && p.name in b.fields && Mergeable(w, p.ty, fields[p.name], b.fields[p.name])
    case _ => true
  }

  /** No associative container has any entries. */
  ghost predicate Unfilled(w: World, t: Type, v: Value)
    decreases v
  {
    match v
    case VSeq(elems) => t.TSeq? && forall i :: 0 <= i < |elems| ==> Unfilled(w, t.elem, elems[i])
    case VMap(entries) => entries == map[]
    case VSet(keys) => keys == {}
    case VObj(fields) =>
      forall i :: 0 <= i < |Properties(w, t)| && Properties(w, t)[i].serialized ==>
        var p := Properties(w, t)[i];
        p.name in fields && Unfilled(w, p.ty, fields[p.name])
    case _ => true
  }

  /** Default-constructed objects have empty associative containers. */
  ghost predicate StartsUnfilled(w: World) {
    forall cls :: cls in w.classes ==> Unfilled(w, TClass(cls), w.classes[cls].init)
  }

  // ---------------------------------------------------------------------------------------
  // Facts about the vocabulary
  // ---------------------------------------------------------------------------------------

  lemma {:induction false} UnfilledIsMergeable(w: World, t: Type, a: Value, b: Value)
    requires HasType(w, a, t) && HasType(w, b, t) && Unfilled(w, t, b)
    ensures Mergeable(w, t, a, b)
    decreases a
  {
    match a
    case VSeq(elems) =>
      forall i | 0 <= i < |elems| && i < |b.elems| ensures Mergeable(w, t.elem, elems[i], b.elems[i]) {
        UnfilledIsMergeable(w, t.elem, elems[i], b.elems[i]);
      }
    case VObj(fields) =>
      forall i | 0 <= i < |Properties(w, t)| && Properties(w, t)[i].serialized
        ensures var p := Properties(w, t)[i]; Mergeable(w, p.ty, fields[p.name], b.fields[p.name])
      {
        var p := Properties(w, t)[i];
        UnfilledIsMergeable(w, p.ty, fields[p.name], b.fields[p.name]);
      }
    case _ =>
  }

  /** Values that agree with one that loses nothing are equal to it. */
  lemma {:induction false} CompleteAgreementIsEquality(w: World, t: Type, a: Value, b: Value)
    requires HasType(w, a, t) && HasType(w, b, t) && Complete(w, t, a) && Agree(w, t, a, b)
    ensures a == b
    decreases a
  {
    match a
    case VSeq(elems) =>
      forall i | 0 <= i < |elems| ensures elems[i] == b.elems[i] {
        CompleteAgreementIsEquality(w, t.elem, elems[i], b.elems[i]);
      }
    case VMap(entries) =>
      forall k | k in entries ensures entries[k] == b.entries[k] {
        CompleteAgreementIsEquality(w, t.val, entries[k], b.entries[k]);
      }
      assert entries == b.entries;
    case VObj(fields) =>
      var props := Properties(w, t);
      forall name | name in fields ensures name in b.fields && fields[name] == b.fields[name] {
        var i :| 0 <= i < |props| && props[i].name == name;
        CompleteAgreementIsEquality(w, props[i].ty, fields[name], b.fields[name]);
      }
      assert fields == b.fields;
    case _ =>
  }

  lemma AtomRoundTrip(w: World, t: Type, v: Value)
    requires TypeOk(w, t) && IsAtom(t) && HasType(w, v, t) && Supported(w, t, v)
    ensures Convert(w, AtomJson(t, v), t) == Some(v)
  {
    if v.VEnum? {
      NameRoundTrip(t.names, v.code);
    }
  }

  lemma ConvertibleRoundTrip(w: World, t: Type, v: Value, j: Json)
    requires TypeOk(w, t) && Convertible(w, t) && HasType(w, v, t) && Supported(w, t, v) && Writes(w, t, v, j)
    ensures Convert(w, j, t) == Some(v)
  {
    if IsAtom(t) {
      AtomRoundTrip(w, t, v);
    } else {
      OnlyOneWithoutProperties(w, t, v);
      OnlyOneWithoutProperties(w, t, Convert(w, j, t).value);
    }
  }

  lemma OnlyOneWithoutProperties(w: World, t: Type, v: Value)
    requires t.TClass? && HasType(w, v, t) && Properties(w, t) == []
    ensures v == VObj(map[])
  {
    assert v.fields == map[];
  }

  lemma DefaultUnfilled(w: World, t: Type)
    requires WorldOk(w) && StartsUnfilled(w) && TypeOk(w, t)
    ensures Unfilled(w, t, Default(w, t))
  {
  }

  // ---------------------------------------------------------------------------------------
  // The round trip
  // ---------------------------------------------------------------------------------------

  /** Conditions of the round trip that do not change from one level to the next. */
  ghost predicate Ready(w: World, t: Type, a: Value, b: Value) {
    && WorldOk(w) && StartsUnfilled(w) && TypeOk(w, t)
    && HasType(w, a, t) && HasType(w, b, t) && Supported(w, t, a)
  }

  lemma {:induction false} PropertyRoundTrip(w: World, t: Type, a: Value, b: Value, j: Json)
    requires Ready(w, t, a, b) && Writes(w, t, a, j)
    ensures Agree(w, t, a, MergeProperty(w, t, b, j)) <==> Mergeable(w, t, a, b)
    decreases j, 3
  {
    match a
    case VSeq(elems) => SeqRoundTrip(w, t, a, b, j);
    case VMap(_) => MapRoundTrip(w, t, a, b, j);
    case VSet(_) => SetRoundTrip(w, t, a, b, j);
    case VObj(fields) =>
      if Properties(w, t) != [] {
        ObjectRoundTrip(w, t, a, b, j);
      }
    case _ => AtomRoundTrip(w, t, a);
  }

  lemma {:induction false} MapRoundTrip(w: World, t: Type, a: Value, b: Value, j: Json)
    requires Ready(w, t, a, b) && a.VMap? && Writes(w, t, a, j)
    ensures Agree(w, t, a, MergeProperty(w, t, b, j)) <==> Mergeable(w, t, a, b)
    decreases j, 2
  {
    assert j.elems[..|j.elems|] == j.elems;
    SupportedEntriesAreReadable(w, t, a.entries);
    EntriesRead(w, t, a.entries, b.entries, j, |j.elems|);
    JoinedAgreesExactly(w, t, a.entries, b.entries, MergeProperty(w, t, b, j).entries);
  }

  lemma JoinedAgreesExactly(
      w: World, t: Type, written: map<Value, Value>, own: map<Value, Value>, now: map<Value, Value>)
    requires t.TMap? && Joined(w, t, written, own, now)
    ensures Agree(w, t, VMap(written), VMap(now)) <==> Mergeable(w, t, VMap(written), VMap(own))
  {
  }

  lemma SetRoundTrip(w: World, t: Type, a: Value, b: Value, j: Json)
    requires Ready(w, t, a, b) && a.VSet? && Writes(w, t, a, j)
    ensures Agree(w, t, a, MergeProperty(w, t, b, j)) <==> Mergeable(w, t, a, b)
  {
    assert j.elems[..|j.elems|] == j.elems;
    SupportedKeysAreReadable(w, t, a.keys);
    KeysRead(w, t, a.keys, b.keys, j, |j.elems|);
    assert b.keys + a.keys == a.keys <==> b.keys <= a.keys;
  }

  lemma {:induction false} ObjectRoundTrip(w: World, t: Type, a: Value, b: Value, j: Json)
    requires Ready(w, t, a, b) && t.TClass? && WritesObject(w, t, a, j)
    ensures Agree(w, t, a, MergeObject(w, t, b, j)) <==> Mergeable(w, t, a, b)
    decreases j, 2
  {
    var props := Properties(w, t);
    var r := MergeObject(w, t, b, j);
    forall i | 0 <= i < |props| && props[i].serialized
      ensures props[i].name in r.fields
      ensures Agree(w, props[i].ty, a.fields[props[i].name], r.fields[props[i].name])
              <==> Mergeable(w, props[i].ty, a.fields[props[i].name], b.fields[props[i].name])
    {
      PropertyReady(w, t, a, b, j, i);
      PropertyRoundTrip(w, props[i].ty, a.fields[props[i].name], b.fields[props[i].name], j.members[props[i].name]);
    }
  }

  lemma PropertyReady(w: World, t: Type, a: Value, b: Value, j: Json, i: nat)
    requires Ready(w, t, a, b) && t.TClass? && WritesObject(w, t, a, j)
    requires i < |Properties(w, t)| && Properties(w, t)[i].serialized
    ensures var p := Properties(w, t)[i];
            && a.VObj? && b.VObj? && p.name in a.fields && p.name in b.fields && p.name in j.members
            && Ready(w, p.ty, a.fields[p.name], b.fields[p.name])
            && Writes(w, p.ty, a.fields[p.name], j.members[p.name])
            && var r := MergeObject(w, t, b, j);
            && r.VObj? && p.name in r.fields
            && r.fields[p.name] == MergeProperty(w, p.ty, b.fields[p.name], j.members[p.name])
  {
    assert ClassOk(w, t.cls);
    FindPropertyAt(Properties(w, t), i);
  }

  lemma {:induction false} ElementRoundTrip(w: World, t: Type, a: Value, b: Value, j: Json)
    requires Ready(w, t, a, b) && !t.TMap? && !t.TSet? && WritesElement(w, t, a, j)
    ensures Agree(w, t, a, MergeElement(w, t, b, j)) <==> Mergeable(w, t, a, b)
    decreases j, 4
  {
    if t.TClass? {
      ObjectRoundTrip(w, t, a, b, j);
    } else {
      PropertyRoundTrip(w, t, a, b, j);
    }
  }

  lemma {:induction false} SeqRoundTrip(w: World, t: Type, a: Value, b: Value, j: Json)
    requires Ready(w, t, a, b) && a.VSeq? && Writes(w, t, a, j)
    ensures Agree(w, t, a, MergeProperty(w, t, b, j)) <==> Mergeable(w, t, a, b)
    decreases j, 2
  {
    var slots := Resized(w, t.elem, b.elems, |j.elems|);
    var r := MergeSeq(w, t.elem, b.elems, j);
    forall i | 0 <= i < |j.elems|
      ensures Agree(w, t.elem, a.elems[i], r[i]) <==> (i < |b.elems| ==> Mergeable(w, t.elem, a.elems[i], b.elems[i]))
    {
      DefaultHasType(w, t.elem);
      ElementRoundTrip(w, t.elem, a.elems[i], slots[i], j.elems[i]);
      if i >= |b.elems| {
        DefaultUnfilled(w, t.elem);
        UnfilledIsMergeable(w, t.elem, a.elems[i], slots[i]);
      }
    }
  }

  /** A key or a mapped value, built afresh, agrees with the one written. */
  lemma {:induction false} ExtractRoundTrip(w: World, t: Type, a: Value, j: Json)
    requires WorldOk(w) && StartsUnfilled(w) && TypeOk(w, t)
    requires HasType(w, a, t) && Supported(w, t, a) && Extractable(w, t) && Writes(w, t, a, j)
    ensures Extract(w, t, j).Typed? && Agree(w, t, a, Extract(w, t, j).value)
    ensures Complete(w, t, a) ==> Extract(w, t, j).value == a
    decreases j, 3
  {
    if Convertible(w, t) {
      ConvertibleRoundTrip(w, t, a, j);
    } else {
      var init := w.classes[t.cls].init;
      StartsReady(w, t, a);
      assert WritesObject(w, t, a, j);
      ObjectRoundTrip(w, t, a, init, j);
      MergeObjectKeepsType(w, t, init, j);
      assert Extract(w, t, j) == Typed(MergeObject(w, t, init, j));
      if Complete(w, t, a) {
        CompleteAgreementIsEquality(w, t, a, MergeObject(w, t, init, j));
      }
    }
  }

  /** The object that the reader constructs can take any value of the class. */
  lemma StartsReady(w: World, t: Type, a: Value)
    requires WorldOk(w) && StartsUnfilled(w) && TypeOk(w, t) && t.TClass? && t.cls in w.classes
    requires HasType(w, a, t) && Supported(w, t, a)
    ensures Ready(w, t, a, w.classes[t.cls].init) && Mergeable(w, t, a, w.classes[t.cls].init)
  {
    assert ClassOk(w, t.cls);
    UnfilledIsMergeable(w, t, a, w.classes[t.cls].init);
  }

  /** The entry that the last of the first `n` elements was written from. */
  lemma LastEntry(w: World, t: Type, written: map<Value, Value>, js: seq<Json>, n: nat) returns (k: Value)
    requires t.TMap? && 0 < n <= |js| && WritesMap(w, t, written, js[..n])
    ensures k in written && WritesPair(w, t, k, written[k], js[n - 1]) && WritesMap(w, t, written - {k}, js[..n - 1])
  {
    var first := js[..n];
    assert first[..|first| - 1] == js[..n - 1];
    k :| k in written && WritesPair(w, t, k, written[k], first[|first| - 1])
         && WritesMap(w, t, written - {k}, first[..|first| - 1]);
  }

  lemma LastKey(w: World, t: Type, written: set<Value>, js: seq<Json>, n: nat) returns (k: Value)
    requires t.TSet? && 0 < n <= |js| && WritesSet(w, t, written, js[..n])
    ensures k in written && Writes(w, t.key, k, js[n - 1]) && WritesSet(w, t, written - {k}, js[..n - 1])
  {
    var first := js[..n];
    assert first[..|first| - 1] == js[..n - 1];
    k :| k in written && Writes(w, t.key, k, first[|first| - 1])
         && WritesSet(w, t, written - {k}, first[..|first| - 1]);
  }

  ghost predicate ReadableEntry(w: World, t: Type, k: Value, v: Value)
    requires t.TMap?
  {
    && HasType(w, k, t.key) && Extractable(w, t.key) && Supported(w, t.key, k) && Complete(w, t.key, k)
    && HasType(w, v, t.val) && Extractable(w, t.val) && Supported(w, t.val, v)
  }

  ghost predicate ReadableEntries(w: World, t: Type, entries: map<Value, Value>)
    requires t.TMap?
  {
    forall k :: k in entries ==> ReadableEntry(w, t, k, entries[k])
  }

  lemma SupportedEntriesAreReadable(w: World, t: Type, entries: map<Value, Value>)
    requires t.TMap? && HasType(w, VMap(entries), t) && Supported(w, t, VMap(entries))
    ensures ReadableEntries(w, t, entries)
  {
  }

  /** A map with its own entries, untouched, and the written ones that it did not have. */
  ghost predicate Joined(
      w: World, t: Type, written: map<Value, Value>, own: map<Value, Value>, now: map<Value, Value>)
    requires t.TMap?
  {
    && now.Keys == own.Keys + written.Keys
    && (forall k :: k in own ==> now[k] == own[k])
    && (forall k :: k in written && k !in own ==> Agree(w, t.val, written[k], now[k]))
  }

  /** After `n` elements the target has its own entries, untouched, and the written ones. */
  lemma {:induction false} EntriesRead(
      w: World, t: Type, written: map<Value, Value>, own: map<Value, Value>, j: Json, n: nat)
    requires WorldOk(w) && StartsUnfilled(w) && TypeOk(w, t) && t.TMap? && ReadableEntries(w, t, written)
    requires j.JArray? && n <= |j.elems| && WritesMap(w, t, written, j.elems[..n])
    ensures var r := MergeAssoc(w, t, VMap(own), j, n); r.VMap? && Joined(w, t, written, own, r.entries)
    decreases j, 1, n
  {
    if n > 0 {
      var last := j.elems[n - 1];
      var k := LastEntry(w, t, written, j.elems, n);
      assert ReadableEntry(w, t, k, written[k]);
      EntriesRead(w, t, written - {k}, own, j, n - 1);
      var before := MergeAssoc(w, t, VMap(own), j, n - 1);
      ghost var v := PairRead(w, t, before, k, written[k], last);
      InsertedBeside(w, t, written, own, before.entries, k, v);
    }
  }

  lemma {:induction false} PairRead(w: World, t: Type, c: Value, k: Value, v: Value, e: Json) returns (r: Value)
    requires WorldOk(w) && StartsUnfilled(w) && TypeOk(w, t) && t.TMap? && ReadableEntry(w, t, k, v)
    requires WritesPair(w, t, k, v, e)
    ensures AssocStep(w, t, c, e) == InsertPair(c, Typed(k), Typed(r)) && Agree(w, t.val, v, r)
    decreases e
  {
    ExtractRoundTrip(w, t.key, k, e.members["key"]);
    ExtractRoundTrip(w, t.val, v, e.members["value"]);
    r := Extract(w, t.val, e.members["value"]).value;
  }

  lemma InsertedBeside(
      w: World, t: Type, written: map<Value, Value>, own: map<Value, Value>, now: map<Value, Value>, k: Value, v: Value)
    requires t.TMap? && k in written && Agree(w, t.val, written[k], v) && Joined(w, t, written - {k}, own, now)
    ensures var r := InsertPair(VMap(now), Typed(k), Typed(v)); r.VMap? && Joined(w, t, written, own, r.entries)
  {
  }

  ghost predicate ReadableKey(w: World, t: Type, k: Value)
    requires t.TSet?
  {
    Convertible(w, t.key) && HasType(w, k, t.key) && Supported(w, t.key, k)
  }

  ghost predicate ReadableKeys(w: World, t: Type, keys: set<Value>)
    requires t.TSet?
  {
    forall k :: k in keys ==> ReadableKey(w, t, k)
  }

  lemma SupportedKeysAreReadable(w: World, t: Type, keys: set<Value>)
    requires t.TSet? && HasType(w, VSet(keys), t) && Supported(w, t, VSet(keys))
    ensures ReadableKeys(w, t, keys)
  {
  }

  /** After `n` elements the target has its own keys and the written ones. */
  lemma {:induction false} KeysRead(w: World, t: Type, written: set<Value>, own: set<Value>, j: Json, n: nat)
    requires TypeOk(w, t) && t.TSet? && ReadableKeys(w, t, written)
    requires j.JArray? && n <= |j.elems| && WritesSet(w, t, written, j.elems[..n])
    ensures MergeAssoc(w, t, VSet(own), j, n) == VSet(own + written)
    decreases n
  {
    if n > 0 {
      var k := LastKey(w, t, written, j.elems, n);
      KeysRead(w, t, written - {k}, own, j, n - 1);
      KeyRead(w, t, VSet(own + (written - {k})), k, j.elems[n - 1]);
      assert own + (written - {k}) + {k} == own + written;
    } else {
      assert own + {} == own;
    }
  }

  lemma KeyRead(w: World, t: Type, c: Value, k: Value, e: Json)
    requires TypeOk(w, t) && t.TSet? && ReadableKey(w, t, k) && Writes(w, t.key, k, e)
    ensures AssocStep(w, t, c, e) == InsertKey(c, k)
  {
    ConvertibleRoundTrip(w, t.key, k, e);
  }

  // ---------------------------------------------------------------------------------------
  // Main results
  // ---------------------------------------------------------------------------------------

  /** Serialising `a` and merging the outcome into `b`, of the same class, makes them agree in
      all that is serialised if and only if `b` holds no entries that `a` does not have. */
  lemma RoundTripExactly(w: World, cls: string, a: Value, b: Value, j: Json)
    requires WorldOk(w) && StartsUnfilled(w) && cls in w.classes
    requires HasType(w, a, TClass(cls)) && HasType(w, b, TClass(cls)) && Supported(w, TClass(cls), a)
    requires WritesObject(w, TClass(cls), a, j)
    ensures Agree(w, TClass(cls), a, MergeObject(w, TClass(cls), b, j)) <==> Mergeable(w, TClass(cls), a, b)
  {
    ObjectRoundTrip(w, TClass(cls), a, b, j);
  }

  /** In particular into any target whose associative containers are empty; and when every
      property is serialised, the target then is the source. */
  lemma RoundTripIntoUnfilled(w: World, cls: string, a: Value, b: Value, j: Json)
    requires WorldOk(w) && StartsUnfilled(w) && cls in w.classes
    requires HasType(w, a, TClass(cls)) && HasType(w, b, TClass(cls)) && Supported(w, TClass(cls), a)
    requires WritesObject(w, TClass(cls), a, j) && Unfilled(w, TClass(cls), b)
    ensures Agree(w, TClass(cls), a, MergeObject(w, TClass(cls), b, j))
    ensures Complete(w, TClass(cls), a) ==> MergeObject(w, TClass(cls), b, j) == a
  {
    var t := TClass(cls);
    UnfilledIsMergeable(w, t, a, b);
    ObjectRoundTrip(w, t, a, b, j);
    if Complete(w, t, a) {
      MergeObjectKeepsType(w, t, b, j);
      CompleteAgreementIsEquality(w, t, a, MergeObject(w, t, b, j));
    }
  }

  /** The two procedures one after the other. */
  method CopyThroughJson(w: World, cls: string, a: Instance, b: Instance)
    requires WorldOk(w) && StartsUnfilled(w) && cls in w.classes && a.ty == b.ty == TClass(cls)
    requires HasType(w, a.value, a.ty) && HasType(w, b.value, b.ty) && Supported(w, a.ty, a.value)
    modifies b
    ensures Mergeable(w, a.ty, old(a.value), old(b.value)) <==> Agree(w, a.ty, old(a.value), b.value)
  {
    assert forall c :: c in w.classes ==> ClassOk(w, c);
    var j := ToJsonRecursively(w, a.ty, a.value);
    RoundTripExactly(w, cls, a.value, b.value, j);
    FromJsonRecursively(w, b, j);
  }

  // ---------------------------------------------------------------------------------------
  // Outside the supported values: what is lost
  // ---------------------------------------------------------------------------------------

  /** The reader builds nothing from what the writer makes of any other type: containers,
      classes without a registered constructor, and classes without properties whose text, if
      any, does not convert back. */
  lemma OthersAreNotExtracted(w: World, t: Type, v: Value, j: Json)
    requires !Extractable(w, t) && HasType(w, v, t) && Writes(w, t, v, j)
    ensures !Extract(w, t, j).Typed? && (!j.JObject? ==> Convert(w, j, t).None?)
  {
    if t.TClass? && Properties(w, t) == [] {
      OnlyOneWithoutProperties(w, t, v);
    }
  }

  /** A map whose keys or whose mapped values are of such a type leaves every target unchanged:
      not one written entry is inserted. */
  lemma {:induction false} OtherMapsAreLost(
      w: World, t: Type, written: map<Value, Value>, b: Value, j: Json, n: nat)
    requires t.TMap? && (!Extractable(w, t.key) || !Extractable(w, t.val)) && HasType(w, VMap(written), t)
    requires j.JArray? && n <= |j.elems| && WritesMap(w, t, written, j.elems[..n])
    ensures MergeAssoc(w, t, b, j, n) == b
    decreases n
  {
    if n > 0 {
      var k := LastEntry(w, t, written, j.elems, n);
      OtherMapsAreLost(w, t, written - {k}, b, j, n - 1);
      OtherPairIsSkipped(w, t, b, k, written[k], j.elems[n - 1]);
    }
  }

  lemma OtherPairIsSkipped(w: World, t: Type, c: Value, k: Value, v: Value, e: Json)
    requires t.TMap? && (!Extractable(w, t.key) || !Extractable(w, t.val))
    requires HasType(w, k, t.key) && HasType(w, v, t.val) && WritesPair(w, t, k, v, e)
    ensures AssocStep(w, t, c, e) == c
  {
    if !Extractable(w, t.key) {
      OthersAreNotExtracted(w, t.key, k, e.members["key"]);
    } else {
      OthersAreNotExtracted(w, t.val, v, e.members["value"]);
    }
  }

  /** So does a set whose keys are not written as scalars that convert back. */
  lemma {:induction false} OtherSetsAreLost(w: World, t: Type, written: set<Value>, b: Value, j: Json, n: nat)
    requires t.TSet? && !Convertible(w, t.key) && b.VSet? && HasType(w, VSet(written), t)
    requires j.JArray? && n <= |j.elems| && WritesSet(w, t, written, j.elems[..n])
    ensures MergeAssoc(w, t, b, j, n) == b
    decreases n
  {
    if n > 0 {
      var k := LastKey(w, t, written, j.elems, n);
      OtherSetsAreLost(w, t, written - {k}, b, j, n - 1);
      OtherKeyIsSkipped(w, t, b, k, j.elems[n - 1]);
    }
  }

  lemma OtherKeyIsSkipped(w: World, t: Type, c: Value, k: Value, e: Json)
    requires t.TSet? && !Convertible(w, t.key) && c.VSet? && HasType(w, k, t.key) && Writes(w, t.key, k, e)
    ensures AssocStep(w, t, c, e) == c
  {
    if !Extractable(w, t.key) {
      OthersAreNotExtracted(w, t.key, k, e);
    }
  }

  /** An enumerator without a name is written as its number, and read back as the library converts
      that number; a negative one is written as null, which leaves every target unchanged. */
  lemma UnnamedEnumerators(w: World, t: Type, a: Value, b: Value, j: Json)
    requires t.TEnum? && HasType(w, a, t) && NameOf(t.names, a.code).None? && Writes(w, t, a, j)
    ensures a.code >= 0 ==> j == JInt(a.code)
    ensures a.code < 0 ==> j == JNull && MergeProperty(w, t, b, j) == b
  {
  }

  lemma ContainerKind(w: World, t: Type, v: Value)
    requires HasType(w, v, t) && (t.TMap? || t.TSet?)
    ensures v.VMap? || v.VSet?
  {
  }

  lemma ObjectsMissNonClasses(w: World, t: Type, v: Value, j: Json)
    requires j.JObject? && !v.VObj?
    ensures MergeElement(w, t, v, j) == v
  {
    assert MergeObject(w, t, v, j) == v;
    assert MergeProperty(w, t, v, j) == MergeObject(w, t, v, j);
  }

  /** A sequence of associative containers comes back with the right length and the target's
      own elements: their entries are not written at all. */
  lemma SequencesOfMapsAreLost(w: World, t: Type, a: Value, b: Value, j: Json)
    requires t.TSeq? && (t.elem.TMap? || t.elem.TSet?)
    requires HasType(w, a, t) && HasType(w, b, t) && Writes(w, t, a, j)
    ensures MergeProperty(w, t, b, j) == VSeq(Resized(w, t.elem, b.elems, |a.elems|))
  {
    var slots := Resized(w, t.elem, b.elems, |j.elems|);
    forall i | 0 <= i < |j.elems|
      ensures MergeElement(w, t.elem, slots[i], j.elems[i]) == slots[i]
    {
      assert WritesElement(w, t.elem, a.elems[i], j.elems[i]);
      ContainerKind(w, t.elem, a.elems[i]);
      assert WritesObject(w, t.elem, a.elems[i], j.elems[i]);
      assert slots[i] == if i < |b.elems| then b.elems[i] else Default(w, t.elem);
      if i < |b.elems| {
        ContainerKind(w, t.elem, b.elems[i]);
      }
      ObjectsMissNonClasses(w, t.elem, slots[i], j.elems[i]);
    }
    assert MergeSeq(w, t.elem, b.elems, j) == slots;
  }
}
