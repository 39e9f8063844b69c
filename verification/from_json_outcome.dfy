/**
 What merging arrives at, place by place: for every JSON value of every shape, what stands in
 the instance afterwards, said without the functions that compute it.
 */
module FromJsonOutcome {
  import opened JsonValues
  import opened Reflection
  import opened FromJson
  import opened FromJsonProperties

  // ---------------------------------------------------------------------------------------
  // Fresh values
  // ---------------------------------------------------------------------------------------

  /** Classes of which the reader can make an object. */
  predicate Constructible(w: World, t: Type) {
    t.TClass? && t.cls in w.classes && w.classes[t.cls].constructible
  }

  /** JSON of which nothing at all can be made: null, an array, or an object for something that
      cannot be constructed, unless a conversion of the library helps. */
  predicate Unreadable(w: World, t: Type, j: Json) {
    Convert(w, j, t).None? && (j.JNull? || j.JArray? || (j.JObject? && !Constructible(w, t)))
  }

  /** JSON of which a value of the type can be made. */
  predicate Readable(w: World, t: Type, j: Json) {
    Convert(w, j, t).Some? || (j.JObject? && Constructible(w, t))
  }

  /** A fresh value is one of the type exactly for readable JSON, and none exactly for unreadable
      JSON; in between are the scalars of another type, which keep their own. */
  lemma FreshExactly(w: World, t: Type, j: Json)
    ensures Extract(w, t, j).Typed? <==> Readable(w, t, j)
    ensures Extract(w, t, j).Invalid? <==> Unreadable(w, t, j)
    ensures Convert(w, j, t).Some? ==> Extract(w, t, j) == Typed(Convert(w, j, t).value)
    ensures Extract(w, t, j).Mistyped? ==> Extract(w, t, j).basic == j
  {
  }

  /** Scalars of the type's own kind: an integer is taken as it is when it is in range and refused
      otherwise, never bent; booleans and strings are taken as they are; a name only as its own
      enumerator. */
  lemma OwnKindExactly(w: World, t: Type, j: Json)
    ensures t.TInt? && j.JInt? ==>
              Convert(w, j, t) == if t.lo <= j.n <= t.hi then Some(VInt(j.n)) else None
    ensures t.TBool? && j.JBool? ==> Convert(w, j, t) == Some(VBool(j.b))
    ensures t.TString? && j.JString? ==> Convert(w, j, t) == Some(VString(j.s))
    ensures t.TFloat? && j.JFloat? && (t.single ==> w.representable(j.r)) ==> Convert(w, j, t) == Some(VFloat(j.r))
    ensures t.TEnum? && j.JString? && DistinctNames(t.names) ==>
              forall i :: 0 <= i < |t.names| && t.names[i].0 == j.s ==> Convert(w, j, t) == Some(VEnum(t.names[i].1))
  {
    if t.TEnum? && j.JString? && DistinctNames(t.names) {
      forall i | 0 <= i < |t.names| && t.names[i].0 == j.s ensures CodeOf(t.names, j.s) == Some(t.names[i].1) {
        CodeAt(t.names, i);
      }
    }
  }

  lemma {:induction false} CodeAt(names: seq<(string, int)>, i: nat)
    requires DistinctNames(names) && i < |names|
    ensures CodeOf(names, names[i].0) == Some(names[i].1)
  {
    if i > 0 {
      CodeAt(names[1..], i - 1);
    }
  }

  // ---------------------------------------------------------------------------------------
  // Associative containers
  // ---------------------------------------------------------------------------------------

  /** The entry that an element of the array offers, if it is an object that has both parts and
      both can be read. */
  function Offered(w: World, t: Type, e: Json): Option<(Value, Value)>
    requires t.TMap?
  {
    if !Has(e, "key") || !Has(e, "value") then None
    else
      match (Extract(w, t.key, e.members["key"]), Extract(w, t.val, e.members["value"]))
      case (Typed(k), Typed(v)) => Some((k, v))
      case _ => None
  }

  predicate Offers(w: World, t: Type, e: Json, k: Value)
    requires t.TMap?
  {
    Offered(w, t, e).Some? && Offered(w, t, e).value.0 == k
  }

  /** The element `i` is the first to offer the key `k`. */
  predicate FirstOffer(w: World, t: Type, js: seq<Json>, i: nat, k: Value)
    requires t.TMap?
  {
    i < |js| && Offers(w, t, js[i], k) && forall m :: 0 <= m < i ==> !Offers(w, t, js[m], k)
  }

  /** Old entries stay; a new key is there exactly when some element offers it, with the value that
      the first such element offers. */
  ghost predicate MapMerged(w: World, t: Type, was: map<Value, Value>, js: seq<Json>, now: map<Value, Value>)
    requires t.TMap?
  {
    && (forall k :: k in was ==> k in now && now[k] == was[k])
    && (forall k :: k in now && k !in was ==> exists i: nat :: FirstOffer(w, t, js, i, k))
    && (forall i: nat, k :: FirstOffer(w, t, js, i, k) ==>
         k in now && (k !in was ==> now[k] == Offered(w, t, js[i]).value.1))
  }

  /** A key is there exactly when it was or some element that is no object converts to it. */
  ghost predicate SetMerged(w: World, t: Type, was: set<Value>, js: seq<Json>, now: set<Value>)
    requires t.TSet?
  {
    forall k :: k in now <==> k in was || exists i :: 0 <= i < |js| && Converts(w, t.key, js[i], k)
  }

  predicate Converts(w: World, t: Type, j: Json, k: Value) {
    !j.JObject? && Convert(w, j, t) == Some(k)
  }

  lemma {:induction false} MapMergedExactly(w: World, t: Type, was: map<Value, Value>, j: Json, n: nat)
    requires t.TMap? && j.JArray? && n <= |j.elems|
    ensures MergeAssoc(w, t, VMap(was), j, n).VMap?
    ensures MapMerged(w, t, was, j.elems[..n], MergeAssoc(w, t, VMap(was), j, n).entries)
    decreases n
  {
    if n > 0 {
      MapMergedExactly(w, t, was, j, n - 1);
      var before, e := MergeAssoc(w, t, VMap(was), j, n - 1), j.elems[n - 1];
      assert j.elems[..n] == j.elems[..n - 1] + [e];
      PairStep(w, t, before.entries, e);
      OneMoreOffer(w, t, was, j.elems[..n - 1], e, before.entries);
    }
  }

  function WithOffer(w: World, t: Type, entries: map<Value, Value>, e: Json): map<Value, Value>
    requires t.TMap?
  {
    var o := Offered(w, t, e);
    if o.Some? && o.value.0 !in entries then entries[o.value.0 := o.value.1] else entries
  }

  lemma PairStep(w: World, t: Type, entries: map<Value, Value>, e: Json)
    requires t.TMap?
    ensures AssocStep(w, t, VMap(entries), e) == VMap(WithOffer(w, t, entries, e))
  {
  }

  lemma OneMoreOffer(w: World, t: Type, was: map<Value, Value>, js: seq<Json>, e: Json, now: map<Value, Value>)
    requires t.TMap? && MapMerged(w, t, was, js, now)
    ensures MapMerged(w, t, was, js + [e], WithOffer(w, t, now, e))
  {
    var all, next := js + [e], WithOffer(w, t, now, e);
    forall k | k in next && k !in was ensures exists i: nat :: FirstOffer(w, t, all, i, k) {
      if k in now {
        var i: nat :| FirstOffer(w, t, js, i, k);
        FirstOfferLonger(w, t, js, e, i, k);
      } else {
        NotYetOffered(w, t, was, js, now, k);
        FirstOfferHere(w, t, js, e, k);
      }
    }
    forall i: nat, k | FirstOffer(w, t, all, i, k)
      ensures k in next && (k !in was ==> next[k] == Offered(w, t, all[i]).value.1)
    {
      OfferIsTaken(w, t, was, js, e, now, i, k);
    }
  }

  lemma FirstOfferLonger(w: World, t: Type, js: seq<Json>, e: Json, i: nat, k: Value)
    requires t.TMap? && i < |js|
    ensures FirstOffer(w, t, js + [e], i, k) <==> FirstOffer(w, t, js, i, k)
  {
    var all := js + [e];
    assert forall m :: 0 <= m < |js| ==> all[m] == js[m];
  }

  lemma FirstOfferHere(w: World, t: Type, js: seq<Json>, e: Json, k: Value)
    requires t.TMap?
    ensures FirstOffer(w, t, js + [e], |js|, k)
            <==> Offers(w, t, e, k) && forall m :: 0 <= m < |js| ==> !Offers(w, t, js[m], k)
  {
    var all := js + [e];
    assert forall m :: 0 <= m < |js| ==> all[m] == js[m];
  }

  lemma OfferIsTaken(
      w: World, t: Type, was: map<Value, Value>, js: seq<Json>, e: Json, now: map<Value, Value>, i: nat, k: Value)
    requires t.TMap? && MapMerged(w, t, was, js, now) && FirstOffer(w, t, js + [e], i, k)
    ensures var next := WithOffer(w, t, now, e);
            k in next && (k !in was ==> next[k] == Offered(w, t, (js + [e])[i]).value.1)
  {
    if i < |js| {
      FirstOfferLonger(w, t, js, e, i, k);
      assert FirstOffer(w, t, js, i, k);
    } else {
      FirstOfferHere(w, t, js, e, k);
      if k in now && k !in was {
        NewKeyWasOffered(w, t, was, js, now, k);
      }
    }
  }

  lemma NewKeyWasOffered(
      w: World, t: Type, was: map<Value, Value>, js: seq<Json>, now: map<Value, Value>, k: Value)
    requires t.TMap? && MapMerged(w, t, was, js, now) && k in now && k !in was
    ensures exists m :: 0 <= m < |js| && Offers(w, t, js[m], k)
  {
    var i: nat :| FirstOffer(w, t, js, i, k);
  }

  lemma NotYetOffered(
      w: World, t: Type, was: map<Value, Value>, js: seq<Json>, now: map<Value, Value>, k: Value)
    requires t.TMap? && MapMerged(w, t, was, js, now) && k !in now
    ensures forall m :: 0 <= m < |js| ==> !Offers(w, t, js[m], k)
  {
    forall m | 0 <= m < |js| ensures Offers(w, t, js[m], k) ==> k in now {
      if Offers(w, t, js[m], k) {
        var i := FirstOfferOf(w, t, js, k, m);
      }
    }
  }

  lemma {:induction false} FirstOfferOf(w: World, t: Type, js: seq<Json>, k: Value, m: nat) returns (i: nat)
    requires t.TMap? && m < |js| && Offers(w, t, js[m], k)
    ensures FirstOffer(w, t, js, i, k)
    decreases m
  {
    if n :| 0 <= n < m && Offers(w, t, js[n], k) {
      i := FirstOfferOf(w, t, js, k, n);
    } else {
      i := m;
    }
  }

  lemma {:induction false} SetMergedExactly(w: World, t: Type, was: set<Value>, j: Json, n: nat)
    requires t.TSet? && j.JArray? && n <= |j.elems|
    ensures MergeAssoc(w, t, VSet(was), j, n).VSet?
    ensures SetMerged(w, t, was, j.elems[..n], MergeAssoc(w, t, VSet(was), j, n).keys)
    decreases n
  {
    if n > 0 {
      SetMergedExactly(w, t, was, j, n - 1);
      var before, e := MergeAssoc(w, t, VSet(was), j, n - 1), j.elems[n - 1];
      assert j.elems[..n] == j.elems[..n - 1] + [e];
      KeyStep(w, t, before.keys, e);
      OneMoreKey(w, t, was, j.elems[..n - 1], e, before.keys, MergeAssoc(w, t, VSet(was), j, n).keys);
    }
  }

  lemma KeyStep(w: World, t: Type, keys: set<Value>, e: Json)
    requires t.TSet?
    ensures AssocStep(w, t, VSet(keys), e).VSet?
    ensures forall k :: k in AssocStep(w, t, VSet(keys), e).keys <==> k in keys || Converts(w, t.key, e, k)
  {
  }

  lemma OneMoreKey(w: World, t: Type, was: set<Value>, js: seq<Json>, e: Json, now: set<Value>, next: set<Value>)
    requires t.TSet? && SetMerged(w, t, was, js, now)
    requires forall k :: k in next <==> k in now || Converts(w, t.key, e, k)
    ensures SetMerged(w, t, was, js + [e], next)
  {
    var all := js + [e];
    forall k ensures k in next <==> k in was || exists i :: 0 <= i < |all| && Converts(w, t.key, all[i], k) {
      if i :| 0 <= i < |js| && Converts(w, t.key, js[i], k) {
        assert all[i] == js[i];
      }
      if Converts(w, t.key, e, k) {
        assert all[|js|] == e;
      }
      if i :| 0 <= i < |all| && Converts(w, t.key, all[i], k) && i < |js| {
        assert js[i] == all[i];
      }
    }
  }

  // ---------------------------------------------------------------------------------------
  // Any place
  // ---------------------------------------------------------------------------------------

  function JsonAt(j: Json, path: seq<Place>): Option<Json> {
    if path == [] then Some(j)
    else
      match path[0]
      case Field(name) => if Has(j, name) then JsonAt(j.members[name], path[1..]) else None
      case Element(i) => if j.JArray? && i < |j.elems| then JsonAt(j.elems[i], path[1..]) else None
  }

  function TypeAt(w: World, t: Type, path: seq<Place>): Option<Type>
    decreases path
  {
    if path == [] then Some(t)
    else
      match path[0]
      case Field(name) =>
        var p := FindProperty(Properties(w, t), name);
        if p.Some? then TypeAt(w, p.value.ty, path[1..]) else None
      case Element(_) => if t.TSeq? then TypeAt(w, t.elem, path[1..]) else None
  }

  /** What stands at a place where `was` stood and the JSON has `j`; `element` says that the place
      is an element of a sequence, whose associative containers arrays do not reach. */
  ghost predicate Becomes(w: World, t: Type, element: bool, was: Value, j: Json, now: Value) {
    if j.JArray? then
      if t.TSeq? then now.VSeq? && |now.elems| == |j.elems|
      else if t.TMap? && !element then
        was.VMap? && now.VMap? && MapMerged(w, t, was.entries, j.elems, now.entries)
      else if t.TSet? && !element then
        was.VSet? && now.VSet? && SetMerged(w, t, was.keys, j.elems, now.keys)
      else now == was
    else if j.JObject? then
      if t.TClass? then now.VObj? && was.VObj? && now.fields.Keys == was.fields.Keys
      else now == was
    else
      now == if Convert(w, j, t).Some? then Convert(w, j, t).value else was
  }

  ghost predicate BecomesAt(
      w: World, t: Option<Type>, element: bool, was: Option<Value>, j: Option<Json>, now: Option<Value>)
  {
    && t.Some? && was.Some? && j.Some? && now.Some?
    && Becomes(w, t.value, element, was.value, j.value, now.value)
  }

  lemma PropertyBecomes(w: World, t: Type, v: Value, j: Json)
    requires HasType(w, v, t)
    ensures Becomes(w, t, false, v, j, MergeProperty(w, t, v, j))
  {
    if j.JArray? && (t.TMap? || t.TSet?) {
      assert j.elems[..|j.elems|] == j.elems;
      if t.TMap? {
        MapMergedExactly(w, t, v.entries, j, |j.elems|);
      } else {
        SetMergedExactly(w, t, v.keys, j, |j.elems|);
      }
    }
  }

  lemma ElementBecomes(w: World, t: Type, v: Value, j: Json)
    requires HasType(w, v, t)
    ensures Becomes(w, t, true, v, j, MergeElement(w, t, v, j))
  {
    if !j.JArray? || t.TSeq? {
      PropertyBecomes(w, t, v, j);
    }
  }

  /** Whatever JSON object is merged into whatever instance: at every place that both have, what
      stands there afterwards is what `Becomes` says.  A scalar that converts is taken; null, and
      everything that does not fit the type, leaves what was there. */
  lemma MergedAt(w: World, t: Type, v: Value, j: Json, path: seq<Place>)
    requires WorldOk(w) && TypeOk(w, t) && HasType(w, v, t) && j.JObject? && path != []
    requires JsonAt(j, path).Some? && ValueAt(v, path).Some?
    ensures BecomesAt(w, TypeAt(w, t, path), EndsInElement(path), ValueAt(v, path), JsonAt(j, path),
                      ValueAt(MergeObject(w, t, v, j), path))
  {
    PlaceBecomes(w, t, v, j, path);
  }

  lemma {:induction false} PlaceBecomes(w: World, t: Type, v: Value, j: Json, path: seq<Place>)
    requires WorldOk(w) && TypeOk(w, t) && HasType(w, v, t) && path != []
    requires JsonAt(j, path).Some? && ValueAt(v, path).Some?
    ensures BecomesAt(w, TypeAt(w, t, path), EndsInElement(path), ValueAt(v, path), JsonAt(j, path),
                      ValueAt(MergeProperty(w, t, v, j), path))
    decreases path
  {
    if path[0].Field? {
      FieldBecomes(w, t, v, j, path);
    } else {
      ElementPlaceBecomes(w, t, v, j, path);
    }
  }

  predicate EndsInElement(path: seq<Place>)
    requires path != []
  {
    if |path| == 1 then path[0].Element? else EndsInElement(path[1..])
  }

  /** A property, and an element, right here. */
  lemma HereBecomes(w: World, t: Type, v: Value, j: Json)
    requires HasType(w, v, t)
    ensures BecomesAt(w, TypeAt(w, t, []), false, ValueAt(v, []), JsonAt(j, []), ValueAt(MergeProperty(w, t, v, j), []))
    ensures BecomesAt(w, TypeAt(w, t, []), true, ValueAt(v, []), JsonAt(j, []), ValueAt(MergeElement(w, t, v, j), []))
  {
    PropertyBecomes(w, t, v, j);
    ElementBecomes(w, t, v, j);
  }

  lemma {:induction false} FieldBecomes(w: World, t: Type, v: Value, j: Json, path: seq<Place>)
    requires WorldOk(w) && TypeOk(w, t) && HasType(w, v, t) && path != [] && path[0].Field?
    requires JsonAt(j, path).Some? && ValueAt(v, path).Some?
    ensures BecomesAt(w, TypeAt(w, t, path), EndsInElement(path), ValueAt(v, path), JsonAt(j, path),
                      ValueAt(MergeProperty(w, t, v, j), path))
    decreases path, 0
  {
    var ty, was, x := FieldStep(w, t, v, j, path);
    if path[1..] == [] {
      HereBecomes(w, ty, was, x);
    } else {
      PlaceBecomes(w, ty, was, x, path[1..]);
    }
  }

  lemma FieldStep(w: World, t: Type, v: Value, j: Json, path: seq<Place>) returns (ty: Type, was: Value, x: Json)
    requires WorldOk(w) && TypeOk(w, t) && HasType(w, v, t) && path != [] && path[0].Field?
    requires JsonAt(j, path).Some? && ValueAt(v, path).Some?
    ensures TypeOk(w, ty) && HasType(w, was, ty)
    ensures TypeAt(w, t, path) == TypeAt(w, ty, path[1..])
    ensures ValueAt(v, path) == ValueAt(was, path[1..])
    ensures JsonAt(j, path) == JsonAt(x, path[1..])
    ensures ValueAt(MergeProperty(w, t, v, j), path) == ValueAt(MergeProperty(w, ty, was, x), path[1..])
  {
    var name, props := path[0].name, Properties(w, t);
    assert ClassOk(w, t.cls);
    var i :| 0 <= i < |props| && props[i].name == name;
    FindPropertyAt(props, i);
    ty, was, x := props[i].ty, v.fields[name], j.members[name];
    var r := MergeObject(w, t, v, j);
    assert r.fields[name] == MergeProperty(w, ty, was, x);
    assert MergeProperty(w, t, v, j) == r;
  }

  lemma {:induction false} ElementPlaceBecomes(w: World, t: Type, v: Value, j: Json, path: seq<Place>)
    requires WorldOk(w) && TypeOk(w, t) && HasType(w, v, t) && path != [] && path[0].Element?
    requires JsonAt(j, path).Some? && ValueAt(v, path).Some?
    ensures BecomesAt(w, TypeAt(w, t, path), EndsInElement(path), ValueAt(v, path), JsonAt(j, path),
                      ValueAt(MergeProperty(w, t, v, j), path))
    decreases path, 0
  {
    var was, x := ElementStep(w, t, v, j, path);
    if path[1..] == [] {
      HereBecomes(w, t.elem, was, x);
    } else {
      PlaceBecomes(w, t.elem, was, x, path[1..]);
      DeeperThanElement(w, t.elem, was, x, path[1..]);
    }
  }

  lemma ElementStep(w: World, t: Type, v: Value, j: Json, path: seq<Place>) returns (was: Value, x: Json)
    requires WorldOk(w) && TypeOk(w, t) && HasType(w, v, t) && path != [] && path[0].Element?
    requires JsonAt(j, path).Some? && ValueAt(v, path).Some?
    ensures t.TSeq? && TypeOk(w, t.elem) && HasType(w, was, t.elem)
    ensures TypeAt(w, t, path) == TypeAt(w, t.elem, path[1..])
    ensures ValueAt(v, path) == ValueAt(was, path[1..])
    ensures JsonAt(j, path) == JsonAt(x, path[1..])
    ensures ValueAt(MergeProperty(w, t, v, j), path) == ValueAt(MergeElement(w, t.elem, was, x), path[1..])
  {
    var i := path[0].index;
    was, x := v.elems[i], j.elems[i];
    var merged := MergeSeq(w, t.elem, v.elems, j);
    assert merged[i] == MergeElement(w, t.elem, was, x);
    assert MergeProperty(w, t, v, j) == VSeq(merged);
  }

  /** Below an element, merging it is merging a property. */
  lemma DeeperThanElement(w: World, t: Type, v: Value, j: Json, path: seq<Place>)
    requires HasType(w, v, t) && path != [] && JsonAt(j, path).Some? && ValueAt(v, path).Some?
    ensures MergeElement(w, t, v, j) == MergeProperty(w, t, v, j)
  {
  }

  // ---------------------------------------------------------------------------------------
  // Growing and shrinking sequences
  // ---------------------------------------------------------------------------------------

  /** What a container puts into a new slot: zero, nothing, or the default-constructed object. */
  predicate NewSlot(w: World, t: Type, v: Value) {
    match v
    case VBool(b) => !b
    case VInt(n) => n == 0
    case VFloat(r) => r == 0.0
    case VString(s) => s == ""
    case VEnum(code) => code == 0
    case VSeq(elems) => elems == []
    case VMap(entries) => entries == map[]
    case VSet(keys) => keys == {}
    case VObj(_) => t.TClass? && t.cls in w.classes && v == w.classes[t.cls].init
  }

  lemma NewSlotIsDefault(w: World, t: Type, v: Value)
    requires HasType(w, v, t) && NewSlot(w, t, v)
    ensures v == Default(w, t)
  {
  }

  /** Merging an array that is longer than the sequence is merging it into the sequence with new
      slots put behind; merging a shorter one is merging it into the sequence cut to its length. */
  lemma GrowthAndShrinkage(w: World, t: Type, elems: seq<Value>, slots: seq<Value>, j: Json)
    requires j.JArray?
    requires forall i :: 0 <= i < |slots| ==> HasType(w, slots[i], t) && NewSlot(w, t, slots[i])
    ensures |elems| + |slots| == |j.elems| ==> MergeSeq(w, t, elems, j) == MergeSeq(w, t, elems + slots, j)
    ensures |j.elems| <= |elems| ==> MergeSeq(w, t, elems, j) == MergeSeq(w, t, elems[..|j.elems|], j)
  {
    if |elems| + |slots| == |j.elems| {
      forall i | 0 <= i < |slots| ensures slots[i] == Default(w, t) {
        NewSlotIsDefault(w, t, slots[i]);
      }
      assert Resized(w, t, elems, |j.elems|) == Resized(w, t, elems + slots, |j.elems|);
    }
    if |j.elems| <= |elems| {
      assert Resized(w, t, elems, |j.elems|) == Resized(w, t, elems[..|j.elems|], |j.elems|);
    }
  }
}
