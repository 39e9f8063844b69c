/**
 The reflected world: types, values of those types, and the few rules of the reflection
 library that the reader, the writer and the schema generator rely on.
 */
module Reflection {
  import opened JsonValues

  datatype Type =
    | TBool
    | TInt(lo: int, hi: int)
    | TFloat(single: bool)
    | TString
    | TEnum(names: seq<(string, int)>)
    | TSeq(elem: Type)
    | TMap(key: Type, val: Type)
    | TSet(key: Type)
    | TClass(cls: string)

  datatype Value =
    | VBool(b: bool)
    | VInt(n: int)
    | VFloat(r: real)
    | VString(s: string)
    | VEnum(code: int)
    | VSeq(elems: seq<Value>)
    | VMap(entries: map<Value, Value>)
    | VSet(keys: set<Value>)
    | VObj(fields: map<string, Value>)

  datatype Property = Property(name: string, ty: Type, serialized: bool, description: string)

  /** `init` is the object that the default constructor makes; `constructible` says that this
      constructor is registered so that it returns the object itself. */
  datatype ClassInfo = ClassInfo(props: seq<Property>, init: Value, constructible: bool)

  /** Everything that registration fixes, and the things that the compiler and the reflection
      library fix and that no theorem here looks into: which doubles a `float` holds exactly,
      what a conversion between different kinds (a number from a string, say) gives, the text
      that a class converts to, if any, the name of each type and the largest `float` and
      `double`. */
  datatype World = World(
    classes: map<string, ClassInfo>,
    representable: real -> bool,
    otherConversion: (Json, Type) -> Option<Value>,
    text: (Type, Value) -> Option<string>,
    typeName: Type -> string,
    largest: bool -> real)

  /** A variant after an attempt to convert it: nothing, a value of the type asked for, or a
      scalar that kept its own type. */
  datatype Variant = Invalid | Typed(value: Value) | Mistyped(basic: Json)

  predicate IsAtom(t: Type) {
    t.TBool? || t.TInt? || t.TFloat? || t.TString? || t.TEnum?
  }

  function CodeOf(names: seq<(string, int)>, name: string): Option<int> {
    if names == [] then None
    else if names[0].0 == name then Some(names[0].1)
    else CodeOf(names[1..], name)
  }

  function NameOf(names: seq<(string, int)>, code: int): Option<string> {
    if names == [] then None
    else if names[0].1 == code then Some(names[0].0)
    else NameOf(names[1..], code)
  }

  predicate DistinctNames(names: seq<(string, int)>) {
    forall i, j :: 0 <= i < j < |names| ==> names[i].0 != names[j].0
  }

  /** Reading the name that was written for an enumerator gives the enumerator back. */
  lemma {:induction false} NameRoundTrip(names: seq<(string, int)>, code: int)
    requires DistinctNames(names) && NameOf(names, code).Some?
    ensures CodeOf(names, NameOf(names, code).value) == Some(code)
  {
    if names[0].1 != code {
      NameRoundTrip(names[1..], code);
      NameIsListed(names[1..], code);
    }
  }

  lemma {:induction false} NameIsListed(names: seq<(string, int)>, code: int)
    requires NameOf(names, code).Some?
    ensures exists i :: 0 <= i < |names| && names[i].0 == NameOf(names, code).value
  {
    if names[0].1 == code {
      assert names[0].0 == NameOf(names, code).value;
    } else {
      NameIsListed(names[1..], code);
      var i :| 0 <= i < |names[1..]| && names[1..][i].0 == NameOf(names[1..], code).value;
      assert names[i + 1].0 == NameOf(names, code).value;
    }
  }

  function Properties(w: World, t: Type): seq<Property> {
    if t.TClass? && t.cls in w.classes then w.classes[t.cls].props else []
  }

  function FindProperty(props: seq<Property>, name: string): Option<Property> {
    if props == [] then None
    else if props[0].name == name then Some(props[0])
    else FindProperty(props[1..], name)
  }

  predicate DistinctProperties(props: seq<Property>) {
    forall i, j :: 0 <= i < j < |props| ==> props[i].name != props[j].name
  }

  lemma {:induction false} FindPropertyAt(props: seq<Property>, i: nat)
    requires DistinctProperties(props) && i < |props|
    ensures FindProperty(props, props[i].name) == Some(props[i])
  {
    if i > 0 {
      FindPropertyAt(props[1..], i - 1);
    }
  }

  lemma {:induction false} FindPropertyListed(props: seq<Property>, name: string)
    requires FindProperty(props, name).Some?
    ensures exists i :: 0 <= i < |props| && props[i] == FindProperty(props, name).value && props[i].name == name
  {
    if props[0].name == name {
    } else {
      FindPropertyListed(props[1..], name);
      var i :| 0 <= i < |props[1..]| && props[1..][i] == FindProperty(props[1..], name).value;
      assert props[i + 1] == FindProperty(props, name).value;
    }
  }

  function PropertyNames(props: seq<Property>): set<string> {
    set i | 0 <= i < |props| :: props[i].name
  }

  /** A type that C++ accepts: every class is registered, fixed-width integers hold zero, and
      an enumeration registers each name once. */
  predicate TypeOk(w: World, t: Type) {
    match t
    case TInt(lo, hi) => lo <= 0 <= hi
    case TEnum(names) => DistinctNames(names)
    case TSeq(elem) => TypeOk(w, elem)
    case TMap(key, val) => TypeOk(w, key) && TypeOk(w, val)
    case TSet(key) => TypeOk(w, key)
    case TClass(cls) => cls in w.classes
    case _ => true
  }

  /** The static typing of C++, at every depth. */
  predicate HasType(w: World, v: Value, t: Type)
    decreases v
  {
    match (v, t)
    case (VBool(_), TBool) => true
    case (VInt(n), TInt(lo, hi)) => lo <= n <= hi
    case (VFloat(r), TFloat(single)) => single ==> w.representable(r)
    case (VString(_), TString) => true
    case (VEnum(_), TEnum(_)) => true
    case (VSeq(elems), TSeq(elem)) => forall i :: 0 <= i < |elems| ==> HasType(w, elems[i], elem)
    case (VMap(entries), TMap(key, val)) =>
      && (forall k :: k in entries ==> HasType(w, k, key))
      && (forall k :: k in entries ==> HasType(w, entries[k], val))
    case (VSet(keys), TSet(key)) => forall k :: k in keys ==> HasType(w, k, key)
    case (VObj(fields), TClass(cls)) =>
      && cls in w.classes
      && fields.Keys == PropertyNames(w.classes[cls].props)
      && (forall i :: 0 <= i < |w.classes[cls].props| ==>
           var p := w.classes[cls].props[i];
           p.name in fields && HasType(w, fields[p.name], p.ty))
    case _ => false
  }

  ghost predicate ClassOk(w: World, cls: string)
    requires cls in w.classes
  {
    && DistinctProperties(w.classes[cls].props)
    && (forall i :: 0 <= i < |w.classes[cls].props| ==> TypeOk(w, w.classes[cls].props[i].ty))
    && HasType(w, w.classes[cls].init, TClass(cls))
  }

  ghost predicate WorldOk(w: World) {
    && w.representable(0.0)
    && (forall cls :: cls in w.classes ==> ClassOk(w, cls))
  }

  /** A class registers each property name once. */
  predicate Registered(w: World) {
    forall cls :: cls in w.classes ==> DistinctProperties(w.classes[cls].props)
  }

  /** What a container's resize puts into a new slot. */
  function Default(w: World, t: Type): Value {
    match t
    case TBool => VBool(false)
    case TInt(_, _) => VInt(0)
    case TFloat(_) => VFloat(0.0)
    case TString => VString("")
    case TEnum(_) => VEnum(0)
    case TSeq(_) => VSeq([])
    case TMap(_, _) => VMap(map[])
    case TSet(_) => VSet({})
    case TClass(cls) => if cls in w.classes then w.classes[cls].init else VObj(map[])
  }

  lemma DefaultHasType(w: World, t: Type)
    requires WorldOk(w) && TypeOk(w, t)
    ensures HasType(w, Default(w, t), t)
  {
    if t.TClass? {
      assert ClassOk(w, t.cls);
    }
  }

  /** `variant::convert` from a JSON scalar.  Same-kind conversions are range checked; every
      other pair is left to the reflection library, whose result is a value of the type. */
  function Convert(w: World, j: Json, t: Type): (r: Option<Value>)
    ensures r.Some? ==> IsBasic(j) && HasType(w, r.value, t)
  {
    if !IsBasic(j) then None
    else if j.JBool? && t.TBool? then Some(VBool(j.b))
    else if j.JString? && t.TString? then Some(VString(j.s))
    else if j.JInt? && t.TInt? then (if t.lo <= j.n <= t.hi then Some(VInt(j.n)) else None)
    else if j.JFloat? && t.TFloat? && (!t.single || w.representable(j.r)) then Some(VFloat(j.r))
    else if j.JString? && t.TEnum? && CodeOf(t.names, j.s).Some? then Some(VEnum(CodeOf(t.names, j.s).value))
    else
      var r := w.otherConversion(j, t);
      if r.Some? && HasType(w, r.value, t) then r else None
  }
}
