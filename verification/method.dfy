/**
 A registered method: the schema it publishes and the two ways its arguments are bound.
 */
module Methods {
  import opened JsonValues
  import opened Reflection
  import opened FromJson
  import opened Parameters

  datatype Parameter = Parameter(name: string, ty: Type, index: nat, hasDefault: bool, defaultValue: Json)

  /** `result` is None for `void`. */
  datatype MethodInfo = MethodInfo(
    name: string, signature: string, description: string, params: seq<Parameter>, result: Option<Type>)

  predicate HasValidNames(m: MethodInfo) {
    forall i :: 0 <= i < |m.params| ==> m.params[i].name != ""
  }

  /** Parameters are numbered in order. */
  predicate Numbered(m: MethodInfo) {
    forall i :: 0 <= i < |m.params| ==> m.params[i].index == i
  }

  predicate DistinctParameters(params: seq<Parameter>) {
    forall i, j :: 0 <= i < j < |params| ==> params[i].name != params[j].name
  }

  /** As C++ demands: after a parameter with a default value, all have one. */
  predicate DefaultsAreSuffix(m: MethodInfo) {
    forall i, j :: 0 <= i < j < |m.params| && m.params[i].hasDefault ==> m.params[j].hasDefault
  }

  // ---------------------------------------------------------------------------------------
  // The schema
  // ---------------------------------------------------------------------------------------

  function ParameterDescription(w: World, p: Parameter): Json {
    var d := Description(w, p.name, Some(p.ty));
    if p.hasDefault then JObject(d.members["default" := p.defaultValue]) else d
  }

  function ParameterDescriptions(w: World, params: seq<Parameter>): map<string, Json> {
    if params == [] then map[]
    else
      var last := params[|params| - 1];
      ParameterDescriptions(w, params[..|params| - 1])[last.name := ParameterDescription(w, last)]
  }

  function RequiredNames(params: seq<Parameter>): seq<string> {
    if params == [] then []
    else
      var last := params[|params| - 1];
      RequiredNames(params[..|params| - 1]) + if last.hasDefault then [] else [last.name]
  }

  function ParameterTypes(params: seq<Parameter>): seq<Type> {
    seq(|params|, i requires 0 <= i < |params| => params[i].ty)
  }

  /** The types a method's schema describes. */
  function DescribedTypes(m: MethodInfo): seq<Type> {
    ParameterTypes(m.params) + if m.result.Some? then [m.result.value] else []
  }

  function ParamsSchema(w: World, m: MethodInfo, definitions: map<string, Json>): Json {
    var base := map[
      "type" := JString("object"),
      "$schema" := JString("http://json-schema.org/draft-07/schema#"),
      "properties" := JObject(ParameterDescriptions(w, m.params)),
      "required" := Strings(RequiredNames(m.params))];
    JObject(if definitions == map[] then base else base["definitions" := JObject(definitions)])
  }

  const NO_NAMES: Json := JString("there is no parameter names for the method")

  function Schema(w: World, m: MethodInfo, definitions: map<string, Json>): Json {
    if !HasValidNames(m) then NO_NAMES
    else
      JObject(map[
        "name" := JString(m.name),
        "summary" := JString(m.signature),
        "description" := JString(m.description),
        "params" := ParamsSchema(w, m, definitions),
        "result" := Description(w, "return value", m.result)])
  }

  /** What a schema says before it comes to the parameters; without names there is none. */
  predicate Introduces(m: MethodInfo, j: Json) {
    if !HasValidNames(m) then j == JString("there is no parameter names for the method")
    else
      && Member(j, "name") == JString(m.name) && Member(j, "summary") == JString(m.signature)
      && Member(j, "description") == JString(m.description)
      && Member(Member(j, "params"), "type") == JString("object")
      && Member(Member(j, "params"), "$schema") == JString("http://json-schema.org/draft-07/schema#")
  }

  lemma SchemaIntroduces(w: World, m: MethodInfo, definitions: map<string, Json>)
    ensures Introduces(m, Schema(w, m, definitions))
  {
    ParamsShape(w, m, definitions);
    if HasValidNames(m) {
      var schema := Schema(w, m, definitions);
      assert Member(schema, "params") == ParamsSchema(w, m, definitions);
      assert Member(schema, "name") == JString(m.name) && Member(schema, "summary") == JString(m.signature);
    }
  }

  lemma ParamsShape(w: World, m: MethodInfo, definitions: map<string, Json>)
    ensures var params := ParamsSchema(w, m, definitions);
            && Member(params, "type") == JString("object")
            && Member(params, "$schema") == JString("http://json-schema.org/draft-07/schema#")
            && Member(params, "properties") == JObject(ParameterDescriptions(w, m.params))
            && Member(params, "required") == Strings(RequiredNames(m.params))
            && Member(params, "definitions") == (if definitions == map[] then JNull else JObject(definitions))
  {
  }

  lemma OneMoreParameter(w: World, params: seq<Parameter>, i: nat)
    requires i < |params|
    ensures var was, now, p := params[..i], params[..i + 1], params[i];
            && ParameterDescriptions(w, now) == ParameterDescriptions(w, was)[p.name := ParameterDescription(w, p)]
            && RequiredNames(now) == RequiredNames(was) + (if p.hasDefault then [] else [p.name])
  {
    assert params[..i + 1][..i] == params[..i];
  }

  lemma OneMoreType(w: World, rank: Type -> nat, params: seq<Parameter>, i: nat)
    requires Ranked(w, rank) && i < |params|
    ensures CollectAll(w, rank, ParameterTypes(params[..i + 1]))
            == Collect(w, rank, params[i].ty, CollectAll(w, rank, ParameterTypes(params[..i])))
  {
    assert ParameterTypes(params[..i + 1])[..i] == ParameterTypes(params[..i]);
  }

  lemma ResultType(w: World, rank: Type -> nat, m: MethodInfo)
    requires Ranked(w, rank)
    ensures var table := CollectAll(w, rank, ParameterTypes(m.params));
            CollectAll(w, rank, DescribedTypes(m))
            == if m.result.Some? then Collect(w, rank, m.result.value, table) else table
  {
    if m.result.Some? {
      assert DescribedTypes(m)[..|m.params|] == ParameterTypes(m.params);
    } else {
      assert DescribedTypes(m) == ParameterTypes(m.params);
    }
  }

  method CreateJsonSchema(w: World, ghost rank: Type -> nat, m: MethodInfo) returns (j: Json)
    requires Ranked(w, rank)
    ensures j == Schema(w, m, CollectAll(w, rank, DescribedTypes(m)))
    ensures Introduces(m, j)
  {
    SchemaIntroduces(w, m, CollectAll(w, rank, DescribedTypes(m)));
    if !(forall i :: 0 <= i < |m.params| ==> m.params[i].name != "") {
      return NO_NAMES;
    }
    var properties: map<string, Json> := map[];
    var required: seq<string> := [];
    var defs := new Definitions();
    for i := 0 to |m.params|
      invariant properties == ParameterDescriptions(w, m.params[..i])
      invariant required == RequiredNames(m.params[..i])
      invariant defs.table == CollectAll(w, rank, ParameterTypes(m.params[..i]))
    {
      var param := m.params[i];
      OneMoreParameter(w, m.params, i);
      OneMoreType(w, rank, m.params, i);
      var description := DescribeParameter(w, rank, param, defs);
      properties := properties[param.name := description];
      if !param.hasDefault {
        required := required + [param.name];
      }
    }
    assert m.params[..|m.params|] == m.params;
    ResultType(w, rank, m);
    var result := CreateParameterDescription(w, rank, "return value", m.result, defs);
    j := AssembleSchema(w, m, properties, required, defs.table, result);
  }

  method DescribeParameter(w: World, ghost rank: Type -> nat, p: Parameter, defs: Definitions) returns (param: Json)
    requires Ranked(w, rank)
    modifies defs
    ensures param == ParameterDescription(w, p) && defs.table == Collect(w, rank, p.ty, old(defs.table))
  {
    param := CreateParameterDescription(w, rank, p.name, Some(p.ty), defs);
    if p.hasDefault {
      param := JObject(param.members["default" := p.defaultValue]);
    }
  }

  method AssembleSchema(
      w: World, m: MethodInfo, properties: map<string, Json>, required: seq<string>, definitions: map<string, Json>,
      result: Json)
    returns (j: Json)
    requires HasValidNames(m)
    requires properties == ParameterDescriptions(w, m.params) && required == RequiredNames(m.params)
    requires result == Description(w, "return value", m.result)
    ensures j == Schema(w, m, definitions)
  {
    var params := map[
      "type" := JString("object"),
      "$schema" := JString("http://json-schema.org/draft-07/schema#"),
      "properties" := JObject(properties),
      "required" := Strings(required)];
    if definitions != map[] {
      params := params["definitions" := JObject(definitions)];
    }
    j := JObject(map[
      "name" := JString(m.name),
      "summary" := JString(m.signature),
      "description" := JString(m.description),
      "params" := JObject(params),
      "result" := result]);
  }

  lemma SchemaShape(w: World, m: MethodInfo, definitions: map<string, Json>)
    requires HasValidNames(m)
    ensures var schema := Schema(w, m, definitions);
            var params := Member(schema, "params");
            && Member(params, "properties") == JObject(ParameterDescriptions(w, m.params))
            && Member(params, "required") == Strings(RequiredNames(m.params))
            && Member(params, "definitions") == (if definitions == map[] then JNull else JObject(definitions))
            && Member(schema, "result") == Description(w, "return value", m.result)
  {
    ParamsShape(w, m, definitions);
    assert Member(Schema(w, m, definitions), "params") == ParamsSchema(w, m, definitions);
  }

  /** A description's reference, if it has one, names an entry of the table. */
  ghost predicate Resolves(d: Json, definitions: map<string, Json>) {
    Has(d, "$ref") ==> exists n :: n in definitions && d.members["$ref"] == JString("#/definitions/" + n)
  }

  ghost predicate AllResolve(properties: Json, definitions: map<string, Json>) {
    properties.JObject? && forall n :: n in properties.members ==> Resolves(properties.members[n], definitions)
  }

  lemma DescriptionResolves(w: World, desc: string, t: Option<Type>, definitions: map<string, Json>)
    requires t.Some? && IsClass(t.value) ==> w.typeName(t.value) in definitions
    ensures Resolves(Description(w, desc, t), definitions)
  {
    if t.Some? && IsClass(t.value) {
      assert Description(w, desc, t).members["$ref"] == Reference(w, t.value);
    }
  }

  lemma {:induction false} PropertiesResolve(w: World, props: seq<Property>, definitions: map<string, Json>)
    requires forall i :: 0 <= i < |props| && IsClass(props[i].ty) ==> w.typeName(props[i].ty) in definitions
    ensures AllResolve(JObject(PropertyDescriptions(w, props)), definitions)
  {
    if props != [] {
      var last := props[|props| - 1];
      PropertiesResolve(w, props[..|props| - 1], definitions);
      DescriptionResolves(w, last.description, Some(last.ty), definitions);
    }
  }

  lemma {:induction false} ParametersResolve(w: World, params: seq<Parameter>, definitions: map<string, Json>)
    requires forall i :: 0 <= i < |params| && IsClass(params[i].ty) ==> w.typeName(params[i].ty) in definitions
    ensures AllResolve(JObject(ParameterDescriptions(w, params)), definitions)
  {
    if params != [] {
      var last := params[|params| - 1];
      ParametersResolve(w, params[..|params| - 1], definitions);
      DescriptionResolves(w, last.name, Some(last.ty), definitions);
      assert Has(ParameterDescription(w, last), "$ref") <==> Has(Description(w, last.name, Some(last.ty)), "$ref");
    }
  }

  /** The class that has this entry of the table. */
  lemma DescribedHasName(w: World, rank: Type -> nat, m: MethodInfo, t: Type)
    requires Ranked(w, rank) && NamesApart(w) && t in DescribedTypes(m) && IsClass(t)
    ensures w.typeName(t) in CollectAll(w, rank, DescribedTypes(m))
  {
    TableIsExact(w, rank, DescribedTypes(m));
    ReachesSelf(w, t);
  }

  /** Every reference in the parameters, in the result and inside the definitions resolves, and
      the definitions are exactly those of the classes reachable from the parameter and return
      types. */
  lemma SchemaIsClosedAndExact(w: World, rank: Type -> nat, m: MethodInfo)
    requires Ranked(w, rank) && NamesApart(w) && HasValidNames(m)
    ensures var definitions := CollectAll(w, rank, DescribedTypes(m));
            var schema := Schema(w, m, definitions);
            var params := Member(schema, "params");
            && Member(params, "definitions") == (if definitions == map[] then JNull else JObject(definitions))
            && AllResolve(Member(params, "properties"), definitions)
            && Resolves(Member(schema, "result"), definitions)
            && (forall n :: n in definitions ==> AllResolve(Member(definitions[n], "properties"), definitions))
            && (forall n :: n in definitions <==> Named(w, DescribedTypes(m), n))
  {
    SchemaShape(w, m, CollectAll(w, rank, DescribedTypes(m)));
    TableIsExact(w, rank, DescribedTypes(m));
    ParametersAndResultResolve(w, rank, m);
    DefinitionsResolve(w, rank, m);
  }

  lemma ParametersAndResultResolve(w: World, rank: Type -> nat, m: MethodInfo)
    requires Ranked(w, rank) && NamesApart(w)
    ensures var definitions := CollectAll(w, rank, DescribedTypes(m));
            && AllResolve(JObject(ParameterDescriptions(w, m.params)), definitions)
            && Resolves(Description(w, "return value", m.result), definitions)
  {
    var definitions := CollectAll(w, rank, DescribedTypes(m));
    forall i | 0 <= i < |m.params| && IsClass(m.params[i].ty)
      ensures w.typeName(m.params[i].ty) in definitions
    {
      assert DescribedTypes(m)[i] == m.params[i].ty;
      DescribedHasName(w, rank, m, m.params[i].ty);
    }
    ParametersResolve(w, m.params, definitions);
    if m.result.Some? && IsClass(m.result.value) {
      assert DescribedTypes(m)[|m.params|] == m.result.value;
      DescribedHasName(w, rank, m, m.result.value);
    }
    DescriptionResolves(w, "return value", m.result, definitions);
  }

  lemma DefinitionsResolve(w: World, rank: Type -> nat, m: MethodInfo)
    requires Ranked(w, rank) && NamesApart(w)
    ensures var definitions := CollectAll(w, rank, DescribedTypes(m));
            forall n :: n in definitions ==> AllResolve(Member(definitions[n], "properties"), definitions)
  {
    var definitions := CollectAll(w, rank, DescribedTypes(m));
    TableIsExact(w, rank, DescribedTypes(m));
    forall n | n in definitions
      ensures AllResolve(Member(definitions[n], "properties"), definitions)
    {
      var c := NamedIsClass(w, DescribedTypes(m), n);
      DefinitionResolves(w, c, definitions);
    }
  }

  lemma DefinitionResolves(w: World, c: Type, definitions: map<string, Json>)
    requires IsClass(c) && w.typeName(c) in definitions && ClosedAt(w, definitions, c)
    ensures AllResolve(Member(definitions[w.typeName(c)], "properties"), definitions)
  {
    var props := Properties(w, c);
    forall i | 0 <= i < |props| && IsClass(props[i].ty)
      ensures w.typeName(props[i].ty) in definitions
    {
      assert Mentions(w, c, props[i].ty);
    }
    PropertiesResolve(w, props, definitions);
  }

  // ---------------------------------------------------------------------------------------
  // Binding arguments
  // ---------------------------------------------------------------------------------------

  datatype BindError =
    | NoError
    | WrongFormat
    | NoParameterNames
    | MissingArgument(name: string)
    | UnparsedArgument(name: string)
    | ExtraParameters(insideLoop: bool)
    | NotEnoughParameters
    | UnparsedPosition(index: nat)

  datatype Binding = Bound(vars: seq<Variant>) | Rejected(error: BindError)

  function NamedFrom(w: World, params: seq<Parameter>, j: Json, vars: seq<Variant>): Binding
    requires j.JObject?
  {
    if params == [] then Bound(vars)
    else if params[0].name !in j.members then
      if params[0].hasDefault then Bound(vars) else Rejected(MissingArgument(params[0].name))
    else
      var v := Extract(w, params[0].ty, j.members[params[0].name]);
      if v.Invalid? then Rejected(UnparsedArgument(params[0].name)) else NamedFrom(w, params[1..], j, vars + [v])
  }

  function BindNamed(w: World, m: MethodInfo, j: Json): Binding {
    if !j.JObject? then Rejected(WrongFormat)
    else if !HasValidNames(m) then Rejected(NoParameterNames)
    else NamedFrom(w, m.params, j, [])
  }

  function PositionalFrom(w: World, params: seq<Parameter>, j: Json, vars: seq<Variant>): Binding
    requires j.JArray?
  {
    if params == [] then Bound(vars)
    else if params[0].index >= |j.elems| then
      if params[0].hasDefault then
        if |vars| == |j.elems| then Bound(vars) else Rejected(ExtraParameters(true))
      else Rejected(NotEnoughParameters)
    else
      var v := Extract(w, params[0].ty, j.elems[params[0].index]);
      if v.Invalid? then Rejected(UnparsedPosition(params[0].index)) else PositionalFrom(w, params[1..], j, vars + [v])
  }

  function BindPositional(w: World, m: MethodInfo, j: Json): Binding {
    if !j.JArray? then Rejected(WrongFormat)
    else if |j.elems| > |m.params| then Rejected(ExtraParameters(false))
    else PositionalFrom(w, m.params, j, [])
  }

  /** A call's `params` member: nothing, an array or an object. */
  function Bind(w: World, m: MethodInfo, j: Json): Binding {
    if j.JNull? then Bound([])
    else if j.JArray? then BindPositional(w, m, j)
    else if j.JObject? then BindNamed(w, m, j)
    else Rejected(WrongFormat)
  }

  function Outcome(ok: bool, vars: seq<Variant>, err: BindError): Binding {
    if ok then Bound(vars) else Rejected(err)
  }

  method ParseNamedArguments(w: World, m: MethodInfo, j: Json) returns (ok: bool, vars: seq<Variant>, err: BindError)
    requires Registered(w)
    ensures Outcome(ok, vars, err) == BindNamed(w, m, j)
  {
    vars, err := [], NoError;
    if !j.JObject? {
      return false, [], WrongFormat;
    }
    if !(forall i :: 0 <= i < |m.params| ==> m.params[i].name != "") {
      return false, [], NoParameterNames;
    }
    for i := 0 to |m.params|
      invariant BindNamed(w, m, j) == NamedFrom(w, m.params[i..], j, vars)
    {
      var param := m.params[i];
      if param.name !in j.members {
        if param.hasDefault {
          return true, vars, NoError;
        }
        return false, vars, MissingArgument(param.name);
      }
      var v := ExtractValue(w, param.ty, j.members[param.name]);
      if v.Invalid? {
        return false, vars, UnparsedArgument(param.name);
      }
      vars := vars + [v];
    }
    ok := true;
  }

  method ParseArrayArguments(w: World, m: MethodInfo, j: Json) returns (ok: bool, vars: seq<Variant>, err: BindError)
    requires Registered(w)
    ensures Outcome(ok, vars, err) == BindPositional(w, m, j)
  {
    vars, err := [], NoError;
    if !j.JArray? {
      return false, [], WrongFormat;
    }
    if |j.elems| > |m.params| {
      return false, [], ExtraParameters(false);
    }
    for i := 0 to |m.params|
      invariant BindPositional(w, m, j) == PositionalFrom(w, m.params[i..], j, vars)
    {
      var param := m.params[i];
      if param.index >= |j.elems| {
        if param.hasDefault {
          if |vars| == |j.elems| {
            return true, vars, NoError;
          }
          return false, vars, ExtraParameters(true);
        }
        return false, vars, NotEnoughParameters;
      }
      var v := ExtractValue(w, param.ty, j.elems[param.index]);
      if v.Invalid? {
        return false, vars, UnparsedPosition(param.index);
      }
      vars := vars + [v];
    }
    ok := true;
  }

  // ---------------------------------------------------------------------------------------
  // When named arguments are accepted
  // ---------------------------------------------------------------------------------------

  /** How many leading parameters the object names without a gap. */
  function PresentPrefix(params: seq<Parameter>, j: Json): nat {
    if params == [] || !Has(j, params[0].name) then 0 else 1 + PresentPrefix(params[1..], j)
  }

  function Extracted(w: World, params: seq<Parameter>, j: Json): seq<Variant>
    requires j.JObject? && forall i :: 0 <= i < |params| ==> params[i].name in j.members
  {
    seq(|params|, i requires 0 <= i < |params| => Extract(w, params[i].ty, j.members[params[i].name]))
  }

  lemma {:induction false} PrefixIsPresent(params: seq<Parameter>, j: Json)
    ensures var k := PresentPrefix(params, j);
            && k <= |params|
            && (forall i :: 0 <= i < k ==> Has(j, params[i].name))
            && (k < |params| ==> !Has(j, params[k].name))
  {
    if params != [] && Has(j, params[0].name) {
      PrefixIsPresent(params[1..], j);
      var k := PresentPrefix(params[1..], j);
      forall i | 0 <= i < k + 1 ensures Has(j, params[i].name) {
        if i > 0 {
          assert params[1..][i - 1] == params[i];
        }
      }
    }
  }

  predicate AllValid(vs: seq<Variant>) {
    forall i :: 0 <= i < |vs| ==> !vs[i].Invalid?
  }

  lemma AllValidCons(v: Variant, rest: seq<Variant>)
    ensures AllValid([v] + rest) <==> !v.Invalid? && AllValid(rest)
  {
    var all := [v] + rest;
    if AllValid(all) {
      assert !all[0].Invalid?;
      forall i | 0 <= i < |rest| ensures !rest[i].Invalid? {
        assert !all[i + 1].Invalid?;
      }
    }
  }

  lemma {:induction false} NamedFromExactly(w: World, params: seq<Parameter>, j: Json, vars: seq<Variant>)
    requires j.JObject?
    ensures var k := PresentPrefix(params, j);
            && k <= |params| && (forall i :: 0 <= i < k ==> Has(j, params[i].name))
            && var b := NamedFrom(w, params, j, vars);
            && (b.Bound? <==> (k == |params| || params[k].hasDefault) && AllValid(Extracted(w, params[..k], j)))
            && (b.Bound? ==> b.vars == vars + Extracted(w, params[..k], j))
  {
    PrefixIsPresent(params, j);
    var k := PresentPrefix(params, j);
    if params != [] && Has(j, params[0].name) {
      var v := Extract(w, params[0].ty, j.members[params[0].name]);
      NamedFromExactly(w, params[1..], j, vars + [v]);
      assert params[1..][..k - 1] == params[..k][1..];
      assert Extracted(w, params[..k], j) == [v] + Extracted(w, params[1..][..k - 1], j);
      var rest := Extracted(w, params[1..][..k - 1], j);
      AllValidCons(v, rest);
      assert vars + [v] + rest == vars + ([v] + rest);
    } else {
      assert Extracted(w, params[..k], j) == [];
    }
  }

  lemma {:induction false} RequiredNamesAre(params: seq<Parameter>, name: string)
    ensures name in RequiredNames(params)
      <==> exists i :: 0 <= i < |params| && !params[i].hasDefault && params[i].name == name
  {
    if params != [] {
      var init, last := params[..|params| - 1], params[|params| - 1];
      RequiredNamesAre(init, name);
      if i :| 0 <= i < |params| && !params[i].hasDefault && params[i].name == name && i < |init| {
        assert init[i] == params[i];
      }
    }
  }

  /** The names a published schema lists as required. */
  predicate MeetsRequired(schema: Json, j: Json) {
    var required := Member(Member(schema, "params"), "required");
    && required.JArray?
    && forall i :: 0 <= i < |required.elems| ==> required.elems[i].JString? && Has(j, required.elems[i].s)
  }

  /** Named binding and the published schema agree: an object is accepted exactly when it has
      every name that the schema requires and every value in the longest gap-free prefix of
      parameters can be read; the bound vector is then those values. */
  lemma NamedBindingMeetsSchema(w: World, m: MethodInfo, definitions: map<string, Json>, j: Json)
    requires j.JObject? && HasValidNames(m) && DefaultsAreSuffix(m)
    ensures var k := PresentPrefix(m.params, j);
            && k <= |m.params| && (forall i :: 0 <= i < k ==> Has(j, m.params[i].name))
            && var values := Extracted(w, m.params[..k], j);
            && (BindNamed(w, m, j).Bound? <==> MeetsRequired(Schema(w, m, definitions), j) && AllValid(values))
            && (BindNamed(w, m, j).Bound? ==> BindNamed(w, m, j).vars == values)
  {
    NamedFromExactly(w, m.params, j, []);
    PrefixMeetsRequired(w, m, definitions, j);
  }

  lemma PrefixMeetsRequired(w: World, m: MethodInfo, definitions: map<string, Json>, j: Json)
    requires j.JObject? && HasValidNames(m) && DefaultsAreSuffix(m)
    ensures var k := PresentPrefix(m.params, j);
            k <= |m.params|
            && (MeetsRequired(Schema(w, m, definitions), j) <==> k == |m.params| || m.params[k].hasDefault)
  {
    var k := PresentPrefix(m.params, j);
    PrefixIsPresent(m.params, j);
    var names := RequiredNames(m.params);
    SchemaShape(w, m, definitions);
    assert Member(Member(Schema(w, m, definitions), "params"), "required") == Strings(names);
    if k == |m.params| || m.params[k].hasDefault {
      forall i | 0 <= i < |names| ensures Has(j, names[i]) {
        RequiredNamesAre(m.params, names[i]);
      }
    } else {
      RequiredNamesAre(m.params, m.params[k].name);
      var i :| 0 <= i < |names| && names[i] == m.params[k].name;
      assert Strings(names).elems[i].s == m.params[k].name;
    }
  }

  // ---------------------------------------------------------------------------------------
  // Positional and named calls agree
  // ---------------------------------------------------------------------------------------

  /** The first arguments as an object. */
  function AsNamed(params: seq<Parameter>, vs: seq<Json>): map<string, Json>
    requires |vs| <= |params|
  {
    if vs == [] then map[]
    else AsNamed(params, vs[..|vs| - 1])[params[|vs| - 1].name := vs[|vs| - 1]]
  }

  lemma {:induction false} AsNamedHas(params: seq<Parameter>, vs: seq<Json>, i: nat)
    requires |vs| <= |params| && DistinctParameters(params) && i < |params|
    ensures params[i].name in AsNamed(params, vs) <==> i < |vs|
    ensures i < |vs| ==> AsNamed(params, vs)[params[i].name] == vs[i]
  {
    if vs != [] {
      AsNamedHas(params, vs[..|vs| - 1], i);
    }
  }

  predicate SameVerdict(a: Binding, b: Binding) {
    if a.Bound? then b == a else b.Rejected?
  }

  lemma {:induction false} FromAgree(w: World, m: MethodInfo, i: nat, vs: seq<Json>, vars: seq<Variant>)
    requires Numbered(m) && DistinctParameters(m.params) && i <= |m.params| && |vs| <= |m.params|
    requires |vars| == i <= |vs|
    ensures var p := PositionalFrom(w, m.params[i..], JArray(vs), vars);
            && SameVerdict(p, NamedFrom(w, m.params[i..], JObject(AsNamed(m.params, vs)), vars))
            && (p.Bound? ==> |p.vars| == |vs|)
            && p != Rejected(ExtraParameters(true))
    decreases |m.params| - i
  {
    if i < |m.params| {
      AsNamedHas(m.params, vs, i);
      assert m.params[i..][1..] == m.params[i + 1..];
      if i < |vs| {
        var v := Extract(w, m.params[i].ty, vs[i]);
        FromAgree(w, m, i + 1, vs, vars + [v]);
      }
    }
  }

  /** The same leading arguments, as an array and as an object, are accepted or refused alike
      and bind the same vector, as long as the arguments; the check for extra parameters inside
      the loop never fires. */
  lemma PositionalAndNamedAgree(w: World, m: MethodInfo, vs: seq<Json>)
    requires Numbered(m) && HasValidNames(m) && DistinctParameters(m.params) && |vs| <= |m.params|
    ensures var p := BindPositional(w, m, JArray(vs));
            && SameVerdict(p, BindNamed(w, m, JObject(AsNamed(m.params, vs))))
            && (p.Bound? ==> |p.vars| == |vs|)
  {
    FromAgree(w, m, 0, vs, []);
    assert m.params[0..] == m.params;
  }

  lemma ExtraInsideLoopIsUnreachable(w: World, m: MethodInfo, j: Json)
    requires Numbered(m)
    ensures BindPositional(w, m, j) != Rejected(ExtraParameters(true))
    ensures j.JArray? && BindPositional(w, m, j).Bound? ==> |BindPositional(w, m, j).vars| == |j.elems|
  {
    if j.JArray? && |j.elems| <= |m.params| {
      PositionalFromExactly(w, m, 0, j, []);
      assert m.params[0..] == m.params;
    }
  }

  lemma {:induction false} PositionalFromExactly(w: World, m: MethodInfo, i: nat, j: Json, vars: seq<Variant>)
    requires Numbered(m) && j.JArray? && i <= |m.params| && |vars| == i <= |j.elems| <= |m.params|
    ensures var p := PositionalFrom(w, m.params[i..], j, vars);
            p != Rejected(ExtraParameters(true)) && (p.Bound? ==> |p.vars| == |j.elems|)
    decreases |m.params| - i
  {
    if i < |j.elems| {
      assert m.params[i..][1..] == m.params[i + 1..];
      PositionalFromExactly(w, m, i + 1, j, vars + [Extract(w, m.params[i].ty, j.elems[i])]);
    }
  }
}
