/**
  The legacy query-parameter mapper: a dispatch table from nine parameter names to a
  destination (a path of object keys and a final key) with an optional transform, and
  the fold that turns the query parameters into a nested edit object.
 */
module QueryParamMapper {
  import opened Outcomes
  import opened EcmaScript
  import Transforms
  import opened JsonValues

  /** One entry of `Object.entries(queryParameters)`; `None` is an `undefined` value. */
  datatype Param = Param(name: string, value: Option<string>)

  /** The transform a rule names, if any. */
  datatype Transform = NoTransform | ZeroStringToNullInt | StringToNullInt | StringToBoolean

  /** Where a parameter's value lands: under `key`, inside the objects named by `path`. */
  datatype Rule = Rule(path: seq<string>, key: string, transform: Transform)

  /** The address of the leaf a rule writes. */
  function Destination(rule: Rule): seq<string> {
    rule.path + [rule.key]
  }

  /** `QUERY_PARAM_MAPPING`: both spellings of grey/gray land on the same key. */
  const Table: map<string, Rule> := map[
    "format" := Rule([], "toFormat", NoTransform),
    "fit" := Rule(["resize"], "fit", NoTransform),
    "width" := Rule(["resize"], "width", ZeroStringToNullInt),
    "height" := Rule(["resize"], "height", ZeroStringToNullInt),
    "rotate" := Rule([], "rotate", StringToNullInt),
    "flip" := Rule([], "flip", StringToBoolean),
    "flop" := Rule([], "flop", StringToBoolean),
    "grayscale" := Rule([], "greyscale", StringToBoolean),
    "greyscale" := Rule([], "greyscale", StringToBoolean)
  ]

  /** `QUERY_PARAM_KEYS`: the table's names in declaration order. */
  const QueryParamKeys: seq<string> :=
    ["format", "fit", "width", "height", "rotate", "flip", "flop", "grayscale", "greyscale"]

  /** `QUERY_PARAM_KEYS` names every rule of the table exactly once. */
  lemma QueryParamKeysListTable()
    ensures forall name :: name in QueryParamKeys <==> name in Table
    ensures forall i, j :: 0 <= i < j < |QueryParamKeys| ==> QueryParamKeys[i] != QueryParamKeys[j]
  {
  }

  /**
    Every rule writes either at the top level or inside `resize`, and no rule's final key
    is `resize`: no walk ever passes through a value another rule wrote. No segment or
    key is a member every object inherits, so plain maps model the edit object exactly.
   */
  lemma TableShape()
    ensures forall name :: name in Table ==> Table[name].path == [] || Table[name].path == ["resize"]
    ensures forall name :: name in Table ==> Table[name].key != "resize"
    ensures forall name :: name in Table ==> Table[name].key !in ObjectPrototypeMembers
    ensures "resize" !in ObjectPrototypeMembers
  {
    var keys := {"toFormat", "fit", "width", "height", "rotate", "flip", "flop", "greyscale"};
    assert forall name :: name in Table ==> Table[name].key in keys;
    assert keys !! ObjectPrototypeMembers;
  }

  /** The error every failure inside the mapper is reported as. */
  datatype ImageHandlerError = ImageHandlerError(status: nat, code: string, message: string)

  /** HTTP 400, the value of `StatusCodes.BAD_REQUEST`. */
  const BadRequest: nat := 400

  const ParsingError: ImageHandlerError :=
    ImageHandlerError(BadRequest, "QueryParameterParsingError", "Query parameter parsing failed")

  /** `number | null` as a value of the edit object. */
  function NumberOrNull(r: Option<Number>): Value {
    match r
    case None => Null
    case Some(n) => Num(n)
  }

  /** The value written for the query value `s`: the string itself, or what the transform returns. */
  function ApplyTransform(t: Transform, s: string): (v: Value)
    ensures !v.Obj?
    ensures t.NoTransform? ==> v == Str(s)
  {
    match t
    case NoTransform => Str(s)
    case ZeroStringToNullInt => NumberOrNull(Transforms.ZeroStringToNullInt(s))
    case StringToNullInt => NumberOrNull(Transforms.StringToNullInt(s))
    case StringToBoolean => Bool(Transforms.StringToBoolean(s))
  }

  /**
    One iteration of the `forEach`: an undefined value or an unknown name leaves the
    object alone; otherwise the rule's path is walked and the transformed value written.
    `None` means the iteration threw, which happens exactly when the walk meets a truthy
    primitive.
   */
  function Step(table: map<string, Rule>, acc: Value, p: Param): (r: Option<Value>)
    ensures p.value.None? || p.name !in table ==> r == Some(acc)
    ensures p.value.Some? && p.name in table ==>
      (r.None? <==> !acc.Obj? || Blocked(acc, table[p.name].path))
    ensures p.value.Some? && p.name in table && r.Some? ==>
      Lookup(r.value, Destination(table[p.name])) == Some(ApplyTransform(table[p.name].transform, p.value.value))
  {
    if p.value.Some? && p.name in table then
      var rule := table[p.name];
      var x := ApplyTransform(rule.transform, p.value.value);
      SetPathSucceedsExactly(acc, rule.path, rule.key, x);
      var r := SetPath(acc, rule.path, rule.key, x);
      if r.Some? then SetPathWrites(acc, rule.path, rule.key, x); r else r
    else Some(acc)
  }

  /** The object after folding `params` into `{}` from left to right; `None` once an iteration threw. */
  function Accumulate(table: map<string, Rule>, params: seq<Param>): (r: Option<Value>)
    ensures r.Some? ==> r.value.Obj?
    decreases |params|
  {
    if |params| == 0 then Some(Obj(map[]))
    else
      match Accumulate(table, params[..|params| - 1])
      case None => None
      case Some(acc) => Step(table, acc, params[|params| - 1])
  }

  /** `mapQueryParamsToEdits` for a given table: whatever threw is reported as `ParsingError`. */
  function MapQueryParams(table: map<string, Rule>, params: seq<Param>): (r: Result<Value, ImageHandlerError>)
    ensures r.Failure? ==> r.error == ParsingError
    ensures r.Success? ==> r.value.Obj?
    ensures r.Success? <==> Accumulate(table, params).Some?
  {
    match Accumulate(table, params)
    case None => Failure(ParsingError)
    case Some(v) => Success(v)
  }

  /** `mapQueryParamsToEdits` as a loop over the entries, stopping the writes once one threw. */
  method MapQueryParamsToEdits(queryParameters: seq<Param>) returns (r: Result<Value, ImageHandlerError>)
    ensures r == MapQueryParams(Table, queryParameters)
  {
    var result: Option<Value> := Some(Obj(map[]));
    for i := 0 to |queryParameters|
      invariant result == Accumulate(Table, queryParameters[..i])
    {
      assert queryParameters[..i + 1][..i] == queryParameters[..i];
      if result.Some? {
        result := Step(Table, result.value, queryParameters[i]);
      }
    }
    assert queryParameters[..|queryParameters|] == queryParameters;
    r := if result.Some? then Success(result.value) else Failure(ParsingError);
  }

  /**
    The members every plain object inherits from `Object.prototype`. Looking one of them
    up in the table's object literal yields a function or an object, which is truthy.
   */
  const ObjectPrototypeMembers: set<string> := {
    "constructor", "hasOwnProperty", "isPrototypeOf", "propertyIsEnumerable",
    "toLocaleString", "toString", "valueOf", "__proto__",
    "__defineGetter__", "__defineSetter__", "__lookupGetter__", "__lookupSetter__"
  }

  /**
    One iteration as written: an inherited name passes the truthiness test on the table,
    its `path` destructures to `undefined`, and `for...of` over it throws.
   */
  function StepAsWritten(table: map<string, Rule>, acc: Value, p: Param): (r: Option<Value>)
    ensures r != Step(table, acc, p) ==> r.None? && InheritedEntry(table, p)
  {
    if InheritedEntry(table, p) then None
    else Step(table, acc, p)
  }

  /** A defined entry whose name is inherited but is not a rule of the table. */
  predicate InheritedEntry(table: map<string, Rule>, p: Param) {
    p.value.Some? && p.name !in table && p.name in ObjectPrototypeMembers
  }

  /**
    The fold as written. It agrees with `Accumulate` whenever it succeeds, and it fails
    where `Accumulate` succeeds only because of an inherited name.
   */
  function AccumulateAsWritten(table: map<string, Rule>, params: seq<Param>): (r: Option<Value>)
    ensures r.Some? ==> r == Accumulate(table, params)
    ensures r.None? && Accumulate(table, params).Some? ==>
      exists i :: 0 <= i < |params| && InheritedEntry(table, params[i])
    decreases |params|
  {
    if |params| == 0 then Some(Obj(map[]))
    else
      var init := params[..|params| - 1];
      assert forall i :: 0 <= i < |init| ==> init[i] == params[i];
      match AccumulateAsWritten(table, init)
      case None => None
      case Some(acc) => StepAsWritten(table, acc, params[|params| - 1])
  }

  /** `mapQueryParamsToEdits` as written, with the inherited members of the table's prototype. */
  function MapQueryParamsAsWritten(table: map<string, Rule>, params: seq<Param>): (r: Result<Value, ImageHandlerError>)
    ensures r.Failure? ==> r.error == ParsingError
  {
    match AccumulateAsWritten(table, params)
    case None => Failure(ParsingError)
    case Some(v) => Success(v)
  }
}
