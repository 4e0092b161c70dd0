/**
  What `mapQueryParamsToEdits` computes, stated without the fold: each destination of
  the table holds the transform of the last defined value aimed at it, and nothing else
  is in the object. The order-dependence of the grey/gray alias and the frame of a
  single write follow from it.
 */
module MapperProperties {
  import opened Outcomes
  import opened EcmaScript
  import Transforms
  import opened JsonValues
  import opened QueryParamMapper

  /** `p` is an entry the mapper writes, and it writes at address `d`. */
  predicate WritesAt(p: Param, d: seq<string>) {
    p.value.Some? && p.name in Table && Destination(Table[p.name]) == d
  }

  /** The raw value of the last entry of `params` that writes at `d`, if any does. */
  function LastValue(params: seq<Param>, d: seq<string>): Option<string>
    decreases |params|
  {
    if |params| == 0 then None
    else if WritesAt(params[|params| - 1], d) then params[|params| - 1].value
    else LastValue(params[..|params| - 1], d)
  }

  /** For each destination of the table, the last raw value written there. */
  datatype Requested = Requested(
    format: Option<string>, fit: Option<string>, width: Option<string>, height: Option<string>,
    rotate: Option<string>, flip: Option<string>, flop: Option<string>, greyscale: Option<string>)

  function LastValues(params: seq<Param>): Requested {
    Requested(
      LastValue(params, ["toFormat"]), LastValue(params, ["resize", "fit"]),
      LastValue(params, ["resize", "width"]), LastValue(params, ["resize", "height"]),
      LastValue(params, ["rotate"]), LastValue(params, ["flip"]),
      LastValue(params, ["flop"]), LastValue(params, ["greyscale"]))
  }

  function Field(raw: Option<string>, t: Transform): Option<Value> {
    match raw
    case None => None
    case Some(s) => Some(ApplyTransform(t, s))
  }

  /** The keys the edit object can have at its top level and inside `resize`. */
  const RootKeys: set<string> := {"toFormat", "resize", "rotate", "flip", "flop", "greyscale"}
  const ResizeKeys: set<string> := {"fit", "width", "height"}

  function ResizeMember(fit: Option<string>, width: Option<string>, height: Option<string>, k: string): Option<Value> {
    if k == "fit" then Field(fit, NoTransform)
    else if k == "width" then Field(width, ZeroStringToNullInt)
    else if k == "height" then Field(height, ZeroStringToNullInt)
    else None
  }

  function ResizeFields(fit: Option<string>, width: Option<string>, height: Option<string>): map<string, Value> {
    map k | k in ResizeKeys && ResizeMember(fit, width, height, k).Some? :: ResizeMember(fit, width, height, k).value
  }

  /** The `resize` object: present as soon as one of its three members is. */
  function ResizeObject(fit: Option<string>, width: Option<string>, height: Option<string>): Option<Value> {
    if fit.None? && width.None? && height.None? then None
    else Some(Obj(ResizeFields(fit, width, height)))
  }

  function RootMember(q: Requested, k: string): Option<Value> {
    if k == "toFormat" then Field(q.format, NoTransform)
    else if k == "resize" then ResizeObject(q.fit, q.width, q.height)
    else if k == "rotate" then Field(q.rotate, StringToNullInt)
    else if k == "flip" then Field(q.flip, StringToBoolean)
    else if k == "flop" then Field(q.flop, StringToBoolean)
    else if k == "greyscale" then Field(q.greyscale, StringToBoolean)
    else None
  }

  /** The edit object holding exactly the requested values, each under its destination. */
  function Render(q: Requested): Value {
    Obj(map k | k in RootKeys && RootMember(q, k).Some? :: RootMember(q, k).value)
  }

  /** The requested values after one more entry. */
  function Update(q: Requested, p: Param): Requested {
    if p.value.None? || p.name !in Table then q
    else
      var d := Destination(Table[p.name]);
      if d == ["toFormat"] then q.(format := p.value)
      else if d == ["resize", "fit"] then q.(fit := p.value)
      else if d == ["resize", "width"] then q.(width := p.value)
      else if d == ["resize", "height"] then q.(height := p.value)
      else if d == ["rotate"] then q.(rotate := p.value)
      else if d == ["flip"] then q.(flip := p.value)
      else if d == ["flop"] then q.(flop := p.value)
      else q.(greyscale := p.value)
  }

  lemma LastValuesSnoc(params: seq<Param>, p: Param)
    ensures LastValues(params + [p]) == Update(LastValues(params), p)
  {
    assert (params + [p])[..|params|] == params;
  }

  /** Changing one top-level member of the request changes that key of the rendering only. */
  lemma RenderUpdate(q: Requested, q': Requested, key: string, x: Value)
    requires key in RootKeys && RootMember(q', key) == Some(x)
    requires forall k :: k != key ==> RootMember(q', k) == RootMember(q, k)
    ensures Render(q') == Obj(Render(q).fields[key := x])
  {
    var a := Render(q').fields;
    var b := Render(q).fields[key := x];
    assert a.Keys == b.Keys;
    assert forall k | k in a :: a[k] == b[k];
  }

  /** Changing one member of `resize` changes that key of the `resize` object only. */
  lemma ResizeUpdate(q: Requested, q': Requested, key: string, x: Value)
    requires key in ResizeKeys && ResizeMember(q'.fit, q'.width, q'.height, key) == Some(x)
    requires forall k :: k != key ==>
      ResizeMember(q'.fit, q'.width, q'.height, k) == ResizeMember(q.fit, q.width, q.height, k)
    ensures ResizeFields(q'.fit, q'.width, q'.height) == ResizeFields(q.fit, q.width, q.height)[key := x]
  {
    var a := ResizeFields(q'.fit, q'.width, q'.height);
    var b := ResizeFields(q.fit, q.width, q.height)[key := x];
    assert a.Keys == b.Keys;
    assert forall k | k in a :: a[k] == b[k];
  }

  /** What `current[segment] || {}` finds at `resize` in a rendering: its members, or a fresh object. */
  lemma DescendIntoResize(q: Requested)
    ensures Descend(Render(q).fields, "resize") == Obj(ResizeFields(q.fit, q.width, q.height))
  {
    if q.fit.None? && q.width.None? && q.height.None? {
      assert ResizeFields(q.fit, q.width, q.height) == map[];
    }
  }

  /** Writing a top-level member of the edit object. */
  lemma StepRenderRoot(q: Requested, p: Param, q': Requested, key: string, t: Transform)
    requires p.value.Some? && p.name in Table && Table[p.name] == Rule([], key, t)
    requires key in RootKeys && RootMember(q', key) == Some(ApplyTransform(t, p.value.value))
    requires forall k :: k != key ==> RootMember(q', k) == RootMember(q, k)
    ensures Step(Table, Render(q), p) == Some(Render(q'))
  {
    RenderUpdate(q, q', key, ApplyTransform(t, p.value.value));
  }

  /** The walk into `resize` reuses the `resize` object of the rendering and writes one of its keys. */
  lemma StepIntoResize(q: Requested, p: Param, key: string, t: Transform)
    requires p.value.Some? && p.name in Table && Table[p.name] == Rule(["resize"], key, t)
    ensures Step(Table, Render(q), p) == Some(Obj(Render(q).fields["resize" :=
      Obj(ResizeFields(q.fit, q.width, q.height)[key := ApplyTransform(t, p.value.value)])]))
  {
    var x := ApplyTransform(t, p.value.value);
    var child := Descend(Render(q).fields, "resize");
    DescendIntoResize(q);
    assert ["resize"][1..] == [];
    assert SetPath(child, [], key, x) == Some(Obj(child.fields[key := x]));
  }

  /** A request that differs only inside `resize` renders with only the `resize` object replaced. */
  lemma RenderResizeUpdate(q: Requested, q': Requested)
    requires q'.format == q.format && q'.rotate == q.rotate && q'.flip == q.flip
    requires q'.flop == q.flop && q'.greyscale == q.greyscale
    requires q'.fit.Some? || q'.width.Some? || q'.height.Some?
    ensures Render(q') == Obj(Render(q).fields["resize" := Obj(ResizeFields(q'.fit, q'.width, q'.height))])
  {
    var r := Obj(ResizeFields(q'.fit, q'.width, q'.height));
    assert RootMember(q', "resize") == Some(r);
    forall k | k != "resize"
      ensures RootMember(q', k) == RootMember(q, k)
    {
    }
    RenderUpdate(q, q', "resize", r);
  }

  /** Writing a member of `resize`, which reuses the `resize` object already there. */
  lemma StepRenderResize(q: Requested, p: Param, q': Requested, key: string, t: Transform)
    requires p.value.Some? && p.name in Table && Table[p.name] == Rule(["resize"], key, t)
    requires q'.format == q.format && q'.rotate == q.rotate && q'.flip == q.flip
    requires q'.flop == q.flop && q'.greyscale == q.greyscale
    requires key in ResizeKeys && ResizeMember(q'.fit, q'.width, q'.height, key) == Some(ApplyTransform(t, p.value.value))
    requires forall k :: k != key ==>
      ResizeMember(q'.fit, q'.width, q'.height, k) == ResizeMember(q.fit, q.width, q.height, k)
    ensures Step(Table, Render(q), p) == Some(Render(q'))
  {
    StepIntoResize(q, p, key, t);
    ResizeUpdate(q, q', key, ApplyTransform(t, p.value.value));
    RenderResizeUpdate(q, q');
  }

  /** The destination of every name of the table, as an address of the edit object. */
  lemma TableDestinations()
    ensures Destination(Table["format"]) == ["toFormat"]
    ensures Destination(Table["fit"]) == ["resize", "fit"]
    ensures Destination(Table["width"]) == ["resize", "width"]
    ensures Destination(Table["height"]) == ["resize", "height"]
    ensures Destination(Table["rotate"]) == ["rotate"]
    ensures Destination(Table["flip"]) == ["flip"]
    ensures Destination(Table["flop"]) == ["flop"]
    ensures Destination(Table["grayscale"]) == ["greyscale"]
    ensures Destination(Table["greyscale"]) == ["greyscale"]
  {
  }

  /** One entry applied to a rendered object gives the rendering of the updated request. */
  lemma StepRender(q: Requested, p: Param)
    ensures Step(Table, Render(q), p) == Some(Render(Update(q, p)))
  {
    if p.value.Some? && p.name in Table {
      if p.name in {"fit", "width", "height"} {
        StepRenderResizeName(q, p);
      } else {
        StepRenderRootName(q, p);
      }
    }
  }

  lemma StepRenderResizeName(q: Requested, p: Param)
    requires p.value.Some? && p.name in {"fit", "width", "height"}
    ensures Step(Table, Render(q), p) == Some(Render(Update(q, p)))
  {
    TableDestinations();
    var q' := Update(q, p);
    match p.name
    case "fit" => StepRenderResize(q, p, q', "fit", NoTransform);
    case "width" => StepRenderResize(q, p, q', "width", ZeroStringToNullInt);
    case _ => StepRenderResize(q, p, q', "height", ZeroStringToNullInt);
  }

  lemma StepRenderRootName(q: Requested, p: Param)
    requires p.value.Some? && p.name in {"format", "rotate", "flip", "flop", "grayscale", "greyscale"}
    ensures Step(Table, Render(q), p) == Some(Render(Update(q, p)))
  {
    TableDestinations();
    var q' := Update(q, p);
    match p.name
    case "format" => StepRenderRoot(q, p, q', "toFormat", NoTransform);
    case "rotate" => StepRenderRoot(q, p, q', "rotate", StringToNullInt);
    case "flip" => StepRenderRoot(q, p, q', "flip", StringToBoolean);
    case "flop" => StepRenderRoot(q, p, q', "flop", StringToBoolean);
    case _ => StepRenderRoot(q, p, q', "greyscale", StringToBoolean);
  }

  /**
    The fold over the entries builds exactly the object that holds, at each destination,
    the transform of the last defined value aimed at it.
   */
  lemma {:induction false} AccumulateMatchesReference(params: seq<Param>)
    ensures Accumulate(Table, params) == Some(Render(LastValues(params)))
    decreases |params|
  {
    if |params| > 0 {
      var init := params[..|params| - 1];
      var last := params[|params| - 1];
      AccumulateMatchesReference(init);
      StepRender(LastValues(init), last);
      LastValuesSnoc(init, last);
      assert init + [last] == params;
    }
  }

  /**
    `mapQueryParamsToEdits` never throws with this table, and its result is the object
    holding, at each destination, the transform of the last defined value aimed at it.
   */
  lemma MapQueryParamsMatchesReference(params: seq<Param>)
    ensures MapQueryParams(Table, params) == Success(Render(LastValues(params)))
  {
    AccumulateMatchesReference(params);
  }

  /** No input makes the mapper raise its Bad-Request error. */
  lemma MapQueryParamsNeverFails(params: seq<Param>)
    ensures MapQueryParams(Table, params).Success?
  {
    AccumulateMatchesReference(params);
  }

  /** The last entry writing at `d` decides what `LastValue` reports. */
  lemma {:induction false} LastValueIsLastWrite(params: seq<Param>, d: seq<string>, i: int)
    requires 0 <= i < |params| && WritesAt(params[i], d)
    requires forall j :: i < j < |params| ==> !WritesAt(params[j], d)
    ensures LastValue(params, d) == params[i].value
    decreases |params|
  {
    if i < |params| - 1 {
      var init := params[..|params| - 1];
      assert init[i] == params[i];
      assert forall j :: i < j < |init| ==> init[j] == params[j];
      LastValueIsLastWrite(init, d, i);
    }
  }

  /** Nothing is reported at `d` exactly when no entry writes there. */
  lemma {:induction false} LastValueAbsent(params: seq<Param>, d: seq<string>)
    ensures LastValue(params, d).None? <==> forall i :: 0 <= i < |params| ==> !WritesAt(params[i], d)
    decreases |params|
  {
    if |params| > 0 {
      var init := params[..|params| - 1];
      LastValueAbsent(init, d);
      assert forall i :: 0 <= i < |init| ==> init[i] == params[i];
    }
  }

  lemma LookupRoot(q: Requested, k: string)
    requires k in RootKeys
    ensures Lookup(Render(q), [k]) == RootMember(q, k)
  {
    assert [k][1..] == [];
  }

  lemma LookupResize(q: Requested, k: string)
    requires k in ResizeKeys
    ensures Lookup(Render(q), ["resize", k]) == ResizeMember(q.fit, q.width, q.height, k)
  {
    var a := ["resize", k];
    assert a[1..] == [k] && [k][1..] == [];
    LookupRoot(q, "resize");
    if RootMember(q, "resize").Some? {
      var rf := ResizeFields(q.fit, q.width, q.height);
      assert Render(q).fields["resize"] == Obj(rf);
      assert Lookup(Render(q), a) == Lookup(Obj(rf), [k]);
      assert Lookup(Obj(rf), [k]) == if k in rf then Some(rf[k]) else None;
    }
  }

  /** What the edit object holds at the destination of a recognised name. */
  lemma LookupDestination(params: seq<Param>, name: string)
    requires name in Table
    ensures MapQueryParams(Table, params).Success?
    ensures Lookup(MapQueryParams(Table, params).value, Destination(Table[name])) ==
      Field(LastValue(params, Destination(Table[name])), Table[name].transform)
  {
    AccumulateMatchesReference(params);
    TableDestinations();
    var q := LastValues(params);
    assert MapQueryParams(Table, params).value == Render(q);
    match name
    case "format" => LookupRoot(q, "toFormat");
    case "fit" => LookupResize(q, "fit");
    case "width" => LookupResize(q, "width");
    case "height" => LookupResize(q, "height");
    case "rotate" => LookupRoot(q, "rotate");
    case "flip" => LookupRoot(q, "flip");
    case "flop" => LookupRoot(q, "flop");
    case _ =>
      assert name in {"grayscale", "greyscale"};
      LookupRoot(q, "greyscale");
  }

  /**
    Last write wins: the entry that writes at a destination and is followed by no other
    writer of that destination decides the value found there.
   */
  lemma LastWriteWins(params: seq<Param>, i: int)
    requires 0 <= i < |params| && params[i].name in Table && params[i].value.Some?
    requires forall j :: i < j < |params| ==> !WritesAt(params[j], Destination(Table[params[i].name]))
    ensures MapQueryParams(Table, params).Success?
    ensures Lookup(MapQueryParams(Table, params).value, Destination(Table[params[i].name])) ==
      Some(ApplyTransform(Table[params[i].name].transform, params[i].value.value))
  {
    LookupDestination(params, params[i].name);
    LastValueIsLastWrite(params, Destination(Table[params[i].name]), i);
  }

  /** A destination no entry writes is absent from the edit object. */
  lemma UnwrittenDestinationAbsent(params: seq<Param>, name: string)
    requires name in Table
    requires forall i :: 0 <= i < |params| ==> !WritesAt(params[i], Destination(Table[name]))
    ensures MapQueryParams(Table, params).Success?
    ensures Lookup(MapQueryParams(Table, params).value, Destination(Table[name])) == None
  {
    LookupDestination(params, name);
    LastValueAbsent(params, Destination(Table[name]));
  }

  /**
    The edit object only ever has the keys `toFormat`, `resize`, `rotate`, `flip`, `flop`
    and `greyscale`, and `resize` only `fit`, `width` and `height`; no `grayscale` key.
   */
  lemma OutputShape(params: seq<Param>)
    ensures MapQueryParams(Table, params).Success?
    ensures var out := MapQueryParams(Table, params).value;
      && out.Obj?
      && out.fields.Keys <= RootKeys
      && "grayscale" !in out.fields
      && ("resize" in out.fields ==> out.fields["resize"].Obj? && out.fields["resize"].fields.Keys <= ResizeKeys)
  {
    AccumulateMatchesReference(params);
  }

  /** With no defined value under a recognised name (`{}`, `{bogus: "x"}`), the edit object is `{}`. */
  lemma NothingRecognisedGivesEmptyEdits(params: seq<Param>)
    requires forall i :: 0 <= i < |params| ==> params[i].value.None? || params[i].name !in Table
    ensures MapQueryParams(Table, params) == Success(Obj(map[]))
  {
    AccumulateMatchesReference(params);
    var q := LastValues(params);
    forall d ensures LastValue(params, d).None? {
      LastValueAbsent(params, d);
    }
    assert q == Requested(None, None, None, None, None, None, None, None);
    assert Render(q).fields == map[];
  }

  lemma {:induction false} LastValueSwap(a: seq<Param>, e1: Param, e2: Param, b: seq<Param>, d: seq<string>)
    requires !(WritesAt(e1, d) && WritesAt(e2, d))
    ensures LastValue(a + [e1, e2] + b, d) == LastValue(a + [e2, e1] + b, d)
    decreases |b|
  {
    var x := a + [e1, e2] + b;
    var y := a + [e2, e1] + b;
    if |b| == 0 {
      assert x[..|x| - 1] == a + [e1] && y[..|y| - 1] == a + [e2];
      assert (a + [e1])[..|a|] == a && (a + [e2])[..|a|] == a;
    } else {
      var b' := b[..|b| - 1];
      assert x[..|x| - 1] == a + [e1, e2] + b';
      assert y[..|y| - 1] == a + [e2, e1] + b';
      LastValueSwap(a, e1, e2, b', d);
    }
  }

  /**
    Entries aimed at different destinations commute: swapping two neighbours changes
    nothing unless both write the same destination, as `grayscale` and `greyscale` do.
   */
  lemma SwapIndependent(a: seq<Param>, e1: Param, e2: Param, b: seq<Param>)
    requires !(e1.value.Some? && e2.value.Some? && e1.name in Table && e2.name in Table
               && Destination(Table[e1.name]) == Destination(Table[e2.name]))
    ensures MapQueryParams(Table, a + [e1, e2] + b) == MapQueryParams(Table, a + [e2, e1] + b)
  {
    forall d ensures LastValue(a + [e1, e2] + b, d) == LastValue(a + [e2, e1] + b, d) {
      LastValueSwap(a, e1, e2, b, d);
    }
    AccumulateMatchesReference(a + [e1, e2] + b);
    AccumulateMatchesReference(a + [e2, e1] + b);
  }

  /**
    The two spellings `grayscale` and `greyscale` write the same key, so their order
    matters: whichever comes later decides `greyscale`.
   */
  lemma GreyscaleAliasOrderMatters()
    ensures MapQueryParams(Table, [Param("grayscale", Some("true")), Param("greyscale", Some("0"))])
      == Success(Obj(map["greyscale" := Bool(false)]))
    ensures MapQueryParams(Table, [Param("greyscale", Some("0")), Param("grayscale", Some("true"))])
      == Success(Obj(map["greyscale" := Bool(true)]))
  {
    Transforms.StringToBooleanFalsyExamples();
    Transforms.StringToBooleanTruthyExamples();
    var x := [Param("grayscale", Some("true")), Param("greyscale", Some("0"))];
    var y := [Param("greyscale", Some("0")), Param("grayscale", Some("true"))];
    AccumulateMatchesReference(x);
    AccumulateMatchesReference(y);
    assert Destination(Table["grayscale"]) == ["greyscale"] == Destination(Table["greyscale"]);
    LastValueIsLastWrite(x, ["greyscale"], 1);
    LastValueIsLastWrite(y, ["greyscale"], 1);
    forall d | d != ["greyscale"] ensures LastValue(x, d).None? && LastValue(y, d).None? {
      LastValueAbsent(x, d);
      LastValueAbsent(y, d);
    }
    assert Render(LastValues(x)).fields == map["greyscale" := Bool(false)];
    assert Render(LastValues(y)).fields == map["greyscale" := Bool(true)];
  }

  /** The query of the worked example: `format=webp&fit=cover&width=300&height=0`. */
  const ExampleQuery: seq<Param> := [
    Param("format", Some("webp")), Param("fit", Some("cover")),
    Param("width", Some("300")), Param("height", Some("0"))]

  lemma ExampleRequested()
    ensures LastValues(ExampleQuery) ==
      Requested(Some("webp"), Some("cover"), Some("300"), Some("0"), None, None, None, None)
  {
    var params := ExampleQuery;
    TableDestinations();
    LastValueIsLastWrite(params, ["toFormat"], 0);
    LastValueIsLastWrite(params, ["resize", "fit"], 1);
    LastValueIsLastWrite(params, ["resize", "width"], 2);
    LastValueIsLastWrite(params, ["resize", "height"], 3);
    LastValueAbsent(params, ["rotate"]);
    LastValueAbsent(params, ["flip"]);
    LastValueAbsent(params, ["flop"]);
    LastValueAbsent(params, ["greyscale"]);
  }

  lemma ExampleWidth()
    ensures Transforms.ZeroStringToNullInt("300") == Some(Integer(300))
  {
    assert IntToDecimal(300) == "300" by {
      assert NatToDecimal(3) == "3";
      assert NatToDecimal(30) == "30";
    }
    Transforms.ZeroStringToNullIntOfNumeral(300);
  }

  const ExampleResize: map<string, Value> :=
    map["fit" := Str("cover"), "width" := Num(Integer(300)), "height" := Null]

  /** With all three members requested, `resize` holds exactly those three. */
  lemma ResizeFieldsComplete(fit: string, width: string, height: string)
    ensures ResizeFields(Some(fit), Some(width), Some(height)) == map[
      "fit" := Str(fit),
      "width" := NumberOrNull(Transforms.ZeroStringToNullInt(width)),
      "height" := NumberOrNull(Transforms.ZeroStringToNullInt(height))]
  {
    var w := NumberOrNull(Transforms.ZeroStringToNullInt(width));
    var h := NumberOrNull(Transforms.ZeroStringToNullInt(height));
    ResizeFieldsCompleteMembers(fit, width, height);
    MapOfThree(ResizeFields(Some(fit), Some(width), Some(height)), Str(fit), w, h);
  }

  lemma ResizeFieldsCompleteMembers(fit: string, width: string, height: string)
    ensures var rf := ResizeFields(Some(fit), Some(width), Some(height));
      && rf.Keys == ResizeKeys
      && rf["fit"] == Str(fit)
      && rf["width"] == NumberOrNull(Transforms.ZeroStringToNullInt(width))
      && rf["height"] == NumberOrNull(Transforms.ZeroStringToNullInt(height))
  {
  }

  lemma MapOfThree(m: map<string, Value>, a: Value, b: Value, c: Value)
    requires m.Keys == ResizeKeys && m["fit"] == a && m["width"] == b && m["height"] == c
    ensures m == map["fit" := a, "width" := b, "height" := c]
  {
  }

  lemma ExampleResizeFields()
    ensures ResizeFields(Some("cover"), Some("300"), Some("0")) == ExampleResize
  {
    ExampleWidth();
    ResizeFieldsComplete("cover", "300", "0");
  }

  /** A request for a format and a resize only renders as exactly those two members. */
  lemma RenderFormatAndResize(q: Requested, format: string)
    requires q.format == Some(format) && (q.fit.Some? || q.width.Some? || q.height.Some?)
    requires q.rotate.None? && q.flip.None? && q.flop.None? && q.greyscale.None?
    ensures Render(q) == Obj(map["toFormat" := Str(format), "resize" := Obj(ResizeFields(q.fit, q.width, q.height))])
  {
    var top := Render(q).fields;
    var top' := map["toFormat" := Str(format), "resize" := Obj(ResizeFields(q.fit, q.width, q.height))];
    assert top.Keys == top'.Keys;
  }

  lemma ExampleRender()
    ensures Render(Requested(Some("webp"), Some("cover"), Some("300"), Some("0"), None, None, None, None))
      == Obj(map["toFormat" := Str("webp"), "resize" := Obj(ExampleResize)])
  {
    ExampleResizeFields();
    RenderFormatAndResize(Requested(Some("webp"), Some("cover"), Some("300"), Some("0"), None, None, None, None), "webp");
  }

  /**
    The worked example: `format=webp&fit=cover&width=300&height=0` gives
    `{toFormat: "webp", resize: {fit: "cover", width: 300, height: null}}`.
   */
  lemma WorkedExample()
    ensures MapQueryParams(Table, ExampleQuery) ==
      Success(Obj(map["toFormat" := Str("webp"), "resize" := Obj(ExampleResize)]))
  {
    AccumulateMatchesReference(ExampleQuery);
    ExampleRequested();
    ExampleRender();
  }

  /**
    One recognised entry writes exactly one leaf: its value lands at the rule's
    destination, and every address neither on the way there nor below it keeps its
    value (an earlier `resize.fit` survives a later `resize.width`).
   */
  lemma StepWritesOneLeaf(table: map<string, Rule>, acc: Value, p: Param, b: seq<string>)
    requires p.value.Some? && p.name in table && Step(table, acc, p).Some?
    ensures Lookup(Step(table, acc, p).value, Destination(table[p.name])) ==
      Some(ApplyTransform(table[p.name].transform, p.value.value))
    ensures !(b <= Destination(table[p.name])) && !(Destination(table[p.name]) <= b) ==>
      Lookup(Step(table, acc, p).value, b) == Lookup(acc, b)
  {
    var rule := table[p.name];
    var x := ApplyTransform(rule.transform, p.value.value);
    SetPathWrites(acc, rule.path, rule.key, x);
    if !(b <= Destination(rule)) && !(Destination(rule) <= b) {
      SetPathFrame(acc, rule.path, rule.key, x, b);
    }
  }

  /** With the real table, a `width` entry keeps whatever `resize.fit` held before it. */
  lemma WidthKeepsFit(acc: Value, s: string)
    requires Step(Table, acc, Param("width", Some(s))).Some?
    ensures Lookup(Step(Table, acc, Param("width", Some(s))).value, ["resize", "fit"]) == Lookup(acc, ["resize", "fit"])
    ensures Lookup(Step(Table, acc, Param("width", Some(s))).value, ["resize", "width"])
      == Some(NumberOrNull(Transforms.ZeroStringToNullInt(s)))
  {
    assert Destination(Table["width"]) == ["resize", "width"];
    StepWritesOneLeaf(Table, acc, Param("width", Some(s)), ["resize", "fit"]);
  }

  /**
    Entries with an undefined value or an unknown name are ignored wherever they stand,
    for any table: dropping one leaves the result of the fold unchanged.
   */
  lemma {:induction false} AccumulateIgnoresSkipped(table: map<string, Rule>, a: seq<Param>, e: Param, b: seq<Param>)
    requires e.value.None? || e.name !in table
    ensures Accumulate(table, a + [e] + b) == Accumulate(table, a + b)
    decreases |b|
  {
    if |b| == 0 {
      assert a + [e] + b == a + [e] && (a + [e])[..|a|] == a;
      assert a + b == a;
    } else {
      var b' := b[..|b| - 1];
      var x := a + [e] + b;
      var y := a + b;
      assert x[..|x| - 1] == a + [e] + b' && x[|x| - 1] == b[|b| - 1];
      assert y[..|y| - 1] == a + b' && y[|y| - 1] == b[|b| - 1];
      AccumulateIgnoresSkipped(table, a, e, b');
    }
  }

  /** A name inherited from `Object.prototype` is not a rule of the table. */
  lemma InheritedNamesAreNotRules()
    ensures forall name :: name in ObjectPrototypeMembers ==> name !in Table
  {
  }

  /**
    As written, one defined entry with an inherited name, such as `constructor`, makes
    the whole mapping fail with the Bad-Request error.
   */
  lemma {:induction false} AsWrittenFailsOnInheritedName(table: map<string, Rule>, params: seq<Param>, i: int)
    requires 0 <= i < |params| && params[i].value.Some?
    requires params[i].name !in table && params[i].name in ObjectPrototypeMembers
    ensures MapQueryParamsAsWritten(table, params) == Failure(ParsingError)
    ensures AccumulateAsWritten(table, params) == None
    decreases |params|
  {
    if i < |params| - 1 {
      var init := params[..|params| - 1];
      assert init[i] == params[i];
      AsWrittenFailsOnInheritedName(table, init, i);
    }
  }

  /** Without inherited names among the defined entries, the code as written agrees with the model. */
  lemma {:induction false} AsWrittenAgreesWithoutInheritedNames(table: map<string, Rule>, params: seq<Param>)
    requires forall i :: 0 <= i < |params| ==>
      !(params[i].value.Some? && params[i].name !in table && params[i].name in ObjectPrototypeMembers)
    ensures MapQueryParamsAsWritten(table, params) == MapQueryParams(table, params)
    ensures AccumulateAsWritten(table, params) == Accumulate(table, params)
    decreases |params|
  {
    if |params| > 0 {
      var init := params[..|params| - 1];
      assert forall i :: 0 <= i < |init| ==> init[i] == params[i];
      AsWrittenAgreesWithoutInheritedNames(table, init);
    }
  }

  /**
    The discrepancy on one input: `?constructor=1` is rejected as written, while an
    unknown name should be ignored and give `{}`.
   */
  lemma ConstructorQueryRejectedAsWritten()
    ensures MapQueryParamsAsWritten(Table, [Param("constructor", Some("1"))]) == Failure(ParsingError)
    ensures MapQueryParams(Table, [Param("constructor", Some("1"))]) == Success(Obj(map[]))
  {
    InheritedNamesAreNotRules();
    AsWrittenFailsOnInheritedName(Table, [Param("constructor", Some("1"))], 0);
    NothingRecognisedGivesEmptyEdits([Param("constructor", Some("1"))]);
  }
}
