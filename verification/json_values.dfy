/**
  The nested JavaScript object the mapper builds, and the one write it performs on it:
  walk a path of keys from the root, creating each missing object on the way, then
  assign a value under a final key.
 */
module JsonValues {
  import opened Outcomes
  import opened EcmaScript

  /**
    A JSON-like JavaScript value: the results of the transforms and the objects holding
    them. An object is its own members only; what it inherits from `Object.prototype`
    is not modelled.
   */
  datatype Value = Str(s: string) | Bool(b: bool) | Num(n: Number) | Null | Obj(fields: map<string, Value>)

  /** JavaScript truthiness: `""`, `false`, `0`, NaN and `null` are falsy; every object is truthy. */
  predicate Truthy(v: Value) {
    match v
    case Str(s) => s != ""
    case Bool(b) => b
    case Num(n) => n.Integer? && n.value != 0
    case Null => false
    case Obj(_) => true
  }

  /** The value reached from `v` by reading the keys of `address` in turn, if every key is there. */
  function Lookup(v: Value, address: seq<string>): Option<Value>
    decreases |address|
  {
    if |address| == 0 then Some(v)
    else if v.Obj? && address[0] in v.fields then Lookup(v.fields[address[0]], address[1..])
    else None
  }

  /** `current[segment] || {}`: an existing truthy member is reused, anything else becomes a new object. */
  function Descend(fields: map<string, Value>, segment: string): Value {
    if segment in fields && Truthy(fields[segment]) then fields[segment] else Obj(map[])
  }

  /**
    Walks `path` from `v`, replacing each missing or falsy member by a new object and
    reusing each truthy one, then assigns `x` under `key`. Assigning a property of a
    primitive throws a TypeError in strict-mode code; that is `None`.
   */
  function SetPath(v: Value, path: seq<string>, key: string, x: Value): (r: Option<Value>)
    ensures r.Some? ==> r.value.Obj?
    decreases |path|
  {
    if !v.Obj? then None
    else if |path| == 0 then Some(Obj(v.fields[key := x]))
    else
      match SetPath(Descend(v.fields, path[0]), path[1..], key, x)
      case None => None
      case Some(c) => Some(Obj(v.fields[path[0] := c]))
  }

  /** A truthy value that is not an object sits at `address`: walking through it throws. */
  predicate TruthyPrimitiveAt(v: Value, address: seq<string>) {
    var o := Lookup(v, address);
    o.Some? && Truthy(o.value) && !o.value.Obj?
  }

  /** Some non-empty prefix of `path` leads to a truthy primitive. */
  predicate Blocked(v: Value, path: seq<string>) {
    exists i :: 1 <= i <= |path| && TruthyPrimitiveAt(v, path[..i])
  }

  lemma LookupThroughHead(v: Value, path: seq<string>, i: int)
    requires 1 <= i <= |path|
    ensures Lookup(v, path[..i]) ==
      if v.Obj? && path[0] in v.fields then Lookup(v.fields[path[0]], path[1..][..i - 1]) else None
  {
    assert path[..i][0] == path[0];
    assert path[..i][1..] == path[1..][..i - 1];
  }

  /** Nothing below the top level of an empty object exists. */
  lemma EmptyObjectNotBlocked(path: seq<string>)
    ensures !Blocked(Obj(map[]), path)
  {
    forall i | 1 <= i <= |path|
      ensures !TruthyPrimitiveAt(Obj(map[]), path[..i])
    {
      LookupThroughHead(Obj(map[]), path, i);
    }
  }

  /**
    The walk over `path` followed by the final assignment throws exactly when the
    root is not an object or some node on the path is a truthy primitive.
   */
  lemma {:induction false} SetPathSucceedsExactly(v: Value, path: seq<string>, key: string, x: Value)
    ensures SetPath(v, path, key, x).Some? <==> v.Obj? && !Blocked(v, path)
    decreases |path|
  {
    if v.Obj? && |path| > 0 {
      var f := v.fields;
      var seg := path[0];
      var child := Descend(f, seg);
      SetPathSucceedsExactly(child, path[1..], key, x);
      if seg in f && Truthy(f[seg]) {
        LookupThroughHead(v, path, 1);
        if child.Obj? {
          assert !TruthyPrimitiveAt(v, path[..1]);
          assert Blocked(v, path) <==> Blocked(child, path[1..]) by {
            if Blocked(v, path) {
              var i :| 1 <= i <= |path| && TruthyPrimitiveAt(v, path[..i]);
              LookupThroughHead(v, path, i);
              assert 1 <= i - 1 <= |path[1..]| && TruthyPrimitiveAt(child, path[1..][..i - 1]);
            }
            if Blocked(child, path[1..]) {
              var j :| 1 <= j <= |path[1..]| && TruthyPrimitiveAt(child, path[1..][..j]);
              LookupThroughHead(v, path, j + 1);
              assert TruthyPrimitiveAt(v, path[..j + 1]);
            }
          }
        } else {
          assert TruthyPrimitiveAt(v, path[..1]);
        }
      } else {
        EmptyObjectNotBlocked(path[1..]);
        forall i | 1 <= i <= |path|
          ensures !TruthyPrimitiveAt(v, path[..i])
        {
          LookupThroughHead(v, path, i);
          if i > 1 && seg in f {
            assert !f[seg].Obj?;
            LookupThroughHead(f[seg], path[1..], i - 1);
          }
        }
      }
    }
  }

  /** A successful write leaves `x` at the address `path + [key]`. */
  lemma {:induction false} SetPathWrites(v: Value, path: seq<string>, key: string, x: Value)
    requires SetPath(v, path, key, x).Some?
    ensures Lookup(SetPath(v, path, key, x).value, path + [key]) == Some(x)
    decreases |path|
  {
    var a := path + [key];
    if |path| == 0 {
      assert a[1..] == [];
    } else {
      assert a[0] == path[0] && a[1..] == path[1..] + [key];
      SetPathWrites(Descend(v.fields, path[0]), path[1..], key, x);
    }
  }

  /**
    A successful write changes nothing at an address that is neither on the way to
    `path + [key]` nor below it: sibling members, such as an earlier `resize.fit` next
    to a new `resize.width`, are kept.
   */
  lemma {:induction false} SetPathFrame(v: Value, path: seq<string>, key: string, x: Value, b: seq<string>)
    requires SetPath(v, path, key, x).Some?
    requires !(b <= path + [key]) && !(path + [key] <= b)
    ensures Lookup(SetPath(v, path, key, x).value, b) == Lookup(v, b)
    decreases |path|
  {
    var a := path + [key];
    var w := SetPath(v, path, key, x).value;
    var f := v.fields;
    assert |b| > 0;
    if |path| == 0 {
      assert b[0] != key;
    } else if b[0] == path[0] {
      var seg := path[0];
      var child := Descend(f, seg);
      var c := SetPath(child, path[1..], key, x).value;
      assert w.fields[seg] == c;
      assert a[1..] == path[1..] + [key];
      assert b == [seg] + b[1..] && a == [seg] + a[1..];
      assert !(b[1..] <= path[1..] + [key]);
      assert !(path[1..] + [key] <= b[1..]);
      SetPathFrame(child, path[1..], key, x, b[1..]);
      if !(seg in f && Truthy(f[seg])) {
        assert |b[1..]| > 0;
        assert Lookup(child, b[1..]) == None;
        assert seg in f ==> !f[seg].Obj?;
      }
    }
  }
}
