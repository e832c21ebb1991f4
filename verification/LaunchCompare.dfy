/** The structural comparison of launch contracts, `compare` of tools/launch_contract.py. */
module LaunchCompare {
  import opened Json
  import opened Results
  import Ordering

  datatype PathStep = Key(key: string) | Index(index: nat)
  type Path = seq<PathStep>

  datatype Difference =
    | Unexpected(at: Path, found: Json)
    | Missing(where: Path, wanted: Json)
    | Unequal(path: Path, expected: Json, actual: Json)

  /** Python's `==` on the values `json.loads` returns. */
  ghost predicate Equal(a: Json, b: Json) {
    match (a, b)
    case (Null, Null) => true
    case (Str(s), Str(t)) => s == t
    case (Arr(xs), Arr(ys)) => |xs| == |ys| && forall i :: 0 <= i < |xs| ==> Equal(xs[i], ys[i])
    case (Obj(f), Obj(g)) => f.Keys == g.Keys && forall k :: k in f ==> Equal(f[k], g[k])
    case _ => Number(a).Some? && Number(a) == Number(b)
  }

  // ---- The keys of two objects, in order ----

  lemma {:induction false} LeastExists(keys: set<string>) returns (least: string)
    requires keys != {}
    ensures least in keys && forall k :: k in keys ==> Ordering.AtMost(least, k)
    decreases |keys|
  {
    var some :| some in keys;
    var others := keys - {some};
    Ordering.Total(some, some);
    if others == {} {
      forall k | k in keys ensures k == some {
        assert k != some ==> k in others;
      }
      return some;
    }
    var other := LeastExists(others);
    Ordering.Total(some, other);
    least := if Ordering.AtMost(some, other) then some else other;
    forall k | k in keys ensures Ordering.AtMost(least, k) {
      if k != some {
        assert k in others;
        if least == some {
          Ordering.Transitive(some, other, k);
        }
      }
    }
  }

  ghost predicate IsLeast(least: string, keys: set<string>) {
    least in keys && forall k :: k in keys ==> Ordering.AtMost(least, k)
  }

  /** `sorted` of a set of keys. */
  ghost function SortedKeys(keys: set<string>): (r: seq<string>)
    ensures forall k :: k in keys <==> k in r
    ensures forall i :: 0 < i < |r| ==> Ordering.AtMost(r[i - 1], r[i])
    decreases |keys|
  {
    if keys == {} then [] else
      assert exists least :: IsLeast(least, keys) by {
        var least := LeastExists(keys);
        assert IsLeast(least, keys);
      }
      var least :| IsLeast(least, keys);
      var rest := SortedKeys(keys - {least});
      assert forall k :: k in [least] + rest <==> k == least || k in rest;
      [least] + rest
  }

  // ---- The comparison ----

  ghost function Compare(e: Json, a: Json, path: Path): seq<Difference>
    decreases e, 1, 0
  {
    match (e, a)
    case (Obj(f), Obj(g)) => CompareFields(e, a, SortedKeys(f.Keys + g.Keys), path)
    case (Arr(xs), Arr(ys)) => CompareItems(e, a, 0, path)
    case _ => if Equal(e, a) then [] else [Unequal(path, e, a)]
  }

  ghost function CompareFields(e: Json, a: Json, keys: seq<string>, path: Path): seq<Difference>
    requires e.Obj? && a.Obj?
    decreases e, 0, |keys|
  {
    if keys == [] then [] else CompareField(e, a, keys[0], path) + CompareFields(e, a, keys[1..], path)
  }

  ghost function CompareField(e: Json, a: Json, key: string, path: Path): seq<Difference>
    requires e.Obj? && a.Obj?
    decreases e, 0, 0
  {
    var child := path + [Key(key)];
    if key !in e.fields then (if key in a.fields then [Unexpected(child, a.fields[key])] else [])
    else if key !in a.fields then [Missing(child, e.fields[key])]
    else Compare(e.fields[key], a.fields[key], child)
  }

  ghost function CompareItems(e: Json, a: Json, i: nat, path: Path): seq<Difference>
    requires e.Arr? && a.Arr?
    decreases e, 0, |e.items| + |a.items| - i
  {
    if i >= |e.items| && i >= |a.items| then []
    else CompareItem(e, a, i, path) + CompareItems(e, a, i + 1, path)
  }

  ghost function CompareItem(e: Json, a: Json, i: nat, path: Path): seq<Difference>
    requires e.Arr? && a.Arr? && (i < |e.items| || i < |a.items|)
    decreases e, 0, 0
  {
    var child := path + [Index(i)];
    if i >= |e.items| then [Unexpected(child, a.items[i])]
    else if i >= |a.items| then [Missing(child, e.items[i])]
    else Compare(e.items[i], a.items[i], child)
  }

  /** No difference is reported exactly when the documents are equal. */
  lemma {:induction false} CompareIffEqual(e: Json, a: Json, path: Path)
    ensures Compare(e, a, path) == [] <==> Equal(e, a)
    decreases e, 1, 0
  {
    hide CompareFields, CompareItems;
    match (e, a)
    case (Obj(f), Obj(g)) => FieldsIffEqual(e, a, SortedKeys(f.Keys + g.Keys), path);
    case (Arr(xs), Arr(ys)) => ItemsIffEqual(e, a, 0, path);
    case _ =>
  }

  lemma {:induction false} FieldsIffEqual(e: Json, a: Json, keys: seq<string>, path: Path)
    requires e.Obj? && a.Obj? && forall k :: k in keys ==> k in e.fields || k in a.fields
    ensures CompareFields(e, a, keys, path) == [] <==>
      forall k :: k in keys ==> k in e.fields && k in a.fields && Equal(e.fields[k], a.fields[k])
    decreases e, 0, |keys|
  {
    if keys != [] {
      var key := keys[0];
      FieldsIffEqual(e, a, keys[1..], path);
      if key in e.fields && key in a.fields {
        CompareIffEqual(e.fields[key], a.fields[key], path + [Key(key)]);
      }
      assert forall k :: k in keys <==> k == key || k in keys[1..];
    }
  }

  lemma {:induction false} ItemsIffEqual(e: Json, a: Json, i: nat, path: Path)
    requires e.Arr? && a.Arr?
    ensures CompareItems(e, a, i, path) == [] <==>
      (|e.items| == |a.items| || (|e.items| <= i && |a.items| <= i))
      && forall j :: i <= j < |e.items| && j < |a.items| ==> Equal(e.items[j], a.items[j])
    decreases e, 0, |e.items| + |a.items| - i
  {
    hide Compare, Equal, CompareItem;
    if i < |e.items| || i < |a.items| {
      ItemsIffEqual(e, a, i + 1, path);
      ItemIffEqual(e, a, i, path);
    }
  }

  lemma {:induction false} ItemIffEqual(e: Json, a: Json, i: nat, path: Path)
    requires e.Arr? && a.Arr? && (i < |e.items| || i < |a.items|)
    ensures CompareItem(e, a, i, path) == [] <==> i < |e.items| && i < |a.items| && Equal(e.items[i], a.items[i])
    decreases e, 0, 0
  {
    hide Compare, Equal;
    if i < |e.items| && i < |a.items| {
      CompareIffEqual(e.items[i], a.items[i], path + [Index(i)]);
    }
  }

  /** Swapping the documents reports as many differences. */
  lemma {:induction false} CompareSymmetric(e: Json, a: Json, path: Path)
    ensures |Compare(e, a, path)| == |Compare(a, e, path)|
    decreases e, 1, 0
  {
    match (e, a)
    case (Obj(f), Obj(g)) =>
      assert f.Keys + g.Keys == g.Keys + f.Keys;
      FieldsSymmetric(e, a, SortedKeys(f.Keys + g.Keys), path);
    case (Arr(xs), Arr(ys)) => ItemsSymmetric(e, a, 0, path);
    case _ => EqualSymmetric(e, a);
  }

  lemma {:induction false} EqualSymmetric(e: Json, a: Json)
    ensures Equal(e, a) == Equal(a, e)
    decreases e
  {
    match (e, a)
    case (Obj(f), Obj(g)) =>
      forall k | k in f && k in g ensures Equal(f[k], g[k]) == Equal(g[k], f[k]) {
        EqualSymmetric(f[k], g[k]);
      }
    case (Arr(xs), Arr(ys)) =>
      forall i | 0 <= i < |xs| && i < |ys| ensures Equal(xs[i], ys[i]) == Equal(ys[i], xs[i]) {
        EqualSymmetric(xs[i], ys[i]);
      }
    case _ =>
  }

  lemma {:induction false} FieldsSymmetric(e: Json, a: Json, keys: seq<string>, path: Path)
    requires e.Obj? && a.Obj?
    ensures |CompareFields(e, a, keys, path)| == |CompareFields(a, e, keys, path)|
    decreases e, 0, |keys|
  {
    if keys != [] {
      var key := keys[0];
      FieldsSymmetric(e, a, keys[1..], path);
      if key in e.fields && key in a.fields {
        CompareSymmetric(e.fields[key], a.fields[key], path + [Key(key)]);
      }
    }
  }

  lemma {:induction false} ItemsSymmetric(e: Json, a: Json, i: nat, path: Path)
    requires e.Arr? && a.Arr?
    ensures |CompareItems(e, a, i, path)| == |CompareItems(a, e, i, path)|
    decreases e, 0, |e.items| + |a.items| - i
  {
    if i < |e.items| || i < |a.items| {
      ItemsSymmetric(e, a, i + 1, path);
      if i < |e.items| && i < |a.items| {
        CompareSymmetric(e.items[i], a.items[i], path + [Index(i)]);
      }
    }
  }

  // ---- Every reported difference is real ----

  function Child(v: Json, step: PathStep): Option<Json> {
    match step
    case Key(k) => if v.Obj? && k in v.fields then Some(v.fields[k]) else None
    case Index(i) => if v.Arr? && i < |v.items| then Some(v.items[i]) else None
  }

  /** What a document holds at a path. */
  function At(v: Json, path: Path): Option<Json> {
    if path == [] then Some(v)
    else match Child(v, path[0])
      case None => None
      case Some(w) => At(w, path[1..])
  }

  lemma {:induction false} AtChild(v: Json, path: Path, step: PathStep)
    ensures At(v, path + [step]) == match At(v, path) case None => None case Some(w) => Child(w, step)
  {
    var longer := path + [step];
    if path == [] {
      assert longer[1..] == [];
    } else {
      assert longer[1..] == path[1..] + [step];
      if Child(v, path[0]).Some? {
        AtChild(Child(v, path[0]).value, path[1..], step);
      }
    }
  }

  ghost predicate Real(d: Difference, e: Json, a: Json) {
    match d
    case Unexpected(p, found) => At(e, p) == None && At(a, p) == Some(found)
    case Missing(p, wanted) => At(e, p) == Some(wanted) && At(a, p) == None
    case Unequal(p, x, y) => At(e, p) == Some(x) && At(a, p) == Some(y) && !Equal(x, y)
  }

  ghost predicate AllReal(ds: seq<Difference>, e: Json, a: Json) {
    forall d :: d in ds ==> Real(d, e, a)
  }

  /** Each difference names a path at which the two documents really differ that way. */
  lemma {:induction false} CompareReal(e: Json, a: Json, path: Path, x: Json, y: Json)
    requires At(e, path) == Some(x) && At(a, path) == Some(y)
    ensures AllReal(Compare(x, y, path), e, a)
    decreases x, 1, 0
  {
    hide Equal, At;
    match (x, y)
    case (Obj(f), Obj(g)) => FieldsReal(e, a, path, x, y, SortedKeys(f.Keys + g.Keys));
    case (Arr(xs), Arr(ys)) => ItemsReal(e, a, path, x, y, 0);
    case _ =>
  }

  lemma {:induction false} FieldsReal(e: Json, a: Json, path: Path, x: Json, y: Json, keys: seq<string>)
    requires At(e, path) == Some(x) && At(a, path) == Some(y) && x.Obj? && y.Obj?
    ensures AllReal(CompareFields(x, y, keys, path), e, a)
    decreases x, 0, |keys|
  {
    hide At, CompareField, Real;
    if keys != [] {
      FieldsReal(e, a, path, x, y, keys[1..]);
      FieldReal(e, a, path, x, y, keys[0]);
    }
  }

  lemma {:induction false} FieldReal(e: Json, a: Json, path: Path, x: Json, y: Json, key: string)
    requires At(e, path) == Some(x) && At(a, path) == Some(y) && x.Obj? && y.Obj?
    ensures AllReal(CompareField(x, y, key, path), e, a)
    decreases x, 0, 0
  {
    hide Equal, At, Compare;
    AtChild(e, path, Key(key));
    AtChild(a, path, Key(key));
    if key in x.fields && key in y.fields {
      CompareReal(e, a, path + [Key(key)], x.fields[key], y.fields[key]);
    }
  }

  lemma {:induction false} ItemsReal(e: Json, a: Json, path: Path, x: Json, y: Json, i: nat)
    requires At(e, path) == Some(x) && At(a, path) == Some(y) && x.Arr? && y.Arr?
    ensures AllReal(CompareItems(x, y, i, path), e, a)
    decreases x, 0, |x.items| + |y.items| - i
  {
    hide At, CompareItem, Real;
    if i < |x.items| || i < |y.items| {
      ItemsReal(e, a, path, x, y, i + 1);
      ItemReal(e, a, path, x, y, i);
    }
  }

  lemma {:induction false} ItemReal(e: Json, a: Json, path: Path, x: Json, y: Json, i: nat)
    requires At(e, path) == Some(x) && At(a, path) == Some(y) && x.Arr? && y.Arr? && (i < |x.items| || i < |y.items|)
    ensures AllReal(CompareItem(x, y, i, path), e, a)
    decreases x, 0, 0
  {
    hide Equal, At, Compare;
    AtChild(e, path, Index(i));
    AtChild(a, path, Index(i));
    if i < |x.items| && i < |y.items| {
      CompareReal(e, a, path + [Index(i)], x.items[i], y.items[i]);
    }
  }

  /** Comparing whole documents. */
  lemma CompareSound(e: Json, a: Json)
    ensures AllReal(Compare(e, a, []), e, a)
  {
    CompareReal(e, a, [], e, a);
  }
}
