/**
 * `merge` of the image_ascii_art crate: folds `(name, value)` pairs
 * into a map, where a dotted name `root.child` files the value under
 * `child` in a nested map kept at `root`.
 */
module Merge {
  import opened Wrappers

  /** `MyValue`: a plain value, or a nested map for dotted labels. */
  datatype MyValue<T> = Compound(children: map<string, T>) | Value(value: T)

  datatype MergeError = TypeCollision | KeyCollision

  /** The index of the first '.' in `s`. */
  function FirstDot(s: string): (r: Option<nat>)
    ensures r.None? <==> '.' !in s
    ensures r.Some? ==> r.value < |s| && s[r.value] == '.' && '.' !in s[..r.value]
    decreases |s|
  {
    if s == [] then None
    else if s[0] == '.' then Some(0)
    else match FirstDot(s[1..])
      case None => None
      case Some(i) =>
        assert s[..i + 1] == [s[0]] + s[1..][..i];
        Some(i + 1)
  }

  /** `split_once(".")`: the text before the first dot and everything after it. */
  function SplitOnce(name: string): (r: Option<(string, string)>)
    ensures r.None? <==> '.' !in name
    ensures r.Some? ==> name == r.value.0 + "." + r.value.1 && '.' !in r.value.0
  {
    match FirstDot(name)
    case None => None
    case Some(i) =>
      assert name == name[..i] + "." + name[i + 1..];
      Some((name[..i], name[i + 1..]))
  }

  /** The top-level key a name is filed under. */
  function Key(name: string): string {
    match SplitOnce(name)
    case None => name
    case Some((root, _)) => root
  }

  /**
   * `name` can be filed in `m`: its key is new, or it is dotted, its root
   * holds a nested map and that map has no entry for its child yet.
   */
  predicate CanFile<T>(m: map<string, MyValue<T>>, name: string) {
    !(&& Key(name) in m
      && match SplitOnce(name)
         case None => true
         case Some((root, child)) => m[root].Value? || child in m[root].children)
  }

  /**
   * One turn of the fold, as the closure passed to `try_fold` computes it.
   * A collision is a `TypeCollision` when a plain name meets a nested map
   * or a dotted name meets a plain value, and a `KeyCollision` otherwise.
   */
  function Step<T>(m: map<string, MyValue<T>>, name: string, value: T): (r: Result<map<string, MyValue<T>>, MergeError>)
    ensures r.Ok? <==> CanFile(m, name)
    ensures r == Err(TypeCollision) <==> Key(name) in m && (SplitOnce(name).None? <==> m[Key(name)].Compound?)
    ensures r.Ok? ==> r.value.Keys == m.Keys + {Key(name)}
    ensures r.Ok? ==> forall k :: k in m && k != Key(name) ==> r.value[k] == m[k]
    ensures r.Ok? && SplitOnce(name).None? ==> r.value[name] == Value(value)
    ensures r.Ok? && SplitOnce(name).Some? ==>
              var (root, child) := SplitOnce(name).value;
              r.value[root] == Compound((if root in m then m[root].children else map[])[child := value])
  {
    match SplitOnce(name)
    case Some((root, child)) =>
      if root in m then
        match m[root]
        case Compound(cm) => if child in cm then Err(KeyCollision) else Ok(m[root := Compound(cm[child := value])])
        case Value(_) => Err(TypeCollision)
      else Ok(m[root := Compound(map[child := value])])
    case None =>
      if name in m then
        match m[name]
        case Compound(_) => Err(TypeCollision)
        case Value(_) => Err(KeyCollision)
      else Ok(m[name := Value(value)])
  }

  /** `try_fold` from the accumulator `m`: the pairs in order, stopping at the first error. */
  function MergeFrom<T>(m: map<string, MyValue<T>>, pairs: seq<(string, T)>): Result<map<string, MyValue<T>>, MergeError>
    decreases |pairs|
  {
    if pairs == [] then Ok(m)
    else
      match Step(m, pairs[0].0, pairs[0].1)
      case Err(e) => Err(e)
      case Ok(m') => MergeFrom(m', pairs[1..])
  }

  function MergeSpec<T>(pairs: seq<(string, T)>): Result<map<string, MyValue<T>>, MergeError> {
    MergeFrom(map[], pairs)
  }

  /** `merge`: the fold, with the accumulator map changed in place by `get_mut` and `insert`. */
  method Merge<T>(pairs: seq<(string, T)>) returns (r: Result<map<string, MyValue<T>>, MergeError>)
    ensures r == MergeSpec(pairs)
  {
    var m: map<string, MyValue<T>> := map[];
    var i := 0;
    while i < |pairs|
      invariant 0 <= i <= |pairs|
      invariant MergeSpec(pairs) == MergeFrom(m, pairs[i..])
    {
      assert pairs[i..][0] == pairs[i] && pairs[i..][1..] == pairs[i + 1..];
      var (name, value) := pairs[i];
      var split := SplitOnce(name);
      if split.Some? {
        var (root, child) := split.value;
        if root in m {
          match m[root] {
            case Compound(cm) =>
              var collided := child in cm;
              m := m[root := Compound(cm[child := value])];
              if collided {
                return Err(KeyCollision);
              }
            case Value(_) =>
              return Err(TypeCollision);
          }
        } else {
          m := m[root := Compound(map[child := value])];
        }
      } else {
        var previous := if name in m then Some(m[name]) else None;
        m := m[name := Value(value)];
        if previous.Some? {
          return Err(if previous.value.Compound? then TypeCollision else KeyCollision);
        }
      }
      i := i + 1;
    }
    assert pairs[i..] == [];
    r := Ok(m);
  }

  /** The pair `(name, value)` can be read back from `m`. */
  ghost predicate Holds<T>(m: map<string, MyValue<T>>, name: string, value: T) {
    match SplitOnce(name)
    case None => name in m && m[name] == Value(value)
    case Some((root, child)) =>
      && root in m && m[root].Compound?
      && child in m[root].children && m[root].children[child] == value
  }

  /** A successful step files its own pair and keeps every pair filed before. */
  lemma StepKeeps<T>(m: map<string, MyValue<T>>, name: string, value: T, l: string, v: T)
    requires Step(m, name, value).Ok?
    ensures Holds(Step(m, name, value).value, name, value)
    ensures Holds(m, l, v) ==> Holds(Step(m, name, value).value, l, v)
  {
  }

  /** On success, every pair can be read back from the result, and so can every pair filed in the starting map. */
  lemma {:induction false} MergeFromSound<T>(m: map<string, MyValue<T>>, pairs: seq<(string, T)>)
    requires MergeFrom(m, pairs).Ok?
    ensures forall i :: 0 <= i < |pairs| ==> Holds(MergeFrom(m, pairs).value, pairs[i].0, pairs[i].1)
    ensures forall l, v :: Holds(m, l, v) ==> Holds(MergeFrom(m, pairs).value, l, v)
    decreases |pairs|
  {
    if pairs != [] {
      var m' := Step(m, pairs[0].0, pairs[0].1).value;
      var result := MergeFrom(m, pairs).value;
      MergeFromSound(m', pairs[1..]);
      forall l, v | Holds(m, l, v) ensures Holds(result, l, v) {
        StepKeeps(m, pairs[0].0, pairs[0].1, l, v);
      }
      forall i | 0 <= i < |pairs| ensures Holds(result, pairs[i].0, pairs[i].1) {
        if i == 0 {
          StepKeeps(m, pairs[0].0, pairs[0].1, pairs[0].0, pairs[0].1);
        } else {
          assert pairs[i] == pairs[1..][i - 1];
        }
      }
    }
  }

  /** The top-level keys of the pairs in `pairs`. */
  ghost function KeysOf<T>(pairs: seq<(string, T)>): set<string> {
    set i | 0 <= i < |pairs| :: Key(pairs[i].0)
  }

  lemma KeysOfCons<T>(pairs: seq<(string, T)>)
    requires pairs != []
    ensures KeysOf(pairs) == {Key(pairs[0].0)} + KeysOf(pairs[1..])
  {
    var keys, tailKeys := KeysOf(pairs), KeysOf(pairs[1..]);
    forall k | k in keys ensures k in {Key(pairs[0].0)} + tailKeys {
      var i :| 0 <= i < |pairs| && k == Key(pairs[i].0);
      if i > 0 { assert pairs[i] == pairs[1..][i - 1]; }
    }
    forall k | k in tailKeys ensures k in keys {
      var i :| 0 <= i < |pairs[1..]| && k == Key(pairs[1..][i].0);
      assert pairs[1..][i] == pairs[i + 1];
    }
  }

  /** On success, the result has the starting keys and the pairs' top-level keys, and no other. */
  lemma {:induction false} MergeFromKeys<T>(m: map<string, MyValue<T>>, pairs: seq<(string, T)>)
    requires MergeFrom(m, pairs).Ok?
    ensures MergeFrom(m, pairs).value.Keys == m.Keys + KeysOf(pairs)
    decreases |pairs|
  {
    if pairs != [] {
      MergeFromKeys(Step(m, pairs[0].0, pairs[0].1).value, pairs[1..]);
      KeysOfCons(pairs);
    }
  }

  /** Every entry of `m` was filed by one of `pairs`: a plain value by its own name, a child by `root.child`. */
  ghost predicate FiledBy<T>(m: map<string, MyValue<T>>, pairs: seq<(string, T)>) {
    && (forall k :: k in m && m[k].Value? ==> exists i :: 0 <= i < |pairs| && pairs[i] == (k, m[k].value))
    && (forall k, c :: k in m && m[k].Compound? && c in m[k].children ==>
          exists i :: 0 <= i < |pairs| && SplitOnce(pairs[i].0) == Some((k, c)) && pairs[i].1 == m[k].children[c])
  }

  /** Pairs filed before stay accounted for when more pairs follow. */
  lemma FiledByMore<T>(m: map<string, MyValue<T>>, done: seq<(string, T)>, more: seq<(string, T)>)
    requires FiledBy(m, done)
    ensures FiledBy(m, done + more)
  {
    forall k | k in m && m[k].Value?
      ensures exists i :: 0 <= i < |done + more| && (done + more)[i] == (k, m[k].value)
    {
      var i :| 0 <= i < |done| && done[i] == (k, m[k].value);
      assert (done + more)[i] == done[i];
    }
    forall k, c | k in m && m[k].Compound? && c in m[k].children
      ensures exists i :: 0 <= i < |done + more| && SplitOnce((done + more)[i].0) == Some((k, c)) && (done + more)[i].1 == m[k].children[c]
    {
      var i :| 0 <= i < |done| && SplitOnce(done[i].0) == Some((k, c)) && done[i].1 == m[k].children[c];
      assert (done + more)[i] == done[i];
    }
  }

  /** A successful step accounts for its new entry with its own pair. */
  lemma StepFiledBy<T>(m: map<string, MyValue<T>>, done: seq<(string, T)>, name: string, value: T)
    requires FiledBy(m, done) && Step(m, name, value).Ok?
    ensures FiledBy(Step(m, name, value).value, done + [(name, value)])
  {
    var m', all := Step(m, name, value).value, done + [(name, value)];
    FiledByMore(m, done, [(name, value)]);
    assert all[|done|] == (name, value);
    forall k | k in m' && m'[k].Value? ensures exists i :: 0 <= i < |all| && all[i] == (k, m'[k].value) {
      if k != Key(name) {
        assert m'[k] == m[k];
      } else {
        assert SplitOnce(name).None?;
      }
    }
    forall k, c | k in m' && m'[k].Compound? && c in m'[k].children
      ensures exists i :: 0 <= i < |all| && SplitOnce(all[i].0) == Some((k, c)) && all[i].1 == m'[k].children[c]
    {
      if k != Key(name) {
        assert m'[k] == m[k];
      } else if SplitOnce(name) == Some((k, c)) {
        assert m'[k].children[c] == value;
      } else {
        assert k in m && m'[k].children[c] == m[k].children[c];
      }
    }
  }

  /** On success, every entry of the result was filed by the earlier pairs or by `pairs`. */
  lemma {:induction false} MergeFromFiledBy<T>(m: map<string, MyValue<T>>, done: seq<(string, T)>, pairs: seq<(string, T)>)
    requires FiledBy(m, done) && MergeFrom(m, pairs).Ok?
    ensures FiledBy(MergeFrom(m, pairs).value, done + pairs)
    decreases |pairs|
  {
    if pairs == [] {
      assert done + pairs == done;
    } else {
      StepFiledBy(m, done, pairs[0].0, pairs[0].1);
      MergeFromFiledBy(Step(m, pairs[0].0, pairs[0].1).value, done + [pairs[0]], pairs[1..]);
      assert done + [pairs[0]] + pairs[1..] == done + pairs;
    }
  }

  /**
   * On success from the empty map: every pair can be read back, the keys
   * are exactly the pairs' keys, and every entry was filed by some pair.
   */
  lemma MergeSound<T>(pairs: seq<(string, T)>)
    requires MergeSpec(pairs).Ok?
    ensures forall i :: 0 <= i < |pairs| ==> Holds(MergeSpec(pairs).value, pairs[i].0, pairs[i].1)
    ensures MergeSpec(pairs).value.Keys == KeysOf(pairs)
    ensures FiledBy(MergeSpec(pairs).value, pairs)
  {
    MergeFromSound(map[], pairs);
    MergeFromKeys(map[], pairs);
    MergeFromFiledBy(map[], [], pairs);
    assert [] + pairs == pairs;
  }

  /** The first error ends the fold: no later pair can undo it. */
  lemma {:induction false} MergeErrorPersists<T>(m: map<string, MyValue<T>>, pairs: seq<(string, T)>, more: seq<(string, T)>)
    requires MergeFrom(m, pairs).Err?
    ensures MergeFrom(m, pairs + more) == MergeFrom(m, pairs)
    decreases |pairs|
  {
    assert pairs != [];
    assert (pairs + more)[0] == pairs[0] && (pairs + more)[1..] == pairs[1..] + more;
    match Step(m, pairs[0].0, pairs[0].1)
    case Err(_) =>
    case Ok(m') => MergeErrorPersists(m', pairs[1..], more);
  }

  /**
   * Two names clash when one cannot be filed after the other: they share
   * their key and are not two different children of the same root.
   */
  predicate Clash(a: string, b: string) {
    Key(a) == Key(b) && (SplitOnce(a).None? || SplitOnce(b).None? || a == b)
  }

  /** A name that could be filed before a step can still be filed after it, unless it clashes with the step's name. */
  lemma StepKeepsRoom<T>(m: map<string, MyValue<T>>, name: string, value: T, other: string)
    requires Step(m, name, value).Ok? && CanFile(m, other) && !Clash(name, other)
    ensures CanFile(Step(m, name, value).value, other)
  {
    if Key(other) == Key(name) {
      var (root, child) := SplitOnce(name).value;
      var (_, otherChild) := SplitOnce(other).value;
      assert child != otherChild;
    }
  }

  /** A name that clashes with a filed one cannot be filed. */
  lemma ClashBlocks<T>(m: map<string, MyValue<T>>, name: string, value: T, other: string)
    requires Holds(m, name, value) && Clash(name, other)
    ensures !CanFile(m, other)
  {
  }

  /** With no clashes among the pairs and room for each of them, the fold succeeds. */
  lemma {:induction false} NoClashSucceeds<T>(m: map<string, MyValue<T>>, pairs: seq<(string, T)>)
    requires forall j :: 0 <= j < |pairs| ==> CanFile(m, pairs[j].0)
    requires forall i, j :: 0 <= i < j < |pairs| ==> !Clash(pairs[i].0, pairs[j].0)
    ensures MergeFrom(m, pairs).Ok?
    decreases |pairs|
  {
    if pairs != [] {
      var m' := Step(m, pairs[0].0, pairs[0].1).value;
      var tail := pairs[1..];
      forall j | 0 <= j < |tail| ensures CanFile(m', tail[j].0) {
        assert tail[j] == pairs[j + 1];
        StepKeepsRoom(m, pairs[0].0, pairs[0].1, pairs[j + 1].0);
      }
      forall i, j | 0 <= i < j < |tail| ensures !Clash(tail[i].0, tail[j].0) {
        assert tail[i] == pairs[i + 1] && tail[j] == pairs[j + 1];
      }
      NoClashSucceeds(m', tail);
    }
  }

  /** Two clashing names anywhere in the pairs make the merge fail. */
  lemma ClashFails<T>(pairs: seq<(string, T)>, i: nat, j: nat)
    requires i < j < |pairs| && Clash(pairs[i].0, pairs[j].0)
    ensures MergeSpec(pairs).Err?
  {
    var prefix, suffix := pairs[..j], pairs[j..];
    assert pairs == prefix + suffix;
    if MergeSpec(prefix).Err? {
      MergeErrorPersists(map[], prefix, suffix);
    } else {
      var mid := MergeSpec(prefix).value;
      MergeFromSound(map[], prefix);
      assert Holds(mid, prefix[i].0, prefix[i].1);
      assert suffix[0] == pairs[j];
      ClashBlocks(mid, prefix[i].0, prefix[i].1, pairs[j].0);
      assert Step(mid, suffix[0].0, suffix[0].1).Err?;
      MergeFromAppend(map[], prefix, suffix);
    }
  }

  /** `merge` succeeds exactly when no two of its names clash. */
  lemma MergeSucceedsIff<T>(pairs: seq<(string, T)>)
    ensures MergeSpec(pairs).Ok? <==> forall i, j :: 0 <= i < j < |pairs| ==> !Clash(pairs[i].0, pairs[j].0)
  {
    if forall i, j :: 0 <= i < j < |pairs| ==> !Clash(pairs[i].0, pairs[j].0) {
      NoClashSucceeds(map[], pairs);
    } else {
      var i, j :| 0 <= i < j < |pairs| && Clash(pairs[i].0, pairs[j].0);
      ClashFails(pairs, i, j);
    }
  }

  /** Two pairs with the same name cannot both be filed: merging them fails. */
  lemma RepeatedLabelFails<T>(pairs: seq<(string, T)>, i: nat, j: nat)
    requires i < j < |pairs| && pairs[i].0 == pairs[j].0
    ensures MergeSpec(pairs).Err?
  {
    ClashFails(pairs, i, j);
  }

  /** A plain name and then a dotted name under it: the root already holds a plain value. */
  lemma PlainThenDottedCollides<T>(v: T, w: T)
    ensures MergeSpec([("a", v), ("a.b", w)]) == Err(TypeCollision)
  {
    assert SplitOnce("a") == None;
    assert FirstDot("a.b") == Some(1);
    assert "a.b"[..1] == "a" && "a.b"[2..] == "b";
    assert SplitOnce("a.b") == Some(("a", "b"));
    var pairs := [("a", v), ("a.b", w)];
    assert pairs[1..] == [("a.b", w)] && pairs[1..][1..] == [];
    assert Step(map[], "a", v) == Ok(map["a" := Value(v)]);
    assert Step(map["a" := Value(v)], "a.b", w) == Err(TypeCollision);
    assert MergeFrom(map[], pairs) == MergeFrom(map["a" := Value(v)], pairs[1..]);
  }

  /** A dotted name and then its root as a plain name: the root already holds a nested map. */
  lemma DottedThenPlainCollides<T>(v: T, w: T)
    ensures MergeSpec([("a.b", v), ("a", w)]) == Err(TypeCollision)
  {
    assert SplitOnce("a") == None;
    assert FirstDot("a.b") == Some(1);
    assert "a.b"[..1] == "a" && "a.b"[2..] == "b";
    assert SplitOnce("a.b") == Some(("a", "b"));
    var pairs := [("a.b", v), ("a", w)];
    assert pairs[1..] == [("a", w)] && pairs[1..][1..] == [];
    assert Step(map[], "a.b", v) == Ok(map["a" := Compound(map["b" := v])]);
    assert Step(map["a" := Compound(map["b" := v])], "a", w) == Err(TypeCollision);
    assert MergeFrom(map[], pairs) == MergeFrom(map["a" := Compound(map["b" := v])], pairs[1..]);
  }

  /** Two children of one root share its nested map. */
  lemma SiblingsShareRoot<T>(v: T, w: T)
    ensures MergeSpec([("a.b", v), ("a.c", w)]) == Ok(map["a" := Compound(map["b" := v, "c" := w])])
  {
    assert FirstDot("a.b") == Some(1);
    assert "a.b"[..1] == "a" && "a.b"[2..] == "b";
    assert FirstDot("a.c") == Some(1);
    assert "a.c"[..1] == "a" && "a.c"[2..] == "c";
    assert SplitOnce("a.b") == Some(("a", "b"));
    assert SplitOnce("a.c") == Some(("a", "c"));
    var pairs := [("a.b", v), ("a.c", w)];
    assert pairs[1..] == [("a.c", w)] && pairs[1..][1..] == [];
    var m1, m2 := map["a" := Compound(map["b" := v])], map["a" := Compound(map["b" := v, "c" := w])];
    assert Step(map[], "a.b", v) == Ok(m1);
    assert "c" !in m1["a"].children by { assert "c"[0] != "b"[0]; }
    assert Step(m1, "a.c", w).value == m1["a" := Compound(map["b" := v]["c" := w])] == m2;
    assert MergeFrom(map[], pairs) == MergeFrom(m1, pairs[1..]) == MergeFrom(m2, []);
  }

  /** Folding a concatenation is folding its parts in turn. */
  lemma {:induction false} MergeFromAppend<T>(m: map<string, MyValue<T>>, a: seq<(string, T)>, b: seq<(string, T)>)
    requires MergeFrom(m, a).Ok?
    ensures MergeFrom(m, a + b) == MergeFrom(MergeFrom(m, a).value, b)
    decreases |a|
  {
    if a == [] {
      assert a + b == b;
    } else {
      assert (a + b)[0] == a[0] && (a + b)[1..] == a[1..] + b;
      MergeFromAppend(Step(m, a[0].0, a[0].1).value, a[1..], b);
    }
  }
}
