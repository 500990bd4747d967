/**
  Python's list and dict comprehensions over elements whose evaluation may raise:
  elements are evaluated left to right and the first one that raises ends the
  comprehension with its exception.
*/
module Comprehensions {
  import opened Wrappers

  /** `[e for e in ...]` where `rs` holds each element's outcome, in order. */
  function ListOf<T, E>(rs: seq<Result<T, E>>): Result<seq<T>, E> {
    if rs == [] then Ok([])
    else
      match rs[0]
      case Err(e) => Err(e)
      case Ok(x) =>
        match ListOf(rs[1..])
        case Err(e) => Err(e)
        case Ok(xs) => Ok([x] + xs)
  }

  /** All elements evaluated: the list holds each value in order; otherwise the first exception. */
  lemma {:induction false} ListOfSpec<T, E>(rs: seq<Result<T, E>>)
    ensures var r := ListOf(rs);
      && (r.Ok? <==> forall i :: 0 <= i < |rs| ==> rs[i].Ok?)
      && (r.Ok? ==> |r.value| == |rs| && forall i :: 0 <= i < |rs| ==> rs[i] == Ok(r.value[i]))
      && (r.Err? ==> exists i :: 0 <= i < |rs| && rs[i] == Err(r.error) && forall j :: 0 <= j < i ==> rs[j].Ok?)
  {
    if rs != [] {
      ListOfSpec(rs[1..]);
      var r := ListOf(rs);
      if r.Err? && rs[0].Ok? {
        var i :| 0 <= i < |rs[1..]| && rs[1..][i] == Err(r.error) && forall j :: 0 <= j < i ==> rs[1..][j].Ok?;
        assert rs[i + 1] == Err(r.error);
        assert forall j :: 0 < j <= i ==> rs[j] == rs[1..][j - 1];
      }
      if r.Ok? {
        assert forall i :: 0 < i < |rs| ==> rs[i] == rs[1..][i - 1];
      }
    }
  }

  /** Position `i` holds the last occurrence of its key: the one a dict keeps. */
  predicate LastOccurrence<K(==)>(keys: seq<K>, i: int) {
    0 <= i < |keys| && forall j :: i < j < |keys| ==> keys[j] != keys[i]
  }

  /** `{k: v for k, v in ...}` where `keys[i]` is paired with the outcome `vals[i]`. */
  function DictOf<K(==), V, E>(keys: seq<K>, vals: seq<Result<V, E>>): Result<map<K, V>, E>
    requires |keys| == |vals|
  {
    if keys == [] then Ok(map[])
    else
      var n := |keys| - 1;
      match DictOf(keys[..n], vals[..n])
      case Err(e) => Err(e)
      case Ok(m) =>
        match vals[n]
        case Err(e) => Err(e)
        case Ok(v) => Ok(m[keys[n] := v])
  }

  /** The dict is built exactly when every value is; otherwise the first exception is raised. */
  lemma {:induction false} DictOfOutcome<K, V, E>(keys: seq<K>, vals: seq<Result<V, E>>)
    requires |keys| == |vals|
    ensures var r := DictOf(keys, vals);
      && (r.Ok? <==> forall i :: 0 <= i < |vals| ==> vals[i].Ok?)
      && (r.Err? ==> exists i :: 0 <= i < |vals| && vals[i] == Err(r.error) && forall j :: 0 <= j < i ==> vals[j].Ok?)
  {
    if keys != [] {
      var n := |keys| - 1;
      DictOfOutcome(keys[..n], vals[..n]);
      assert forall i :: 0 <= i < n ==> vals[..n][i] == vals[i];
    }
  }

  /** A built dict has exactly the given keys. */
  lemma {:induction false} DictOfKeys<K, V, E>(keys: seq<K>, vals: seq<Result<V, E>>)
    requires |keys| == |vals|
    requires DictOf(keys, vals).Ok?
    ensures DictOf(keys, vals).value.Keys == set i | 0 <= i < |keys| :: keys[i]
  {
    if keys != [] {
      var n := |keys| - 1;
      var ks, vs := keys[..n], vals[..n];
      DictOfKeys(ks, vs);
      assert DictOf(keys, vals).value.Keys == DictOf(ks, vs).value.Keys + {keys[n]};
      assert forall i :: 0 <= i < n ==> ks[i] == keys[i];
      assert (set i | 0 <= i < |keys| :: keys[i]) == (set i | 0 <= i < n :: ks[i]) + {keys[n]};
    }
  }

  /** Each key of a built dict holds the value paired with its last occurrence. */
  lemma {:induction false} DictOfLast<K, V, E>(keys: seq<K>, vals: seq<Result<V, E>>, i: int)
    requires |keys| == |vals|
    requires DictOf(keys, vals).Ok?
    requires LastOccurrence(keys, i)
    ensures keys[i] in DictOf(keys, vals).value && vals[i] == Ok(DictOf(keys, vals).value[keys[i]])
  {
    var n := |keys| - 1;
    var ks, vs := keys[..n], vals[..n];
    if i < n {
      assert LastOccurrence(ks, i) by {
        assert forall j :: i < j < n ==> ks[j] == keys[j];
      }
      DictOfLast(ks, vs, i);
      assert ks[i] == keys[i] && vs[i] == vals[i];
    }
  }

  /** Every entry of a built dict comes from one of the pairs. */
  lemma {:induction false} DictOfSource<K, V, E>(keys: seq<K>, vals: seq<Result<V, E>>, k: K)
    requires |keys| == |vals|
    requires DictOf(keys, vals).Ok?
    requires k in DictOf(keys, vals).value
    ensures exists i :: 0 <= i < |keys| && keys[i] == k && vals[i] == Ok(DictOf(keys, vals).value[k])
  {
    var n := |keys| - 1;
    var ks, vs := keys[..n], vals[..n];
    var d := DictOf(keys, vals).value;
    if k == keys[n] {
      assert vals[n] == Ok(d[k]);
    } else {
      DictOfSource(ks, vs, k);
      var i :| 0 <= i < n && ks[i] == k && vs[i] == Ok(DictOf(ks, vs).value[k]);
      assert keys[i] == k && vals[i] == Ok(d[k]);
    }
  }
}
