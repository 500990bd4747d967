/**
  The ranking side of device_lib.py's GPU manager: the sort keys (free memory,
  free memory rate, power ratio, a named field or a caller's function), Python's
  stable `sorted` over the query records, and the choice `auto_choice` makes.
*/
module GpuSelection {
  import opened Wrappers
  import opened Strings
  import opened Comprehensions
  import opened Ranking
  import opened GpuQuery

  predicate AllWellFormed(rs: seq<Record>) {
    forall i :: 0 <= i < |rs| ==> WellFormed(rs[i])
  }

  predicate AllDevices(rs: seq<Record>) {
    forall i :: 0 <= i < |rs| ==> IsDevice(rs[i])
  }

  /** Rearranging well-formed records keeps them well formed. */
  lemma RearrangedWellFormed(xs: seq<Record>, rs: seq<Record>)
    requires AllWellFormed(rs) && multiset(xs) == multiset(rs)
    ensures AllWellFormed(xs)
  {
    forall i | 0 <= i < |xs|
      ensures WellFormed(xs[i])
    {
      assert xs[i] in multiset(rs);
    }
  }

  /** A reading of 1 is the sentinel for a board without power management. */
  predicate PowerUnmanaged(d: Record)
    requires WellFormed(d) && PowerDraw in d && PowerLimit in d
  {
    d[PowerDraw].n == Sentinel || d[PowerLimit].n == Sentinel
  }

  /**
    `power(d)`: 1 for a board without power management (the diagnostic it prints
    reads the index), otherwise the draw as a fraction of the limit.
  */
  function Power(d: Record): (r: Outcome<Rank>)
    requires WellFormed(d)
    ensures r.Ok? ==> r.value.RNum?
  {
    if PowerDraw !in d then Err(KeyMissing(PowerDraw))
    else if PowerLimit !in d then Err(KeyMissing(PowerLimit))
    else if PowerUnmanaged(d) then
      if IndexField in d then Ok(RNum(1.0)) else Err(KeyMissing(IndexField))
    else if d[PowerLimit].n == 0 then Err(ZeroDivision)
    else Ok(RNum(d[PowerDraw].n as real / d[PowerLimit].n as real))
  }

  /** `d['memory.free']`, the key of `sort_by_memory(by_size=True)`. */
  function FreeMemory(d: Record): (r: Outcome<Rank>)
    requires WellFormed(d)
    ensures r.Ok? <==> MemoryFree in d
    ensures r.Err? ==> r.error == KeyMissing(MemoryFree)
    ensures r.Ok? ==> r.value.RNum? && r.value.x == d[MemoryFree].n as real
  {
    if MemoryFree !in d then Err(KeyMissing(MemoryFree)) else Ok(RNum(d[MemoryFree].n as real))
  }

  /** `float(d['memory.free']) / d['memory.total']`, the key of `sort_by_memory(by_size=False)`. */
  function FreeMemoryRate(d: Record): (r: Outcome<Rank>)
    requires WellFormed(d)
    ensures r.Ok? <==> MemoryFree in d && MemoryTotal in d && d[MemoryTotal].n != 0
    ensures MemoryFree in d && MemoryTotal in d && d[MemoryTotal].n == 0 ==> r == Err(ZeroDivision)
    ensures r.Ok? ==> r.value.RNum? && r.value.x * d[MemoryTotal].n as real == d[MemoryFree].n as real
  {
    if MemoryFree !in d then Err(KeyMissing(MemoryFree))
    else if MemoryTotal !in d then Err(KeyMissing(MemoryTotal))
    else if d[MemoryTotal].n == 0 then Err(ZeroDivision)
    else Ok(RNum(d[MemoryFree].n as real / d[MemoryTotal].n as real))
  }

  /** How a stored value compares as a sort key. */
  function ValueRank(v: Value): Rank {
    match v
    case Num(n) => RNum(n as real)
    case Text(s) => RText(s)
  }

  /** `d[key]`, the key of `sort_by_cust` with a field name. */
  function FieldValue(name: string, d: Record): Outcome<Rank> {
    if name !in d then Err(KeyMissing(name)) else Ok(ValueRank(d[name]))
  }

  /** The key a sort orders the records by. */
  datatype Ranker =
    | BySize                                  // free memory
    | ByRate                                  // free memory over total memory
    | ByPower                                 // `power`
    | ByField(name: string)                   // a field the query asked for
    | ByFunction(f: Record -> Outcome<Rank>)  // a caller's key function

  function KeyOf(rk: Ranker, d: Record): Outcome<Rank>
    requires WellFormed(d)
  {
    match rk
    case BySize => FreeMemory(d)
    case ByRate => FreeMemoryRate(d)
    case ByPower => Power(d)
    case ByField(name) => FieldValue(name, d)
    case ByFunction(f) => f(d)
  }

  /** The key of each record, in order. */
  function KeysOf(rs: seq<Record>, rk: Ranker): (r: seq<Outcome<Rank>>)
    requires AllWellFormed(rs)
    ensures |r| == |rs| && forall i :: 0 <= i < |rs| ==> r[i] == KeyOf(rk, rs[i])
  {
    seq(|rs|, i requires 0 <= i < |rs| => KeyOf(rk, rs[i]))
  }

  predicate KeysOk(rs: seq<Record>, rk: Ranker)
    requires AllWellFormed(rs)
  {
    forall i :: 0 <= i < |rs| ==> KeyOf(rk, rs[i]).Ok?
  }

  /** The keys, when every one of them could be computed. */
  function RankList(rs: seq<Record>, rk: Ranker): (ks: seq<Rank>)
    requires AllWellFormed(rs) && KeysOk(rs, rk)
    ensures |ks| == |rs| && forall i :: 0 <= i < |rs| ==> KeyOf(rk, rs[i]) == Ok(ks[i])
  {
    seq(|rs|, i requires 0 <= i < |rs| => KeyOf(rk, rs[i]).value)
  }

  /**
    `sorted(rs, key=..., reverse=desc)`: every key is computed first, in order, and
    the first one that raises is raised; a mix of numbers and strings raises
    TypeError; otherwise the records come out in stable key order.
  */
  function Sorted(rs: seq<Record>, rk: Ranker, desc: bool): (r: Outcome<seq<Record>>)
    requires AllWellFormed(rs)
    ensures r.Ok? ==> |r.value| == |rs| && multiset(r.value) == multiset(rs)
  {
    var kr := ListOf(KeysOf(rs, rk));
    if kr.Err? then Err(kr.error)
    else
      ListOfSpec(KeysOf(rs, rk));
      var ks := kr.value;
      if SameKind(ks) then
        var p := StableOrder(ks, desc);
        PermutationKeepsElements(rs, p);
        Ok(Permute(rs, p))
      else
        Err(TypeMismatch)
  }

  /** The positions of `rs` in the order `sorted` lists them. */
  function SortOrder(rs: seq<Record>, rk: Ranker, desc: bool): seq<nat>
    requires AllWellFormed(rs) && KeysOk(rs, rk)
  {
    StableOrder(RankList(rs, rk), desc)
  }

  lemma KeysListed(rs: seq<Record>, rk: Ranker)
    requires AllWellFormed(rs) && KeysOk(rs, rk)
    ensures ListOf(KeysOf(rs, rk)) == Ok(RankList(rs, rk))
  {
    var rs' := KeysOf(rs, rk);
    ListOfSpec(rs');
    assert forall i :: 0 <= i < |rs'| ==> rs'[i].Ok?;
    var ks := ListOf(rs').value;
    assert |ks| == |RankList(rs, rk)|;
    forall i | 0 <= i < |rs|
      ensures ks[i] == RankList(rs, rk)[i]
    {
      assert rs'[i] == Ok(ks[i]);
    }
    assert ks == RankList(rs, rk);
  }

  /** When a key raises, `sorted` raises the first such exception. */
  lemma SortedKeyError(rs: seq<Record>, rk: Ranker, desc: bool)
    requires AllWellFormed(rs) && !KeysOk(rs, rk)
    ensures var r := Sorted(rs, rk, desc);
      r.Err? && exists i :: 0 <= i < |rs| && KeyOf(rk, rs[i]) == Err(r.error) &&
                            forall j :: 0 <= j < i ==> KeyOf(rk, rs[j]).Ok?
  {
    ListOfSpec(KeysOf(rs, rk));
  }

  /** Keys that mix numbers and strings cannot be compared: TypeError. */
  lemma SortedMixedKeys(rs: seq<Record>, rk: Ranker, desc: bool)
    requires AllWellFormed(rs) && KeysOk(rs, rk) && !SameKind(RankList(rs, rk))
    ensures Sorted(rs, rk, desc) == Err(TypeMismatch)
  {
    KeysListed(rs, rk);
  }

  /**
    With comparable keys, `sorted` returns the records listed by a rearrangement
    of their positions in which each position precedes the next: by key
    (descending when `desc`) and, among equal keys, in the original order.
    No other rearrangement has that property.
  */
  lemma SortedStable(rs: seq<Record>, rk: Ranker, desc: bool)
    requires AllWellFormed(rs) && KeysOk(rs, rk) && SameKind(RankList(rs, rk))
    ensures var p, ks := SortOrder(rs, rk, desc), RankList(rs, rk);
      && Sorted(rs, rk, desc) == Ok(Permute(rs, p))
      && IsPermutation(p, |rs|) && InRange(ks, p)
      && (forall i, j :: 0 <= i < j < |p| ==> Precedes(ks, desc, p[i], p[j]))
      && (forall q :: InRange(ks, q) && IsPermutation(q, |rs|) && OrderedBy(ks, desc, q) ==> q == p)
  {
    KeysListed(rs, rk);
    var ks := RankList(rs, rk);
    forall q | InRange(ks, q) && IsPermutation(q, |rs|) && OrderedBy(ks, desc, q)
      ensures q == SortOrder(rs, rk, desc)
    {
      StableOrderUnique(ks, desc, q);
    }
  }

  /** No record of the result has a key that should come before that of an earlier record. */
  predicate KeyOrdered(xs: seq<Record>, rk: Ranker, desc: bool)
    requires AllWellFormed(xs) && KeysOk(xs, rk)
  {
    forall i, j :: 0 <= i < j < |xs| ==> !KeyBefore(RankList(xs, rk), desc, j, i)
  }

  /** A successful sort's records are well formed, their keys computable and in key order. */
  lemma SortedOrdered(rs: seq<Record>, rk: Ranker, desc: bool)
    requires AllWellFormed(rs) && Sorted(rs, rk, desc).Ok?
    ensures var xs := Sorted(rs, rk, desc).value;
      AllWellFormed(xs) && KeysOk(xs, rk) && KeyOrdered(xs, rk, desc)
  {
    if !KeysOk(rs, rk) {
      SortedKeyError(rs, rk, desc);
    } else if !SameKind(RankList(rs, rk)) {
      SortedMixedKeys(rs, rk, desc);
    } else {
      SortedStable(rs, rk, desc);
      PermutedKeys(rs, rk, SortOrder(rs, rk, desc));
      PermutedOrdered(rs, rk, desc, SortOrder(rs, rk, desc));
    }
  }

  /** Records listed by positions keep their keys: the key of the i-th is that of position `p[i]`. */
  lemma PermutedKeys(rs: seq<Record>, rk: Ranker, p: seq<nat>)
    requires AllWellFormed(rs) && KeysOk(rs, rk)
    requires forall i :: 0 <= i < |p| ==> p[i] < |rs|
    ensures AllWellFormed(Permute(rs, p)) && KeysOk(Permute(rs, p), rk)
    ensures forall i :: 0 <= i < |p| ==> RankList(Permute(rs, p), rk)[i] == RankList(rs, rk)[p[i]]
  {
    var xs := Permute(rs, p);
    assert AllWellFormed(xs);
    assert KeysOk(xs, rk);
  }

  /** Records listed by positions in stable order have their keys in order. */
  lemma PermutedOrdered(rs: seq<Record>, rk: Ranker, desc: bool, p: seq<nat>)
    requires AllWellFormed(rs) && KeysOk(rs, rk)
    requires InRange(RankList(rs, rk), p)
    requires AllWellFormed(Permute(rs, p)) && KeysOk(Permute(rs, p), rk)
    requires forall i :: 0 <= i < |p| ==> RankList(Permute(rs, p), rk)[i] == RankList(rs, rk)[p[i]]
    requires forall i, j :: 0 <= i < j < |p| ==> Precedes(RankList(rs, rk), desc, p[i], p[j])
    ensures KeyOrdered(Permute(rs, p), rk, desc)
  {
    var ks := RankList(rs, rk);
    var ys := RankList(Permute(rs, p), rk);
    forall i, j | 0 <= i < j < |p|
      ensures !KeyBefore(ys, desc, j, i)
    {
      PrecedesAsymmetric(ks, desc, p[i], p[j]);
    }
  }

  /**
    The first record of a successful non-empty sort is the one whose position
    precedes every other: the best key, and the earliest record among those
    sharing it.
  */
  lemma SortedFirst(rs: seq<Record>, rk: Ranker, desc: bool)
    requires AllWellFormed(rs) && Sorted(rs, rk, desc).Ok? && rs != []
    ensures KeysOk(rs, rk) && SameKind(RankList(rs, rk))
    ensures var xs := Sorted(rs, rk, desc).value;
      xs != [] &&
      exists i :: 0 <= i < |rs| && xs[0] == rs[i] &&
                  forall j :: 0 <= j < |rs| && j != i ==> Precedes(RankList(rs, rk), desc, i, j)
  {
    if !KeysOk(rs, rk) {
      SortedKeyError(rs, rk, desc);
    } else if !SameKind(RankList(rs, rk)) {
      SortedMixedKeys(rs, rk, desc);
    } else {
      SortedStable(rs, rk, desc);
      var ks := RankList(rs, rk);
      var p := SortOrder(rs, rk, desc);
      assert |p| == |multiset(p)| == |multiset(Range(|rs|))| == |rs|;
      forall j | 0 <= j < |rs| && j != p[0]
        ensures Precedes(ks, desc, p[0], j)
      {
        PermutationCovers(p, |rs|, j);
        var k :| 0 <= k < |p| && p[k] == j;
      }
    }
  }

  /** Precedence between numeric keys, as comparisons of the numbers. */
  lemma PrecedesNumbers(ks: seq<Rank>, desc: bool, i: nat, j: nat)
    requires i < |ks| && j < |ks| && ks[i].RNum? && ks[j].RNum?
    requires Precedes(ks, desc, i, j)
    ensures desc ==> ks[j].x <= ks[i].x && (j < i ==> ks[j].x < ks[i].x)
    ensures !desc ==> ks[i].x <= ks[j].x && (j < i ==> ks[i].x < ks[j].x)
  {
  }

  /** Later records never have a larger (or, with `desc`, smaller) numeric key. */
  lemma OrderedNumbers(xs: seq<Record>, rk: Ranker, desc: bool, i: nat, j: nat)
    requires AllWellFormed(xs) && KeysOk(xs, rk) && KeyOrdered(xs, rk, desc)
    requires i < j < |xs| && KeyOf(rk, xs[i]).value.RNum? && KeyOf(rk, xs[j]).value.RNum?
    ensures desc ==> KeyOf(rk, xs[j]).value.x <= KeyOf(rk, xs[i]).value.x
    ensures !desc ==> KeyOf(rk, xs[i]).value.x <= KeyOf(rk, xs[j]).value.x
  {
    var ys := RankList(xs, rk);
    assert !KeyBefore(ys, desc, j, i);
    assert KeyOf(rk, xs[i]) == Ok(ys[i]) && KeyOf(rk, xs[j]) == Ok(ys[j]);
  }

  /** `sort_by_memory(by_size)` on the fresh query result: largest key first. */
  function MemoryOrder(gpus: seq<Record>, bySize: bool): (r: Outcome<seq<Record>>)
    requires AllWellFormed(gpus)
    ensures r.Ok? ==> multiset(r.value) == multiset(gpus) && AllWellFormed(r.value)
  {
    var r := Sorted(gpus, if bySize then BySize else ByRate, true);
    if r.Ok? then RearrangedWellFormed(r.value, gpus); r else r
  }

  /** `sort_by_power()` on the fresh query result: smallest power ratio first. */
  function PowerOrder(gpus: seq<Record>): (r: Outcome<seq<Record>>)
    requires AllWellFormed(gpus)
    ensures r.Ok? ==> multiset(r.value) == multiset(gpus) && AllWellFormed(r.value)
  {
    var r := Sorted(gpus, ByPower, false);
    if r.Ok? then RearrangedWellFormed(r.value, gpus); r else r
  }

  /** The free memory of a record holding it. */
  function FreeOf(d: Record): int
    requires WellFormed(d) && MemoryFree in d
  {
    d[MemoryFree].n
  }

  /** The free memory rate of a record holding both memory readings, with a non-zero total. */
  function RateOf(d: Record): real
    requires WellFormed(d) && MemoryFree in d && MemoryTotal in d && d[MemoryTotal].n != 0
  {
    d[MemoryFree].n as real / d[MemoryTotal].n as real
  }

  /**
    By size, the sort fails exactly when some record has no free-memory reading;
    otherwise it is a permutation of the records in non-increasing free memory.
  */
  lemma MemorySizeOrder(gpus: seq<Record>)
    requires AllWellFormed(gpus)
    ensures var r := MemoryOrder(gpus, true);
      && (r.Ok? <==> forall i :: 0 <= i < |gpus| ==> MemoryFree in gpus[i])
      && (r.Ok? ==> multiset(r.value) == multiset(gpus) && AllWellFormed(r.value))
      && (r.Ok? ==> forall i, j :: 0 <= i < j < |r.value| ==>
                      MemoryFree in r.value[i] && MemoryFree in r.value[j] && FreeOf(r.value[j]) <= FreeOf(r.value[i]))
  {
    var r := MemoryOrder(gpus, true);
    if forall i :: 0 <= i < |gpus| ==> MemoryFree in gpus[i] {
      assert KeysOk(gpus, BySize);
      assert SameKind(RankList(gpus, BySize));
      SortedStable(gpus, BySize, true);
    } else {
      SortedKeyError(gpus, BySize, true);
    }
    if r.Ok? {
      SortedOrdered(gpus, BySize, true);
      forall i, j | 0 <= i < j < |r.value|
        ensures MemoryFree in r.value[i] && MemoryFree in r.value[j] && FreeOf(r.value[j]) <= FreeOf(r.value[i])
      {
        OrderedNumbers(r.value, BySize, true, i, j);
      }
    }
  }

  /**
    By rate, the sort fails exactly when some record lacks a memory reading or
    has a total of 0; otherwise it is a permutation of the records in
    non-increasing free/total rate.
  */
  lemma MemoryRateOrder(gpus: seq<Record>)
    requires AllWellFormed(gpus)
    ensures var r := MemoryOrder(gpus, false);
      && (r.Ok? <==> forall i :: 0 <= i < |gpus| ==>
                       MemoryFree in gpus[i] && MemoryTotal in gpus[i] && gpus[i][MemoryTotal].n != 0)
      && (r.Ok? ==> multiset(r.value) == multiset(gpus) && AllWellFormed(r.value))
      && (r.Ok? ==> forall i, j :: 0 <= i < j < |r.value| ==>
                      FreeMemoryRate(r.value[i]).Ok? && FreeMemoryRate(r.value[j]).Ok? &&
                      RateOf(r.value[j]) <= RateOf(r.value[i]))
  {
    var r := MemoryOrder(gpus, false);
    if KeysOk(gpus, ByRate) {
      assert SameKind(RankList(gpus, ByRate));
      SortedStable(gpus, ByRate, true);
    } else {
      SortedKeyError(gpus, ByRate, true);
    }
    if r.Ok? {
      SortedOrdered(gpus, ByRate, true);
      forall i, j | 0 <= i < j < |r.value|
        ensures FreeMemoryRate(r.value[i]).Ok? && FreeMemoryRate(r.value[j]).Ok? &&
                RateOf(r.value[j]) <= RateOf(r.value[i])
      {
        OrderedNumbers(r.value, ByRate, true, i, j);
      }
    }
  }

  /**
    By power, the sort fails exactly when some record's power key raises;
    otherwise it is a permutation of the records in non-decreasing power ratio.
  */
  lemma PowerRatioOrder(gpus: seq<Record>)
    requires AllWellFormed(gpus)
    ensures var r := PowerOrder(gpus);
      && (r.Ok? <==> forall i :: 0 <= i < |gpus| ==> Power(gpus[i]).Ok?)
      && (r.Ok? ==> multiset(r.value) == multiset(gpus) && AllWellFormed(r.value))
      && (r.Ok? ==> forall i, j :: 0 <= i < j < |r.value| ==>
                      Power(r.value[i]).Ok? && Power(r.value[j]).Ok? &&
                      Power(r.value[i]).value.x <= Power(r.value[j]).value.x)
  {
    var r := PowerOrder(gpus);
    if KeysOk(gpus, ByPower) {
      assert SameKind(RankList(gpus, ByPower));
      SortedStable(gpus, ByPower, false);
    } else {
      SortedKeyError(gpus, ByPower, false);
    }
    if r.Ok? {
      SortedOrdered(gpus, ByPower, false);
      forall i, j | 0 <= i < j < |r.value|
        ensures Power(r.value[i]).Ok? && Power(r.value[j]).Ok? &&
                Power(r.value[i]).value.x <= Power(r.value[j]).value.x
      {
        OrderedNumbers(r.value, ByPower, false, i, j);
      }
    }
  }

  /** The `key` argument of `sort_by_cust`. */
  datatype CustomKey =
    | KeyName(name: string)                     // a string
    | KeyFunction(f: Record -> Outcome<Rank>)   // a function
    | KeyOther                                  // anything else

  /**
    `sort_by_cust(key, qargs, reverse)` on the fresh query result, where `asked`
    is `self.qargs + qargs`: a name must be one of those, a function is used as
    the key, and anything else is refused before any record is looked at. The
    base fields are never in `self.qargs + qargs` unless the caller repeats them,
    so `memory.free` alone is refused.
  */
  function CustomOrder(gpus: seq<Record>, key: CustomKey, asked: seq<string>, reverse: bool): (r: Outcome<seq<Record>>)
    requires AllWellFormed(gpus)
    ensures key.KeyOther? ==> r == Err(InvalidKey)
    ensures key.KeyName? && key.name !in asked ==> r == Err(InvalidKey)
    ensures r.Ok? ==> |r.value| == |gpus| && multiset(r.value) == multiset(gpus)
  {
    match key
    case KeyName(name) => if name in asked then Sorted(gpus, ByField(name), reverse) else Err(InvalidKey)
    case KeyFunction(f) => Sorted(gpus, ByFunction(f), reverse)
    case KeyOther => Err(InvalidKey)
  }

  /**
    Sorting by an asked-for field succeeds exactly when every record holds the
    field (its values are then all numbers or all text, so they compare), and
    returns a permutation of the records in which no record's field value should
    come before an earlier one's: ascending, or descending when `reverse`. When a
    record lacks the field it raises KeyError.
  */
  lemma CustomFieldOrder(gpus: seq<Record>, name: string, asked: seq<string>, reverse: bool)
    requires AllWellFormed(gpus) && name in asked
    ensures var r := CustomOrder(gpus, KeyName(name), asked, reverse);
      && (r.Ok? <==> forall i :: 0 <= i < |gpus| ==> name in gpus[i])
      && (r.Err? ==> r.error == KeyMissing(name))
      && (r.Ok? ==> multiset(r.value) == multiset(gpus) && AllWellFormed(r.value))
      && (r.Ok? ==> forall i, j :: 0 <= i < j < |r.value| ==>
                      name in r.value[i] && name in r.value[j] &&
                      !(if reverse then RankLt(ValueRank(r.value[i][name]), ValueRank(r.value[j][name]))
                        else RankLt(ValueRank(r.value[j][name]), ValueRank(r.value[i][name]))))
  {
    var r := CustomOrder(gpus, KeyName(name), asked, reverse);
    if !KeysOk(gpus, ByField(name)) {
      SortedKeyError(gpus, ByField(name), reverse);
    } else {
      var ks := RankList(gpus, ByField(name));
      forall i | 0 <= i < |ks|
        ensures ks[i].RNum? == ks[0].RNum?
      {
        assert FieldValue(name, gpus[i]) == Ok(ks[i]) && FieldValue(name, gpus[0]) == Ok(ks[0]);
        assert ks[i].RNum? <==> name in NumericFields;
      }
      SortedStable(gpus, ByField(name), reverse);
    }
    if r.Ok? {
      SortedOrdered(gpus, ByField(name), reverse);
      var xs := r.value;
      var ys := RankList(xs, ByField(name));
      forall i, j | 0 <= i < j < |xs|
        ensures name in xs[i] && name in xs[j] &&
                !(if reverse then RankLt(ValueRank(xs[i][name]), ValueRank(xs[j][name]))
                  else RankLt(ValueRank(xs[j][name]), ValueRank(xs[i][name])))
      {
        assert !KeyBefore(ys, reverse, j, i);
        assert FieldValue(name, xs[i]) == Ok(ys[i]) && FieldValue(name, xs[j]) == Ok(ys[j]);
      }
    }
  }

  /**
    Sorting by a function key is `sorted` with that key. It succeeds exactly when
    the key can be computed for every record and the keys are all numbers or all
    strings, and then gives a permutation in key order. Otherwise it raises the
    first record's key exception, or TypeError for mixed keys.
  */
  lemma CustomFunctionOrder(gpus: seq<Record>, f: Record -> Outcome<Rank>, asked: seq<string>, reverse: bool)
    requires AllWellFormed(gpus)
    ensures var r := CustomOrder(gpus, KeyFunction(f), asked, reverse);
      && (r.Ok? <==> KeysOk(gpus, ByFunction(f)) && SameKind(RankList(gpus, ByFunction(f))))
      && (KeysOk(gpus, ByFunction(f)) && !SameKind(RankList(gpus, ByFunction(f))) ==> r == Err(TypeMismatch))
      && (!KeysOk(gpus, ByFunction(f)) ==>
            r.Err? && exists i :: 0 <= i < |gpus| && f(gpus[i]) == Err(r.error) &&
                                  forall j :: 0 <= j < i ==> f(gpus[j]).Ok?)
      && (r.Ok? ==> multiset(r.value) == multiset(gpus))
      && (r.Ok? ==> forall i, j :: 0 <= i < j < |r.value| ==>
                      f(r.value[i]).Ok? && f(r.value[j]).Ok? &&
                      !(if reverse then RankLt(f(r.value[i]).value, f(r.value[j]).value)
                        else RankLt(f(r.value[j]).value, f(r.value[i]).value)))
  {
    var r := CustomOrder(gpus, KeyFunction(f), asked, reverse);
    if !KeysOk(gpus, ByFunction(f)) {
      SortedKeyError(gpus, ByFunction(f), reverse);
    } else if SameKind(RankList(gpus, ByFunction(f))) {
      SortedStable(gpus, ByFunction(f), reverse);
    } else {
      SortedMixedKeys(gpus, ByFunction(f), reverse);
    }
    if r.Ok? {
      SortedOrdered(gpus, ByFunction(f), reverse);
      var xs := r.value;
      var ys := RankList(xs, ByFunction(f));
      forall i, j | 0 <= i < j < |xs|
        ensures f(xs[i]).Ok? && f(xs[j]).Ok? &&
                !(if reverse then RankLt(f(xs[i]).value, f(xs[j]).value)
                  else RankLt(f(xs[j]).value, f(xs[i]).value))
      {
        assert !KeyBefore(ys, reverse, j, i);
        assert f(xs[i]) == Ok(ys[i]) && f(xs[j]) == Ok(ys[j]);
      }
    }
  }

  /** On well-formed records, the field key `memory.free` is the free-memory key of `sort_by_memory`. */
  lemma FieldKeysAreSizeKeys(gpus: seq<Record>)
    requires AllWellFormed(gpus)
    ensures KeysOf(gpus, ByField(MemoryFree)) == KeysOf(gpus, BySize)
  {
    forall i | 0 <= i < |gpus|
      ensures FieldValue(MemoryFree, gpus[i]) == FreeMemory(gpus[i])
    {
      if MemoryFree in gpus[i] {
        assert gpus[i][MemoryFree].Num?;
      }
    }
  }

  /**
    `sort_by_cust('memory.free', reverse=True)`, when the caller asked for that
    field, gives the same result as `sort_by_memory(by_size=True)` on the same
    records: the same list, or the same exception.
  */
  lemma CustomFreeMemoryIsBySize(gpus: seq<Record>, asked: seq<string>)
    requires AllWellFormed(gpus) && MemoryFree in asked
    ensures CustomOrder(gpus, KeyName(MemoryFree), asked, true) == MemoryOrder(gpus, true)
  {
    FieldKeysAreSizeKeys(gpus);
    if KeysOk(gpus, BySize) {
      assert RankList(gpus, ByField(MemoryFree)) == RankList(gpus, BySize);
    }
  }

  /**
    `power(d)` on a device record with both power readings: 1 when either reads
    as the sentinel; otherwise the ratio r with r * limit == draw, which needs a
    non-zero limit (a zero limit raises ZeroDivisionError).
  */
  lemma PowerRule(d: Record)
    requires IsDevice(d) && PowerDraw in d && PowerLimit in d
    ensures PowerUnmanaged(d) ==> Power(d) == Ok(RNum(1.0))
    ensures !PowerUnmanaged(d) && d[PowerLimit].n == 0 ==> Power(d) == Err(ZeroDivision)
    ensures !PowerUnmanaged(d) && d[PowerLimit].n != 0 ==>
              Power(d).Ok? && Power(d).value.x * d[PowerLimit].n as real == d[PowerDraw].n as real
  {
    if !PowerUnmanaged(d) && d[PowerLimit].n != 0 {
      var draw, limit := d[PowerDraw].n as real, d[PowerLimit].n as real;
      assert (draw / limit) * limit == draw;
    }
  }

  /**
    A board whose power draw nvidia-smi reports as not supported ranks 1 by power,
    whatever its limit reads.
  */
  lemma UnsupportedPowerRanksOne(line: string, fields: seq<string>, i: nat)
    requires Parse(line, fields).Ok?
    requires LastOccurrence(fields[..Min(|fields|, |Pieces(line)|)], i)
    requires fields[i] == PowerDraw && Contains(Pieces(line)[i], NotSupported)
    requires PowerLimit in Parse(line, fields).value && IndexField in Parse(line, fields).value
    ensures WellFormed(Parse(line, fields).value)
    ensures Power(Parse(line, fields).value) == Ok(RNum(1.0))
  {
    ParseWellFormed(line, fields);
    ParseFieldValue(line, fields, i);
  }

  /** The GPU list `auto_choice(mode)` takes element 0 of. */
  function AutoOrder(gpus: seq<Record>, mode: int): Outcome<seq<Record>>
    requires AllWellFormed(gpus)
  {
    if mode == 0 then MemoryOrder(gpus, true)
    else if mode == 1 || mode == 2 then PowerOrder(gpus)
    else MemoryOrder(gpus, false)
  }

  /** `'/gpu:{}'.format(d['index'])`: the device string of a record. */
  function DeviceName(d: Record): (r: string)
    requires IsDevice(d)
    ensures |r| == 5 + |d[IndexField].s| && r[..5] == "/gpu:" && r[5..] == d[IndexField].s
  {
    "/gpu:" + d[IndexField].s
  }

  /** `auto_choice(mode)`: the device string of element 0 of the chosen sort; IndexError on no GPU. */
  function AutoChoice(gpus: seq<Record>, mode: int): (r: Outcome<string>)
    requires AllDevices(gpus)
    ensures r.Ok? ==> exists i :: 0 <= i < |gpus| && r.value == DeviceName(gpus[i])
  {
    assert AllWellFormed(gpus);
    match AutoOrder(gpus, mode)
    case Err(e) => Err(e)
    case Ok(xs) =>
      if xs == [] then Err(NoDevice)
      else
        assert xs[0] in multiset(gpus);
        Ok(DeviceName(xs[0]))
  }

  /** With no GPU there is nothing to choose: element 0 of an empty list raises IndexError. */
  lemma AutoChoiceEmpty(mode: int)
    ensures AutoChoice([], mode) == Err(NoDevice)
  {
    var none: seq<Record> := [];
    assert Permute(none, []) == [];
  }

  /** `auto_choice` names element 0 of the list its mode sorts. */
  lemma AutoChoiceFirst(gpus: seq<Record>, mode: int)
    requires AllDevices(gpus) && AutoChoice(gpus, mode).Ok?
    ensures AllWellFormed(gpus) && gpus != []
    ensures AutoOrder(gpus, mode).Ok? && AutoOrder(gpus, mode).value != []
    ensures IsDevice(AutoOrder(gpus, mode).value[0])
    ensures AutoChoice(gpus, mode).value == DeviceName(AutoOrder(gpus, mode).value[0])
  {
    assert AllWellFormed(gpus);
    assert AutoOrder(gpus, mode).value[0] in multiset(gpus);
  }

  /**
    The first record of a successful sort by numeric keys has the best key (the
    largest with `desc`, else the smallest), and every earlier record a strictly
    worse one.
  */
  lemma FirstByNumbers(gpus: seq<Record>, rk: Ranker, desc: bool)
    requires AllWellFormed(gpus) && Sorted(gpus, rk, desc).Ok? && gpus != []
    requires forall j :: 0 <= j < |gpus| ==> KeyOf(rk, gpus[j]).Ok? ==> KeyOf(rk, gpus[j]).value.RNum?
    ensures KeysOk(gpus, rk)
    ensures exists i :: (0 <= i < |gpus| && Sorted(gpus, rk, desc).value[0] == gpus[i] &&
                         forall j :: 0 <= j < |gpus| ==>
                           (desc ==> KeyOf(rk, gpus[j]).value.x <= KeyOf(rk, gpus[i]).value.x &&
                                     (j < i ==> KeyOf(rk, gpus[j]).value.x < KeyOf(rk, gpus[i]).value.x)) &&
                           (!desc ==> KeyOf(rk, gpus[i]).value.x <= KeyOf(rk, gpus[j]).value.x &&
                                      (j < i ==> KeyOf(rk, gpus[i]).value.x < KeyOf(rk, gpus[j]).value.x)))
  {
    SortedFirst(gpus, rk, desc);
    var ks := RankList(gpus, rk);
    var i :| 0 <= i < |gpus| && Sorted(gpus, rk, desc).value[0] == gpus[i] &&
             forall j :: 0 <= j < |gpus| && j != i ==> Precedes(ks, desc, i, j);
    forall j | 0 <= j < |gpus|
      ensures (desc ==> ks[j].x <= ks[i].x && (j < i ==> ks[j].x < ks[i].x)) &&
              (!desc ==> ks[i].x <= ks[j].x && (j < i ==> ks[i].x < ks[j].x))
    {
      assert KeyOf(rk, gpus[j]) == Ok(ks[j]);
      if j != i {
        PrecedesNumbers(ks, desc, i, j);
      }
    }
    assert KeyOf(rk, gpus[i]) == Ok(ks[i]);
  }

  /**
    Mode 0 chooses the GPU with the most free memory, the first one in query order
    among those sharing it.
  */
  lemma ChoiceMostFreeMemory(gpus: seq<Record>)
    requires AllDevices(gpus) && AutoChoice(gpus, 0).Ok?
    ensures exists i :: (0 <= i < |gpus| && AutoChoice(gpus, 0).value == DeviceName(gpus[i]) &&
                         (forall j :: 0 <= j < |gpus| ==> MemoryFree in gpus[j]) &&
                         (forall j :: 0 <= j < |gpus| ==> FreeOf(gpus[j]) <= FreeOf(gpus[i])) &&
                         (forall j :: 0 <= j < i ==> FreeOf(gpus[j]) < FreeOf(gpus[i])))
  {
    AutoChoiceFirst(gpus, 0);
    FirstByNumbers(gpus, BySize, true);
  }

  /**
    Modes 1 and 2 both choose the GPU with the smallest power ratio, the first one
    in query order among those sharing it.
  */
  lemma ChoiceLeastPower(gpus: seq<Record>, mode: int)
    requires mode == 1 || mode == 2
    requires AllDevices(gpus) && AutoChoice(gpus, mode).Ok?
    ensures exists i :: (0 <= i < |gpus| && AutoChoice(gpus, mode).value == DeviceName(gpus[i]) &&
                         (forall j :: 0 <= j < |gpus| ==> Power(gpus[j]).Ok?) &&
                         (forall j :: 0 <= j < |gpus| ==> Power(gpus[i]).value.x <= Power(gpus[j]).value.x) &&
                         (forall j :: 0 <= j < i ==> Power(gpus[i]).value.x < Power(gpus[j]).value.x))
  {
    AutoChoiceFirst(gpus, mode);
    FirstByNumbers(gpus, ByPower, false);
  }

  /**
    Any other mode chooses the GPU with the highest free memory rate, the first one
    in query order among those sharing it.
  */
  lemma ChoiceBestMemoryRate(gpus: seq<Record>, mode: int)
    requires mode != 0 && mode != 1 && mode != 2
    requires AllDevices(gpus) && AutoChoice(gpus, mode).Ok?
    ensures exists i :: (0 <= i < |gpus| && AutoChoice(gpus, mode).value == DeviceName(gpus[i]) &&
                         (forall j :: 0 <= j < |gpus| ==> FreeMemoryRate(gpus[j]).Ok?) &&
                         (forall j :: 0 <= j < |gpus| ==> RateOf(gpus[j]) <= RateOf(gpus[i])) &&
                         (forall j :: 0 <= j < i ==> RateOf(gpus[j]) < RateOf(gpus[i])))
  {
    AutoChoiceFirst(gpus, mode);
    FirstByNumbers(gpus, ByRate, true);
  }

  /** A device record with the given index and memory readings. */
  function MemoryDevice(index: string, free: int, total: int): (d: Record)
    ensures IsDevice(d) && d[IndexField] == Text(index)
    ensures MemoryFree in d && MemoryTotal in d && d[MemoryFree] == Num(free) && d[MemoryTotal] == Num(total)
  {
    map[IndexField := Text(index), MemoryFree := Num(free), MemoryTotal := Num(total)]
  }

  /** With computable keys of one kind, `sorted` returns as many records as it was given. */
  lemma SortSucceeds(rs: seq<Record>, rk: Ranker, desc: bool)
    requires AllWellFormed(rs) && KeysOk(rs, rk) && SameKind(RankList(rs, rk))
    ensures Sorted(rs, rk, desc).Ok? && |Sorted(rs, rk, desc).value| == |rs|
  {
    SortedStable(rs, rk, desc);
  }

  /** Two GPUs, A with 2000 of 4000 MiB free and B with 3000 of 10000 MiB free. */
  function ExampleGpus(): (gpus: seq<Record>)
    ensures AllDevices(gpus) && |gpus| == 2
  {
    [MemoryDevice("0", 2000, 4000), MemoryDevice("1", 3000, 10000)]
  }

  // The example lemmas below take the example list as a parameter equal to
  // ExampleGpus() rather than the literal itself, so that the solver does not
  // unroll the sort on a literal argument.

  /** Both example GPUs have every memory key; the free rates are 0.5 and 0.3. */
  lemma ExampleKeys(gpus: seq<Record>)
    requires gpus == ExampleGpus()
    ensures KeysOk(gpus, BySize) && SameKind(RankList(gpus, BySize))
    ensures KeysOk(gpus, ByRate) && SameKind(RankList(gpus, ByRate))
    ensures FreeOf(gpus[0]) == 2000 && FreeOf(gpus[1]) == 3000
    ensures RateOf(gpus[0]) == 0.5 && RateOf(gpus[1]) == 0.3
  {
    assert FreeMemory(gpus[0]).Ok? && FreeMemory(gpus[1]).Ok?;
    assert FreeMemoryRate(gpus[0]).Ok? && FreeMemoryRate(gpus[1]).Ok?;
  }

  /** Sorting the example by size and by rate succeeds, so a choice is made in modes 0 and 3. */
  lemma ExampleChoicesMade(gpus: seq<Record>)
    requires gpus == ExampleGpus()
    ensures AutoChoice(gpus, 0).Ok? && AutoChoice(gpus, 3).Ok?
  {
    ExampleKeys(gpus);
    SortSucceeds(gpus, BySize, true);
    SortSucceeds(gpus, ByRate, true);
  }

  /** In mode 0, a GPU with strictly more free memory than every other is the one chosen. */
  lemma MostFreeChosen(gpus: seq<Record>, k: nat)
    requires AllDevices(gpus) && AutoChoice(gpus, 0).Ok? && k < |gpus| && MemoryFree in gpus[k]
    requires forall j :: 0 <= j < |gpus| && j != k && MemoryFree in gpus[j] ==> FreeOf(gpus[j]) < FreeOf(gpus[k])
    ensures AutoChoice(gpus, 0) == Ok(DeviceName(gpus[k]))
  {
    ChoiceMostFreeMemory(gpus);
    var i :| 0 <= i < |gpus| && AutoChoice(gpus, 0).value == DeviceName(gpus[i]) &&
             (forall j :: 0 <= j < |gpus| ==> MemoryFree in gpus[j]) &&
             (forall j :: 0 <= j < |gpus| ==> FreeOf(gpus[j]) <= FreeOf(gpus[i]));
  }

  /** In a mode other than 0, 1 and 2, a GPU with strictly the best free rate is the one chosen. */
  lemma BestRateChosen(gpus: seq<Record>, mode: int, k: nat)
    requires mode != 0 && mode != 1 && mode != 2
    requires AllDevices(gpus) && AutoChoice(gpus, mode).Ok? && k < |gpus| && FreeMemoryRate(gpus[k]).Ok?
    requires forall j :: 0 <= j < |gpus| && j != k && FreeMemoryRate(gpus[j]).Ok? ==> RateOf(gpus[j]) < RateOf(gpus[k])
    ensures AutoChoice(gpus, mode) == Ok(DeviceName(gpus[k]))
  {
    ChoiceBestMemoryRate(gpus, mode);
    var i :| 0 <= i < |gpus| && AutoChoice(gpus, mode).value == DeviceName(gpus[i]) &&
             (forall j :: 0 <= j < |gpus| ==> FreeMemoryRate(gpus[j]).Ok?) &&
             (forall j :: 0 <= j < |gpus| ==> RateOf(gpus[j]) <= RateOf(gpus[i]));
  }

  /** Mode 0 chooses B, which has more free memory. */
  lemma ChoiceBySizeExample(gpus: seq<Record>)
    requires gpus == ExampleGpus()
    ensures AutoChoice(gpus, 0) == Ok("/gpu:1")
  {
    ExampleKeys(gpus);
    assert |gpus| == 2 && AllDevices(gpus);
    assert MemoryFree in gpus[1];
    assert forall j :: 0 <= j < |gpus| && j != 1 && MemoryFree in gpus[j] ==> FreeOf(gpus[j]) < FreeOf(gpus[1]);
    assert DeviceName(gpus[1]) == "/gpu:1";
    ExampleChoicesMade(gpus);
    MostFreeChosen(gpus, 1);
  }

  /** An unknown mode chooses A, whose free rate 0.5 beats B's 0.3. */
  lemma ChoiceByRateExample(gpus: seq<Record>)
    requires gpus == ExampleGpus()
    ensures AutoChoice(gpus, 3) == Ok("/gpu:0")
  {
    ExampleKeys(gpus);
    assert |gpus| == 2 && AllDevices(gpus);
    assert FreeMemoryRate(gpus[0]).Ok?;
    assert forall j :: 0 <= j < |gpus| && j != 0 && FreeMemoryRate(gpus[j]).Ok? ==> RateOf(gpus[j]) < RateOf(gpus[0]);
    assert DeviceName(gpus[0]) == "/gpu:0";
    ExampleChoicesMade(gpus);
    BestRateChosen(gpus, 3, 0);
  }
}
