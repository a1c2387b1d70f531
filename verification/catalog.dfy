/**
 * Building the varieties data: the raw variety records of every "To grow"
 * sheet, grouped by (plant id, name) into one catalogue entry each.
 */
module Catalog {
  import opened Wrappers
  import opened Dict
  import Sorting
  import Ids
  import opened Parsing

  /** The grouping key `(plantId, name)`. */
  type Key = (string, string)

  function KeyOf(v: RawVariety): Key {
    (v.plantId, v.name)
  }

  /** `'have' if arrived else 'ordered'`. */
  function StatusOf(v: RawVariety): SeedStatus {
    if v.arrived then Have else Ordered
  }

  /** A `variety_map` entry while the records are folded in. */
  datatype Entry = Entry(
    id: Ids.Id,
    plantId: string,
    name: string,
    supplier: Option<string>,
    price: Option<real>,
    years: seq<int>,
    seeds: Dict<int, SeedStatus>)

  /**
   * One iteration of the loop over `all_varieties_raw`: a new key gets a fresh
   * entry copied from this record; then the year is appended and the year's
   * seed status is (re)assigned.
   */
  function Add(m: Dict<Key, Entry>, v: RawVariety): Dict<Key, Entry> {
    var key := KeyOf(v);
    var e := match Get(m, key)
      case Some(e) => e
      case None => Entry(Ids.Id("variety", |m.items|), v.plantId, v.name, v.supplier, v.price, [], Empty());
    Set(m, key, e.(years := e.years + [v.year], seeds := Set(e.seeds, v.year, StatusOf(v))))
  }

  /** `variety_map` once the loop has seen every record of `raws`. */
  function Collect(raws: seq<RawVariety>): Dict<Key, Entry> {
    if raws == [] then Empty() else Add(Collect(raws[..|raws| - 1]), raws[|raws| - 1])
  }

  // ------------------------------------------------------ reference definitions

  function KeysOf(raws: seq<RawVariety>): (ks: seq<Key>)
    ensures |ks| == |raws|
    ensures forall i :: 0 <= i < |raws| ==> ks[i] == KeyOf(raws[i])
  {
    seq(|raws|, i requires 0 <= i < |raws| => KeyOf(raws[i]))
  }

  /** The position of the first record with key `k`. */
  function First(raws: seq<RawVariety>, k: Key): (r: Option<nat>)
    ensures r.None? <==> forall i :: 0 <= i < |raws| ==> KeyOf(raws[i]) != k
    ensures r.Some? ==> r.value < |raws| && KeyOf(raws[r.value]) == k
    ensures r.Some? ==> forall i :: 0 <= i < r.value ==> KeyOf(raws[i]) != k
  {
    if raws == [] then None
    else match First(raws[..|raws| - 1], k)
      case Some(i) => Some(i)
      case None => if KeyOf(raws[|raws| - 1]) == k then Some(|raws| - 1) else None
  }

  /** The years of the records with key `k`, in record order, repeats included. */
  function YearsOf(raws: seq<RawVariety>, k: Key): (ys: seq<int>)
    ensures forall y :: y in ys <==> exists i :: 0 <= i < |raws| && KeyOf(raws[i]) == k && raws[i].year == y
  {
    if raws == [] then []
    else
      var p := raws[..|raws| - 1];
      var v := raws[|raws| - 1];
      assert forall i :: 0 <= i < |p| ==> p[i] == raws[i];
      YearsOf(p, k) + if KeyOf(v) == k then [v.year] else []
  }

  predicate Matches(v: RawVariety, k: Key, y: int) {
    KeyOf(v) == k && v.year == y
  }

  /** The seed status of the last record with key `k` and year `y`. */
  function LastStatus(raws: seq<RawVariety>, k: Key, y: int): (r: Option<SeedStatus>)
    ensures r.None? <==> forall i :: 0 <= i < |raws| ==> !Matches(raws[i], k, y)
    ensures r.Some? ==> exists i :: 0 <= i < |raws| && Matches(raws[i], k, y) && r.value == StatusOf(raws[i])
                          && forall j :: i < j < |raws| ==> !Matches(raws[j], k, y)
  {
    if raws == [] then None
    else if Matches(raws[|raws| - 1], k, y) then
      LastIsFinal(raws, k, y);
      Some(StatusOf(raws[|raws| - 1]))
    else
      var r := LastStatus(raws[..|raws| - 1], k, y);
      LastPastFinal(raws, k, y, r);
      r
  }

  /** `r` is the status of the last record of `raws` with key `k` and year `y`, missing when there is none. */
  ghost predicate IsLastStatus(raws: seq<RawVariety>, k: Key, y: int, r: Option<SeedStatus>) {
    && (r.None? <==> forall i :: 0 <= i < |raws| ==> !Matches(raws[i], k, y))
    && (r.Some? ==> exists i :: 0 <= i < |raws| && Matches(raws[i], k, y) && r.value == StatusOf(raws[i])
                                && forall j :: i < j < |raws| ==> !Matches(raws[j], k, y))
  }

  lemma LastIsFinal(raws: seq<RawVariety>, k: Key, y: int)
    requires raws != [] && Matches(raws[|raws| - 1], k, y)
    ensures IsLastStatus(raws, k, y, Some(StatusOf(raws[|raws| - 1])))
  {
    assert Matches(raws[|raws| - 1], k, y);
  }

  lemma LastPastFinal(raws: seq<RawVariety>, k: Key, y: int, r: Option<SeedStatus>)
    requires raws != [] && !Matches(raws[|raws| - 1], k, y)
    requires IsLastStatus(raws[..|raws| - 1], k, y, r)
    ensures IsLastStatus(raws, k, y, r)
  {
    var n := |raws| - 1;
    var p := raws[..n];
    assert forall i :: 0 <= i < n ==> p[i] == raws[i];
    if r.Some? {
      var i :| 0 <= i < n && Matches(p[i], k, y) && r.value == StatusOf(p[i])
               && forall j :: i < j < n ==> !Matches(p[j], k, y);
      assert Matches(raws[i], k, y) && forall j :: i < j < |raws| ==> !Matches(raws[j], k, y);
    }
  }

  /**
   * Entry `e`, stored under key `k` of a map whose keys are `keys`, is what
   * the loop promises for the records `raws`.
   */
  ghost predicate Faithful(raws: seq<RawVariety>, keys: seq<Key>, k: Key, e: Entry) {
    && First(raws, k).Some?
    && e.plantId == k.0
    && e.name == k.1
    && e.supplier == raws[First(raws, k).value].supplier
    && e.price == raws[First(raws, k).value].price
    && e.id.prefix == "variety"
    && e.id.serial < |keys|
    && keys[e.id.serial] == k
    && e.years == YearsOf(raws, k)
    && Valid(e.seeds)
    && Keys(e.seeds) == Distinct(YearsOf(raws, k))
    && forall y :: Get(e.seeds, y) == LastStatus(raws, k, y)
  }

  // ------------------------------------------------------------- the fold

  lemma CollectEmpty(k: Key)
    ensures Get(Collect([]), k).None?
  {
  }

  /** An entry for a key other than the new record's is untouched and stays faithful. */
  lemma AddOther(p: seq<RawVariety>, v: RawVariety, m: Dict<Key, Entry>, r: Dict<Key, Entry>, k: Key)
    requires k != KeyOf(v) && k in Keys(m)
    requires Keys(r) == Keys(m) || Keys(r) == Keys(m) + [KeyOf(v)]
    requires Faithful(p, Keys(m), k, Get(m, k).value)
    ensures Faithful(p + [v], Keys(r), k, Get(m, k).value)
  {
    Step(p, v, k);
    var e := Get(m, k).value;
    assert Keys(r)[e.id.serial] == Keys(m)[e.id.serial];
  }

  /** The records of `p + [v]` with key `k` are those of `p`, then `v` when its key is `k`. */
  lemma Step(p: seq<RawVariety>, v: RawVariety, k: Key)
    ensures First(p + [v], k) == if First(p, k).Some? then First(p, k) else if KeyOf(v) == k then Some(|p|) else None
    ensures YearsOf(p + [v], k) == YearsOf(p, k) + if KeyOf(v) == k then [v.year] else []
    ensures forall y :: LastStatus(p + [v], k, y) == if Matches(v, k, y) then Some(StatusOf(v)) else LastStatus(p, k, y)
  {
    var raws := p + [v];
    assert raws[..|raws| - 1] == p;
  }

  /** Assigning the new record's status keeps `seeds` in step with the records. */
  lemma SeedsStep(p: seq<RawVariety>, v: RawVariety, seeds: Dict<int, SeedStatus>)
    requires Valid(seeds)
    requires Keys(seeds) == Distinct(YearsOf(p, KeyOf(v)))
    requires forall y :: Get(seeds, y) == LastStatus(p, KeyOf(v), y)
    ensures var r := Set(seeds, v.year, StatusOf(v));
            && Valid(r)
            && Keys(r) == Distinct(YearsOf(p + [v], KeyOf(v)))
            && forall y :: Get(r, y) == LastStatus(p + [v], KeyOf(v), y)
  {
    SeedsKeysStep(p, v, seeds);
    SeedsValuesStep(p, v, seeds);
  }

  lemma SeedsKeysStep(p: seq<RawVariety>, v: RawVariety, seeds: Dict<int, SeedStatus>)
    requires Keys(seeds) == Distinct(YearsOf(p, KeyOf(v)))
    ensures Keys(Set(seeds, v.year, StatusOf(v))) == Distinct(YearsOf(p + [v], KeyOf(v)))
  {
    var k := KeyOf(v);
    Step(p, v, k);
    var ys := YearsOf(p, k) + [v.year];
    assert ys[..|ys| - 1] == YearsOf(p, k);
  }

  lemma SeedsValuesStep(p: seq<RawVariety>, v: RawVariety, seeds: Dict<int, SeedStatus>)
    requires forall y :: Get(seeds, y) == LastStatus(p, KeyOf(v), y)
    ensures forall y :: Get(Set(seeds, v.year, StatusOf(v)), y) == LastStatus(p + [v], KeyOf(v), y)
  {
    Step(p, v, KeyOf(v));
  }

  /** A key seen for the first time: the fresh entry, after its first update, is faithful. */
  lemma AddNew(p: seq<RawVariety>, v: RawVariety, m: Dict<Key, Entry>, r: Dict<Key, Entry>)
    requires First(p, KeyOf(v)).None?
    requires Keys(r) == Keys(m) + [KeyOf(v)]
    ensures var e := Entry(Ids.Id("variety", |m.items|), v.plantId, v.name, v.supplier, v.price, [], Empty());
            Faithful(p + [v], Keys(r), KeyOf(v), e.(years := e.years + [v.year], seeds := Set(e.seeds, v.year, StatusOf(v))))
  {
    var k := KeyOf(v);
    Step(p, v, k);
    assert forall y :: LastStatus(p, k, y).None?;
    SeedsStep(p, v, Empty());
    assert Keys(r)[|m.items|] == k;
  }

  /** A key seen before: its updated entry is faithful. */
  lemma AddSeen(p: seq<RawVariety>, v: RawVariety, m: Dict<Key, Entry>, e: Entry, r: Dict<Key, Entry>)
    requires Faithful(p, Keys(m), KeyOf(v), e)
    requires Keys(r) == Keys(m)
    ensures Faithful(p + [v], Keys(r), KeyOf(v), e.(years := e.years + [v.year], seeds := Set(e.seeds, v.year, StatusOf(v))))
  {
    Step(p, v, KeyOf(v));
    SeedsStep(p, v, e.seeds);
  }

  /** One iteration keeps every entry faithful, and adds the record's key at the end when it is new. */
  lemma AddFaithful(p: seq<RawVariety>, v: RawVariety, m: Dict<Key, Entry>)
    requires Valid(m)
    requires forall k :: k in Keys(m) <==> First(p, k).Some?
    requires forall k :: k in Keys(m) ==> Faithful(p, Keys(m), k, Get(m, k).value)
    ensures Valid(Add(m, v))
    ensures Keys(Add(m, v)) == if KeyOf(v) in Keys(m) then Keys(m) else Keys(m) + [KeyOf(v)]
    ensures forall k :: k in Keys(Add(m, v)) ==> Faithful(p + [v], Keys(Add(m, v)), k, Get(Add(m, v), k).value)
  {
    forall k | k in Keys(Add(m, v))
      ensures Faithful(p + [v], Keys(Add(m, v)), k, Get(Add(m, v), k).value)
    {
      AddKeyFaithful(p, v, m, k);
    }
  }

  lemma AddKeyFaithful(p: seq<RawVariety>, v: RawVariety, m: Dict<Key, Entry>, k': Key)
    requires Valid(m)
    requires forall k :: k in Keys(m) <==> First(p, k).Some?
    requires forall k :: k in Keys(m) ==> Faithful(p, Keys(m), k, Get(m, k).value)
    requires k' in Keys(Add(m, v))
    ensures Faithful(p + [v], Keys(Add(m, v)), k', Get(Add(m, v), k').value)
  {
    var k := KeyOf(v);
    var e := match Get(m, k)
      case Some(e) => e
      case None => Entry(Ids.Id("variety", |m.items|), v.plantId, v.name, v.supplier, v.price, [], Empty());
    var r := Set(m, k, e.(years := e.years + [v.year], seeds := Set(e.seeds, v.year, StatusOf(v))));
    assert r == Add(m, v);
    if k' != k {
      AddOther(p, v, m, r, k');
    } else if k in Keys(m) {
      AddSeen(p, v, m, e, r);
    } else {
      AddNew(p, v, m, r);
    }
  }

  /**
   * `variety_map` has one entry per distinct key, in order of first
   * occurrence, and each entry is faithful to the records.
   */
  lemma {:induction false} CollectFaithful(raws: seq<RawVariety>)
    ensures Valid(Collect(raws))
    ensures Keys(Collect(raws)) == Distinct(KeysOf(raws))
    ensures forall k :: k in Keys(Collect(raws)) ==> Faithful(raws, Keys(Collect(raws)), k, Get(Collect(raws), k).value)
  {
    if raws != [] {
      var p := raws[..|raws| - 1];
      var v := raws[|raws| - 1];
      assert raws == p + [v];
      CollectFaithful(p);
      var m := Collect(p);
      assert Collect(raws) == Add(m, v);
      KeysAreFirsts(p, m);
      AddFaithful(p, v, m);
      DistinctKeysStep(raws);
    }
  }

  lemma KeysAreFirsts(p: seq<RawVariety>, m: Dict<Key, Entry>)
    requires Keys(m) == Distinct(KeysOf(p))
    ensures forall k :: k in Keys(m) <==> First(p, k).Some?
  {
    forall k ensures k in Keys(m) <==> First(p, k).Some? {
      if First(p, k).Some? {
        assert KeysOf(p)[First(p, k).value] == k;
      }
    }
  }

  lemma DistinctKeysStep(raws: seq<RawVariety>)
    requires raws != []
    ensures var d := Distinct(KeysOf(raws[..|raws| - 1]));
            var k := KeyOf(raws[|raws| - 1]);
            Distinct(KeysOf(raws)) == if k in d then d else d + [k]
  {
    assert KeysOf(raws)[..|raws| - 1] == KeysOf(raws[..|raws| - 1]);
  }

  // ------------------------------------------------------------- the output

  /** A catalogue entry as written out; a `None` supplier or price is a field left out. */
  datatype Variety = Variety(
    id: Ids.Id,
    plantId: string,
    name: string,
    supplier: Option<string>,
    price: Option<real>,
    yearsUsed: seq<int>,
    plannedYears: seq<int>,
    seedsByYear: Dict<int, SeedStatus>)

  /**
   * The second loop's treatment of one entry: `yearsUsed` becomes
   * `sorted(set(...))` and fields equal to `None` are dropped.
   */
  function Finish(e: Entry): (v: Variety)
    ensures Sorting.Increasing(v.yearsUsed)
    ensures forall y :: y in v.yearsUsed <==> y in e.years
  {
    Variety(e.id, e.plantId, e.name, e.supplier, e.price, Sorting.SortInts(e.years), [], e.seeds)
  }

  /** `varieties_output`. */
  function BuildVarieties(raws: seq<RawVariety>): (out: seq<Variety>)
  {
    var m := Collect(raws);
    seq(|m.items|, i requires 0 <= i < |m.items| => Finish(m.items[i].1))
  }

  /** Output variety `v`, the `n`-th, describes the records of `raws` with key `k`. */
  ghost predicate Describes(raws: seq<RawVariety>, n: nat, k: Key, v: Variety) {
    && First(raws, k).Some?
    && v.id == Ids.Id("variety", n)
    && v.plantId == k.0
    && v.name == k.1
    && v.supplier == raws[First(raws, k).value].supplier
    && v.price == raws[First(raws, k).value].price
    && Sorting.Increasing(v.yearsUsed)
    && (forall y :: y in v.yearsUsed <==> exists i :: 0 <= i < |raws| && Matches(raws[i], k, y))
    && v.plannedYears == []
    && Keys(v.seedsByYear) == Distinct(YearsOf(raws, k))
    && forall y :: Get(v.seedsByYear, y) == LastStatus(raws, k, y)
  }

  /**
   * The output holds one variety per distinct (plant id, name), in order of
   * first occurrence; supplier and price come from the first record,
   * `yearsUsed` is the sorted set of years seen, and each year's seed status
   * is that of the last record for the year.
   */
  lemma VarietiesOutput(raws: seq<RawVariety>)
    ensures var keys := Distinct(KeysOf(raws));
            var out := BuildVarieties(raws);
            && |out| == |keys|
            && forall n :: 0 <= n < |out| ==> Describes(raws, n, keys[n], out[n])
  {
    CollectFaithful(raws);
    var m := Collect(raws);
    var keys := Keys(m);
    var out := BuildVarieties(raws);
    forall n | 0 <= n < |out| ensures Describes(raws, n, keys[n], out[n]) {
      var k := keys[n];
      assert Get(m, k) == Some(m.items[n].1);
      FinishDescribes(raws, keys, n, m.items[n].1);
    }
  }

  /** Finishing a faithful entry, stored `n`-th, yields a variety that describes its records. */
  lemma FinishDescribes(raws: seq<RawVariety>, keys: seq<Key>, n: nat, e: Entry)
    requires n < |keys| && Faithful(raws, keys, keys[n], e)
    requires forall i, j :: 0 <= i < j < |keys| ==> keys[i] != keys[j]
    ensures Describes(raws, n, keys[n], Finish(e))
  {
    var k := keys[n];
    assert e.id.serial == n;
    forall y ensures y in Finish(e).yearsUsed <==> exists i :: 0 <= i < |raws| && Matches(raws[i], k, y) {
      assert y in Finish(e).yearsUsed <==> y in YearsOf(raws, k);
    }
  }

  /** No two output varieties share an id. */
  lemma VarietyIdsDistinct(raws: seq<RawVariety>)
    ensures var out := BuildVarieties(raws);
            forall i, j :: 0 <= i < j < |out| ==> out[i].id != out[j].id
  {
    VarietiesOutput(raws);
  }

  /**
   * Every entry has seen at least one record, so `seedsByYear` is never `{}`
   * and the cleaning pass only ever drops a missing supplier or price.
   */
  lemma SeedsByYearNeverEmpty(raws: seq<RawVariety>)
    ensures forall v :: v in BuildVarieties(raws) ==> Keys(v.seedsByYear) != [] && v.yearsUsed != []
  {
    VarietiesOutput(raws);
    var keys := Distinct(KeysOf(raws));
    var out := BuildVarieties(raws);
    forall v | v in out ensures Keys(v.seedsByYear) != [] && v.yearsUsed != [] {
      var n :| 0 <= n < |out| && out[n] == v;
      var k := keys[n];
      var i := First(raws, k).value;
      assert Matches(raws[i], k, raws[i].year);
      assert raws[i].year in YearsOf(raws, k);
      assert raws[i].year in Distinct(YearsOf(raws, k));
      assert raws[i].year in v.yearsUsed;
    }
  }
}
