/**
 * Building the seasons data: the raw plantings of every "Sowing calendar"
 * sheet, grouped by year and then by bed, each bed named with a rotation group.
 */
module Seasons {
  import opened Wrappers
  import opened Dict
  import Sorting
  import Text
  import Tables
  import Ids
  import Rotation
  import Sheets
  import Parsing

  type RawPlanting = Parsing.RawPlanting

  /** A planting as written into a bed; a `None` field is a field left out. */
  datatype Planting = Planting(
    id: Ids.Id,
    plantId: string,
    varietyName: Option<string>,
    sowDate: Option<Sheets.Day>,
    transplantDate: Option<Sheets.Day>,
    harvestDate: Option<Sheets.Day>)

  /** `BED_MAPPING.get(p['bed'])`, where a falsy result drops the planting. */
  function BedOf(p: RawPlanting): Option<string> {
    if p.bed.None? || p.bed.value !in Tables.BedMapping then None
    else
      var b := Tables.BedMapping[p.bed.value];
      if b == "" then None else Some(b)
  }

  /**
   * Every bed id is non-empty, so a planting is dropped exactly when it has no
   * bed or its bed label is not in the table.
   */
  lemma BedOfIsLookup(p: RawPlanting)
    ensures BedOf(p).Some? <==> p.bed.Some? && p.bed.value in Tables.BedMapping
    ensures BedOf(p).Some? ==> BedOf(p).value == Tables.BedMapping[p.bed.value]
  {
    Tables.BedMappingNonEmpty();
  }

  /**
   * The planting dict built for raw planting `p`, the `n`-th: the id and plant
   * id always; the variety name and each date only when truthy (a date is
   * never the empty text).
   */
  function ToPlanting(p: RawPlanting, n: nat): (q: Planting)
    ensures q.id == Ids.Id("planting", n)
    ensures q.plantId == p.plantId
    ensures q.varietyName.Some? <==> p.varietyName != ""
    ensures q.varietyName.Some? ==> q.varietyName.value == p.varietyName
    ensures q.sowDate == p.sowDate && q.transplantDate == p.transplantDate && q.harvestDate == p.harvestDate
  {
    Planting(
      Ids.Id("planting", n),
      p.plantId,
      if p.varietyName != "" then Some(p.varietyName) else None,
      p.sowDate,
      p.transplantDate,
      p.harvestDate)
  }

  type Beds = Dict<string, seq<Planting>>

  /** One iteration of the loop over `all_plantings_raw`, for the `n`-th planting. */
  function Place(m: Dict<int, Beds>, p: RawPlanting, n: nat): Dict<int, Beds> {
    match BedOf(p)
    case None => m
    case Some(b) =>
      var beds := Get(m, p.year).GetOr(Empty());
      var list := Get(beds, b).GetOr([]);
      Set(m, p.year, Set(beds, b, list + [ToPlanting(p, n)]))
  }

  /** `seasons_map` once the loop has seen every planting of `raws`. */
  function SeasonsMap(raws: seq<RawPlanting>): Dict<int, Beds> {
    if raws == [] then Empty() else Place(SeasonsMap(raws[..|raws| - 1]), raws[|raws| - 1], |raws| - 1)
  }

  // ------------------------------------------------------ reference definitions

  /** Planting `p` lands in bed `b` of year `y`. */
  predicate Kept(p: RawPlanting, y: int, b: string) {
    p.year == y && BedOf(p) == Some(b)
  }

  /** The years of the plantings that are kept, in order, repeats included. */
  function KeptYears(raws: seq<RawPlanting>): (ys: seq<int>)
    ensures forall y :: y in ys <==> exists i :: 0 <= i < |raws| && raws[i].year == y && BedOf(raws[i]).Some?
  {
    if raws == [] then []
    else
      var p := raws[..|raws| - 1];
      var q := raws[|raws| - 1];
      assert forall i :: 0 <= i < |p| ==> p[i] == raws[i];
      KeptYears(p) + if BedOf(q).Some? then [q.year] else []
  }

  /** The beds the kept plantings of year `y` go to, in order, repeats included. */
  function KeptBeds(raws: seq<RawPlanting>, y: int): (bs: seq<string>)
    ensures forall b :: b in bs <==> exists i :: 0 <= i < |raws| && Kept(raws[i], y, b)
  {
    if raws == [] then []
    else
      var p := raws[..|raws| - 1];
      var q := raws[|raws| - 1];
      assert forall i :: 0 <= i < |p| ==> p[i] == raws[i];
      KeptBeds(p, y) + if q.year == y && BedOf(q).Some? then [BedOf(q).value] else []
  }

  /** The plantings that land in bed `b` of year `y`, in input order. */
  function InBed(raws: seq<RawPlanting>, y: int, b: string): seq<Planting> {
    if raws == [] then []
    else
      var p := raws[..|raws| - 1];
      var q := raws[|raws| - 1];
      InBed(p, y, b) + if Kept(q, y, b) then [ToPlanting(q, |p|)] else []
  }

  /** The beds of year `y` are what the loop promises for the plantings `raws`. */
  ghost predicate YearFaithful(raws: seq<RawPlanting>, y: int, beds: Beds) {
    && Valid(beds)
    && Keys(beds) == Distinct(KeptBeds(raws, y))
    && forall b :: b in Keys(beds) ==> Get(beds, b) == Some(InBed(raws, y, b))
  }

  ghost predicate MapFaithful(raws: seq<RawPlanting>, m: Dict<int, Beds>) {
    && Valid(m)
    && Keys(m) == Distinct(KeptYears(raws))
    && forall y :: y in Keys(m) ==> YearFaithful(raws, y, Get(m, y).value)
  }

  // ------------------------------------------------------------- the fold

  /** The references over `p + [q]` are those over `p`, extended by `q` where it belongs. */
  lemma Step(p: seq<RawPlanting>, q: RawPlanting, y: int, b: string)
    ensures BedOf(q).Some? ==> KeptYears(p + [q]) == KeptYears(p) + [q.year]
    ensures BedOf(q).None? ==> KeptYears(p + [q]) == KeptYears(p)
    ensures q.year == y && BedOf(q).Some? ==> KeptBeds(p + [q], y) == KeptBeds(p, y) + [BedOf(q).value]
    ensures !(q.year == y && BedOf(q).Some?) ==> KeptBeds(p + [q], y) == KeptBeds(p, y)
    ensures Kept(q, y, b) ==> InBed(p + [q], y, b) == InBed(p, y, b) + [ToPlanting(q, |p|)]
    ensures !Kept(q, y, b) ==> InBed(p + [q], y, b) == InBed(p, y, b)
  {
    var raws := p + [q];
    assert raws[..|raws| - 1] == p;
    assert KeptYears(p) + [] == KeptYears(p);
    assert KeptBeds(p, y) + [] == KeptBeds(p, y);
    assert InBed(p, y, b) + [] == InBed(p, y, b);
  }

  /** Appending one element and taking `Distinct` adds it at the end unless it is there already. */
  lemma DistinctSnoc<T(!new)>(s: seq<T>, x: T)
    ensures x in Distinct(s) ==> Distinct(s + [x]) == Distinct(s)
    ensures x !in Distinct(s) ==> Distinct(s + [x]) == Distinct(s) + [x]
  {
    var t := s + [x];
    assert t[..|t| - 1] == s;
  }

  /** A bed no kept planting of year `y` went to holds nothing. */
  lemma {:induction false} InBedEmpty(raws: seq<RawPlanting>, y: int, b: string)
    requires b !in KeptBeds(raws, y)
    ensures InBed(raws, y, b) == []
  {
    if raws != [] {
      var p := raws[..|raws| - 1];
      var q := raws[|raws| - 1];
      assert raws == p + [q];
      Step(p, q, y, b);
      InBedEmpty(p, y, b);
    }
  }

  /** A year without kept plantings has no beds. */
  lemma {:induction false} NothingKept(raws: seq<RawPlanting>, y: int)
    requires y !in KeptYears(raws)
    ensures KeptBeds(raws, y) == []
  {
    if raws != [] {
      var p := raws[..|raws| - 1];
      var q := raws[|raws| - 1];
      assert raws == p + [q];
      Step(p, q, y, "");
      NothingKept(p, y);
    }
  }

  /** Placing a planting that lands in bed `b` of its year keeps that year faithful. */
  lemma PlaceSameYear(p: seq<RawPlanting>, q: RawPlanting, beds: Beds, b: string)
    requires BedOf(q) == Some(b)
    requires YearFaithful(p, q.year, beds)
    ensures YearFaithful(p + [q], q.year, Set(beds, b, Get(beds, b).GetOr([]) + [ToPlanting(q, |p|)]))
  {
    var y := q.year;
    var r := Set(beds, b, Get(beds, b).GetOr([]) + [ToPlanting(q, |p|)]);
    Step(p, q, y, b);
    DistinctSnoc(KeptBeds(p, y), b);
    if b !in Keys(beds) {
      InBedEmpty(p, y, b);
    }
    assert Get(r, b) == Some(InBed(p + [q], y, b));
    forall b' | b' in Keys(r) && b' != b ensures Get(r, b') == Some(InBed(p + [q], y, b')) {
      Step(p, q, y, b');
    }
  }

  /** Placing a planting keeps the beds of the years it does not land in faithful. */
  lemma PlaceElsewhere(p: seq<RawPlanting>, q: RawPlanting, y: int, beds: Beds)
    requires !(q.year == y && BedOf(q).Some?)
    requires YearFaithful(p, y, beds)
    ensures YearFaithful(p + [q], y, beds)
  {
    Step(p, q, y, "");
    forall b | b in Keys(beds) ensures Get(beds, b) == Some(InBed(p + [q], y, b)) {
      Step(p, q, y, b);
    }
  }

  /** One iteration of the loop keeps `seasons_map` faithful. */
  lemma PlaceFaithful(p: seq<RawPlanting>, q: RawPlanting, m: Dict<int, Beds>)
    requires MapFaithful(p, m)
    ensures MapFaithful(p + [q], Place(m, q, |p|))
  {
    var r := Place(m, q, |p|);
    Step(p, q, 0, "");
    if BedOf(q).None? {
      forall y | y in Keys(m) ensures YearFaithful(p + [q], y, Get(m, y).value) {
        PlaceElsewhere(p, q, y, Get(m, y).value);
      }
    } else {
      PlaceKept(p, q, m);
    }
  }

  lemma PlaceKept(p: seq<RawPlanting>, q: RawPlanting, m: Dict<int, Beds>)
    requires MapFaithful(p, m) && BedOf(q).Some?
    ensures MapFaithful(p + [q], Place(m, q, |p|))
  {
    var r := Place(m, q, |p|);
    PlaceKeptYears(p, q, m);
    forall y | y in Keys(r) ensures YearFaithful(p + [q], y, Get(r, y).value) {
      if y == q.year {
        PlaceKeptYear(p, q, m);
      } else {
        PlaceElsewhere(p, q, y, Get(m, y).value);
      }
    }
  }

  lemma PlaceKeptYears(p: seq<RawPlanting>, q: RawPlanting, m: Dict<int, Beds>)
    requires MapFaithful(p, m) && BedOf(q).Some?
    ensures var r := Place(m, q, |p|);
            Valid(r) && Keys(r) == Distinct(KeptYears(p + [q]))
  {
    Step(p, q, 0, "");
    DistinctSnoc(KeptYears(p), q.year);
  }

  lemma PlaceKeptYear(p: seq<RawPlanting>, q: RawPlanting, m: Dict<int, Beds>)
    requires MapFaithful(p, m) && BedOf(q).Some?
    ensures q.year in Keys(Place(m, q, |p|))
    ensures YearFaithful(p + [q], q.year, Get(Place(m, q, |p|), q.year).value)
  {
    var b := BedOf(q).value;
    var beds := Get(m, q.year).GetOr(Empty());
    var r := Set(m, q.year, Set(beds, b, Get(beds, b).GetOr([]) + [ToPlanting(q, |p|)]));
    assert r == Place(m, q, |p|);
    if q.year !in Keys(m) {
      NothingKept(p, q.year);
    }
    PlaceSameYear(p, q, beds, b);
  }

  /** `seasons_map` groups the kept plantings by year and bed, in input order. */
  lemma {:induction false} SeasonsMapFaithful(raws: seq<RawPlanting>)
    ensures MapFaithful(raws, SeasonsMap(raws))
  {
    if raws != [] {
      var p := raws[..|raws| - 1];
      assert raws == p + [raws[|raws| - 1]];
      SeasonsMapFaithful(p);
      PlaceFaithful(p, raws[|raws| - 1], SeasonsMap(p));
    }
  }

  // ------------------------------------------------------------- the output

  datatype Bed = Bed(bedId: string, rotationGroup: Rotation.Group, plantings: seq<Planting>)

  datatype Season = Season(year: int, status: string, beds: seq<Bed>, notes: string, createdAt: string, updatedAt: string)

  function PlantIds(ps: seq<Planting>): (ids: seq<string>)
    ensures |ids| == |ps|
    ensures forall i :: 0 <= i < |ps| ==> ids[i] == ps[i].plantId
  {
    seq(|ps|, i requires 0 <= i < |ps| => ps[i].plantId)
  }

  /** The beds of one season, in the order of `ids`. */
  function BuildBeds(beds: Beds, ids: seq<string>): (r: seq<Bed>)
    requires forall b :: b in ids ==> b in Keys(beds)
    ensures |r| == |ids|
  {
    seq(|ids|, i requires 0 <= i < |ids| =>
      var ps := Get(beds, ids[i]).value;
      Bed(ids[i], Rotation.InferRotationGroup(PlantIds(ps)), ps))
  }

  /** `seasons_output`: one season per year in increasing order, its beds in increasing id order. */
  function BuildSeasons(raws: seq<RawPlanting>, now: string): (r: seq<Season>)
  {
    var m := SeasonsMap(raws);
    var years := Sorting.SortInts(Keys(m));
    seq(|years|, i requires 0 <= i < |years| =>
      var beds := Get(m, years[i]).value;
      Season(years[i], "historical", BuildBeds(beds, Sorting.SortStrings(Keys(beds))), "Imported from Excel", now, now))
  }

  /** One season per year of the map, in increasing order of year. */
  lemma SeasonYears(raws: seq<RawPlanting>, now: string)
    ensures var years := Sorting.SortInts(Keys(SeasonsMap(raws)));
            var out := BuildSeasons(raws, now);
            |out| == |years| && forall i :: 0 <= i < |out| ==> out[i].year == years[i]
  {
  }

  /** Some planting of `raws` lands in bed `b` of year `y`. */
  ghost predicate Occupied(raws: seq<RawPlanting>, y: int, b: string) {
    exists k :: 0 <= k < |raws| && Kept(raws[k], y, b)
  }

  /** Some planting of `raws` of year `y` is kept. */
  ghost predicate YearUsed(raws: seq<RawPlanting>, y: int) {
    exists k :: 0 <= k < |raws| && raws[k].year == y && BedOf(raws[k]).Some?
  }

  ghost predicate HasBed(s: Season, b: string) {
    exists j :: 0 <= j < |s.beds| && s.beds[j].bedId == b
  }

  ghost predicate HasSeason(out: seq<Season>, y: int) {
    exists i :: 0 <= i < |out| && out[i].year == y
  }

  /** `InBed` holds exactly the kept plantings of its bed, each built from its own raw planting. */
  lemma {:induction false} InBedMembers(raws: seq<RawPlanting>, y: int, b: string)
    ensures forall q :: q in InBed(raws, y, b) <==> exists k :: 0 <= k < |raws| && Kept(raws[k], y, b) && q == ToPlanting(raws[k], k)
  {
    if raws != [] {
      var p := raws[..|raws| - 1];
      var q := raws[|raws| - 1];
      assert raws == p + [q];
      Step(p, q, y, b);
      InBedMembers(p, y, b);
      assert forall k :: 0 <= k < |p| ==> p[k] == raws[k];
    }
  }

  /** `InBed` keeps input order: serial numbers increase along the list. */
  lemma {:induction false} InBedInOrder(raws: seq<RawPlanting>, y: int, b: string)
    ensures var ps := InBed(raws, y, b);
            && (forall i :: 0 <= i < |ps| ==> ps[i].id.serial < |raws|)
            && forall i, j :: 0 <= i < j < |ps| ==> ps[i].id.serial < ps[j].id.serial
  {
    if raws != [] {
      var p := raws[..|raws| - 1];
      var q := raws[|raws| - 1];
      assert raws == p + [q];
      Step(p, q, y, b);
      InBedInOrder(p, y, b);
    }
  }

  /** Bed `d` of the season for year `y` holds exactly the plantings of `raws` that land in it. */
  ghost predicate BedFaithful(raws: seq<RawPlanting>, y: int, d: Bed) {
    && d.plantings == InBed(raws, y, d.bedId)
    && d.plantings != []
    && d.rotationGroup == Rotation.InferRotationGroup(PlantIds(d.plantings))
  }

  /** Season `s` lists the beds its year's plantings went to, in increasing id order, each faithful. */
  ghost predicate SeasonFaithful(raws: seq<RawPlanting>, now: string, s: Season) {
    && s.status == "historical"
    && s.notes == "Imported from Excel"
    && s.createdAt == now && s.updatedAt == now
    && (forall i, j :: 0 <= i < j < |s.beds| ==> Text.Less(s.beds[i].bedId, s.beds[j].bedId))
    && (forall b :: HasBed(s, b) <==> Occupied(raws, s.year, b))
    && forall j :: 0 <= j < |s.beds| ==> BedFaithful(raws, s.year, s.beds[j])
  }

  /** A bed id of a faithful year holds its plantings, and there is at least one. */
  lemma BedOutput(raws: seq<RawPlanting>, y: int, beds: Beds, b: string)
    requires YearFaithful(raws, y, beds) && b in Keys(beds)
    ensures var ps := Get(beds, b).value;
            BedFaithful(raws, y, Bed(b, Rotation.InferRotationGroup(PlantIds(ps)), ps))
  {
    assert b in KeptBeds(raws, y);
    var k :| 0 <= k < |raws| && Kept(raws[k], y, b);
    InBedMembers(raws, y, b);
    assert ToPlanting(raws[k], k) in InBed(raws, y, b);
  }

  /** The sorted bed ids of a faithful year are exactly the beds its plantings went to. */
  lemma BedIdsOutput(raws: seq<RawPlanting>, y: int, beds: Beds, b: string)
    requires YearFaithful(raws, y, beds)
    ensures b in Sorting.SortStrings(Keys(beds)) <==> Occupied(raws, y, b)
  {
  }

  /** Each season of the output: the beds of one year, as promised. */
  lemma SeasonOutput(raws: seq<RawPlanting>, now: string, y: int, beds: Beds)
    requires YearFaithful(raws, y, beds)
    ensures var ids := Sorting.SortStrings(Keys(beds));
            SeasonFaithful(raws, now, Season(y, "historical", BuildBeds(beds, ids), "Imported from Excel", now, now))
  {
    var ids := Sorting.SortStrings(Keys(beds));
    var s := Season(y, "historical", BuildBeds(beds, ids), "Imported from Excel", now, now);
    forall b ensures HasBed(s, b) <==> Occupied(raws, y, b) {
      BedIdsOutput(raws, y, beds, b);
      if b in ids {
        var j :| 0 <= j < |ids| && ids[j] == b;
        assert s.beds[j].bedId == b;
      }
      if HasBed(s, b) {
        var j :| 0 <= j < |s.beds| && s.beds[j].bedId == b;
        assert ids[j] in ids;
      }
    }
    forall j | 0 <= j < |s.beds| ensures BedFaithful(raws, y, s.beds[j]) {
      assert ids[j] in ids;
      BedOutput(raws, y, beds, ids[j]);
    }
  }

  /**
   * The output has one season per year that kept a planting, in strictly
   * increasing year order; each season's beds are those its plantings went
   * to, in increasing id order; each bed lists its plantings in input order.
   */
  lemma SeasonsOutput(raws: seq<RawPlanting>, now: string)
    ensures var out := BuildSeasons(raws, now);
            && (forall i, j :: 0 <= i < j < |out| ==> out[i].year < out[j].year)
            && (forall y :: HasSeason(out, y) <==> YearUsed(raws, y))
            && forall i :: 0 <= i < |out| ==> SeasonFaithful(raws, now, out[i])
  {
    SeasonsMapFaithful(raws);
    var m := SeasonsMap(raws);
    var years := Sorting.SortInts(Keys(m));
    var out := BuildSeasons(raws, now);
    forall y ensures HasSeason(out, y) <==> YearUsed(raws, y) {
      assert y in years <==> y in KeptYears(raws);
      if y in years {
        var i :| 0 <= i < |years| && years[i] == y;
        assert out[i].year == y;
      }
      if HasSeason(out, y) {
        var i :| 0 <= i < |out| && out[i].year == y;
        assert years[i] in years;
      }
    }
    forall i | 0 <= i < |out| ensures SeasonFaithful(raws, now, out[i]) {
      assert years[i] in years;
      SeasonOutput(raws, now, years[i], Get(m, years[i]).value);
    }
  }

  /**
   * Every kept planting appears in the bed of its year it was mapped to, and
   * in no other bed: the bed a planting appears in determines its year and bed.
   */
  lemma KeptPlantingPlacedOnce(raws: seq<RawPlanting>, now: string, k: nat)
    requires k < |raws| && BedOf(raws[k]).Some?
    ensures var out := BuildSeasons(raws, now);
            exists i, j :: 0 <= i < |out| && 0 <= j < |out[i].beds| && out[i].year == raws[k].year
                           && out[i].beds[j].bedId == BedOf(raws[k]).value
                           && ToPlanting(raws[k], k) in out[i].beds[j].plantings
    ensures var out := BuildSeasons(raws, now);
            forall i, j :: 0 <= i < |out| && 0 <= j < |out[i].beds| && ToPlanting(raws[k], k) in out[i].beds[j].plantings ==>
              Kept(raws[k], out[i].year, out[i].beds[j].bedId)
  {
    SeasonsOutput(raws, now);
    var out := BuildSeasons(raws, now);
    var y := raws[k].year;
    var b := BedOf(raws[k]).value;
    assert YearUsed(raws, y);
    var i :| 0 <= i < |out| && out[i].year == y;
    assert SeasonFaithful(raws, now, out[i]);
    assert Occupied(raws, y, b);
    var j :| 0 <= j < |out[i].beds| && out[i].beds[j].bedId == b;
    assert BedFaithful(raws, y, out[i].beds[j]);
    InBedMembers(raws, y, b);
    assert ToPlanting(raws[k], k) in out[i].beds[j].plantings;
    forall i', j' | 0 <= i' < |out| && 0 <= j' < |out[i'].beds| && ToPlanting(raws[k], k) in out[i'].beds[j'].plantings
      ensures Kept(raws[k], out[i'].year, out[i'].beds[j'].bedId)
    {
      assert SeasonFaithful(raws, now, out[i']);
      assert BedFaithful(raws, out[i'].year, out[i'].beds[j']);
      InBedMembers(raws, out[i'].year, out[i'].beds[j'].bedId);
    }
  }
}
