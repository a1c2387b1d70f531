/**
 * `main` without its I/O: the workbook's sheets, already read, to the backup
 * document's data.
 */
module Backup {
  import opened Dict
  import Sorting
  import Tables
  import Sheets
  import Parsing
  import Catalog
  import Seasons

  /** The varieties of the "2024 To grow" sheet, then those of "2025 To grow"; a missing sheet adds nothing. */
  function VarietiesRaw(book: map<string, Sheets.Sheet>): seq<Parsing.RawVariety> {
    (if "2024 To grow" in book then Parsing.ParseVarieties(book["2024 To grow"], 2024) else [])
    + (if "2025 To grow" in book then Parsing.ParseVarieties(book["2025 To grow"], 2025) else [])
  }

  /**
   * The calendar sheets the model reads: a third column, or at most two rows.
   * With fewer than two columns the script raises at the third row; with two it
   * raises only at the first row from index 2 on whose type maps, so a
   * two-column sheet where no such row maps is read by the script but not here.
   */
  predicate Readable(sheet: Sheets.Sheet) {
    |sheet.columns| >= 3 || |sheet.rows| <= 2
  }

  predicate CalendarsReadable(book: map<string, Sheets.Sheet>) {
    && ("Sowing calendar 2024" in book ==> Readable(book["Sowing calendar 2024"]))
    && ("Sowing calendar 25" in book ==> Readable(book["Sowing calendar 25"]))
  }

  /** The plantings of "Sowing calendar 2024", then those of "Sowing calendar 25". */
  function PlantingsRaw(book: map<string, Sheets.Sheet>): seq<Parsing.RawPlanting>
    requires CalendarsReadable(book)
  {
    (if "Sowing calendar 2024" in book then Parsing.ParsePlantings(book["Sowing calendar 2024"], 2024) else [])
    + (if "Sowing calendar 25" in book then Parsing.ParsePlantings(book["Sowing calendar 25"], 2025) else [])
  }

  /** `max(xs)`. */
  function Max(xs: seq<int>): (m: int)
    requires xs != []
    ensures m in xs
    ensures forall x :: x in xs ==> x <= m
  {
    if |xs| == 1 then xs[0]
    else
      var m := Max(xs[1..]);
      assert forall x :: x in xs ==> x == xs[0] || x in xs[1..];
      if xs[0] > m then xs[0] else m
  }

  /** `max(seasons_map.keys()) if seasons_map else 2025`. */
  function CurrentYear(years: seq<int>): int {
    if years == [] then 2025 else Max(years)
  }

  /** The data of the backup document; the fixed layout and metadata are not modelled. */
  datatype Backup = Backup(
    allotmentVersion: int,
    seasons: seq<Seasons.Season>,
    currentYear: int,
    varietiesVersion: int,
    varieties: seq<Catalog.Variety>,
    exportedAt: string,
    exportVersion: int)

  /** Every variety names a plant of the table and was used in 2024 or 2025 only. */
  predicate VarietiesKnown(out: seq<Catalog.Variety>) {
    forall i :: 0 <= i < |out| ==>
      && out[i].plantId in Tables.PlantMappings.Values
      && forall y :: y in out[i].yearsUsed ==> y == 2024 || y == 2025
  }

  /**
   * The conversion, with `now` the timestamp text `main` takes from the clock:
   * the seasons come from the calendar sheets and the varieties from the "To
   * grow" sheets; `currentYear` is the last season's year, or 2025 without
   * seasons; every season is for 2024 or 2025; every variety names a plant of
   * the table and was used in 2024 or 2025 only.
   */
  function Convert(book: map<string, Sheets.Sheet>, now: string): (b: Backup)
    requires CalendarsReadable(book)
    ensures b.allotmentVersion == 5 && b.varietiesVersion == 2 && b.exportVersion == 5
    ensures b.exportedAt == now
    ensures b.seasons == Seasons.BuildSeasons(PlantingsRaw(book), now)
    ensures b.varieties == Catalog.BuildVarieties(VarietiesRaw(book))
    ensures b.currentYear == if b.seasons == [] then 2025 else b.seasons[|b.seasons| - 1].year
    ensures forall i :: 0 <= i < |b.seasons| ==> b.seasons[i].year == 2024 || b.seasons[i].year == 2025
    ensures VarietiesKnown(b.varieties)
  {
    var plantings := PlantingsRaw(book);
    var seasons := Seasons.BuildSeasons(plantings, now);
    var varieties := Catalog.BuildVarieties(VarietiesRaw(book));
    CurrentYearIsLastSeason(plantings, now);
    SeasonsFromSheetYears(book, now);
    VarietiesFromSheetYears(book);
    Backup(5, seasons, CurrentYear(Keys(Seasons.SeasonsMap(plantings))), 2, varieties, now, 5)
  }

  /** In an increasing sequence the last element is the largest. */
  lemma MaxIsLast(xs: seq<int>, ys: seq<int>)
    requires ys != [] && Sorting.Increasing(ys)
    requires forall y :: y in xs <==> y in ys
    ensures xs != [] && Max(xs) == ys[|ys| - 1]
  {
    assert ys[|ys| - 1] in ys;
    LastIsLargest(ys);
  }

  lemma LastIsLargest(ys: seq<int>)
    requires ys != [] && Sorting.Increasing(ys)
    ensures forall y :: y in ys ==> y <= ys[|ys| - 1]
  {
    forall y | y in ys ensures y <= ys[|ys| - 1] {
      var i :| 0 <= i < |ys| && ys[i] == y;
      if i < |ys| - 1 {
        assert ys[i] < ys[|ys| - 1];
      }
    }
  }

  /** `max(seasons_map.keys())` is the year of the last season written out, or 2025 when there is none. */
  lemma CurrentYearIsLastSeason(plantings: seq<Parsing.RawPlanting>, now: string)
    ensures var out := Seasons.BuildSeasons(plantings, now);
            CurrentYear(Keys(Seasons.SeasonsMap(plantings))) == if out == [] then 2025 else out[|out| - 1].year
  {
    var keys := Keys(Seasons.SeasonsMap(plantings));
    var years := Sorting.SortInts(keys);
    Seasons.SeasonYears(plantings, now);
    if years != [] {
      MaxIsLast(keys, years);
    }
  }

  /** A workbook with none of the four sheets converts to an empty backup whose current year is 2025. */
  lemma NoSheetsNoData(book: map<string, Sheets.Sheet>, now: string)
    requires "2024 To grow" !in book && "2025 To grow" !in book
    requires "Sowing calendar 2024" !in book && "Sowing calendar 25" !in book
    ensures Convert(book, now).seasons == []
    ensures Convert(book, now).varieties == []
    ensures Convert(book, now).currentYear == 2025
  {
  }

  /** The raw varieties all carry a sheet year and a plant id of the table. */
  lemma RawVarietiesKnown(book: map<string, Sheets.Sheet>)
    ensures forall v :: v in VarietiesRaw(book) ==> (v.year == 2024 || v.year == 2025) && v.plantId in Tables.PlantMappings.Values
  {
    if "2024 To grow" in book { Parsing.ParsedVarietiesKnown(book["2024 To grow"], 2024); }
    if "2025 To grow" in book { Parsing.ParsedVarietiesKnown(book["2025 To grow"], 2025); }
  }

  /** The raw plantings all carry a sheet year and a plant id of the table. */
  lemma RawPlantingsKnown(book: map<string, Sheets.Sheet>)
    requires CalendarsReadable(book)
    ensures forall p :: p in PlantingsRaw(book) ==> (p.year == 2024 || p.year == 2025) && p.plantId in Tables.PlantMappings.Values
  {
    if "Sowing calendar 2024" in book { Parsing.ParsedPlantingsKnown(book["Sowing calendar 2024"], 2024); }
    if "Sowing calendar 25" in book { Parsing.ParsedPlantingsKnown(book["Sowing calendar 25"], 2025); }
  }

  /** Every season built from the calendar sheets is for 2024 or 2025, the two years the sheets stand for. */
  lemma SeasonsFromSheetYears(book: map<string, Sheets.Sheet>, now: string)
    requires CalendarsReadable(book)
    ensures var out := Seasons.BuildSeasons(PlantingsRaw(book), now);
            forall i :: 0 <= i < |out| ==> out[i].year == 2024 || out[i].year == 2025
  {
    var raws := PlantingsRaw(book);
    var out := Seasons.BuildSeasons(raws, now);
    RawPlantingsKnown(book);
    Seasons.SeasonsOutput(raws, now);
    forall i | 0 <= i < |out| ensures out[i].year == 2024 || out[i].year == 2025 {
      assert Seasons.HasSeason(out, out[i].year);
      var k :| 0 <= k < |raws| && raws[k].year == out[i].year && Seasons.BedOf(raws[k]).Some?;
      assert raws[k] in raws;
    }
  }

  /** Every variety built from the "To grow" sheets names a plant of the table and was used only in 2024 or 2025. */
  lemma VarietiesFromSheetYears(book: map<string, Sheets.Sheet>)
    ensures VarietiesKnown(Catalog.BuildVarieties(VarietiesRaw(book)))
  {
    RawVarietiesKnown(book);
    VarietiesFromKnownRecords(VarietiesRaw(book));
  }

  /** Raw records of the sheet years and the table's plant ids give varieties of the same. */
  lemma VarietiesFromKnownRecords(raws: seq<Parsing.RawVariety>)
    requires forall v :: v in raws ==> (v.year == 2024 || v.year == 2025) && v.plantId in Tables.PlantMappings.Values
    ensures VarietiesKnown(Catalog.BuildVarieties(raws))
  {
    var out := Catalog.BuildVarieties(raws);
    var keys := Distinct(Catalog.KeysOf(raws));
    Catalog.VarietiesOutput(raws);
    forall i | 0 <= i < |out|
      ensures out[i].plantId in Tables.PlantMappings.Values
      ensures forall y :: y in out[i].yearsUsed ==> y == 2024 || y == 2025
    {
      VarietyFromKnownRecords(raws, i, keys[i], out[i]);
    }
  }

  lemma VarietyFromKnownRecords(raws: seq<Parsing.RawVariety>, n: nat, k: Catalog.Key, v: Catalog.Variety)
    requires forall r :: r in raws ==> (r.year == 2024 || r.year == 2025) && r.plantId in Tables.PlantMappings.Values
    requires Catalog.Describes(raws, n, k, v)
    ensures v.plantId in Tables.PlantMappings.Values
    ensures forall y :: y in v.yearsUsed ==> y == 2024 || y == 2025
  {
    var f := Catalog.First(raws, k).value;
    assert raws[f] in raws;
    forall y | y in v.yearsUsed ensures y == 2024 || y == 2025 {
      var j :| 0 <= j < |raws| && Catalog.Matches(raws[j], k, y);
      assert raws[j] in raws;
    }
  }
}
