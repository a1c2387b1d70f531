/**
 * `parse_varieties` (a "To grow" sheet) and `parse_plantings` (a "Sowing
 * calendar" sheet): rows to raw variety and planting records.
 */
module Parsing {
  import opened Wrappers
  import Text
  import Tables
  import PlantNames
  import opened Sheets

  datatype SeedStatus = Have | Ordered

  /** One row of a "To grow" sheet, as `parse_varieties` emits it. */
  datatype RawVariety = RawVariety(
    plantId: string,
    name: string,
    supplier: Option<string>,
    price: Option<real>,
    year: int,
    arrived: bool)

  /** One row of a "Sowing calendar" sheet, as `parse_plantings` emits it. */
  datatype RawPlanting = RawPlanting(
    plantId: string,
    varietyName: string,
    bed: Option<string>,
    sowDate: Option<Day>,
    transplantDate: Option<Day>,
    harvestDate: Option<Day>,
    year: int)

  /** Python's `if not plant_type`: a missing type, or an empty one. */
  predicate Falsy(t: Option<string>) {
    t.None? || t.value == ""
  }

  // ---------------------------------------------------------------- varieties

  /** The Variety and Type cells of a "To grow" row, found by column name. */
  function VarietyLine(columns: seq<string>, row: seq<Cell>): Line {
    Line(Get(columns, row, "Variety"), Get(columns, row, "Type"))
  }

  function VarietyLines(sheet: Sheet): (lines: seq<Line>)
    ensures |lines| == |sheet.rows|
    ensures forall n :: 0 <= n < |lines| ==> lines[n] == VarietyLine(sheet.columns, sheet.rows[n])
  {
    seq(|sheet.rows|, n requires 0 <= n < |sheet.rows| => VarietyLine(sheet.columns, sheet.rows[n]))
  }

  /**
   * The record a "To grow" row with a Variety yields once its plant type is
   * known: nothing when the type is falsy or does not map to a plant id.
   */
  function VarietyOfRow(columns: seq<string>, row: seq<Cell>, plantType: Option<string>, year: int): (r: Option<RawVariety>)
    requires Get(columns, row, "Variety").Filled?
    ensures r.Some? <==> !Falsy(plantType) && PlantNames.MapPlantId(plantType).Some?
    ensures r.Some? ==> r.value.plantId == PlantNames.MapPlantId(plantType).value
    ensures r.Some? ==> r.value.name == Text.Strip(Get(columns, row, "Variety").text)
    ensures r.Some? ==> r.value.supplier == (var s := Get(columns, row, "Supplier"); if s.Filled? then Some(Text.Strip(s.text)) else None)
    ensures r.Some? ==> r.value.price == (var p := Get(columns, row, "Price"); if p.Filled? then Some(p.number) else None)
    ensures r.Some? ==> r.value.arrived == (var a := Get(columns, row, "Arrived"); a.Filled? && a.truth)
    ensures r.Some? ==> r.value.year == year
  {
    if Falsy(plantType) then None
    else match PlantNames.MapPlantId(plantType)
      case None => None
      case Some(plantId) =>
        var supplier := Get(columns, row, "Supplier");
        var price := Get(columns, row, "Price");
        var arrived := Get(columns, row, "Arrived");
        Some(RawVariety(
          plantId,
          Text.Strip(Get(columns, row, "Variety").text),
          if supplier.Filled? then Some(Text.Strip(supplier.text)) else None,
          if price.Filled? then Some(price.number) else None,
          year,
          arrived.Filled? && arrived.truth))
  }

  /**
   * The loop of `parse_varieties` from row `i` on, with `lastType` the
   * `last_type` it has carried so far.
   */
  function ScanVarieties(columns: seq<string>, rows: seq<seq<Cell>>, year: int, i: nat, lastType: Option<string>): (r: seq<RawVariety>)
    requires i <= |rows|
    ensures |r| <= |rows| - i
    decreases |rows| - i
  {
    if i == |rows| then []
    else
      var row := rows[i];
      if Get(columns, row, "Variety").Blank? then ScanVarieties(columns, rows, year, i + 1, lastType)
      else
        var kind := Get(columns, row, "Type");
        var plantType := if kind.Filled? then Some(kind.text) else lastType;
        var rest := ScanVarieties(columns, rows, year, i + 1, plantType);
        match VarietyOfRow(columns, row, plantType, year)
        case None => rest
        case Some(v) => [v] + rest
  }

  /** `parse_varieties(df, year)`. */
  function ParseVarieties(sheet: Sheet, year: int): (r: seq<RawVariety>)
    ensures |r| <= |sheet.rows|
  {
    ScanVarietiesIsRowByRow(sheet, year, 0);
    ScanVarieties(sheet.columns, sheet.rows, year, 0, None)
  }

  /** What row `n` contributes on its own, with the carried type found by the backward search. */
  function VarietyAt(sheet: Sheet, n: nat, year: int): (r: Option<RawVariety>)
    requires n < |sheet.rows|
    ensures r.Some? ==> Get(sheet.columns, sheet.rows[n], "Variety").Filled?
    ensures r.Some? ==> PlantNames.MapPlantId(TypeAt(VarietyLines(sheet), n)) == Some(r.value.plantId)
  {
    var row := sheet.rows[n];
    if Get(sheet.columns, row, "Variety").Blank? then None
    else VarietyOfRow(sheet.columns, row, TypeAt(VarietyLines(sheet), n), year)
  }

  /** The records of rows `n` onwards, each judged on its own, in row order. */
  function VarietiesFrom(sheet: Sheet, n: nat, year: int): (r: seq<RawVariety>)
    requires n <= |sheet.rows|
    ensures |r| <= |sheet.rows| - n
    decreases |sheet.rows| - n
  {
    if n == |sheet.rows| then []
    else
      var rest := VarietiesFrom(sheet, n + 1, year);
      match VarietyAt(sheet, n, year)
      case None => rest
      case Some(v) => [v] + rest
  }

  /**
   * The `last_type` that `parse_varieties` carries through its loop is the
   * backward-search carried type, so its output is, in row order, exactly the
   * records of the rows judged one by one.
   */
  lemma {:induction false} ScanVarietiesIsRowByRow(sheet: Sheet, year: int, i: nat)
    requires i <= |sheet.rows|
    ensures ScanVarieties(sheet.columns, sheet.rows, year, i, CarriedInto(VarietyLines(sheet), i))
            == VarietiesFrom(sheet, i, year)
    decreases |sheet.rows| - i
  {
    if i < |sheet.rows| {
      var lines := VarietyLines(sheet);
      var line := lines[i];
      assert line == VarietyLine(sheet.columns, sheet.rows[i]);
      if line.variety.Filled? {
        assert CarriedInto(lines, i + 1) == TypeAt(lines, i);
      } else {
        assert CarriedInto(lines, i + 1) == CarriedInto(lines, i);
      }
      ScanVarietiesIsRowByRow(sheet, year, i + 1);
    }
  }

  lemma ParseVarietiesIsRowByRow(sheet: Sheet, year: int)
    ensures ParseVarieties(sheet, year) == VarietiesFrom(sheet, 0, year)
  {
    ScanVarietiesIsRowByRow(sheet, year, 0);
  }

  /** Every record of the row-by-row reading comes from one row at or after `n`. */
  lemma {:induction false} VarietiesFromRows(sheet: Sheet, n: nat, year: int)
    requires n <= |sheet.rows|
    ensures forall v :: v in VarietiesFrom(sheet, n, year) ==> exists m :: n <= m < |sheet.rows| && VarietyAt(sheet, m, year) == Some(v)
    decreases |sheet.rows| - n
  {
    if n < |sheet.rows| {
      VarietiesFromRows(sheet, n + 1, year);
    }
  }

  /**
   * Every record `parse_varieties` emits comes from one row that has a Variety,
   * carries the sheet's year, and has a plant id of the table.
   */
  lemma ParsedVarietiesKnown(sheet: Sheet, year: int)
    ensures forall v :: v in ParseVarieties(sheet, year) ==> exists m :: 0 <= m < |sheet.rows| && VarietyAt(sheet, m, year) == Some(v)
    ensures forall v :: v in ParseVarieties(sheet, year) ==> v.year == year && v.plantId in Tables.PlantMappings.Values
  {
    ParseVarietiesIsRowByRow(sheet, year);
    VarietiesFromRows(sheet, 0, year);
    forall v | v in ParseVarieties(sheet, year) ensures v.year == year && v.plantId in Tables.PlantMappings.Values {
      var m :| 0 <= m < |sheet.rows| && VarietyAt(sheet, m, year) == Some(v);
    }
  }

  // ---------------------------------------------------------------- plantings

  /** How `parse_plantings` classifies a dated column by its lower-cased header. */
  datatype DateKind = SowColumn | PlantOutColumn | HarvestColumn | OtherColumn

  /**
   * A header mentioning `sow`, `january` or `february` is a sowing column even
   * when it also mentions `plant`; otherwise `plant`, then `harvest`.
   */
  function KindOf(header: string): (k: DateKind)
    ensures var l := Text.Lower(header);
            && (k == SowColumn <==> Text.Contains(l, "sow") || Text.Contains(l, "january") || Text.Contains(l, "february"))
            && (k == PlantOutColumn <==> k != SowColumn && Text.Contains(l, "plant"))
            && (k == HarvestColumn <==> k != SowColumn && !Text.Contains(l, "plant") && Text.Contains(l, "harvest"))
  {
    var l := Text.Lower(header);
    if Text.Contains(l, "sow") || Text.Contains(l, "january") || Text.Contains(l, "february") then SowColumn
    else if Text.Contains(l, "plant") then PlantOutColumn
    else if Text.Contains(l, "harvest") then HarvestColumn
    else OtherColumn
  }

  /** Column `j` holds a date and its header is of kind `kind`. */
  predicate DatedIn(columns: seq<string>, row: seq<Cell>, j: int, kind: DateKind) {
    0 <= j < |columns| && At(row, j).Filled? && At(row, j).date.Some? && KindOf(columns[j]) == kind
  }

  /** The three date slots of a planting. */
  datatype Dates = Dates(sow: Option<Day>, transplant: Option<Day>, harvest: Option<Day>)

  /** Puts a date found under a header of kind `kind` into its slot, unless the slot is already filled. */
  function Place(acc: Dates, kind: DateKind, d: Day): Dates {
    match kind
    case SowColumn => if acc.sow.None? then acc.(sow := Some(d)) else acc
    case PlantOutColumn => if acc.transplant.None? then acc.(transplant := Some(d)) else acc
    case HarvestColumn => if acc.harvest.None? then acc.(harvest := Some(d)) else acc
    case OtherColumn => acc
  }

  /** The inner loop over `df.columns` from column `j` on. */
  function ScanDates(columns: seq<string>, row: seq<Cell>, j: nat, acc: Dates): Dates
    requires j <= |columns|
    decreases |columns| - j
  {
    if j == |columns| then acc
    else
      var cell := At(row, j);
      if cell.Filled? && cell.date.Some? then ScanDates(columns, row, j + 1, Place(acc, KindOf(columns[j]), cell.date.value))
      else ScanDates(columns, row, j + 1, acc)
  }

  /** The date in the first column, from `j` on, that is dated and of kind `kind`. */
  function FirstDate(columns: seq<string>, row: seq<Cell>, kind: DateKind, j: nat): (d: Option<Day>)
    requires j <= |columns|
    ensures d.None? <==> forall k :: j <= k < |columns| ==> !DatedIn(columns, row, k, kind)
    ensures d.Some? ==> exists k :: j <= k < |columns| && DatedIn(columns, row, k, kind) && d == At(row, k).date
                          && forall k' :: j <= k' < k ==> !DatedIn(columns, row, k', kind)
    decreases |columns| - j
  {
    if j == |columns| then None
    else if DatedIn(columns, row, j, kind) then At(row, j).date
    else FirstDate(columns, row, kind, j + 1)
  }

  /** The slot of `acc` that dates of kind `kind` go to; other columns have none. */
  function Slot(acc: Dates, kind: DateKind): Option<Day> {
    match kind
    case SowColumn => acc.sow
    case PlantOutColumn => acc.transplant
    case HarvestColumn => acc.harvest
    case OtherColumn => None
  }

  /** Placing a date fills only its own slot, and only when that slot is empty. */
  lemma PlaceSlot(acc: Dates, k: DateKind, d: Day, kind: DateKind)
    requires kind != OtherColumn
    ensures Slot(Place(acc, k, d), kind) == if k == kind && Slot(acc, kind).None? then Some(d) else Slot(acc, kind)
  {
  }

  /** One slot through the column loop: kept when filled, else the first date of its kind. */
  lemma {:induction false} ScanDatesSlot(columns: seq<string>, row: seq<Cell>, j: nat, acc: Dates, kind: DateKind)
    requires j <= |columns| && kind != OtherColumn
    ensures Slot(ScanDates(columns, row, j, acc), kind) ==
              if Slot(acc, kind).Some? then Slot(acc, kind) else FirstDate(columns, row, kind, j)
    decreases |columns| - j
  {
    if j < |columns| {
      var cell := At(row, j);
      if cell.Filled? && cell.date.Some? {
        PlaceSlot(acc, KindOf(columns[j]), cell.date.value, kind);
        ScanDatesSlot(columns, row, j + 1, Place(acc, KindOf(columns[j]), cell.date.value), kind);
      } else {
        ScanDatesSlot(columns, row, j + 1, acc, kind);
      }
    }
  }

  /** A slot already filled is never overwritten; an empty slot ends up with the first date that fits. */
  lemma ScanDatesFirst(columns: seq<string>, row: seq<Cell>, j: nat, acc: Dates)
    requires j <= |columns|
    ensures var r := ScanDates(columns, row, j, acc);
            && r.sow == (if acc.sow.Some? then acc.sow else FirstDate(columns, row, SowColumn, j))
            && r.transplant == (if acc.transplant.Some? then acc.transplant else FirstDate(columns, row, PlantOutColumn, j))
            && r.harvest == (if acc.harvest.Some? then acc.harvest else FirstDate(columns, row, HarvestColumn, j))
  {
    ScanDatesSlot(columns, row, j, acc, SowColumn);
    ScanDatesSlot(columns, row, j, acc, PlantOutColumn);
    ScanDatesSlot(columns, row, j, acc, HarvestColumn);
  }

  /** The Variety and Type cells of a calendar row; the first two rows are skipped before anything is read. */
  function PlantingLines(sheet: Sheet): (lines: seq<Line>)
    ensures |lines| == |sheet.rows|
    ensures forall n :: 0 <= n < |lines| ==>
              lines[n] == if n < 2 then Line(Blank, Blank) else Line(At(sheet.rows[n], 1), At(sheet.rows[n], 0))
  {
    seq(|sheet.rows|, n requires 0 <= n < |sheet.rows| =>
      if n < 2 then Line(Blank, Blank) else Line(At(sheet.rows[n], 1), At(sheet.rows[n], 0)))
  }

  /** The record a calendar row with a variety yields once its plant type is known. */
  function PlantingOfRow(columns: seq<string>, row: seq<Cell>, plantType: Option<string>, year: int): (r: Option<RawPlanting>)
    requires At(row, 1).Filled?
    ensures r.Some? <==> !Falsy(plantType) && PlantNames.MapPlantId(plantType).Some?
    ensures r.Some? ==> r.value.plantId == PlantNames.MapPlantId(plantType).value
    ensures r.Some? ==> r.value.varietyName == Text.Strip(At(row, 1).text)
    ensures r.Some? ==> r.value.bed == (if At(row, 2).Filled? then Some(Text.Strip(At(row, 2).text)) else None)
    ensures r.Some? ==> r.value.sowDate == FirstDate(columns, row, SowColumn, 0)
    ensures r.Some? ==> r.value.transplantDate == FirstDate(columns, row, PlantOutColumn, 0)
    ensures r.Some? ==> r.value.harvestDate == FirstDate(columns, row, HarvestColumn, 0)
    ensures r.Some? ==> r.value.year == year
  {
    if Falsy(plantType) then None
    else match PlantNames.MapPlantId(plantType)
      case None => None
      case Some(plantId) =>
        var bed := At(row, 2);
        var dates := ScanDates(columns, row, 0, Dates(None, None, None));
        ScanDatesFirst(columns, row, 0, Dates(None, None, None));
        Some(RawPlanting(
          plantId,
          Text.Strip(At(row, 1).text),
          if bed.Filled? then Some(Text.Strip(bed.text)) else None,
          dates.sow,
          dates.transplant,
          dates.harvest,
          year))
  }

  /** The loop of `parse_plantings` from row `i` on, with `lastType` the `last_type` carried so far. */
  function ScanPlantings(columns: seq<string>, rows: seq<seq<Cell>>, year: int, i: nat, lastType: Option<string>): (r: seq<RawPlanting>)
    requires i <= |rows|
    ensures |r| <= |rows| - i
    decreases |rows| - i
  {
    if i == |rows| then []
    else if i < 2 then ScanPlantings(columns, rows, year, i + 1, lastType)
    else
      var row := rows[i];
      if At(row, 1).Blank? then ScanPlantings(columns, rows, year, i + 1, lastType)
      else
        var kind := At(row, 0);
        var plantType := if kind.Filled? then Some(kind.text) else lastType;
        var rest := ScanPlantings(columns, rows, year, i + 1, plantType);
        match PlantingOfRow(columns, row, plantType, year)
        case None => rest
        case Some(p) => [p] + rest
  }

  /**
   * `parse_plantings(df, year)`. Type, Variety and Bed are the first three
   * columns. With fewer than two columns the source raises as soon as it
   * reaches the third row; with two it raises at the first row from index 2 on
   * that has a variety and a type that maps, because it reads the third column
   * only then. The model asks for three columns or at most two rows, which
   * leaves out the two-column sheets the source gets through.
   */
  function ParsePlantings(sheet: Sheet, year: int): (r: seq<RawPlanting>)
    requires |sheet.columns| >= 3 || |sheet.rows| <= 2
    ensures |r| <= |sheet.rows|
  {
    ScanPlantingsIsRowByRow(sheet, year, 0);
    ScanPlantings(sheet.columns, sheet.rows, year, 0, None)
  }

  /** What calendar row `n` contributes on its own, with the carried type found by the backward search. */
  function PlantingAt(sheet: Sheet, n: nat, year: int): (r: Option<RawPlanting>)
    requires n < |sheet.rows|
    ensures n < 2 ==> r.None?
    ensures At(sheet.rows[n], 1).Blank? ==> r.None?
    ensures r.Some? ==> PlantNames.MapPlantId(TypeAt(PlantingLines(sheet), n)) == Some(r.value.plantId)
  {
    var row := sheet.rows[n];
    if n < 2 || At(row, 1).Blank? then None
    else PlantingOfRow(sheet.columns, row, TypeAt(PlantingLines(sheet), n), year)
  }

  function PlantingsFrom(sheet: Sheet, n: nat, year: int): (r: seq<RawPlanting>)
    requires n <= |sheet.rows|
    ensures |r| <= |sheet.rows| - n
    decreases |sheet.rows| - n
  {
    if n == |sheet.rows| then []
    else
      var rest := PlantingsFrom(sheet, n + 1, year);
      match PlantingAt(sheet, n, year)
      case None => rest
      case Some(p) => [p] + rest
  }

  /**
   * The `last_type` that `parse_plantings` carries is the backward-search
   * carried type over the rows from index 2 on, so its output is, in row order,
   * exactly the records of the rows judged one by one.
   */
  lemma {:induction false} ScanPlantingsIsRowByRow(sheet: Sheet, year: int, i: nat)
    requires i <= |sheet.rows|
    ensures ScanPlantings(sheet.columns, sheet.rows, year, i, CarriedInto(PlantingLines(sheet), i))
            == PlantingsFrom(sheet, i, year)
    decreases |sheet.rows| - i
  {
    if i < |sheet.rows| {
      CarriedPastRow(sheet, i);
      ScanPlantingsIsRowByRow(sheet, year, i + 1);
    }
  }

  /** A calendar row with a variety passes its type on; any other row passes on what it was given. */
  lemma CarriedPastRow(sheet: Sheet, i: nat)
    requires i < |sheet.rows|
    ensures var lines := PlantingLines(sheet);
            CarriedInto(lines, i + 1) == if i >= 2 && At(sheet.rows[i], 1).Filled? then TypeAt(lines, i) else CarriedInto(lines, i)
  {
  }

  lemma ParsePlantingsIsRowByRow(sheet: Sheet, year: int)
    requires |sheet.columns| >= 3 || |sheet.rows| <= 2
    ensures ParsePlantings(sheet, year) == PlantingsFrom(sheet, 0, year)
  {
    ScanPlantingsIsRowByRow(sheet, year, 0);
  }

  /** Every record of the row-by-row reading comes from one row at or after `n`. */
  lemma {:induction false} PlantingsFromRows(sheet: Sheet, n: nat, year: int)
    requires n <= |sheet.rows|
    ensures forall p :: p in PlantingsFrom(sheet, n, year) ==> exists m :: n <= m < |sheet.rows| && PlantingAt(sheet, m, year) == Some(p)
    decreases |sheet.rows| - n
  {
    if n < |sheet.rows| {
      PlantingsFromRows(sheet, n + 1, year);
    }
  }

  /**
   * Every record `parse_plantings` emits comes from one row at index 2 or
   * later that has a variety, carries the sheet's year, and has a plant id of
   * the table.
   */
  lemma ParsedPlantingsKnown(sheet: Sheet, year: int)
    requires |sheet.columns| >= 3 || |sheet.rows| <= 2
    ensures forall p :: p in ParsePlantings(sheet, year) ==>
              exists m :: 2 <= m < |sheet.rows| && At(sheet.rows[m], 1).Filled? && PlantingAt(sheet, m, year) == Some(p)
    ensures forall p :: p in ParsePlantings(sheet, year) ==> p.year == year && p.plantId in Tables.PlantMappings.Values
  {
    ParsePlantingsIsRowByRow(sheet, year);
    PlantingsFromRows(sheet, 0, year);
    forall p | p in ParsePlantings(sheet, year) ensures p.year == year && p.plantId in Tables.PlantMappings.Values {
      var m :| 0 <= m < |sheet.rows| && PlantingAt(sheet, m, year) == Some(p);
    }
  }
}
