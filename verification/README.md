# excel-to-backup, modelled in Dafny

`scripts/excel-to-backup.py` converts an allotment-planning workbook into the
JSON backup document of the allotment application. It reads four sheets:

- two "To grow" sheets, one per year, listing the seed varieties;
- two "Sowing calendar" sheets listing the plantings, with their beds and dates.

The converter maps free-text plant types to canonical plant ids through a
fixed table. A row with no Type inherits the last Type seen. Varieties are
merged into one catalogue entry per (plant id, name). Plantings are grouped
by year and then by bed, and each bed is labelled with the crop-rotation group
most of its plantings vote for.

This project models the pure core of that script and proves what it computes.
The modules follow the script's structure:

| module | models |
|---|---|
| `Tables` | `PLANT_MAPPINGS` and `BED_MAPPING`, entry for entry |
| `Text`, `Sorting` | `str.lower` (ASCII), `str.strip`, `replace('  ', ' ')`, `split('(')[0]`, `in` on strings, string order, `sorted(set(...))` |
| `PlantNames` | `normalize_plant_name`, `map_plant_id` |
| `Sheets` | a sheet as pandas presents it; the carry-forward rule for Type |
| `Parsing` | `parse_varieties`, `parse_plantings` |
| `Catalog` | the `variety_map` loop and `varieties_output` |
| `Rotation` | `infer_rotation_group` |
| `Seasons` | the `seasons_map` loop and `seasons_output` |
| `Backup` | `main` without its I/O: which sheets feed which year, `currentYear`, the document's data |
| `Dict` | Python's insertion-ordered `dict` as an association list |
| `Ids` | `generate_id` |

Each loop is modelled as a recursive function that visits the input in the
Python loop's order. Each such function is related by an all-inputs lemma to an
independent reference definition: for example, "the first record with this
key", "the last record for this year", "the Type of the nearest earlier typed
row", or "the votes for this group".

## Model

| member | source | states |
|---|---|---|
| `Tables.PlantMappingsNonEmpty` | scripts/excel-to-backup.py:21-91 | no key or value of the plant table is empty, so `if not plant_id` only rejects a failed lookup |
| `Tables.PlantMappingsValues` | scripts/excel-to-backup.py:21-91 | every value of the plant table is one of its 29 plant ids |
| `Tables.BedMappingNonEmpty` | scripts/excel-to-backup.py:94-100 | every bed id of the bed table is non-empty |
| `Text.Lower` | scripts/excel-to-backup.py:110 | lower-casing keeps the length, leaves no upper-case letter, and maps each character on its own |
| `Text.Strip` | scripts/excel-to-backup.py:110 | the result has no whitespace at either end, is a contiguous piece of the input with only whitespace cut off, and leaves already-stripped text alone |
| `Text.CollapseSpacePairs` | scripts/excel-to-backup.py:110 | the replacement never lengthens the text, keeps a non-space first and last character, and adds no new character |
| `Text.CollapseSpacePairsKeepsText` | scripts/excel-to-backup.py:110 | with the spaces taken out, the replaced text equals the input; text with no two adjacent spaces is left unchanged |
| `Text.CollapseRun` | scripts/excel-to-backup.py:110 | a run of `n` spaces becomes `(n + 1) / 2` spaces: one per non-overlapping pair, plus the odd one left over, so three spaces become two |
| `Text.CollapseSplit` | scripts/excel-to-backup.py:110 | the replacement can be applied piece by piece: for any split `x + y` where `y` starts with a character other than a space, the result is the replacement of `x` followed by the replacement of `y` |
| `Text.CollapseSplitAfter` | scripts/excel-to-backup.py:110 | the same holds for any split `x + y` where `x` ends with a character other than a space. Cutting before and after every non-space character leaves single characters and maximal runs of spaces. `CollapseRun` fixes each run and `CollapseSpacePairsKeepsText` fixes each character, so together they fix the result of every input, e.g. `"a   b"` becomes `"a  b"` |
| `Text.CollapseKeepsVisible` | scripts/excel-to-backup.py:110 | the replacement changes no non-whitespace character and does not reorder them |
| `Text.StripKeepsVisible` | scripts/excel-to-backup.py:110 | stripping changes no non-whitespace character and does not reorder them |
| `Text.LowerKeepsVisible` | scripts/excel-to-backup.py:110 | lower-casing, then dropping whitespace, gives the same result as dropping whitespace, then lower-casing |
| `Text.Before` | scripts/excel-to-backup.py:118 | `split('(')[0]` is the longest prefix without `(`: it stops at the first `(`, or is the whole text when there is none |
| `Text.ContainsIff` | scripts/excel-to-backup.py:180-186 | substring test holds exactly when the needle occurs at some position |
| `Text.LessTotal` | scripts/excel-to-backup.py:308 | Python's string order is total |
| `Text.LessTransitive` | scripts/excel-to-backup.py:308 | Python's string order is transitive |
| `Sorting.SortInts` | scripts/excel-to-backup.py:247 | `sorted(set(xs))` is strictly increasing and has exactly the elements of `xs` |
| `Sorting.SortStrings` | scripts/excel-to-backup.py:308 | sorting the bed ids gives a strictly increasing list of exactly those ids |
| `Sorting.IncreasingUnique` | scripts/excel-to-backup.py:306 | two strictly increasing lists with the same elements are equal, so the sorted order is unique |
| `PlantNames.Normalize` | scripts/excel-to-backup.py:107-110 | a missing name stays missing; otherwise the result is no longer than the input, stripped, and has no upper-case letter, and apart from whitespace it is the lower-cased name, character for character |
| `PlantNames.NormalizeClean` | scripts/excel-to-backup.py:110 | on lower-case, stripped text, normalising only replaces pairs of spaces |
| `PlantNames.NormalizeNotIdempotent` | scripts/excel-to-backup.py:110 | the pair replacement is one pass: three spaces become two, so normalising twice differs from normalising once |
| `PlantNames.FallbackKey` | scripts/excel-to-backup.py:118 | the fallback key has no `(`, and is the name itself when the name has no `(` |
| `PlantNames.MapPlantId` | scripts/excel-to-backup.py:112-121 | a found id is a value of the table; an exact hit wins; without a `(` the name maps exactly when it is a key of the table |
| `PlantNames.FallbackLookup` | scripts/excel-to-backup.py:118-121 | when the exact lookup misses, the answer is the table's entry for the text before the first `(`, or nothing |
| `Sheets.ColumnOf` | scripts/excel-to-backup.py:127-129 | a column label is found at its first position, and is missing exactly when the sheet has no such label |
| `Sheets.Get` | scripts/excel-to-backup.py:127-129 | `row.get` of a label the sheet lacks is a missing cell |
| `Sheets.CarriedIntoIsLatest` | scripts/excel-to-backup.py:126-133 | `last_type` is missing exactly when no earlier row had both a Variety and a Type; otherwise it is the Type of the latest such row |
| `Sheets.TypeAt` | scripts/excel-to-backup.py:129-133 | a row's own Type takes precedence over the carried one |
| `Parsing.VarietyOfRow` | scripts/excel-to-backup.py:134-147 | a row yields a record exactly when its type is truthy and maps; the record carries the mapped id, the stripped name and supplier, the Price as a number when present and otherwise none, `arrived` true exactly when an Arrived cell is present and truthy, and the sheet's year |
| `Parsing.ParseVarieties` | scripts/excel-to-backup.py:123-148 | at most one record per row |
| `Parsing.ParseVarietiesIsRowByRow` | scripts/excel-to-backup.py:123-148 | the output of the forward loop with its carried `last_type` is, in row order, the records of each row judged on its own with the backward-searched Type |
| `Parsing.VarietyAt` | scripts/excel-to-backup.py:127-139 | a row contributes only when it has a Variety, and then its id is the mapping of its effective Type |
| `Parsing.ParsedVarietiesKnown` | scripts/excel-to-backup.py:123-148 | every emitted record comes from one row, has the sheet's year, and names a plant id of the table |
| `Parsing.KindOf` | scripts/excel-to-backup.py:179-188 | a header mentioning sow, january or february is a sowing column; otherwise plant means plant-out, and only then harvest means harvest |
| `Parsing.FirstDate` | scripts/excel-to-backup.py:176-188 | the slot's date is missing exactly when no column of that kind holds a date, and otherwise comes from the first such column |
| `Parsing.ScanDatesSlot` | scripts/excel-to-backup.py:176-188 | one date slot through the column loop: kept when already filled, else the first date of its kind |
| `Parsing.ScanDatesFirst` | scripts/excel-to-backup.py:173-188 | the column loop never overwrites a filled slot and fills each empty slot with the first date of its kind |
| `Parsing.PlantingOfRow` | scripts/excel-to-backup.py:166-197 | a calendar row yields a record exactly when its type is truthy and maps; the record has the mapped id, the stripped variety, the stripped third cell as bed when present and otherwise none, the three first-matching dates and the sheet's year |
| `Parsing.ParsePlantings` | scripts/excel-to-backup.py:150-198 | at most one record per row |
| `Parsing.PlantingAt` | scripts/excel-to-backup.py:153-170 | the first two rows and rows without a variety contribute nothing; otherwise the id is the mapping of the effective Type |
| `Parsing.ParsePlantingsIsRowByRow` | scripts/excel-to-backup.py:150-198 | the forward loop's output is, in row order, the records of each row judged on its own with the backward-searched Type, the first two rows never setting it |
| `Parsing.ParsedPlantingsKnown` | scripts/excel-to-backup.py:150-198 | every emitted record comes from one row at index 2 or later that has a variety, has the sheet's year, and names a plant id of the table |
| `Catalog.First` | scripts/excel-to-backup.py:231-237 | the position of the first record with a key, or none when no record has it |
| `Catalog.YearsOf` | scripts/excel-to-backup.py:242 | the years appended under a key are the years of the records with that key |
| `Catalog.LastStatus` | scripts/excel-to-backup.py:243 | the seed status of a (key, year) is that of the last record for it, and is missing exactly when no record matches |
| `Catalog.CollectFaithful` | scripts/excel-to-backup.py:228-243 | `variety_map` has the distinct keys in first-occurrence order; each entry's plant id, name, supplier and price come from its first record, its id is fresh, its years are its records' years, and each year's status is the last one |
| `Catalog.Finish` | scripts/excel-to-backup.py:247 | `yearsUsed` becomes strictly increasing with the same years |
| `Catalog.VarietiesOutput` | scripts/excel-to-backup.py:245-249 | one output variety per distinct (plant id, name), in first-occurrence order, each with its first record's fields, the sorted set of its years, empty `plannedYears` and the last status per year |
| `Catalog.VarietyIdsDistinct` | scripts/excel-to-backup.py:233 | no two output varieties share an id |
| `Catalog.SeedsByYearNeverEmpty` | scripts/excel-to-backup.py:248 | no entry's `seedsByYear` or `yearsUsed` is empty, so the `{}` filter never removes a field |
| `Rotation.CountKeys` | scripts/excel-to-backup.py:282-300 | `group_counts` has one key per group voted for, in order of first vote |
| `Rotation.CountVotes` | scripts/excel-to-backup.py:300 | each group's count is its number of votes |
| `Rotation.BestFrom` | scripts/excel-to-backup.py:303 | `max(..., key=...)` returns a key with the highest count, and every earlier key has a strictly lower count |
| `Rotation.TableGroups` | scripts/excel-to-backup.py:286-299 | no plant id of the table votes solanaceae; a table plant votes roots exactly when it is potato, carrot, beetroot or one of the 15 ids outside every family list |
| `Rotation.MappedPlantGroups` | scripts/excel-to-backup.py:286-299 | any plant id `map_plant_id` returns votes as `TableGroups` says |
| `Rotation.InferRotationGroup` | scripts/excel-to-backup.py:301-302 | a bed with no plantings is roots |
| `Rotation.MajorityIsPlurality` | scripts/excel-to-backup.py:280-303 | with votes, the group is one voted for, no group has more votes, and among groups with as many votes it is the first voted for |
| `Rotation.Unanimous` | scripts/excel-to-backup.py:280-303 | when every planting votes for the same group, that group wins |
| `Seasons.BedOfIsLookup` | scripts/excel-to-backup.py:255-257 | a planting is kept exactly when its bed label is in the bed table, and then its bed is the table's entry |
| `Seasons.ToPlanting` | scripts/excel-to-backup.py:264-275 | the planting gets its own id and the plant id; the variety name is kept exactly when non-empty; the dates are copied |
| `Seasons.KeptYears` | scripts/excel-to-backup.py:253-260 | the years that get a season are those of the kept plantings |
| `Seasons.KeptBeds` | scripts/excel-to-backup.py:255-262 | the beds of a year are those its kept plantings map to |
| `Seasons.SeasonsMapFaithful` | scripts/excel-to-backup.py:252-277 | `seasons_map` has the kept years in first-occurrence order; each year's beds are its kept beds in first-occurrence order; each bed lists its plantings in input order |
| `Seasons.InBedMembers` | scripts/excel-to-backup.py:264-277 | a bed's list holds exactly the plantings built from the raw plantings kept for it |
| `Seasons.InBedInOrder` | scripts/excel-to-backup.py:277 | a bed's list keeps input order |
| `Seasons.BedOutput` | scripts/excel-to-backup.py:309-314 | each output bed lists its plantings, is non-empty, and is labelled by their rotation vote |
| `Seasons.BedIdsOutput` | scripts/excel-to-backup.py:308 | the sorted bed ids of a year are exactly the beds some planting of that year went to |
| `Seasons.SeasonOutput` | scripts/excel-to-backup.py:307-323 | a season is "historical", noted "Imported from Excel", stamped `now`, with its beds in increasing id order |
| `Seasons.SeasonsOutput` | scripts/excel-to-backup.py:305-323 | one season per year that kept a planting, in strictly increasing year order, each faithful to its plantings |
| `Seasons.KeptPlantingPlacedOnce` | scripts/excel-to-backup.py:252-323 | every kept planting appears in the bed its label maps to in its year's season, and any bed it appears in is that one |
| `Backup.Max` | scripts/excel-to-backup.py:351 | `max` returns an element that no element exceeds |
| `Backup.MaxIsLast` | scripts/excel-to-backup.py:351 | the maximum of the years is the last of them in increasing order |
| `Backup.Convert` | scripts/excel-to-backup.py:325-364 | the document has versions 5, 2 and 5 and is stamped `now`; its seasons are built from the two calendar sheets and its varieties from the two "To grow" sheets; `currentYear` is the year of the last season, or 2025 when there is none; every season is for 2024 or 2025; every variety's plant id is a value of the plant table, and it was used only in 2024 or 2025 |
| `Backup.CurrentYearIsLastSeason` | scripts/excel-to-backup.py:351 | `max(seasons_map.keys())`, or 2025 for an empty map, is the year of the last season `seasons_output` writes, or 2025 when it writes none |
| `Backup.NoSheetsNoData` | scripts/excel-to-backup.py:215-225 | without any of the four sheets there are no seasons or varieties and the current year is 2025 |
| `Backup.RawVarietiesKnown` | scripts/excel-to-backup.py:215-225 | every raw variety of the two "To grow" sheets is for 2024 or 2025 and names a plant id of the table |
| `Backup.RawPlantingsKnown` | scripts/excel-to-backup.py:215-225 | every raw planting of the two calendar sheets is for 2024 or 2025 and names a plant id of the table |
| `Backup.SeasonsFromSheetYears` | scripts/excel-to-backup.py:215-323 | every season built from the plantings of the two calendar sheets is for 2024 or 2025 |
| `Backup.VarietiesFromSheetYears` | scripts/excel-to-backup.py:215-249 | every variety built from the two "To grow" sheets names a plant id of the table and was used only in 2024 or 2025 |
| `Backup.VarietiesFromKnownRecords` | scripts/excel-to-backup.py:226-249 | building `variety_map` keeps plant ids and years: raw records for 2024 or 2025 with table plant ids give varieties that name a table plant id and were used only in 2024 or 2025 |

## Left out

- Reading the workbook with pandas (`read_excel`), `json.dump`, the command-line arguments and the messages on standard error are I/O. A workbook is a map from sheet names to already-read sheets. A cell is either missing (`pd.isna`) or carries its `str`, `float` and `bool` values and, when it is a timestamp, its day.
- `generate_id` draws 8 random characters. The model gives each id a prefix and a serial number that no other id of the same kind has. A variety's serial is its position in `variety_map`. A planting's serial is its position in `all_plantings_raw`, so the serials of the kept plantings are not consecutive.
- `datetime.now()` and `strftime` are not modelled. The timestamp `now` is a parameter. A date is an abstract day that stands for its `%Y-%m-%d` text.
- `float()` and `bool()` conversions are not modelled beyond the values a cell carries, so `float` raising on text in a Price cell is not modelled.
- `str.lower` is modelled for ASCII letters only, because the model does no Unicode case mapping.
- The fixed layout, meta, `permanentPlantings`, `infrastructure` and `maintenanceTasks` parts of the document are constants and are not modelled.
- The order of keys inside the JSON objects is not modelled. A field the script leaves out of a planting dict is a `None` field.
- Parsing.ParsePlantings: requires at least three columns or at most two rows. The script also survives a two-column sheet whose rows from index 2 on never yield a mapped type, because it reads the third column only after mapping. The model excludes that case.
- Backup.PlantingsRaw: inherits the same requirement for both calendar sheets through `CalendarsReadable`, so the same two-column sheets are left out.
- Backup.Convert: inherits the same requirement through `CalendarsReadable`, so a workbook with such a two-column calendar sheet is left out.
- Parsing.Falsy: `if not plant_type` is modelled as a missing or empty Type. A numeric zero Type is also falsy in Python, and such a Type would not map to a plant id anyway.
- Duplicate column labels, for which pandas returns several cells for one `row.get`, are not modelled. A label is looked up at its first position.
- The console warning for an unmapped plant name is output only and is not modelled.
