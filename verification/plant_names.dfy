/** `normalize_plant_name` and `map_plant_id`: free-text plant names to plant ids. */
module PlantNames {
  import opened Wrappers
  import Text
  import Tables

  /**
   * `normalize_plant_name`: a missing cell stays missing; otherwise the text is
   * lower-cased, stripped, and each pair of spaces is replaced by one space
   * in a single pass.
   */
  function Normalize(name: Option<string>): (r: Option<string>)
    ensures r.None? <==> name.None?
    ensures r.Some? ==> |r.value| <= |name.value|
    ensures r.Some? ==> Text.Stripped(r.value)
    ensures r.Some? ==> forall i :: 0 <= i < |r.value| ==> !Text.IsUpper(r.value[i])
    ensures r.Some? ==> Text.Visible(r.value) == Text.Lower(Text.Visible(name.value))
  {
    match name
    case None => None
    case Some(s) =>
      NormalizedLength(s);
      NormalizedStripped(s);
      NormalizedLower(s);
      NormalizedVisible(s);
      Some(Text.CollapseSpacePairs(Text.Strip(Text.Lower(s))))
  }

  lemma NormalizedLength(s: string)
    ensures |Text.CollapseSpacePairs(Text.Strip(Text.Lower(s)))| <= |s|
  {
  }

  lemma NormalizedStripped(s: string)
    ensures Text.Stripped(Text.CollapseSpacePairs(Text.Strip(Text.Lower(s))))
  {
    Text.CollapseKeepsStripped(Text.Strip(Text.Lower(s)));
  }

  lemma NormalizedLower(s: string)
    ensures var r := Text.CollapseSpacePairs(Text.Strip(Text.Lower(s)));
            forall i :: 0 <= i < |r| ==> !Text.IsUpper(r[i])
  {
    var lowered := Text.Lower(s);
    var stripped := Text.Strip(lowered);
    assert forall c :: c in stripped ==> c in lowered;
  }

  lemma NormalizedVisible(s: string)
    ensures Text.Visible(Text.CollapseSpacePairs(Text.Strip(Text.Lower(s)))) == Text.Lower(Text.Visible(s))
  {
    Text.LowerKeepsVisible(s);
    Text.StripKeepsVisible(Text.Lower(s));
    Text.CollapseKeepsVisible(Text.Strip(Text.Lower(s)));
  }

  /** The key the fallback lookup uses: the text before the first `(`, stripped. */
  function FallbackKey(normalized: string): (k: string)
    ensures |k| <= |normalized|
    ensures '(' !in k
    ensures '(' !in normalized && Text.Stripped(normalized) ==> k == normalized
  {
    Text.Strip(Text.Before(normalized, '('))
  }

  /**
   * `map_plant_id`: look the normalised name up exactly; if that fails, look up
   * the part before the first `(`; otherwise there is no plant id.
   */
  function MapPlantId(typeName: Option<string>): (r: Option<string>)
    ensures r.Some? ==> r.value in Tables.PlantMappings.Values
    ensures r.Some? ==> typeName.Some?
    ensures typeName.Some? && Normalize(typeName).value in Tables.PlantMappings ==>
              r == Some(Tables.PlantMappings[Normalize(typeName).value])
    ensures typeName.Some? && '(' !in Normalize(typeName).value ==>
              (r.Some? <==> Normalize(typeName).value in Tables.PlantMappings)
  {
    Tables.PlantMappingsNonEmpty();
    var normalized := Normalize(typeName);
    if normalized.None? || normalized.value == "" then None
    else if normalized.value in Tables.PlantMappings then Some(Tables.PlantMappings[normalized.value])
    else
      var cleaned := FallbackKey(normalized.value);
      if cleaned in Tables.PlantMappings then Some(Tables.PlantMappings[cleaned]) else None
  }

  /** When the exact lookup fails, the answer is the lookup of the fallback key, which needs a `(` to differ. */
  lemma FallbackLookup(typeName: Option<string>)
    requires typeName.Some?
    requires Normalize(typeName).value !in Tables.PlantMappings
    ensures var k := FallbackKey(Normalize(typeName).value);
            MapPlantId(typeName) == (if k in Tables.PlantMappings then Some(Tables.PlantMappings[k]) else None)
  {
    Tables.PlantMappingsNonEmpty();
  }

  /** On text that is already lower-case and stripped, normalising only collapses pairs of spaces. */
  lemma NormalizeClean(s: string)
    requires forall i :: 0 <= i < |s| ==> !Text.IsUpper(s[i])
    requires Text.Stripped(s)
    ensures Normalize(Some(s)) == Some(Text.CollapseSpacePairs(s))
  {
    Text.LowerUnchanged(s);
  }

  /** The double-space replacement is a single pass, so normalising twice can change the result. */
  lemma NormalizeNotIdempotent()
    ensures Normalize(Some("a   b")) == Some("a  b")
    ensures Normalize(Normalize(Some("a   b"))) == Some("a b")
  {
    CleanExample("a   b");
    CleanExample("a  b");
    CollapseExamples();
    NormalizeClean("a   b");
    NormalizeClean("a  b");
  }

  lemma CleanExample(s: string)
    requires s == "a   b" || s == "a  b"
    ensures Text.Stripped(s)
    ensures forall i :: 0 <= i < |s| ==> !Text.IsUpper(s[i])
  {
  }

  lemma CollapseExamples()
    ensures Text.CollapseSpacePairs("a   b") == "a  b"
    ensures Text.CollapseSpacePairs("a  b") == "a b"
  {
    calc {
      Text.CollapseSpacePairs("a   b");
      "a" + Text.CollapseSpacePairs("   b");
      "a" + (" " + Text.CollapseSpacePairs(" b"));
      "a  b";
    }
    calc {
      Text.CollapseSpacePairs("a  b");
      "a" + Text.CollapseSpacePairs("  b");
      "a" + (" " + Text.CollapseSpacePairs("b"));
      "a b";
    }
  }
}
