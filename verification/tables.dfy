/** The two lookup tables of the converter, entry for entry. */
module Tables {

  /**
   * Free-text plant names (already normalised) to plant ids. The table is
   * written as the union of blocks of ten entries, in the order of the
   * script's `PLANT_MAPPINGS`, so that the verifier can unfold each block.
   */
  const PlantMappings: map<string, string> := PlantMappings1 + PlantMappings2 + PlantMappings3 + PlantMappings4 + PlantMappings5 + PlantMappings6 + PlantMappings7

  const PlantMappings1: map<string, string> := map[
    "peas" := "peas",
    "pea" := "peas",
    "beans" := "broad-beans",
    "beans & peas" := "broad-beans",
    "broad bean 'ratio'" := "broad-beans",
    "french beans" := "french-beans",
    "french borlotti stokkievitsboon" := "french-beans",
    "onions" := "onion",
    "onion" := "onion",
    "onion electric (red autumn)" := "onion"
  ]

  const PlantMappings2: map<string, string> := map[
    "onion senshyu (white autumn)" := "onion",
    "white senshyn" := "onion",
    "red electric" := "onion",
    "onion 'centurion'" := "onion",
    "spring onion 'lilia'" := "spring-onions",
    "spring onion parade (organic)" := "spring-onions",
    "onion (spring) keravel pink" := "spring-onions",
    "potatoes" := "potato",
    "potato" := "potato",
    "potatoes (early)" := "potato"
  ]

  const PlantMappings3: map<string, string> := map[
    "charlotte seed" := "potato",
    "heidi red seed" := "potato",
    "organic colleen" := "potato",
    "organic setanta" := "potato",
    "garlic" := "garlic",
    "garlic (autumn) kingsland" := "garlic",
    "garlic 'flavor'" := "garlic",
    "caulk wight (hardneck)" := "garlic",
    "leeks" := "leek",
    "leek" := "leek"
  ]

  const PlantMappings4: map<string, string> := map[
    "lancelot" := "leek",
    "leeks seeds tape" := "leek",
    "carrots" := "carrot",
    "carrot" := "carrot",
    "carrot nantes 2 (organic)" := "carrot",
    "beetroot" := "beetroot",
    "courgettes" := "courgette",
    "courgette" := "courgette",
    "courguette" := "courgette",
    "wave climber" := "courgette"
  ]

  const PlantMappings5: map<string, string> := map[
    "cauliflower" := "cauliflower",
    "pak choi" := "pak-choi",
    "pak choi baby" := "pak-choi",
    "lettuce" := "lettuce",
    "spinach" := "spinach",
    "chard" := "chard",
    "rainbow chard" := "chard",
    "strawberries" := "strawberry",
    "strawberry" := "strawberry",
    "broccoli" := "broccoli"
  ]

  const PlantMappings6: map<string, string> := map[
    "cornflower" := "cornflower",
    "cornflower 'blue diadem'" := "cornflower",
    "cosmos" := "cosmos",
    "cosmos 'sonata mixed'" := "cosmos",
    "calendula" := "calendula",
    "pumpkin" := "pumpkin",
    "sweetcorn" := "sweetcorn",
    "spinach 'palco' f1" := "spinach",
    "sweet pea 'old fashioned mixed'" := "sweet-pea",
    "sweet pea" := "sweet-pea"
  ]

  const PlantMappings7: map<string, string> := map[
    "red - marigold (afro-french) 'zenith mixed' f1" := "marigold",
    "marigold (dwarf french) 'disco'" := "marigold",
    "marigold" := "marigold",
    "sunflower 'medium red flower'" := "sunflower",
    "sunflower" := "sunflower",
    "zinnia 'dahlia flowered mixed'" := "zinnia",
    "zinnia" := "zinnia",
    "lupin" := "lupin",
    "nasturtium" := "nasturtium"
  ]

  /** Spreadsheet bed labels to the application's bed ids. */
  const BedMapping: map<string, string> := map[
    "A" := "A",
    "C" := "C",
    "C/B" := "C",
    "D" := "D",
    "B" := "B1"
  ]

  /** No key or value of the plant table is empty, so Python's `if not plant_id` only rejects a failed lookup. */
  lemma PlantMappingsNonEmpty()
    ensures NoEmpty(PlantMappings)
  {
    var m := PlantMappings1;
    Block1Checked();
    Block2Checked();
    UnionNoEmpty(m, PlantMappings2);
    m := m + PlantMappings2;
    Block3Checked();
    UnionNoEmpty(m, PlantMappings3);
    m := m + PlantMappings3;
    Block4Checked();
    UnionNoEmpty(m, PlantMappings4);
    m := m + PlantMappings4;
    Block5Checked();
    UnionNoEmpty(m, PlantMappings5);
    m := m + PlantMappings5;
    Block6Checked();
    UnionNoEmpty(m, PlantMappings6);
    m := m + PlantMappings6;
    Block7Checked();
    UnionNoEmpty(m, PlantMappings7);
    m := m + PlantMappings7;
    assert m == PlantMappings;
  }

  /** Every bed id is non-empty, so Python's `if not bed_id` only rejects a failed lookup. */
  lemma BedMappingNonEmpty()
    ensures forall k :: k in BedMapping ==> BedMapping[k] != ""
  {
  }

  /** Each block has no empty key or value, and only values of `PlantIds`. */
  lemma Block1Checked()
    ensures NoEmpty(PlantMappings1) && ValuesIn(PlantMappings1)
  {
  }

  lemma Block2Checked()
    ensures NoEmpty(PlantMappings2) && ValuesIn(PlantMappings2)
  {
  }

  lemma Block3Checked()
    ensures NoEmpty(PlantMappings3) && ValuesIn(PlantMappings3)
  {
  }

  lemma Block4Checked()
    ensures NoEmpty(PlantMappings4) && ValuesIn(PlantMappings4)
  {
  }

  lemma Block5Checked()
    ensures NoEmpty(PlantMappings5) && ValuesIn(PlantMappings5)
  {
  }

  lemma Block6Checked()
    ensures NoEmpty(PlantMappings6) && ValuesIn(PlantMappings6)
  {
  }

  lemma Block7Checked()
    ensures NoEmpty(PlantMappings7) && ValuesIn(PlantMappings7)
  {
  }

  /** The plant ids the table can produce. */
  const PlantIds: set<string> := {
    "peas", "broad-beans", "french-beans", "onion", "spring-onions", "potato", "garlic", "leek",
    "carrot", "beetroot", "courgette", "cauliflower", "pak-choi", "lettuce", "spinach", "chard",
    "strawberry", "broccoli", "cornflower", "cosmos", "calendula", "pumpkin", "sweetcorn",
    "sweet-pea", "marigold", "sunflower", "zinnia", "lupin", "nasturtium"
  }

  /** Every value of the plant table is one of `PlantIds`. */
  lemma PlantMappingsValues()
    ensures ValuesIn(PlantMappings)
  {
    var m := PlantMappings1;
    Block1Checked();
    Block2Checked();
    UnionValuesIn(m, PlantMappings2);
    m := m + PlantMappings2;
    Block3Checked();
    UnionValuesIn(m, PlantMappings3);
    m := m + PlantMappings3;
    Block4Checked();
    UnionValuesIn(m, PlantMappings4);
    m := m + PlantMappings4;
    Block5Checked();
    UnionValuesIn(m, PlantMappings5);
    m := m + PlantMappings5;
    Block6Checked();
    UnionValuesIn(m, PlantMappings6);
    m := m + PlantMappings6;
    Block7Checked();
    UnionValuesIn(m, PlantMappings7);
    m := m + PlantMappings7;
    assert m == PlantMappings;
  }

  lemma UnionValuesIn(a: map<string, string>, b: map<string, string>)
    requires ValuesIn(a) && ValuesIn(b)
    ensures ValuesIn(a + b)
  {
  }

  /** Every value of `m` is one of `PlantIds`. */
  ghost predicate ValuesIn(m: map<string, string>) {
    forall k :: k in m ==> m[k] in PlantIds
  }

  /** Neither the empty string nor a value equal to it occurs in `m`. */
  ghost predicate NoEmpty(m: map<string, string>) {
    "" !in m && forall k :: k in m ==> m[k] != ""
  }

  lemma UnionNoEmpty(a: map<string, string>, b: map<string, string>)
    requires NoEmpty(a) && NoEmpty(b)
    ensures NoEmpty(a + b)
  {
  }
}
