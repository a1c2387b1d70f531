/**
 * `infer_rotation_group`: each planting's plant id votes for a crop rotation
 * group and the group with the most votes names the bed.
 */
module Rotation {
  import opened Wrappers
  import opened Dict
  import Tables
  import PlantNames

  datatype Group = Legumes | Brassicas | Roots | Alliums | Cucurbits | Solanaceae

  /** The fixed plant-id lists, tried in order; anything else counts as roots. */
  function GroupOf(plantId: string): Group {
    if plantId in ["peas", "broad-beans", "french-beans", "runner-beans"] then Legumes
    else if plantId in ["cabbage", "kale", "broccoli", "cauliflower", "brussels-sprouts"] then Brassicas
    else if plantId in ["carrot", "beetroot", "parsnip", "potato", "turnip"] then Roots
    else if plantId in ["onion", "garlic", "leek", "spring-onions", "shallot"] then Alliums
    else if plantId in ["courgette", "pumpkin", "squash", "cucumber", "melon"] then Cucurbits
    else if plantId in ["tomato", "pepper", "aubergine", "chilli"] then Solanaceae
    else Roots
  }

  /**
   * How the plants of the plant table vote: no table plant is solanaceous,
   * and besides the three listed roots every plant outside the five other
   * family lists (pak choi and sweet pea among them) votes roots.
   */
  lemma TableGroups()
    ensures forall id :: id in Tables.PlantIds ==> GroupOf(id) != Solanaceae
    ensures forall id :: id in Tables.PlantIds ==> (GroupOf(id) == Roots <==> id in RootsVoters)
  {
    TableSplits();
    forall id | id in Tables.PlantIds
      ensures GroupOf(id) != Solanaceae && (GroupOf(id) == Roots <==> id in RootsVoters)
    {
      if id in RootsVoters {
        RootsVotersVoteRoots(id);
      } else {
        OtherVotersVoteOthers(id);
      }
    }
  }

  lemma RootsVotersVoteRoots(id: string)
    requires id in RootsVoters
    ensures GroupOf(id) == Roots
  {
    VoteRoots1();
    VoteRoots2();
    VoteRoots3();
    VoteRoots4();
  }

  lemma OtherVotersVoteOthers(id: string)
    requires id in OtherVoters
    ensures GroupOf(id) != Roots && GroupOf(id) != Solanaceae
  {
    VoteOthers1();
    VoteOthers2();
  }

  const RootsVoters: set<string> := {
    "potato", "carrot", "beetroot",
    "pak-choi", "lettuce", "spinach", "chard", "strawberry", "cornflower", "cosmos", "calendula",
    "sweetcorn", "sweet-pea", "marigold", "sunflower", "zinnia", "lupin", "nasturtium"
  }

  /** The table plants that vote neither roots nor solanaceae. */
  const OtherVoters: set<string> := {
    "peas", "broad-beans", "french-beans", "onion", "spring-onions", "garlic", "leek",
    "courgette", "pumpkin", "cauliflower", "broccoli"
  }

  lemma TableSplits()
    ensures Tables.PlantIds == RootsVoters + OtherVoters
  {
  }

  /** The votes of the table plants, a few at a time. */
  lemma VoteRoots1()
    ensures forall id :: id in ["potato", "carrot", "beetroot"] ==> GroupOf(id) == Roots
  {
  }

  lemma VoteRoots2()
    ensures forall id :: id in ["pak-choi", "lettuce", "spinach", "chard", "strawberry"] ==> GroupOf(id) == Roots
  {
  }

  lemma VoteRoots3()
    ensures forall id :: id in ["cornflower", "cosmos", "calendula", "sweetcorn", "sweet-pea"] ==> GroupOf(id) == Roots
  {
  }

  lemma VoteRoots4()
    ensures forall id :: id in ["marigold", "sunflower", "zinnia", "lupin", "nasturtium"] ==> GroupOf(id) == Roots
  {
  }

  lemma VoteOthers1()
    ensures forall id :: id in ["peas", "broad-beans", "french-beans", "onion", "spring-onions", "garlic"] ==>
              GroupOf(id) != Roots && GroupOf(id) != Solanaceae
  {
  }

  lemma VoteOthers2()
    ensures forall id :: id in ["leek", "courgette", "pumpkin", "cauliflower", "broccoli"] ==>
              GroupOf(id) != Roots && GroupOf(id) != Solanaceae
  {
  }

  /** The group every plant id the table can produce votes for, as `TableGroups` describes. */
  lemma MappedPlantGroups(typeName: Option<string>)
    requires PlantNames.MapPlantId(typeName).Some?
    ensures var id := PlantNames.MapPlantId(typeName).value;
            GroupOf(id) != Solanaceae && (GroupOf(id) == Roots <==> id in RootsVoters)
  {
    Tables.PlantMappingsValues();
    TableGroups();
  }

  /** `group_counts` after the votes `gs`. */
  function Count(gs: seq<Group>): (c: Dict<Group, int>)
    ensures Valid(c)
  {
    if gs == [] then Empty()
    else
      var c := Count(gs[..|gs| - 1]);
      var g := gs[|gs| - 1];
      Set(c, g, Get(c, g).GetOr(0) + 1)
  }

  /** `group_counts` has one key per group voted for, in order of first vote. */
  lemma {:induction false} CountKeys(gs: seq<Group>)
    ensures Keys(Count(gs)) == Distinct(gs)
  {
    if gs != [] {
      var p := gs[..|gs| - 1];
      CountKeys(p);
    }
  }

  /** One more vote adds one to its own group's count and leaves the other counts alone. */
  lemma CountStep(gs: seq<Group>, g: Group)
    requires gs != []
    ensures Get(Count(gs), g).GetOr(0) == Get(Count(gs[..|gs| - 1]), g).GetOr(0) + if gs[|gs| - 1] == g then 1 else 0
  {
    var c := Count(gs[..|gs| - 1]);
    var h := gs[|gs| - 1];
    var n := Get(c, h).GetOr(0) + 1;
    if h == g {
      assert Get(Set(c, h, n), g) == Some(n);
    } else {
      assert Get(Set(c, h, n), g) == Get(c, g);
    }
  }

  /** Each key of `group_counts` holds the number of votes for its group. */
  lemma {:induction false} CountVotes(gs: seq<Group>, g: Group)
    ensures Get(Count(gs), g).GetOr(0) == multiset(gs)[g]
  {
    if gs != [] {
      var p := gs[..|gs| - 1];
      assert gs == p + [gs[|gs| - 1]];
      assert multiset(gs) == multiset(p) + multiset{gs[|gs| - 1]};
      CountStep(gs, g);
      CountVotes(p, g);
    }
  }

  /**
   * Python's `max(d, key=d.get)` scanning `items` from position `i`, with
   * `best` the winner so far: a later key replaces it only on a strictly
   * higher count.
   */
  function BestFrom(items: seq<(Group, int)>, i: nat, best: nat): (b: nat)
    requires best < i <= |items|
    requires forall j :: 0 <= j < i ==> items[j].1 <= items[best].1
    requires forall j :: 0 <= j < best ==> items[j].1 < items[best].1
    ensures best <= b < |items|
    ensures forall j :: 0 <= j < |items| ==> items[j].1 <= items[b].1
    ensures forall j :: 0 <= j < b ==> items[j].1 < items[b].1
    decreases |items| - i
  {
    if i == |items| then best
    else if items[i].1 > items[best].1 then BestFrom(items, i + 1, i)
    else BestFrom(items, i + 1, best)
  }

  /** The group with the most votes, the earliest-voted among equals; roots when there are no votes. */
  function Majority(gs: seq<Group>): Group {
    var c := Count(gs);
    if c.items == [] then Roots else c.items[BestFrom(c.items, 1, 0)].0
  }

  /** `infer_rotation_group(plantings)`, given the plantings' plant ids. */
  function InferRotationGroup(plantIds: seq<string>): (g: Group)
    ensures plantIds == [] ==> g == Roots
  {
    Majority(seq(|plantIds|, i requires 0 <= i < |plantIds| => GroupOf(plantIds[i])))
  }

  /**
   * With no votes the answer is roots; otherwise it is a group that was voted
   * for, no group has more votes, and every group with as many votes was first
   * voted for later.
   */
  lemma MajorityIsPlurality(gs: seq<Group>)
    ensures gs == [] ==> Majority(gs) == Roots
    ensures gs != [] ==> Majority(gs) in gs
    ensures forall g :: g in gs ==> multiset(gs)[g] <= multiset(gs)[Majority(gs)]
    ensures forall g :: g in gs && multiset(gs)[g] == multiset(gs)[Majority(gs)] ==>
              Position(gs, Majority(gs)) <= Position(gs, g)
  {
    if gs != [] {
      MajorityVoted(gs);
      forall g | g in gs
        ensures multiset(gs)[g] <= multiset(gs)[Majority(gs)]
        ensures multiset(gs)[g] == multiset(gs)[Majority(gs)] ==> Position(gs, Majority(gs)) <= Position(gs, g)
      {
        MajorityBeats(gs, g);
      }
    } else {
      CountKeys(gs);
    }
  }

  lemma MajorityVoted(gs: seq<Group>)
    requires gs != []
    ensures Majority(gs) in gs
  {
    var c := Count(gs);
    CountKeys(gs);
    assert gs[0] in Keys(c);
    var b := BestFrom(c.items, 1, 0);
    assert c.items[b].0 in Keys(c);
  }

  lemma MajorityBeats(gs: seq<Group>, g: Group)
    requires g in gs
    ensures multiset(gs)[g] <= multiset(gs)[Majority(gs)]
    ensures multiset(gs)[g] == multiset(gs)[Majority(gs)] ==> Position(gs, Majority(gs)) <= Position(gs, g)
  {
    var r := Majority(gs);
    var b, j := MajorityAt(gs, g);
    if multiset(gs)[g] == multiset(gs)[r] {
      if b < j {
        DistinctInFirstOccurrenceOrder(gs, b, j);
      } else {
        assert g == r;
      }
    }
  }

  /**
   * Where the winner and `g` sit among the keys of `group_counts`, and how
   * their vote counts compare: a key before the winner has fewer votes.
   */
  lemma MajorityAt(gs: seq<Group>, g: Group) returns (b: nat, j: nat)
    requires g in gs
    ensures b < |Distinct(gs)| && j < |Distinct(gs)|
    ensures Distinct(gs)[b] == Majority(gs) && Distinct(gs)[j] == g
    ensures multiset(gs)[g] <= multiset(gs)[Majority(gs)]
    ensures j < b ==> multiset(gs)[g] < multiset(gs)[Majority(gs)]
  {
    var c := Count(gs);
    CountKeys(gs);
    var ks := Keys(c);
    assert g in ks;
    j :| 0 <= j < |ks| && ks[j] == g;
    b := BestFrom(c.items, 1, 0);
    var r := c.items[b].0;
    assert Majority(gs) == r;
    CountVotes(gs, g);
    CountVotes(gs, r);
    assert Get(c, g) == Some(c.items[j].1);
    assert Get(c, r) == Some(c.items[b].1);
  }

  /** A vote for a single group, however many times cast, picks that group. */
  lemma Unanimous(gs: seq<Group>, g: Group)
    requires gs != [] && forall i :: 0 <= i < |gs| ==> gs[i] == g
    ensures Majority(gs) == g
  {
    MajorityIsPlurality(gs);
  }
}
