/**
 * The tier table and the current-tier lookup of the rewards service.
 *
 * The service asks the "rewards" collection for the first document whose
 * `points` is at most the customer's points, without sorting. Which document
 * that is depends on the order the table is stored in: it is the first
 * qualifying one in stored order, not necessarily the one with the greatest
 * qualifying threshold.
 */
module Tiers {
  import opened Wrappers

  /** One document of the tier table: a threshold, the tier id and the reward name. */
  datatype Tier = Tier(points: int, tier: string, rewardName: string)

  /** No record of the table has a threshold at or below `pts`. */
  predicate NoneAtOrBelow(table: seq<Tier>, pts: int)
  {
    forall j :: 0 <= j < |table| ==> table[j].points > pts
  }

  /** Record `i` qualifies (threshold at most `pts`) and no earlier record does. */
  predicate IsFirstAtOrBelow(table: seq<Tier>, pts: int, i: int)
  {
    0 <= i < |table| && table[i].points <= pts &&
    forall j :: 0 <= j < i ==> table[j].points > pts
  }

  /** Thresholds never increase along the table. */
  predicate SortedDescending(table: seq<Tier>)
  {
    forall i, j :: 0 <= i < j < |table| ==> table[i].points >= table[j].points
  }

  /** The position of the record that `find_one({"points": {"$lte": pts}})` returns. */
  function FirstAtOrBelow(table: seq<Tier>, pts: int): (r: Option<nat>)
    ensures r.None? <==> NoneAtOrBelow(table, pts)
    ensures r.Some? ==> IsFirstAtOrBelow(table, pts, r.value)
  {
    if |table| == 0 then None
    else if table[0].points <= pts then Some(0)
    else
      match FirstAtOrBelow(table[1..], pts)
      case None => None
      case Some(i) => Some(i + 1)
  }

  /** The tier id of the customer with `pts` points, or `None` when no tier qualifies. */
  function CurrentTier(table: seq<Tier>, pts: int): (r: Option<string>)
    ensures r.None? <==> NoneAtOrBelow(table, pts)
    ensures r.Some? ==> exists i :: IsFirstAtOrBelow(table, pts, i) && table[i].tier == r.value
  {
    match FirstAtOrBelow(table, pts)
    case None => None
    case Some(i) => Some(table[i].tier)
  }

  /** The reward name of the customer with `pts` points, or `None` when no tier qualifies. */
  function RewardName(table: seq<Tier>, pts: int): (r: Option<string>)
    ensures r.None? <==> NoneAtOrBelow(table, pts)
    ensures r.Some? ==> exists i :: IsFirstAtOrBelow(table, pts, i) && table[i].rewardName == r.value
  {
    match FirstAtOrBelow(table, pts)
    case None => None
    case Some(i) => Some(table[i].rewardName)
  }

  /**
   * The tier id and the reward name are read from one and the same record,
   * so they are absent together and, when present, belong together.
   */
  lemma TierAndNameShareRecord(table: seq<Tier>, pts: int)
    ensures CurrentTier(table, pts).None? <==> RewardName(table, pts).None?
    ensures CurrentTier(table, pts).Some? ==>
      exists i :: IsFirstAtOrBelow(table, pts, i) &&
        table[i].tier == CurrentTier(table, pts).value &&
        table[i].rewardName == RewardName(table, pts).value
  {
    var first := FirstAtOrBelow(table, pts);
    if first.Some? {
      assert IsFirstAtOrBelow(table, pts, first.value);
    }
  }

  /**
   * More points never move the lookup to a later record: whatever record
   * qualifies at `p1` still qualifies at `p2 >= p1`.
   */
  lemma FirstAtOrBelowMovesForward(table: seq<Tier>, p1: int, p2: int)
    requires p1 <= p2
    requires FirstAtOrBelow(table, p1).Some?
    ensures FirstAtOrBelow(table, p2).Some?
    ensures FirstAtOrBelow(table, p2).value <= FirstAtOrBelow(table, p1).value
  {
    var i1 := FirstAtOrBelow(table, p1).value;
    assert table[i1].points <= p2;
  }

  /**
   * When the table is stored with thresholds descending, the first qualifying
   * record has the greatest threshold among all qualifying records.
   */
  lemma DescendingFirstIsGreatest(table: seq<Tier>, pts: int)
    requires SortedDescending(table)
    requires FirstAtOrBelow(table, pts).Some?
    ensures forall j :: 0 <= j < |table| && table[j].points <= pts ==>
      table[j].points <= table[FirstAtOrBelow(table, pts).value].points
  {
  }

  /**
   * In any stored order the tier threshold found grows with the points: a
   * record that starts to qualify earlier in the table has a threshold above
   * the old points, hence above the old threshold.
   */
  lemma LookupMonotonic(table: seq<Tier>, p1: int, p2: int)
    requires p1 <= p2
    requires FirstAtOrBelow(table, p1).Some?
    ensures FirstAtOrBelow(table, p2).Some?
    ensures table[FirstAtOrBelow(table, p1).value].points <= table[FirstAtOrBelow(table, p2).value].points
  {
    FirstAtOrBelowMovesForward(table, p1, p2);
  }

  /**
   * On a table stored in ascending order the lookup does not pick the
   * greatest qualifying threshold: with Bronze at 0 and Silver at 100, a
   * customer with 150 points is reported as Bronze.
   */
  lemma AscendingTableReportsLowestTier()
    ensures CurrentTier([Tier(0, "Bronze", "Starter"), Tier(100, "Silver", "Saver")], 150) == Some("Bronze")
    ensures RewardName([Tier(0, "Bronze", "Starter"), Tier(100, "Silver", "Saver")], 150) == Some("Starter")
  {
    var table := [Tier(0, "Bronze", "Starter"), Tier(100, "Silver", "Saver")];
    assert IsFirstAtOrBelow(table, 150, 0);
  }
}
