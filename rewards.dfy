/**
 * The rewards calculation of the `CalculateRewards` handler: points from the
 * order total, the current tier and reward name, the tier and name 100 points
 * further on, the progress toward the next tier, and the customer record that
 * is stored and echoed back.
 */
module Rewards {
  import opened Wrappers
  import opened Tiers
  import opened Progress

  /**
   * One point per whole currency unit: the order total, already rounded to
   * cents, truncated toward zero as Python's `int` does.
   */
  function RewardPoints(cents: int): (pts: int)
    ensures cents >= 0 ==> 0 <= 100 * pts <= cents < 100 * pts + 100
    ensures cents < 0 ==> 100 * pts - 100 < cents <= 100 * pts <= 0
  {
    if cents >= 0 then cents / 100 else -((-cents) / 100)
  }

  /** A larger order total never earns fewer points. */
  lemma RewardPointsMonotonic(c1: int, c2: int)
    requires c1 <= c2
    ensures RewardPoints(c1) <= RewardPoints(c2)
  {
  }

  /** A document of the "customerRewards" collection, and the response data. */
  datatype Record = Record(
    email: string,
    rewardPoints: int,
    currentTier: Option<string>,
    currentTierName: Option<string>,
    nextTier: Option<string>,
    nextTierName: Option<string>,
    nextTierProgress: Progress)

  /**
   * The specification of one calculation: the record the handler stores and
   * answers for `email` and an order total of `cents`, or the error it
   * raises. It fails only when the division by the next threshold does.
   */
  function Snapshot(table: seq<Tier>, email: string, cents: int): (r: Result<Record, Error>)
    ensures r.Err? <==> IsLowestAbove(table, RewardPoints(cents), 0)
    ensures cents >= 0 ==> r.Ok?
    ensures r.Ok? ==> r.value.email == email && r.value.rewardPoints == RewardPoints(cents)
    ensures r.Ok? ==> Ok(r.value.nextTierProgress) == ProgressOf(table, r.value.rewardPoints)
  {
    var pts := RewardPoints(cents);
    match ProgressOf(table, pts)
    case Err(e) => Err(e)
    case Ok(progress) =>
      Ok(Record(email, pts,
                CurrentTier(table, pts), RewardName(table, pts),
                CurrentTier(table, pts + 100), RewardName(table, pts + 100),
                progress))
  }

  /**
   * A total of at least zero always yields a record with the whole-currency
   * part of the total as points and a progress that is the sentinel or a
   * fraction in [0, 1).
   */
  lemma SnapshotOfNonNegativeTotal(table: seq<Tier>, email: string, cents: int)
    requires cents >= 0
    ensures Snapshot(table, email, cents).Ok?
    ensures Snapshot(table, email, cents).value.email == email
    ensures Snapshot(table, email, cents).value.rewardPoints == cents / 100
    ensures Snapshot(table, email, cents).value.nextTierProgress.Ratio? ==>
      0 <= Snapshot(table, email, cents).value.nextTierProgress.num
        < Snapshot(table, email, cents).value.nextTierProgress.den
  {
    ProgressBoundedForNonNegativePoints(table, RewardPoints(cents));
  }

  /** The calculation fails only for an order total of -1.00 or less. */
  lemma SnapshotFailsOnlyBelowMinusOne(table: seq<Tier>, email: string, cents: int)
    requires Snapshot(table, email, cents).Err?
    ensures cents <= -100
  {
    ZeroDivisionNeedsNegativePoints(table, RewardPoints(cents));
  }

  /**
   * The current and the look-ahead tier and name come, pairwise, from one
   * record of the table: a tier id is reported exactly when a reward name is,
   * and exactly when some threshold is reached.
   */
  lemma SnapshotTiersAndNamesAgree(table: seq<Tier>, email: string, cents: int)
    requires Snapshot(table, email, cents).Ok?
    ensures var rec := Snapshot(table, email, cents).value;
      (rec.currentTier.None? <==> rec.currentTierName.None?) &&
      (rec.currentTier.None? <==> NoneAtOrBelow(table, rec.rewardPoints)) &&
      (rec.nextTier.None? <==> rec.nextTierName.None?) &&
      (rec.nextTier.None? <==> NoneAtOrBelow(table, rec.rewardPoints + 100))
    ensures var rec := Snapshot(table, email, cents).value;
      rec.currentTier.Some? ==>
        exists i :: IsFirstAtOrBelow(table, rec.rewardPoints, i) &&
          table[i].tier == rec.currentTier.value &&
          table[i].rewardName == rec.currentTierName.value
    ensures var rec := Snapshot(table, email, cents).value;
      rec.nextTier.Some? ==>
        exists i :: IsFirstAtOrBelow(table, rec.rewardPoints + 100, i) &&
          table[i].tier == rec.nextTier.value &&
          table[i].rewardName == rec.nextTierName.value
  {
    var pts := RewardPoints(cents);
    TierAndNameShareRecord(table, pts);
    TierAndNameShareRecord(table, pts + 100);
  }

  /**
   * The "next" tier is a fixed look-ahead of 100 points: whenever a current
   * tier exists a next one does too, and a customer at the top tier (progress
   * is the sentinel) has the same next tier and name as current ones.
   */
  lemma SnapshotLookAhead(table: seq<Tier>, email: string, cents: int)
    requires Snapshot(table, email, cents).Ok?
    ensures var rec := Snapshot(table, email, cents).value;
      rec.currentTier.Some? ==> rec.nextTier.Some?
    ensures var rec := Snapshot(table, email, cents).value;
      rec.nextTierProgress == MaxTier ==>
        rec.nextTier == rec.currentTier && rec.nextTierName == rec.currentTierName
  {
    var pts := RewardPoints(cents);
    if FirstAtOrBelow(table, pts).Some? {
      FirstAtOrBelowMovesForward(table, pts, pts + 100);
    }
    if ProgressOf(table, pts) == Ok(MaxTier) && |table| > 0 {
      assert table[0] in table;
      assert IsFirstAtOrBelow(table, pts, 0);
      assert IsFirstAtOrBelow(table, pts + 100, 0);
    }
  }

  /**
   * With Bronze at 0, Silver at 100 and Gold at 500, stored from the highest
   * threshold down, an order of 250.00 earns 250 points, tier Silver, Silver
   * again 100 points on, and progress 250 out of 500.
   */
  lemma SnapshotOfDescendingExample()
    ensures Snapshot([Tier(500, "Gold", "Spender"), Tier(100, "Silver", "Saver"), Tier(0, "Bronze", "Starter")],
                     "a@b.c", 25000)
      == Ok(Record("a@b.c", 250, Some("Silver"), Some("Saver"), Some("Silver"), Some("Saver"), Ratio(250, 500)))
  {
    var table := [Tier(500, "Gold", "Spender"), Tier(100, "Silver", "Saver"), Tier(0, "Bronze", "Starter")];
    assert IsFirstAtOrBelow(table, 250, 1);
    assert IsFirstAtOrBelow(table, 350, 1);
    assert table[0] in table;
    assert IsLowestAbove(table, 250, 500);
    LowestAboveIsUnique(table, 250, 500);
  }

  /**
   * The "Rewards" database: the tier table ("rewards", in stored order) and
   * the customer records ("customerRewards", in insertion order).
   */
  class RewardsDb {
    var tiers: seq<Tier>
    var customerRewards: seq<Record>

    constructor (tiers: seq<Tier>)
      ensures this.tiers == tiers && customerRewards == []
    {
      this.tiers := tiers;
      customerRewards := [];
    }

    /** `store_rewards_info`: append one record; nothing is unique, nothing is replaced. */
    method StoreRewardsInfo(email: string, pts: int, currTier: Option<string>, currName: Option<string>,
                            nextTier: Option<string>, nextName: Option<string>, progress: Progress)
      modifies this`customerRewards
      ensures customerRewards ==
        old(customerRewards) + [Record(email, pts, currTier, currName, nextTier, nextName, progress)]
    {
      customerRewards := customerRewards + [Record(email, pts, currTier, currName, nextTier, nextName, progress)];
    }

    /**
     * `CalculateRewards.post`: compute the snapshot, store it and answer it.
     * The stored record and the answer are the same seven fields; when the
     * progress raises, nothing is stored.
     */
    method CalculateRewards(email: string, cents: int) returns (response: Result<Record, Error>)
      modifies this`customerRewards
      ensures response == Snapshot(tiers, email, cents)
      ensures response.Ok? ==> customerRewards == old(customerRewards) + [response.value]
      ensures response.Err? ==> customerRewards == old(customerRewards)
    {
      var pts := RewardPoints(cents);
      var currTier := CurrentTier(tiers, pts);
      var currName := RewardName(tiers, pts);
      var nextTier := CurrentTier(tiers, pts + 100);
      var nextName := RewardName(tiers, pts + 100);
      var progress := CalculateProgress(tiers, pts);
      if progress.Err? {
        return Err(progress.error);
      }
      StoreRewardsInfo(email, pts, currTier, currName, nextTier, nextName, progress.value);
      response := Ok(Record(email, pts, currTier, currName, nextTier, nextName, progress.value));
    }
  }
}
