/**
 * Progress toward the next tier.
 *
 * The service sorts the tier table ascending by `points`, walks it, and stops
 * at the first threshold strictly above the customer's points. With no such
 * threshold it answers the sentinel `1` (the customer is at the top tier);
 * otherwise it divides the points by that threshold.
 */
module Progress {
  import opened Wrappers
  import opened Tiers

  /** What `calculate_progress` answers, before it is formatted. */
  datatype Progress = MaxTier | Ratio(num: int, den: int)

  /** The exception the division `points / threshold` may raise. */
  datatype Error = ZeroDivisionError

  /** Thresholds never decrease along the table. */
  predicate SortedAscending(s: seq<Tier>)
  {
    forall i, j :: 0 <= i < j < |s| ==> s[i].points <= s[j].points
  }

  /** Every tier of the table has a threshold at most `pts`. */
  predicate AllAtOrBelow(table: seq<Tier>, pts: int)
  {
    forall t :: t in table ==> t.points <= pts
  }

  /** `x` is the smallest threshold of the table strictly above `pts`. */
  predicate IsLowestAbove(table: seq<Tier>, pts: int, x: int)
  {
    x > pts &&
    (exists t :: t in table && t.points == x) &&
    forall t :: t in table && t.points > pts ==> x <= t.points
  }

  /** Places `t` into an ascending table after every record with a smaller threshold. */
  function InsertByPoints(t: Tier, s: seq<Tier>): (r: seq<Tier>)
    requires SortedAscending(s)
    ensures SortedAscending(r)
    ensures multiset(r) == multiset(s) + multiset{t}
  {
    if |s| == 0 || t.points <= s[0].points then [t] + s
    else
      var rest := InsertByPoints(t, s[1..]);
      assert s == [s[0]] + s[1..];
      forall k | 0 <= k < |rest| ensures s[0].points <= rest[k].points {
        assert rest[k] in multiset(rest);
      }
      [s[0]] + rest
  }

  /** The tier table as `find().sort("points", 1)` yields it: ascending and the same records. */
  function SortByPoints(s: seq<Tier>): (r: seq<Tier>)
    ensures SortedAscending(r)
    ensures multiset(r) == multiset(s)
  {
    if |s| == 0 then []
    else
      assert s == [s[0]] + s[1..];
      InsertByPoints(s[0], SortByPoints(s[1..]))
  }

  /**
   * The smallest threshold strictly above `pts`, independent of the order the
   * table is stored in; `None` when the customer is at or above every threshold.
   */
  function LowestAbove(table: seq<Tier>, pts: int): (r: Option<int>)
    ensures r.None? <==> AllAtOrBelow(table, pts)
    ensures r.Some? ==> IsLowestAbove(table, pts, r.value)
  {
    if |table| == 0 then None
    else
      var rest := LowestAbove(table[1..], pts);
      assert table == [table[0]] + table[1..];
      if table[0].points <= pts then rest
      else if rest.Some? && rest.value < table[0].points then rest
      else Some(table[0].points)
  }

  /** The smallest threshold above `pts` is determined by the table's records. */
  lemma LowestAboveIsUnique(table: seq<Tier>, pts: int, x: int)
    ensures IsLowestAbove(table, pts, x) ==> LowestAbove(table, pts) == Some(x)
  {
    if IsLowestAbove(table, pts, x) {
      var t :| t in table && t.points == x;
      var y := LowestAbove(table, pts).value;
      var u :| u in table && u.points == y;
      assert x <= u.points && y <= t.points;
    }
  }

  /**
   * The specification of `calculate_progress`: the sentinel when no threshold
   * lies above `pts`, the error Python raises when the next threshold is 0,
   * and otherwise the ratio of the points to the next threshold.
   */
  function ProgressOf(table: seq<Tier>, pts: int): (r: Result<Progress, Error>)
    ensures r == Ok(MaxTier) <==> AllAtOrBelow(table, pts)
    ensures r.Err? <==> IsLowestAbove(table, pts, 0)
    ensures r.Ok? && r.value.Ratio? ==>
      r.value.num == pts && r.value.den != 0 && IsLowestAbove(table, pts, r.value.den)
  {
    LowestAboveIsUnique(table, pts, 0);
    match LowestAbove(table, pts)
    case None => Ok(MaxTier)
    case Some(d) => if d == 0 then Err(ZeroDivisionError) else Ok(Ratio(pts, d))
  }

  /**
   * For a customer with non-negative points the division never fails and the
   * progress is a fraction in [0, 1): the next threshold is above the points.
   */
  lemma ProgressBoundedForNonNegativePoints(table: seq<Tier>, pts: int)
    requires pts >= 0
    ensures ProgressOf(table, pts).Ok?
    ensures ProgressOf(table, pts).value.Ratio? ==>
      0 <= ProgressOf(table, pts).value.num < ProgressOf(table, pts).value.den
  {
  }

  /** The division fails only for negative points, when 0 is the next threshold. */
  lemma ZeroDivisionNeedsNegativePoints(table: seq<Tier>, pts: int)
    requires ProgressOf(table, pts).Err?
    ensures pts < 0
    ensures exists t :: t in table && t.points == 0
  {
  }

  /**
   * The progress does not depend on the order of the tier table, so the order
   * in which the store breaks ties while sorting does not matter.
   */
  lemma ProgressIgnoresOrder(a: seq<Tier>, b: seq<Tier>, pts: int)
    requires multiset(a) == multiset(b)
    ensures ProgressOf(a, pts) == ProgressOf(b, pts)
  {
    forall t ensures t in a <==> t in b {
      assert t in a <==> t in multiset(a);
      assert t in b <==> t in multiset(b);
    }
    if LowestAbove(a, pts).Some? {
      LowestAboveIsUnique(b, pts, LowestAbove(a, pts).value);
    }
  }

  /**
   * `calculate_progress`: sort the table ascending, stop at the first
   * threshold above the points, and divide by it.
   */
  method CalculateProgress(table: seq<Tier>, pts: int) returns (r: Result<Progress, Error>)
    ensures r == ProgressOf(table, pts)
  {
    var tiers := SortByPoints(table);
    var nextTier: Option<int> := None;  // float('inf')
    var i := 0;
    while i < |tiers|
      invariant 0 <= i <= |tiers|
      invariant nextTier.None?
      invariant forall j :: 0 <= j < i ==> tiers[j].points <= pts
    {
      if pts < tiers[i].points {
        nextTier := Some(tiers[i].points);
        break;
      }
      i := i + 1;
    }
    forall t ensures t in tiers <==> t in table {
      assert t in tiers <==> t in multiset(tiers);
      assert t in table <==> t in multiset(table);
    }
    if nextTier.None? {
      r := Ok(MaxTier);
    } else {
      assert IsLowestAbove(tiers, pts, nextTier.value);
      LowestAboveIsUnique(table, pts, nextTier.value);
      if nextTier.value == 0 {
        r := Err(ZeroDivisionError);
      } else {
        r := Ok(Ratio(pts, nextTier.value));
      }
    }
  }
}
