# Loyalty-rewards calculation

A Dafny model of the rewards calculation behind `POST /rewards/calculate` of the
rewards service. From an order total the handler computes reward points (one per
whole currency unit), the customer's current tier and reward name, the tier and
name the customer would have with 100 more points, and the progress toward the
next tier threshold. It then appends the resulting record to the
`customerRewards` collection and echoes it back.

Modules:

- `Wrappers` (`wrappers.dfy`): `Option` and `Result`.
- `Tiers` (`tiers.dfy`): the tier table as a `seq<Tier>` in stored order. It also holds the lookup
  `find_one({"points": {"$lte": pts}})`, which returns the first qualifying record in stored
  order, and lemmas about that lookup.
- `Progress` (`progress.dfy`): `calculate_progress`. The method `CalculateProgress` sorts the
  table ascending and loops until it meets the first threshold above the points. It is
  proved equal to `ProgressOf`, an order-independent specification built on "the smallest
  threshold above the points".
- `Rewards` (`rewards.dfy`): the points, the `Record` the handler builds, and the specification
  function `Snapshot`. The class `RewardsDb` holds the two collections of the "Rewards"
  database. Its method `CalculateRewards` models `post`: it computes the record, stores it
  through `StoreRewardsInfo` and answers the same record.

Modelling choices:

- The order total is an integer number of cents: the value after `"{:.2f}".format`.
- Points truncate toward zero, as Python's `int` does. Negative totals are accepted, because
  the code only converts the text with `float` and does not reject them.
- A negative point total can make the next threshold 0. Then `curr_pts / next_tier` raises
  `ZeroDivisionError`, the handler answers 400 and stores nothing. The model returns
  `Err(ZeroDivisionError)` and proves that this needs a total of -1.00 or less.
- Progress is `MaxTier` for the sentinel `1`, or an exact `Ratio(num, den)` for the formatted
  quotient.
- The tier lookup takes the first qualifying record in stored order, because the code does
  not sort before `find_one`. A lookup that picks the highest qualifying tier is a different rule.
  `Tiers.DescendingFirstIsGreatest` shows the two agree when the table is stored in
  descending order. They can differ otherwise: `Tiers.AscendingTableReportsLowestTier` shows
  that on the ascending table Bronze 0 / Silver 100, 150 points report Bronze although Silver
  qualifies. `Tiers.LookupMonotonic` shows that in every stored order the threshold found
  never decreases as the points grow.
- The division `curr_pts / next_tier` is taken as Python 3 true division, so the progress is
  the exact ratio. Under Python 2 two integers would divide with flooring (250/500 gives 0).
- The methods of the handler are declared without `self` and `calculate_progress` is called
  as a free function, so as written every request would fail with 400. The model describes
  the intended calculation.

## Model

| member | source | states |
|---|---|---|
| `Tiers.FirstAtOrBelow` | source/RewardsService/rewardsservice/app.py:62 | the lookup finds nothing exactly when no threshold is at or below the points; otherwise it finds the first qualifying record in stored order |
| `Tiers.CurrentTier` | source/RewardsService/rewardsservice/app.py:57-66 | the tier id is `None` exactly when no threshold is at or below the points; otherwise it is the tier of the first qualifying record |
| `Tiers.RewardName` | source/RewardsService/rewardsservice/app.py:69-78 | the reward name is `None` exactly when no threshold is at or below the points; otherwise it is the name of the first qualifying record |
| `Tiers.TierAndNameShareRecord` | source/RewardsService/rewardsservice/app.py:62-76 | tier id and reward name are absent together and, when present, come from the same qualifying record |
| `Tiers.FirstAtOrBelowMovesForward` | source/RewardsService/rewardsservice/app.py:62 | more points never move the lookup to a later record, and a lookup that succeeds still succeeds with more points |
| `Tiers.DescendingFirstIsGreatest` | source/RewardsService/rewardsservice/app.py:62 | on a table stored in descending order, the record found has the greatest qualifying threshold |
| `Tiers.LookupMonotonic` | source/RewardsService/rewardsservice/app.py:62 | on a table in any stored order, a lookup that succeeds still succeeds with more points and the threshold found never decreases as the points grow |
| `Tiers.AscendingTableReportsLowestTier` | source/RewardsService/rewardsservice/app.py:62-64 | on a table stored in ascending order, 150 points report Bronze (0) although Silver (100) qualifies |
| `Progress.InsertByPoints` | source/RewardsService/rewardsservice/app.py:101 | inserting into an ascending table keeps it ascending and adds exactly that record |
| `Progress.SortByPoints` | source/RewardsService/rewardsservice/app.py:101 | the sorted table is ascending by points and a permutation of the stored one |
| `Progress.LowestAbove` | source/RewardsService/rewardsservice/app.py:101-107 | `None` exactly when every threshold is at or below the points; otherwise the smallest threshold strictly above them |
| `Progress.LowestAboveIsUnique` | source/RewardsService/rewardsservice/app.py:101-107 | any value that is the smallest threshold above the points is the one `LowestAbove` gives |
| `Progress.ProgressOf` | source/RewardsService/rewardsservice/app.py:96-113 | sentinel exactly when no threshold is above the points; error exactly when 0 is the next threshold; otherwise the points over the smallest threshold above them |
| `Progress.ProgressBoundedForNonNegativePoints` | source/RewardsService/rewardsservice/app.py:105-112 | for non-negative points the division never fails and the ratio lies in [0, 1) |
| `Progress.ZeroDivisionNeedsNegativePoints` | source/RewardsService/rewardsservice/app.py:112 | the division by zero happens only with negative points and a tier at threshold 0 |
| `Progress.ProgressIgnoresOrder` | source/RewardsService/rewardsservice/app.py:101 | progress depends only on the records of the table, not on their order or on how the sort breaks ties |
| `Progress.CalculateProgress` | source/RewardsService/rewardsservice/app.py:96-113 | the sort-then-scan loop with its early break computes exactly `ProgressOf` |
| `Rewards.RewardPoints` | source/RewardsService/rewardsservice/app.py:21-24 | points are the whole-currency part of the total in cents, truncated toward zero; non-negative for a non-negative total |
| `Rewards.RewardPointsMonotonic` | source/RewardsService/rewardsservice/app.py:24 | a larger total never earns fewer points |
| `Rewards.Snapshot` | source/RewardsService/rewardsservice/app.py:18-50 | the calculation fails exactly when 0 is the next threshold above the points, and never for a non-negative total; otherwise the record holds the given email, the points of the total and the progress `ProgressOf` gives at those points |
| `Rewards.SnapshotOfNonNegativeTotal` | source/RewardsService/rewardsservice/app.py:21-36 | a non-negative total yields a record for that email with `cents div 100` points and progress that is the sentinel or in [0, 1) |
| `Rewards.SnapshotFailsOnlyBelowMinusOne` | source/RewardsService/rewardsservice/app.py:24-36 | a failed calculation needs an order total of -1.00 or less |
| `Rewards.SnapshotTiersAndNamesAgree` | source/RewardsService/rewardsservice/app.py:27-34 | current and next tier and name are absent together; each pair comes from the first record qualifying at the points, or at the points plus 100 |
| `Rewards.SnapshotLookAhead` | source/RewardsService/rewardsservice/app.py:32-36 | a current tier implies a next tier; at the top tier (sentinel) the next tier and name equal the current ones |
| `Rewards.SnapshotOfDescendingExample` | source/RewardsService/rewardsservice/app.py:18-50 | Bronze 0 / Silver 100 / Gold 500 stored descending, total 250.00: 250 points, Silver, Silver, progress 250/500 |
| `Rewards.RewardsDb.StoreRewardsInfo` | source/RewardsService/rewardsservice/app.py:80-94 | appends exactly one record with the seven given fields; earlier records are kept |
| `Rewards.RewardsDb.CalculateRewards` | source/RewardsService/rewardsservice/app.py:18-54 | answers `Snapshot`; on success the stored record and the answer are the same; on failure nothing is stored |

## Left out

- The HTTP handlers: argument extraction, a missing `email` or `order_total`, status codes and
  JSON envelopes (app.py:19-20, 51-54, 117-160). An error is returned as `Err`.
- The lookup endpoints `get_customer_info` and `get_all_info`, and the bootstrap (`App`, `main`).
- The MongoDB client and connections. The tier table is a sequence, and `collection.insert` is
  an append to a sequence with no uniqueness. The store's sort is modelled as an insertion sort.
  The specification it is checked against does not depend on how ties are ordered.
- Float parsing and formatting. `float(...)` and the rounding of `"{:.2f}".format` on binary
  floats are not modelled. The input is the total already rounded to cents. A text that does
  not parse as a number is not modelled, nor are the non-finite totals: "inf" makes `int`
  raise OverflowError at app.py:24 and "nan" makes it raise ValueError; both answer 400.
- Rewards.RewardsDb.CalculateRewards: the progress is an exact ratio, not the two-decimal string.
  That string can read "1.00" for a ratio below 1 (for example 999/1000). The wire form of the
  sentinel (the integer `1`, not a string) is not modelled either.
- The missing `self` parameters, which make every call fail as written.
- Concurrent requests and the order in which concurrent records reach the store.
