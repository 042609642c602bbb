/**
 * The rewards summary a user reads back: the ten most recent reward events,
 * the ledger totals, and the recent events grouped and counted by action.
 */
module RewardsController {
  import opened Wrappers
  import opened Models
  import Ledger
  import Sorting

  /** How many recent events the summary returns. */
  const RecentLimit: nat := 10

  /** The sort key of `(a, b) => new Date(b.timestamp) - new Date(a.timestamp)`. */
  function Timestamp(e: RewardEvent): int {
    e.timestamp
  }

  /** `sort(...).slice(0, 10)`: newest first, at most ten. */
  function RecentRewards(h: seq<RewardEvent>): (r: seq<RewardEvent>)
    ensures |r| == if |h| < RecentLimit then |h| else RecentLimit
    ensures multiset(r) <= multiset(h)
  {
    var sorted := Sorting.SortDesc(h, Timestamp);
    var k := if |sorted| < RecentLimit then |sorted| else RecentLimit;
    assert sorted == sorted[..k] + sorted[k..];
    sorted[..k]
  }

  /** The events of one action, in their order. */
  function OfAction(rs: seq<RewardEvent>, a: Action): (r: seq<RewardEvent>)
    ensures |r| <= |rs|
  {
    if rs == [] then []
    else
      var init := OfAction(rs[..|rs| - 1], a);
      if rs[|rs| - 1].action == a then init + [rs[|rs| - 1]] else init
  }

  /** The `reduce` that builds `rewardsByAction`: create the group on first sight, then push. */
  function ByAction(rs: seq<RewardEvent>): map<Action, seq<RewardEvent>> {
    if rs == [] then map[]
    else
      var acc := ByAction(rs[..|rs| - 1]);
      var e := rs[|rs| - 1];
      acc[e.action := (if e.action in acc then acc[e.action] else []) + [e]]
  }

  /** `rewardsByAction.x?.length || 0`. */
  function GroupSize(groups: map<Action, seq<RewardEvent>>, a: Action): nat {
    if a in groups then |groups[a]| else 0
  }

  datatype Stats = Stats(topicsCompleted: nat, topicsReviewed: nat, achievements: nat, streakBonuses: nat)

  /** The response's `data`. */
  datatype Summary = Summary(
    currentPoints: int,
    totalPointsEarned: int,
    totalRewards: nat,
    recentRewards: seq<RewardEvent>,
    rewardsByAction: map<Action, seq<RewardEvent>>,
    stats: Stats)

  /** `getUserRewards`: 404 for an unknown user, otherwise the summary of the user's ledger. */
  function GetUserRewards(users: map<ObjectId, User>, user: ObjectId): (r: Result<Summary, Status>)
    ensures r.Failure? <==> user !in users
    ensures r.Failure? ==> r.error == NotFound
    ensures r.Success? ==>
      && r.value.currentPoints == Ledger.CurrentPoints(users[user])
      && r.value.totalRewards == |Ledger.History(users[user])|
      && r.value.totalPointsEarned == Ledger.SumPoints(Ledger.History(users[user]))
      && |r.value.recentRewards| <= RecentLimit
      && |r.value.recentRewards| <= r.value.totalRewards
      && r.value.recentRewards == RecentRewards(Ledger.History(users[user]))
      && r.value.rewardsByAction == ByAction(r.value.recentRewards)
  {
    if user !in users then Failure(NotFound)
    else
      var u := users[user];
      var h := Ledger.History(u);
      var recent := RecentRewards(h);
      var groups := ByAction(recent);
      Success(Summary(
        Ledger.CurrentPoints(u), Ledger.SumPoints(h), |h|, recent, groups,
        Stats(GroupSize(groups, TopicCompleted), GroupSize(groups, TopicReviewed),
              GroupSize(groups, Achievement), GroupSize(groups, StreakBonus))))
  }

  /**
   * The recent events are the newest ones: ordered newest first, none of
   * the events left out is newer than any returned, and equal timestamps
   * keep their history order.
   */
  lemma RecentAreNewest(h: seq<RewardEvent>)
    ensures var sorted := Sorting.SortDesc(h, Timestamp);
      var r := RecentRewards(h);
      && r == sorted[..|r|]
      && Sorting.SortedDesc(r, Timestamp)
      && (forall i, j :: 0 <= i < |r| <= j < |sorted| ==> sorted[i].timestamp >= sorted[j].timestamp)
      && (forall t :: Sorting.WithKey(sorted, Timestamp, t) == Sorting.WithKey(h, Timestamp, t))
  {
    var sorted := Sorting.SortDesc(h, Timestamp);
    var r := RecentRewards(h);
    Sorting.SortIsSorted(h, Timestamp);
    assert r == sorted[..|r|];
    forall i, j | 0 <= i < j < |r| ensures Timestamp(r[i]) >= Timestamp(r[j]) {
      assert r[i] == sorted[i] && r[j] == sorted[j];
    }
    forall i, j | 0 <= i < |r| <= j < |sorted| ensures sorted[i].timestamp >= sorted[j].timestamp {
      assert Timestamp(sorted[i]) >= Timestamp(sorted[j]);
    }
    forall t ensures Sorting.WithKey(sorted, Timestamp, t) == Sorting.WithKey(h, Timestamp, t) {
      Sorting.SortIsStable(h, Timestamp, t);
    }
  }

  /** The grouping holds a group exactly for each action that occurs, and each group is that action's events in order. */
  lemma {:induction false} ByActionGroups(rs: seq<RewardEvent>)
    ensures forall a :: a in ByAction(rs) <==> |OfAction(rs, a)| > 0
    ensures forall a :: a in ByAction(rs) ==> ByAction(rs)[a] == OfAction(rs, a)
    decreases |rs|
  {
    if rs != [] {
      ByActionGroups(rs[..|rs| - 1]);
    }
  }

  /** Every event belongs to exactly one of the four actions. */
  lemma {:induction false} ActionsPartition(rs: seq<RewardEvent>)
    ensures |OfAction(rs, TopicCompleted)| + |OfAction(rs, TopicReviewed)|
          + |OfAction(rs, Achievement)| + |OfAction(rs, StreakBonus)| == |rs|
    decreases |rs|
  {
    if rs != [] {
      ActionsPartition(rs[..|rs| - 1]);
    }
  }

  /** Each stat counts one action among the recent events, and the four add up to the recent events shown. */
  lemma StatsCountRecent(users: map<ObjectId, User>, user: ObjectId)
    requires user in users
    ensures var s := GetUserRewards(users, user).value;
      && s.stats.topicsCompleted == |OfAction(s.recentRewards, TopicCompleted)|
      && s.stats.topicsReviewed == |OfAction(s.recentRewards, TopicReviewed)|
      && s.stats.achievements == |OfAction(s.recentRewards, Achievement)|
      && s.stats.streakBonuses == |OfAction(s.recentRewards, StreakBonus)|
      && s.stats.topicsCompleted + s.stats.topicsReviewed + s.stats.achievements + s.stats.streakBonuses
         == |s.recentRewards|
  {
    var s := GetUserRewards(users, user).value;
    ByActionGroups(s.recentRewards);
    ActionsPartition(s.recentRewards);
  }

  /** For a consistent ledger the summary's two totals agree. */
  lemma ConsistentTotalsAgree(users: map<ObjectId, User>, user: ObjectId)
    requires user in users
    ensures var s := GetUserRewards(users, user).value;
      Ledger.Consistent(users[user]) <==> s.currentPoints == s.totalPointsEarned
  {
  }
}
