/**
 * The reward ledger on the user record: the `$inc points` / `$push
 * rewardHistory` update the topic transitions apply, and the invariant that
 * the points total is the sum of the history.
 */
module Ledger {
  import opened Wrappers
  import opened Models

  /** `user.points || 0`. */
  function CurrentPoints(u: User): int {
    u.points.GetOr(0)
  }

  /** The history, empty when the field is absent. */
  function History(u: User): seq<RewardEvent> {
    u.rewardHistory.GetOr([])
  }

  /** `reduce((sum, reward) => sum + reward.points, 0)`, a left fold. */
  function SumPoints(h: seq<RewardEvent>): int {
    if h == [] then 0 else SumPoints(h[..|h| - 1]) + h[|h| - 1].points
  }

  /** The accumulator invariant: the stored total equals the sum of the history. */
  predicate Consistent(u: User) {
    CurrentPoints(u) == SumPoints(History(u))
  }

  /** One combined update: `$inc` the total by the event's points and `$push` the event. */
  function Award(u: User, e: RewardEvent): (r: User)
    ensures CurrentPoints(r) == CurrentPoints(u) + e.points
    ensures History(r) == History(u) + [e]
  {
    User(Some(CurrentPoints(u) + e.points), Some(History(u) + [e]))
  }

  lemma SumPointsAppend(h: seq<RewardEvent>, e: RewardEvent)
    ensures SumPoints(h + [e]) == SumPoints(h) + e.points
  {
    assert (h + [e])[..|h|] == h;
  }

  /** An award keeps a consistent user consistent. */
  lemma AwardKeepsConsistent(u: User, e: RewardEvent)
    requires Consistent(u)
    ensures Consistent(Award(u, e))
  {
    SumPointsAppend(History(u), e);
  }

  /** A run of awards, in order. */
  function AwardAll(u: User, es: seq<RewardEvent>): (r: User)
    ensures History(r) == History(u) + es
    decreases |es|
  {
    if es == [] then u
    else AwardAll(Award(u, es[0]), es[1..])
  }

  /** However many transitions run, the total moves by exactly the sum of what they pushed. */
  lemma {:induction false} AwardAllAdds(u: User, es: seq<RewardEvent>)
    ensures CurrentPoints(AwardAll(u, es)) == CurrentPoints(u) + SumPoints(es)
    ensures Consistent(u) ==> Consistent(AwardAll(u, es))
    decreases |es|
  {
    if es == [] {
    } else {
      AwardAllAdds(Award(u, es[0]), es[1..]);
      SumPointsPrepend(es[0], es[1..]);
      assert es == [es[0]] + es[1..];
      if Consistent(u) {
        AwardKeepsConsistent(u, es[0]);
      }
    }
  }

  lemma {:induction false} SumPointsPrepend(e: RewardEvent, h: seq<RewardEvent>)
    ensures SumPoints([e] + h) == e.points + SumPoints(h)
    decreases |h|
  {
    if h == [] {
      assert ([e] + h)[..0] == [];
    } else {
      var init := h[..|h| - 1];
      assert ([e] + h)[..|h|] == [e] + init;
      SumPointsPrepend(e, init);
    }
  }
}
