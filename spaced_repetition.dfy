/**
 * The interval and points policy: difficulty lookup tables, the next-review
 * computation and the day-granularity due test.
 */
module SpacedRepetition {
  import opened Wrappers
  import opened Time

  const Easy: string := "easy"
  const Medium: string := "medium"
  const Hard: string := "hard"

  /** The three difficulty tiers of the topic schema. Other strings reach the `default:` branches. */
  predicate IsDifficulty(d: string) {
    d == Easy || d == Medium || d == Hard
  }

  /** `getDefaultInterval`: days until the first review after completion. */
  function DefaultInterval(difficulty: string): (r: nat)
    ensures 7 <= r <= 15
    ensures !IsDifficulty(difficulty) ==> r == 10
  {
    match difficulty
    case "easy" => 15
    case "medium" => 10
    case "hard" => 7
    case _ => 10
  }

  /** `getReviewPoints`: points awarded for one review. */
  function ReviewPoints(difficulty: string): (r: nat)
    ensures 1 <= r <= 3
    ensures !IsDifficulty(difficulty) ==> r == 2
  {
    match difficulty
    case "easy" => 1
    case "medium" => 2
    case "hard" => 3
    case _ => 2
  }

  /** Easier topics wait longer; unknown tiers are treated as medium. */
  lemma DefaultIntervalOrder(d: string)
    ensures DefaultInterval("easy") > DefaultInterval("medium") > DefaultInterval("hard") > 0
    ensures !IsDifficulty(d) ==> DefaultInterval(d) == DefaultInterval("medium")
  {
  }

  /** Harder topics earn more per review; unknown tiers earn what medium earns. */
  lemma ReviewPointsOrder(d: string)
    ensures ReviewPoints("easy") < ReviewPoints("medium") < ReviewPoints("hard")
    ensures !IsDifficulty(d) ==> ReviewPoints(d) == ReviewPoints("medium")
  {
  }

  /**
   * `computeNextReview`: with no interval yet (`intervalDays || 0` is 0) the
   * difficulty default of its own inline table, otherwise twice the interval,
   * counted from today.
   */
  function ComputeNextReview(difficulty: string, intervalDays: int, today: Instant): (r: Instant)
    ensures intervalDays >= 0 ==> Day(r) >= Day(today) + 2 && r > today
  {
    var days :=
      if intervalDays == 0 then
        match difficulty
        case "easy" => 15
        case "medium" => 10
        case "hard" => 7
        case _ => 10
      else intervalDays * 2;
    AddDays(today, days)
  }

  /** The inline table of ComputeNextReview agrees with DefaultInterval on every difficulty. */
  lemma ComputeNextReviewFirstInterval(difficulty: string, today: Instant)
    ensures ComputeNextReview(difficulty, 0, today) == AddDays(today, DefaultInterval(difficulty))
  {
  }

  /** With an interval n > 0 the next review is exactly 2n days out, with no floor. */
  lemma ComputeNextReviewDoubles(difficulty: string, n: int, today: Instant)
    requires n != 0
    ensures ComputeNextReview(difficulty, n, today) == AddDays(today, 2 * n)
    ensures Day(ComputeNextReview(difficulty, n, today)) == Day(today) + 2 * n
  {
  }

  /** `isDue`: a missing next review is never due; otherwise compare the two dates at midnight. */
  function IsDue(nextReview: Option<Instant>, now: Instant): (r: bool)
    ensures r <==> nextReview.Some? && Day(nextReview.value) <= Day(now)
  {
    match nextReview
    case None => false
    case Some(t) => StartOfDay(t) <= StartOfDay(now)
  }

  /** A review scheduled later on the current day already counts as due. */
  lemma DueLaterToday(t: Instant, now: Instant)
    requires Day(t) == Day(now)
    ensures IsDue(Some(t), now)
  {
  }

  /** Once due, a topic stays due as time moves on. */
  lemma DueStaysDue(nextReview: Option<Instant>, now: Instant, later: Instant)
    requires IsDue(nextReview, now) && now <= later
    ensures IsDue(nextReview, later)
  {
    DayMonotonic(now, later);
  }

  /** A timestamp already passed is due; the converse fails within the day. */
  lemma PastIsDue(t: Instant, now: Instant)
    requires t <= now
    ensures IsDue(Some(t), now)
  {
    DayMonotonic(t, now);
  }
}
