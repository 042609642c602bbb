/**
 * The records of the store: topics and notifications as their schemas
 * declare them, subjects and users as far as the engine reads them, and the
 * request-body values the controllers receive.
 */
module Models {
  import opened Wrappers
  import opened Time
  import opened Text
  import SpacedRepetition

  /** Document ids; the store hands out fresh ones for new topics and notifications. */
  type ObjectId = nat

  /** The failures a controller reports: 400, 403, 404, and 500 for a failed save or cast. */
  datatype Status = BadRequest | Forbidden | NotFound | ServerError

  /** A JSON value of a request body, with ObjectIds and Dates as the driver casts them. */
  datatype Value = VNull | VBool(b: bool) | VNum(n: int) | VStr(s: string) | VDate(t: Instant) | VId(id: ObjectId)

  /**
   * The keys of a request body that name topic paths; any other key is
   * carried by name and matches no path.
   */
  datatype Key =
    | IdKey | SubjectKey | TitleKey | DifficultyKey | NotesKey | CompletedKey | PointsKey
    | LastReviewedKey | NextReviewKey | IntervalDaysKey | CompletedAtKey | CreatedAtKey
    | OtherKey(name: string)

  /** JavaScript falsiness of a body field; a missing field is `undefined`, also falsy. */
  predicate Falsy(v: Option<Value>) {
    match v
    case None => true
    case Some(VNull) => true
    case Some(VBool(b)) => !b
    case Some(VNum(n)) => n == 0
    case Some(VStr(s)) => s == ""
    case Some(_) => false
  }

  function Lookup(body: map<Key, Value>, key: Key): Option<Value> {
    if key in body then Some(body[key]) else None
  }

  /** A topic document. */
  datatype Topic = Topic(
    id: ObjectId,
    subject: ObjectId,
    title: string,
    difficulty: string,
    notes: string,
    completed: bool,
    points: int,
    lastReviewed: Option<Instant>,
    nextReview: Option<Instant>,
    intervalDays: int,
    completedAt: Option<Instant>,
    createdAt: Instant)

  /**
   * What the topic schema's validators accept on save: a (trimmed, by the
   * `trim` setter) non-empty title, a difficulty from the enum, and the two
   * `min: 0` bounds.
   */
  predicate ValidTopic(t: Topic) {
    && t.title != "" && Trimmed(t.title)
    && SpacedRepetition.IsDifficulty(t.difficulty)
    && t.points >= 0
    && t.intervalDays >= 0
  }

  /** A topic as `Topic.create` builds it: schema defaults for every field not given. */
  function NewTopic(id: ObjectId, subject: ObjectId, title: string, difficulty: Option<string>,
                    notes: Option<string>, now: Instant): (t: Topic)
    ensures t.difficulty == difficulty.GetOr(SpacedRepetition.Medium) && t.notes == notes.GetOr("")
    ensures !t.completed && t.points == 0 && t.intervalDays == 0
    ensures t.lastReviewed.None? && t.nextReview.None? && t.completedAt.None?
    ensures Trimmed(title) && title != "" && SpacedRepetition.IsDifficulty(t.difficulty) ==> ValidTopic(t)
  {
    Topic(id, subject, title, difficulty.GetOr(SpacedRepetition.Medium), notes.GetOr(""), false, 0,
          None, None, 0, None, now)
  }

  /** A notification document; `createdAt`/`updatedAt` come from the schema's timestamps option. */
  datatype Notification = Notification(
    id: ObjectId,
    user: ObjectId,
    topic: Option<ObjectId>,
    title: string,
    message: string,
    read: bool,
    createdAt: Instant,
    updatedAt: Instant)

  /** The required validators: user is always set, title and message must be non-empty. */
  predicate ValidNotification(n: Notification) {
    n.title != "" && n.message != ""
  }

  /** `Notification.create`: unread by default, both timestamps set to the creation time. */
  function NewNotification(id: ObjectId, user: ObjectId, topic: Option<ObjectId>, title: string,
                           message: string, now: Instant): (n: Notification)
    ensures !n.read && n.createdAt == now && n.updatedAt == now
    ensures title != "" && message != "" ==> ValidNotification(n)
  {
    Notification(id, user, topic, title, message, false, now, now)
  }

  /** A subject, as far as the engine reads it: its owner and its title. */
  datatype Subject = Subject(user: ObjectId, title: string)

  datatype Action = TopicCompleted | TopicReviewed | Achievement | StreakBonus

  /** One entry of a user's reward history. */
  datatype RewardEvent = RewardEvent(action: Action, points: int, description: string, timestamp: Instant)

  /** A user's points total and reward history; either may be absent on an old document. */
  datatype User = User(points: Option<int>, rewardHistory: Option<seq<RewardEvent>>)
}
