/**
 * The topic state machine: the shared ownership guard, the two transitions
 * (complete, review) with their reward-ledger updates, the whitelist update
 * and the validated create.
 */
module TopicsController {
  import opened Wrappers
  import opened Time
  import opened Text
  import opened Models
  import opened SpacedRepetition
  import Ledger
  import opened Store
  import ReviewNotifier

  /** `ensureSubjectOwnership`: 404 for an unknown subject, 403 when another user owns it. */
  function EnsureSubjectOwnership(subjects: map<ObjectId, Subject>, subjectId: ObjectId, userId: ObjectId)
    : (r: Result<Subject, Status>)
    ensures r.Success? <==> subjectId in subjects && subjects[subjectId].user == userId
    ensures r.Success? ==> r.value == subjects[subjectId]
    ensures r == Failure(NotFound) <==> subjectId !in subjects
    ensures r == Failure(Forbidden) <==> subjectId in subjects && subjects[subjectId].user != userId
  {
    if subjectId !in subjects then Failure(NotFound)
    else if subjects[subjectId].user != userId then Failure(Forbidden)
    else Success(subjects[subjectId])
  }

  /** The topic exists and the user owns its subject. */
  predicate TopicOwnedBy(topics: seq<Topic>, subjects: map<ObjectId, Subject>, topicId: ObjectId, userId: ObjectId) {
    match IndexOfTopic(topics, topicId)
    case None => false
    case Some(i) => topics[i].subject in subjects && subjects[topics[i].subject].user == userId
  }

  /**
   * The guard every topic handler runs first: `Topic.findById` (404 when
   * absent), then ownership of its subject. Yields the topic's position.
   */
  function Authorize(topics: seq<Topic>, subjects: map<ObjectId, Subject>, topicId: ObjectId, userId: ObjectId)
    : (r: Result<nat, Status>)
    ensures r.Success? ==> r.value < |topics| && topics[r.value].id == topicId
    ensures r.Success? <==> TopicOwnedBy(topics, subjects, topicId, userId)
    ensures r == Failure(NotFound) <==>
      IndexOfTopic(topics, topicId).None? || topics[IndexOfTopic(topics, topicId).value].subject !in subjects
    ensures r.Failure? ==> r.error == NotFound || r.error == Forbidden
  {
    match IndexOfTopic(topics, topicId)
    case None => Failure(NotFound)
    case Some(i) =>
      match EnsureSubjectOwnership(subjects, topics[i].subject, userId)
      case Failure(e) => Failure(e)
      case Success(_) => Success(i)
  }

  /** The completion points inlined in `markComplete`: 5/10/15, unknown tiers 10. */
  function CompletionPoints(difficulty: string): (r: nat)
    ensures 5 <= r <= 15
    ensures !IsDifficulty(difficulty) ==> r == 10
  {
    match difficulty
    case "easy" => 5
    case "medium" => 10
    case "hard" => 15
    case _ => 10
  }

  /** Harder tiers earn more for completion, and completion beats a review in every tier. */
  lemma CompletionPointsOrder(d: string)
    ensures CompletionPoints("easy") < CompletionPoints("medium") < CompletionPoints("hard")
    ensures CompletionPoints(d) > ReviewPoints(d)
  {
  }

  /** `Math.max(1, current * 2)` on `topic.intervalDays || 0`. */
  function GrowInterval(current: int): (r: int)
    ensures r >= 1
    ensures current >= 0 ==> r >= current
  {
    if current * 2 > 1 then current * 2 else 1
  }

  /** The field effects of `markComplete`. */
  function Completed(t: Topic, now: Instant): (c: Topic)
    ensures ValidTopic(t) ==> ValidTopic(c)
    ensures c.points == CompletionPoints(t.difficulty)
    ensures c.completed && c.intervalDays == 1 && c.completedAt == Some(now) && c.lastReviewed == Some(now)
    // exactly the default interval in whole days after `now`, at now's time of day
    ensures c.nextReview == Some(AddDays(now, DefaultInterval(t.difficulty)))
    ensures Day(c.nextReview.value) == Day(now) + DefaultInterval(t.difficulty)
    ensures c.(completed := t.completed, intervalDays := t.intervalDays, completedAt := t.completedAt,
               lastReviewed := t.lastReviewed, nextReview := t.nextReview, points := t.points) == t
  {
    t.(completed := true, intervalDays := 1, completedAt := Some(now),
       nextReview := Some(AddDays(now, DefaultInterval(t.difficulty))), lastReviewed := Some(now),
       points := CompletionPoints(t.difficulty))
  }

  /**
   * After a completion, `isDue` holds from the start of the due day, but the
   * scan picks the topic up only from the instant `now` plus the interval.
   */
  lemma CompletedScheduling(t: Topic, now: Instant, later: Instant)
    ensures var c := Completed(t, now);
      && (IsDue(c.nextReview, later) <==> Day(later) >= Day(now) + DefaultInterval(t.difficulty))
      && (ReviewNotifier.Selected(c, later) <==> later >= now + DefaultInterval(t.difficulty) * MsPerDay)
  {
  }

  /** The field effects of `recordReview`; `completed` is neither required nor changed. */
  function Reviewed(t: Topic, now: Instant): (c: Topic)
    ensures ValidTopic(t) ==> ValidTopic(c)
    ensures c.intervalDays == GrowInterval(t.intervalDays) && c.lastReviewed == Some(now)
    // exactly the grown interval in whole days after `now`, at now's time of day
    ensures c.nextReview == Some(AddDays(now, c.intervalDays))
    ensures Day(c.nextReview.value) == Day(now) + c.intervalDays
    ensures c.(intervalDays := t.intervalDays, lastReviewed := t.lastReviewed, nextReview := t.nextReview) == t
  {
    var interval := GrowInterval(t.intervalDays);
    t.(intervalDays := interval, lastReviewed := Some(now), nextReview := Some(AddDays(now, interval)))
  }

  function CompletionEvent(t: Topic, now: Instant): RewardEvent {
    RewardEvent(TopicCompleted, CompletionPoints(t.difficulty),
                "Completed topic: " + t.title + " (" + t.difficulty + ")", now)
  }

  function ReviewEvent(t: Topic, now: Instant): RewardEvent {
    RewardEvent(TopicReviewed, ReviewPoints(t.difficulty),
                "Reviewed topic: " + t.title + " (" + t.difficulty + ")", now)
  }

  /** What a successful transition responds with. */
  datatype Transition = Transition(topic: Topic, pointsEarned: int, newTotalPoints: int)

  /**
   * `markComplete`. The caller is a user the authentication middleware found.
   * On success the topic gets the completion effects and the user exactly one
   * `topic_completed` event worth the points stored on the topic.
   */
  method MarkComplete(db: Db, topicId: ObjectId, userId: ObjectId, now: Instant) returns (r: Result<Transition, Status>)
    requires db.Valid() && userId in db.users
    modifies db`topics, db`users
    ensures db.Valid()
    ensures var g := Authorize(old(db.topics), old(db.subjects), topicId, userId);
      if g.Failure? then r == Failure(g.error) && unchanged(db)
      else
        var t := Completed(old(db.topics)[g.value], now);
        var u := Ledger.Award(old(db.users)[userId], CompletionEvent(t, now));
        && db.topics == old(db.topics)[g.value := t]
        && db.users == old(db.users)[userId := u]
        && r == Success(Transition(t, t.points, Ledger.CurrentPoints(u)))
    ensures old(Ledger.Consistent(db.users[userId])) ==> Ledger.Consistent(db.users[userId])
  {
    var g := Authorize(db.topics, db.subjects, topicId, userId);
    if g.Failure? {
      return Failure(g.error);
    }
    var i := g.value;
    var topic := Completed(db.topics[i], now);
    db.SaveTopic(i, topic);
    var event := CompletionEvent(topic, now);
    if Ledger.Consistent(db.users[userId]) {
      Ledger.AwardKeepsConsistent(db.users[userId], event);
    }
    var user := Ledger.Award(db.users[userId], event);
    db.users := db.users[userId := user];
    r := Success(Transition(topic, topic.points, Ledger.CurrentPoints(user)));
  }

  /**
   * `recordReview`: grows the interval, reschedules from today and awards
   * `getReviewPoints` through exactly one `topic_reviewed` event.
   */
  method RecordReview(db: Db, topicId: ObjectId, userId: ObjectId, now: Instant) returns (r: Result<Transition, Status>)
    requires db.Valid() && userId in db.users
    modifies db`topics, db`users
    ensures db.Valid()
    ensures var g := Authorize(old(db.topics), old(db.subjects), topicId, userId);
      if g.Failure? then r == Failure(g.error) && unchanged(db)
      else
        var t := Reviewed(old(db.topics)[g.value], now);
        var u := Ledger.Award(old(db.users)[userId], ReviewEvent(t, now));
        && db.topics == old(db.topics)[g.value := t]
        && db.users == old(db.users)[userId := u]
        && r == Success(Transition(t, ReviewPoints(t.difficulty), Ledger.CurrentPoints(u)))
    ensures old(Ledger.Consistent(db.users[userId])) ==> Ledger.Consistent(db.users[userId])
  {
    var g := Authorize(db.topics, db.subjects, topicId, userId);
    if g.Failure? {
      return Failure(g.error);
    }
    var i := g.value;
    var topic := Reviewed(db.topics[i], now);
    db.SaveTopic(i, topic);
    var event := ReviewEvent(topic, now);
    if Ledger.Consistent(db.users[userId]) {
      Ledger.AwardKeepsConsistent(db.users[userId], event);
    }
    var user := Ledger.Award(db.users[userId], event);
    db.users := db.users[userId := user];
    r := Success(Transition(topic, ReviewPoints(topic.difficulty), Ledger.CurrentPoints(user)));
  }

  /** `markComplete` is not one-shot: a second call re-applies the same effects and pays again. */
  lemma CompleteTwice(t: Topic, u: User, first: Instant, second: Instant)
    ensures Completed(Completed(t, first), second) == Completed(t, second)
    ensures var once := Ledger.Award(u, CompletionEvent(Completed(t, first), first));
            var twice := Ledger.Award(once, CompletionEvent(Completed(Completed(t, first), second), second));
            Ledger.CurrentPoints(twice) == Ledger.CurrentPoints(u) + 2 * CompletionPoints(t.difficulty)
            && |Ledger.History(twice)| == |Ledger.History(u)| + 2
  {
  }

  /** Successive reviews: 0 -> 1 -> 2 -> 4, and from any non-negative interval it never shrinks. */
  lemma {:induction false} ReviewIntervalGrowth(t: Topic, a: Instant, b: Instant, c: Instant)
    requires t.intervalDays == 0
    ensures Reviewed(t, a).intervalDays == 1
    ensures Reviewed(Reviewed(t, a), b).intervalDays == 2
    ensures Reviewed(Reviewed(Reviewed(t, a), b), c).intervalDays == 4
  {
  }

  /**
   * `recordReview` and `computeNextReview` disagree on a topic with no
   * interval: the former reviews again after one day, the latter waits the
   * difficulty default. With an interval n > 0 both schedule 2n days out.
   */
  lemma ReviewVersusComputeNextReview(t: Topic, now: Instant)
    ensures t.intervalDays == 0 ==>
      Day(Reviewed(t, now).nextReview.value) == Day(now) + 1
      && Day(ComputeNextReview(t.difficulty, 0, now)) >= Day(now) + 7
    ensures t.intervalDays > 0 ==>
      Reviewed(t, now).nextReview.value == ComputeNextReview(t.difficulty, t.intervalDays, now)
  {
  }

  // ---- updateTopic ----

  /** The keys `updateTopic` copies from the body; everything else is ignored. */
  const UpdatableKeys: seq<Key> :=
    [TitleKey, DifficultyKey, NotesKey, CompletedKey, PointsKey, LastReviewedKey, NextReviewKey]

  /** A nullable Date path: `null` clears it, a date sets it, anything else fails to cast. */
  function DateValue(v: Value): Option<Option<Instant>> {
    match v
    case VNull => Some(None)
    case VDate(t) => Some(Some(t))
    case _ => None
  }

  function DateAsValue(d: Option<Instant>): Value {
    match d
    case None => VNull
    case Some(t) => VDate(t)
  }

  /** `topic[key]` read back as a body value. */
  function Get(t: Topic, key: Key): Option<Value> {
    match key
    case IdKey => Some(VId(t.id))
    case SubjectKey => Some(VId(t.subject))
    case TitleKey => Some(VStr(t.title))
    case DifficultyKey => Some(VStr(t.difficulty))
    case NotesKey => Some(VStr(t.notes))
    case CompletedKey => Some(VBool(t.completed))
    case PointsKey => Some(VNum(t.points))
    case LastReviewedKey => Some(DateAsValue(t.lastReviewed))
    case NextReviewKey => Some(DateAsValue(t.nextReview))
    case IntervalDaysKey => Some(VNum(t.intervalDays))
    case CompletedAtKey => Some(DateAsValue(t.completedAt))
    case CreatedAtKey => Some(VDate(t.createdAt))
    case OtherKey(_) => None
  }

  /**
   * `topic[key] = value` on a document: the value cast to the path's type
   * (titles pass through the schema's `trim` setter); None when the cast
   * fails, which makes the later save fail. Unknown keys are dropped.
   */
  function SetField(t: Topic, key: Key, v: Value): (r: Option<Topic>)
    ensures r.Some? ==> forall k :: k != key ==> Get(r.value, k) == Get(t, k)
  {
    match key
    case IdKey => if v.VId? then Some(t.(id := v.id)) else None
    case SubjectKey => if v.VId? then Some(t.(subject := v.id)) else None
    case TitleKey => if v.VStr? then Some(t.(title := Trim(v.s))) else None
    case DifficultyKey => if v.VStr? then Some(t.(difficulty := v.s)) else None
    case NotesKey => if v.VStr? then Some(t.(notes := v.s)) else None
    case CompletedKey => if v.VBool? then Some(t.(completed := v.b)) else None
    case PointsKey => if v.VNum? then Some(t.(points := v.n)) else None
    case LastReviewedKey => if DateValue(v).Some? then Some(t.(lastReviewed := DateValue(v).value)) else None
    case NextReviewKey => if DateValue(v).Some? then Some(t.(nextReview := DateValue(v).value)) else None
    case IntervalDaysKey => if v.VNum? then Some(t.(intervalDays := v.n)) else None
    case CompletedAtKey => if DateValue(v).Some? then Some(t.(completedAt := DateValue(v).value)) else None
    case CreatedAtKey => if v.VDate? then Some(t.(createdAt := v.t)) else None
    case OtherKey(_) => Some(t)
  }

  /** The copy loop of `updateTopic` over the given keys, in order. */
  function ApplyPatch(t: Topic, body: map<Key, Value>, keys: seq<Key>): Option<Topic>
    decreases |keys|
  {
    if keys == [] then Some(t)
    else
      match ApplyPatch(t, body, keys[..|keys| - 1])
      case None => None
      case Some(p) =>
        var k := keys[|keys| - 1];
        if k in body then SetField(p, k, body[k]) else Some(p)
  }

  lemma PatchStep(t: Topic, body: map<Key, Value>, keys: seq<Key>)
    requires keys != []
    ensures var k := keys[|keys| - 1];
      ApplyPatch(t, body, keys) ==
        match ApplyPatch(t, body, keys[..|keys| - 1])
        case None => None
        case Some(p) => if k in body then SetField(p, k, body[k]) else Some(p)
  {
  }

  /** The stored form of an accepted body value. */
  function Stored(key: Key, v: Value): Value {
    if key == TitleKey && v.VStr? then VStr(Trim(v.s)) else v
  }

  /** Keys outside the list keep their value, whatever the body says about them. */
  lemma {:induction false} PatchKeepsOtherKeys(t: Topic, body: map<Key, Value>, keys: seq<Key>, k: Key)
    requires k !in keys
    requires ApplyPatch(t, body, keys).Some?
    ensures Get(ApplyPatch(t, body, keys).value, k) == Get(t, k)
    decreases |keys|
  {
    if keys != [] {
      PatchKeepsOtherKeys(t, body, keys[..|keys| - 1], k);
    }
  }

  lemma SetFieldStores(t: Topic, key: Key, v: Value)
    requires key in UpdatableKeys
    requires SetField(t, key, v).Some?
    ensures Get(SetField(t, key, v).value, key) == Some(Stored(key, v))
  {
  }

  /** Each listed key ends up with the body's value when present, and is untouched when absent. */
  lemma {:induction false} PatchSetsListedKeys(t: Topic, body: map<Key, Value>, keys: seq<Key>, k: Key)
    requires forall i, j :: 0 <= i < j < |keys| ==> keys[i] != keys[j]
    requires forall i :: 0 <= i < |keys| ==> keys[i] in UpdatableKeys
    requires k in keys
    requires ApplyPatch(t, body, keys).Some?
    ensures Get(ApplyPatch(t, body, keys).value, k) == if k in body then Some(Stored(k, body[k])) else Get(t, k)
    decreases |keys|
  {
    var init := keys[..|keys| - 1];
    var last := keys[|keys| - 1];
    var p := ApplyPatch(t, body, init).value;
    if k == last {
      assert k !in init;
      PatchKeepsOtherKeys(t, body, init, k);
      if k in body {
        SetFieldStores(p, k, body[k]);
      }
    } else {
      assert k in init by {
        var i :| 0 <= i < |keys| && keys[i] == k;
        assert init[i] == k;
      }
      PatchSetsListedKeys(t, body, init, k);
    }
  }

  /**
   * `updateTopic` copies exactly the whitelisted keys present in the body;
   * `subject`, `intervalDays`, `completedAt`, the id and `createdAt` never change.
   */
  lemma UpdateWhitelist(t: Topic, body: map<Key, Value>)
    requires ApplyPatch(t, body, UpdatableKeys).Some?
    ensures var p := ApplyPatch(t, body, UpdatableKeys).value;
      && (forall k :: k in UpdatableKeys ==> Get(p, k) == if k in body then Some(Stored(k, body[k])) else Get(t, k))
      && p.subject == t.subject && p.intervalDays == t.intervalDays && p.completedAt == t.completedAt
      && p.id == t.id && p.createdAt == t.createdAt
  {
    var p := ApplyPatch(t, body, UpdatableKeys).value;
    forall k | k in UpdatableKeys
      ensures Get(p, k) == if k in body then Some(Stored(k, body[k])) else Get(t, k)
    {
      PatchSetsListedKeys(t, body, UpdatableKeys, k);
    }
    PatchKeepsOtherKeys(t, body, UpdatableKeys, SubjectKey);
    PatchKeepsOtherKeys(t, body, UpdatableKeys, IntervalDaysKey);
    PatchKeepsOtherKeys(t, body, UpdatableKeys, CompletedAtKey);
    PatchKeepsOtherKeys(t, body, UpdatableKeys, IdKey);
    PatchKeepsOtherKeys(t, body, UpdatableKeys, CreatedAtKey);
  }

  /** The whitelist never touches the id, so the patched topic is saved under its own id. */
  lemma PatchKeepsId(t: Topic, body: map<Key, Value>)
    requires ApplyPatch(t, body, UpdatableKeys).Some?
    ensures ApplyPatch(t, body, UpdatableKeys).value.id == t.id
  {
    PatchKeepsOtherKeys(t, body, UpdatableKeys, IdKey);
  }

  /** The `for (const key of allowed)` loop: copy each listed key the body has. */
  method CopyAllowed(topic: Topic, body: map<Key, Value>, keys: seq<Key>) returns (patched: Option<Topic>)
    ensures patched == ApplyPatch(topic, body, keys)
  {
    patched := Some(topic);
    for k := 0 to |keys|
      invariant patched == ApplyPatch(topic, body, keys[..k])
    {
      var key := keys[k];
      PatchStep(topic, body, keys[..k + 1]);
      assert keys[..k + 1][..k] == keys[..k];
      if key in body && patched.Some? {
        patched := SetField(patched.value, key, body[key]);
      }
    }
    assert keys[..|keys|] == keys;
  }

  /**
   * `updateTopic`: after the guard, the whitelist copy; the save is refused
   * (500) when a value failed to cast or the result breaks the schema.
   */
  method UpdateTopic(db: Db, topicId: ObjectId, userId: ObjectId, body: map<Key, Value>) returns (r: Result<Topic, Status>)
    requires db.Valid()
    modifies db`topics
    ensures db.Valid()
    ensures var g := Authorize(old(db.topics), old(db.subjects), topicId, userId);
      if g.Failure? then r == Failure(g.error) && unchanged(db)
      else
        var p := ApplyPatch(old(db.topics)[g.value], body, UpdatableKeys);
        if p.None? || !ValidTopic(p.value) then r == Failure(ServerError) && unchanged(db)
        else
          && r == Success(p.value)
          && db.topics == old(db.topics)[g.value := p.value]
  {
    var g := Authorize(db.topics, db.subjects, topicId, userId);
    if g.Failure? {
      return Failure(g.error);
    }
    var i := g.value;
    var topic := db.topics[i];
    var patched := CopyAllowed(topic, body, UpdatableKeys);
    if patched.None? || !ValidTopic(patched.value) {
      return Failure(ServerError);
    }
    PatchKeepsId(topic, body);
    db.SaveTopic(i, patched.value);
    r := Success(patched.value);
  }

  // ---- createTopic ----

  /** `trim()` also strips the wide spaces: an ideographic-space title is blank ... */
  lemma WideSpaceTitleBlank()
    ensures ValidateCreate(map[SubjectKey := VId(1), TitleKey := VStr("\U{3000}")]) == Failure(BadRequest)
  {
    TrimEmptyIffAllSpace("\U{3000}");
  }

  /** ... and leading em and ordinary spaces are cut off the stored title. */
  lemma WideSpaceTitleTrimmed()
    ensures ValidateCreate(map[SubjectKey := VId(1), TitleKey := VStr(" \U{2003}Math")]) == Success((VId(1), "Math"))
  {
    var word := "Math";
    assert TrimStart(word) == word && TrimEnd(word) == word;
    var em := ['\U{2003}'] + word;
    assert em[1..] == word;
    var title := [' '] + em;
    assert title[1..] == em;
    assert TrimStart(title) == word;
    assert title == " \U{2003}Math";
  }

  /** What `createTopic` checks before touching the store: a truthy subject and a non-blank string title. */
  function ValidateCreate(body: map<Key, Value>): (r: Result<(Value, string), Status>)
    ensures r.Failure? ==> r.error == BadRequest
    ensures r.Success? <==>
      !Falsy(Lookup(body, SubjectKey)) && TitleKey in body && body[TitleKey].VStr? && !AllSpace(body[TitleKey].s)
    ensures r.Success? ==> r.value.0 == body[SubjectKey] && r.value.1 == Trim(body[TitleKey].s)
                           && r.value.1 != "" && Trimmed(r.value.1)
  {
    if Falsy(Lookup(body, SubjectKey)) then Failure(BadRequest)
    else if !(TitleKey in body && body[TitleKey].VStr?) then Failure(BadRequest)
    else
      var s := body[TitleKey].s;
      TrimEmptyIffAllSpace(s);
      TrimmedIffFixed(s);
      if Trim(s) == "" then Failure(BadRequest) else Success((body[SubjectKey], Trim(s)))
  }

  /** An optional string field of a body: absent gives the schema default, a non-string fails the cast. */
  function OptionalString(body: map<Key, Value>, key: Key): Option<Option<string>> {
    if key !in body then Some(None)
    else if body[key].VStr? then Some(Some(body[key].s))
    else None
  }

  /**
   * The response `createTopic` decides on: 400 before any lookup, then
   * 404/403 from the ownership check, then a 500 when a field fails its cast
   * or the enum validator; otherwise the topic it stores under `id`.
   */
  function CreateOutcome(subjects: map<ObjectId, Subject>, id: ObjectId, userId: ObjectId,
                         body: map<Key, Value>, now: Instant): (r: Result<Topic, Status>)
    ensures r.Success? ==> r.value.id == id && ValidTopic(r.value)
  {
    match ValidateCreate(body)
    case Failure(e) => Failure(e)
    case Success((subject, title)) =>
      if !subject.VId? then Failure(ServerError)
      else match EnsureSubjectOwnership(subjects, subject.id, userId)
        case Failure(e) => Failure(e)
        case Success(_) =>
          var difficulty := OptionalString(body, DifficultyKey);
          var notes := OptionalString(body, NotesKey);
          if difficulty.None? || notes.None? then Failure(ServerError)
          else
            var topic := NewTopic(id, subject.id, title, difficulty.value, notes.value, now);
            if !ValidTopic(topic) then Failure(ServerError) else Success(topic)
  }

  /** The order of the checks, and what a created topic holds. */
  lemma CreateOutcomeCases(subjects: map<ObjectId, Subject>, id: ObjectId, userId: ObjectId,
                           body: map<Key, Value>, now: Instant)
    ensures var r := CreateOutcome(subjects, id, userId, body, now);
      && (ValidateCreate(body).Failure? ==> r == Failure(BadRequest))
      && (ValidateCreate(body).Success? && ValidateCreate(body).value.0.VId? ==>
            var own := EnsureSubjectOwnership(subjects, ValidateCreate(body).value.0.id, userId);
            own.Failure? ==> r == Failure(own.error))
      && (r.Success? ==>
            && ValidateCreate(body).Success?
            && var (subject, title) := ValidateCreate(body).value;
               && subject.VId? && subject.id in subjects && subjects[subject.id].user == userId
               && ValidTopic(r.value) && r.value.id == id && r.value.subject == subject.id
               && r.value.title == Trim(body[TitleKey].s) && r.value.createdAt == now
               && (DifficultyKey !in body ==> r.value.difficulty == Medium)
               && (NotesKey in body ==> r.value.notes == body[NotesKey].s)
               && !r.value.completed && r.value.points == 0 && r.value.nextReview.None?)
  {
  }

  /**
   * The converse: `createTopic` succeeds exactly when the body passes the
   * checks, names a subject the caller owns, and its difficulty and notes
   * (when given) are strings, the difficulty one of the enum's values.
   */
  lemma CreateOutcomeSucceeds(subjects: map<ObjectId, Subject>, id: ObjectId, userId: ObjectId,
                              body: map<Key, Value>, now: Instant)
    ensures CreateOutcome(subjects, id, userId, body, now).Success? <==>
      && ValidateCreate(body).Success?
      && body[SubjectKey].VId? && body[SubjectKey].id in subjects
      && subjects[body[SubjectKey].id].user == userId
      && (DifficultyKey !in body || (body[DifficultyKey].VStr? && IsDifficulty(body[DifficultyKey].s)))
      && (NotesKey !in body || body[NotesKey].VStr?)
  {
  }

  /**
   * `createTopic`: the response is the one `CreateOutcome` decides on; only a
   * success stores anything, appending the topic and consuming one id.
   */
  method CreateTopic(db: Db, userId: ObjectId, body: map<Key, Value>, now: Instant) returns (r: Result<Topic, Status>)
    requires db.Valid()
    modifies db`topics, db`nextId
    ensures db.Valid()
    ensures r == CreateOutcome(old(db.subjects), old(db.nextId), userId, body, now)
    ensures r.Failure? ==> unchanged(db)
    ensures r.Success? ==> db.topics == old(db.topics) + [r.value] && db.nextId == old(db.nextId) + 1
  {
    // the checks only read the store; `Topic.create` is the one write
    r := CreateOutcome(db.subjects, db.nextId, userId, body, now);
    if r.Success? {
      db.InsertTopic(r.value);
    }
  }
}
