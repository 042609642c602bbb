/**
 * The due-review scan: select completed topics whose next review has passed,
 * group them by the owner of their subject, and create one unread
 * notification per (user, topic) unless an unread one is already pending.
 */
module ReviewNotifier {
  import opened Wrappers
  import opened Time
  import opened Models
  import opened Store
  import SpacedRepetition

  // ---- selection ----

  /** The query `{ completed: true, nextReview: { $lte: now } }`: exact instants, a missing date never matches. */
  predicate Selected(t: Topic, now: Instant) {
    t.completed && t.nextReview.Some? && t.nextReview.value <= now
  }

  /** The selected topics in the collection's natural order. */
  function DueTopics(ts: seq<Topic>, now: Instant): seq<Topic> {
    if ts == [] then []
    else
      var init := DueTopics(ts[..|ts| - 1], now);
      if Selected(ts[|ts| - 1], now) then init + [ts[|ts| - 1]] else init
  }

  /** The query returns exactly the selected topics. */
  lemma {:induction false} DueTopicsMembers(ts: seq<Topic>, now: Instant)
    ensures forall t :: t in DueTopics(ts, now) <==> t in ts && Selected(t, now)
    decreases |ts|
  {
    if ts != [] {
      DueTopicsMembers(ts[..|ts| - 1], now);
      assert ts == ts[..|ts| - 1] + [ts[|ts| - 1]];
    }
  }

  /** The scan's selection is stricter than `isDue`: every selected topic is due ... */
  lemma SelectedIsDue(t: Topic, now: Instant)
    requires Selected(t, now)
    ensures SpacedRepetition.IsDue(t.nextReview, now)
  {
    SpacedRepetition.PastIsDue(t.nextReview.value, now);
  }

  /** ... but a completed topic due later today is not selected yet. */
  lemma DueButNotSelected(t: Topic)
    requires t.completed && t.nextReview == Some(1)
    ensures SpacedRepetition.IsDue(t.nextReview, 0) && !Selected(t, 0)
  {
  }

  // ---- grouping ----

  /** A selected topic with its populated subject. */
  datatype DueItem = DueItem(topic: Topic, subject: Subject)

  function Owner(w: DueItem): ObjectId {
    w.subject.user
  }

  /** `populate('subject')` followed by the `topic.subject && topic.subject.user` test: unresolved subjects drop out. */
  function Resolved(due: seq<Topic>, subjects: map<ObjectId, Subject>): seq<DueItem> {
    if due == [] then []
    else
      var init := Resolved(due[..|due| - 1], subjects);
      var t := due[|due| - 1];
      if t.subject in subjects then init + [DueItem(t, subjects[t.subject])] else init
  }

  /** A topic is kept, paired with its subject, exactly when its subject resolves. */
  lemma {:induction false} ResolvedMembers(due: seq<Topic>, subjects: map<ObjectId, Subject>)
    ensures forall w :: w in Resolved(due, subjects) <==>
      w.topic in due && w.topic.subject in subjects && w.subject == subjects[w.topic.subject]
    decreases |due|
  {
    if due != [] {
      ResolvedMembers(due[..|due| - 1], subjects);
      assert due == due[..|due| - 1] + [due[|due| - 1]];
    }
  }

  /** `topicsByUser[userId]`: the items of one user, in query order. */
  function OwnedBy(items: seq<DueItem>, user: ObjectId): seq<DueItem> {
    if items == [] then []
    else
      var init := OwnedBy(items[..|items| - 1], user);
      var w := items[|items| - 1];
      if Owner(w) == user then init + [w] else init
  }

  /** A group holds exactly the items of its user. */
  lemma {:induction false} OwnedByMembers(items: seq<DueItem>, user: ObjectId)
    ensures forall w :: w in OwnedBy(items, user) <==> w in items && Owner(w) == user
    decreases |items|
  {
    if items != [] {
      OwnedByMembers(items[..|items| - 1], user);
      assert items == items[..|items| - 1] + [items[|items| - 1]];
    }
  }

  /** A user who is not among the keys has an empty group. */
  lemma {:induction false} NoKeyNoGroup(items: seq<DueItem>, user: ObjectId)
    requires user !in UserOrder(items)
    ensures OwnedBy(items, user) == []
    decreases |items|
  {
    if items != [] {
      NoKeyNoGroup(items[..|items| - 1], user);
    }
  }

  /** The keys of `topicsByUser` in insertion order: each owner at its first appearance. */
  function UserOrder(items: seq<DueItem>): seq<ObjectId> {
    if items == [] then []
    else
      var init := UserOrder(items[..|items| - 1]);
      var w := items[|items| - 1];
      if Owner(w) in init then init else init + [Owner(w)]
  }

  /** Every owner appears once among the keys, and nothing else does. */
  lemma {:induction false} UserOrderMembers(items: seq<DueItem>)
    ensures forall u :: u in UserOrder(items) <==> exists w :: w in items && Owner(w) == u
    ensures forall i, j :: 0 <= i < j < |UserOrder(items)| ==> UserOrder(items)[i] != UserOrder(items)[j]
    decreases |items|
  {
    if items != [] {
      var init := items[..|items| - 1];
      UserOrderMembers(init);
      assert items == init + [items[|items| - 1]];
      forall u | u in UserOrder(init) ensures exists w :: w in items && Owner(w) == u {
        var w :| w in init && Owner(w) == u;
        assert w in items;
      }
    }
  }

  /** The nested loops' visiting order: the groups of the given users one after another. */
  function Visit(users: seq<ObjectId>, items: seq<DueItem>): seq<DueItem> {
    if users == [] then []
    else Visit(users[..|users| - 1], items) + OwnedBy(items, users[|users| - 1])
  }

  lemma {:induction false} VisitMembers(users: seq<ObjectId>, items: seq<DueItem>)
    ensures forall w :: w in Visit(users, items) <==> w in items && Owner(w) in users
    decreases |users|
  {
    if users != [] {
      var init := users[..|users| - 1];
      var u := users[|users| - 1];
      VisitMembers(init, items);
      OwnedByMembers(items, u);
      assert users == init + [u];
    }
  }

  /** The order in which one scan processes the resolved items. */
  function ScanOrder(items: seq<DueItem>): seq<DueItem> {
    Visit(UserOrder(items), items)
  }

  /** Every resolved item is processed, and nothing else is. */
  lemma ScanOrderCovers(items: seq<DueItem>)
    ensures forall w :: w in ScanOrder(items) <==> w in items
  {
    VisitMembers(UserOrder(items), items);
    UserOrderMembers(items);
  }

  // ---- dedup and create ----

  /** `Notification.findOne({ user, topic, read: false })` finds something. */
  predicate HasUnread(ns: seq<Notification>, user: ObjectId, topic: ObjectId) {
    exists i :: 0 <= i < |ns| && IsUnreadFor(ns[i], user, topic)
  }

  predicate IsUnreadFor(n: Notification, user: ObjectId, topic: ObjectId) {
    n.user == user && n.topic == Some(topic) && !n.read
  }

  /** How many unread notifications the store holds for a (user, topic) pair. */
  function CountUnread(ns: seq<Notification>, user: ObjectId, topic: ObjectId): (r: nat)
    ensures r <= |ns|
  {
    if ns == [] then 0
    else CountUnread(ns[..|ns| - 1], user, topic) + (if IsUnreadFor(ns[|ns| - 1], user, topic) then 1 else 0)
  }

  lemma CountUnreadAppend(ns: seq<Notification>, n: Notification, user: ObjectId, topic: ObjectId)
    ensures CountUnread(ns + [n], user, topic)
            == CountUnread(ns, user, topic) + (if IsUnreadFor(n, user, topic) then 1 else 0)
  {
    assert (ns + [n])[..|ns|] == ns;
  }

  lemma {:induction false} HasUnreadIffCount(ns: seq<Notification>, user: ObjectId, topic: ObjectId)
    ensures HasUnread(ns, user, topic) <==> CountUnread(ns, user, topic) > 0
    decreases |ns|
  {
    if ns != [] {
      var init := ns[..|ns| - 1];
      HasUnreadIffCount(init, user, topic);
      if HasUnread(init, user, topic) {
        var i :| 0 <= i < |init| && IsUnreadFor(init[i], user, topic);
        assert ns[i] == init[i];
      }
      if HasUnread(ns, user, topic) && !IsUnreadFor(ns[|ns| - 1], user, topic) {
        var i :| 0 <= i < |ns| && IsUnreadFor(ns[i], user, topic);
        assert init[i] == ns[i];
      }
    }
  }

  /** The fixed parts of the notification template. */
  const TitlePrefix: string := "Review Due: "
  const MessageStart: string := "It's time to review \""
  const MessageMiddle: string := "\" from \""
  const MessageEnd: string := "\". This will help reinforce your learning!"

  /** The notification `createReviewNotification` creates for an item. */
  function ReviewNotification(id: ObjectId, w: DueItem, now: Instant): (n: Notification)
    ensures !n.read && n.user == Owner(w) && n.topic == Some(w.topic.id) && n.createdAt == now
    ensures n.title == TitlePrefix + w.topic.title
  {
    NewNotification(id, Owner(w), Some(w.topic.id), TitlePrefix + w.topic.title,
      MessageStart + w.topic.title + MessageMiddle + w.subject.title + MessageEnd, now)
  }

  /** The template always passes the `required` validators: title and message are never empty. */
  lemma ReviewNotificationValid(id: ObjectId, w: DueItem, now: Instant)
    ensures ValidNotification(ReviewNotification(id, w, now))
  {
    assert |TitlePrefix| > 0 && |MessageStart| > 0;
  }

  /**
   * The notifications one scan creates when it processes `work` in order
   * against the store `ns`, handing out ids from `next`: an item is skipped
   * when an unread notification for its pair exists, counting those created
   * earlier in the same scan.
   */
  function Created(ns: seq<Notification>, work: seq<DueItem>, next: nat, now: Instant): (r: seq<Notification>)
    ensures |r| <= |work|
  {
    if work == [] then []
    else
      var prev := Created(ns, work[..|work| - 1], next, now);
      var w := work[|work| - 1];
      if HasUnread(ns + prev, Owner(w), w.topic.id) then prev
      else prev + [ReviewNotification(next + |prev|, w, now)]
  }

  function UnfoldCreated(ns: seq<Notification>, work: seq<DueItem>, w: DueItem, next: nat, now: Instant): seq<Notification> {
    var prev := Created(ns, work, next, now);
    if HasUnread(ns + prev, Owner(w), w.topic.id) then prev
    else prev + [ReviewNotification(next + |prev|, w, now)]
  }

  lemma CreatedStep(ns: seq<Notification>, work: seq<DueItem>, w: DueItem, next: nat, now: Instant)
    ensures Created(ns, work + [w], next, now) == UnfoldCreated(ns, work, w, next, now)
  {
    assert (work + [w])[..|work|] == work;
  }

  /** Some item of the work list belongs to this (user, topic) pair. */
  predicate Processes(work: seq<DueItem>, user: ObjectId, topic: ObjectId) {
    exists w :: w in work && Owner(w) == user && w.topic.id == topic
  }

  lemma ProcessesAppend(work: seq<DueItem>, w: DueItem, user: ObjectId, topic: ObjectId)
    ensures Processes(work + [w], user, topic) <==> Processes(work, user, topic) || (Owner(w) == user && w.topic.id == topic)
  {
    if Processes(work + [w], user, topic) {
      var x :| x in work + [w] && Owner(x) == user && x.topic.id == topic;
      if x != w {
        assert x in work;
      }
    }
  }

  /** Each created notification is the review notification of some processed item, with the next id in turn. */
  lemma {:induction false} CreatedFromWork(ns: seq<Notification>, work: seq<DueItem>, next: nat, now: Instant, k: nat)
    requires k < |Created(ns, work, next, now)|
    ensures var n := Created(ns, work, next, now)[k];
      n.id == next + k && exists w :: w in work && n == ReviewNotification(next + k, w, now)
    decreases |work|
  {
    var init := work[..|work| - 1];
    var w := work[|work| - 1];
    var prev := Created(ns, init, next, now);
    assert work == init + [w];
    CreatedStep(ns, init, w, next, now);
    if k < |prev| {
      CreatedFromWork(ns, init, next, now, k);
      var x :| x in init && prev[k] == ReviewNotification(next + k, x, now);
      assert x in work;
    } else {
      assert w in work;
    }
  }

  /**
   * After a scan every processed pair has max(before, 1) unread
   * notifications, and every other pair exactly as many as before.
   */
  lemma {:induction false} CreatedUnreadCount(ns: seq<Notification>, work: seq<DueItem>, next: nat, now: Instant,
                                              user: ObjectId, topic: ObjectId)
    ensures var before := CountUnread(ns, user, topic);
      var after := CountUnread(ns + Created(ns, work, next, now), user, topic);
      if Processes(work, user, topic) then after == if before == 0 then 1 else before
      else after == before
    decreases |work|
  {
    var before := CountUnread(ns, user, topic);
    if work == [] {
      assert ns + [] == ns;
    } else {
      var init := work[..|work| - 1];
      var w := work[|work| - 1];
      assert work == init + [w];
      CreatedUnreadCount(ns, init, next, now, user, topic);
      CreatedStep(ns, init, w, next, now);
      ProcessesAppend(init, w, user, topic);
      var prev := Created(ns, init, next, now);
      var same := Owner(w) == user && w.topic.id == topic;
      HasUnreadIffCount(ns + prev, Owner(w), w.topic.id);
      if !HasUnread(ns + prev, Owner(w), w.topic.id) {
        var n := ReviewNotification(next + |prev|, w, now);
        assert ns + (prev + [n]) == (ns + prev) + [n];
        CountUnreadAppend(ns + prev, n, user, topic);
      }
    }
  }

  /** Running the scan again over the same work, with nothing changed in between, creates nothing. */
  lemma {:induction false} CreatedIdempotent(ns: seq<Notification>, work: seq<DueItem>, next: nat, next2: nat, now: Instant, now2: Instant)
    ensures Created(ns + Created(ns, work, next, now), work, next2, now2) == []
  {
    var after := ns + Created(ns, work, next, now);
    CreatedAgainIsEmpty(ns, after, work, work, next, next2, now, now2);
  }

  lemma {:induction false} CreatedAgainIsEmpty(ns: seq<Notification>, after: seq<Notification>, work: seq<DueItem>,
                                               part: seq<DueItem>, next: nat, next2: nat, now: Instant, now2: Instant)
    requires after == ns + Created(ns, work, next, now)
    requires forall x :: x in part ==> x in work
    ensures Created(after, part, next2, now2) == []
    decreases |part|
  {
    if part != [] {
      var init := part[..|part| - 1];
      var w := part[|part| - 1];
      assert forall x :: x in init ==> x in part;
      CreatedAgainIsEmpty(ns, after, work, init, next, next2, now, now2);
      CreatedUnreadCount(ns, work, next, now, Owner(w), w.topic.id);
      assert Processes(work, Owner(w), w.topic.id);
      CreatedStep(after, init, w, next2, now2);
      HasUnreadIffCount(after, Owner(w), w.topic.id);
      assert after + [] == after;
    }
  }

  // ---- the imperative scan ----

  /**
   * `createReviewNotification`: nothing when an unread notification for the
   * pair exists, otherwise insert a fresh unread one and return it.
   */
  method CreateReviewNotification(db: Db, w: DueItem, now: Instant) returns (n: Option<Notification>)
    requires db.Valid()
    modifies db`notifications, db`nextId
    ensures db.Valid()
    ensures HasUnread(old(db.notifications), Owner(w), w.topic.id) ==> n.None? && unchanged(db)
    ensures !HasUnread(old(db.notifications), Owner(w), w.topic.id) ==>
      && n == Some(ReviewNotification(old(db.nextId), w, now))
      && db.notifications == old(db.notifications) + [n.value]
      && db.nextId == old(db.nextId) + 1
  {
    if HasUnread(db.notifications, Owner(w), w.topic.id) {
      return None;
    }
    AppendNotificationValid(db.notifications, db.nextId, ReviewNotification(db.nextId, w, now));
    var id := db.FreshId();
    var created := ReviewNotification(id, w, now);
    db.notifications := db.notifications + [created];
    n := Some(created);
  }

  /** What one more resolved item does to the user order and to the groups. */
  lemma GroupStep(items: seq<DueItem>, w: DueItem)
    ensures UserOrder(items + [w]) == if Owner(w) in UserOrder(items) then UserOrder(items) else UserOrder(items) + [Owner(w)]
    ensures forall u :: OwnedBy(items + [w], u) == if Owner(w) == u then OwnedBy(items, u) + [w] else OwnedBy(items, u)
  {
    assert (items + [w])[..|items|] == items;
  }

  lemma ResolvedStep(due: seq<Topic>, i: nat, subjects: map<ObjectId, Subject>)
    requires i < |due|
    ensures Resolved(due[..i + 1], subjects) ==
      if due[i].subject in subjects then Resolved(due[..i], subjects) + [DueItem(due[i], subjects[due[i].subject])]
      else Resolved(due[..i], subjects)
  {
    assert due[..i + 1][..i] == due[..i];
  }

  /** `users` lists the keys of `byUser` in insertion order, and each key maps to its group of `items`. */
  ghost predicate Grouped(items: seq<DueItem>, users: seq<ObjectId>, byUser: map<ObjectId, seq<DueItem>>) {
    && users == UserOrder(items)
    && (forall u :: u in byUser <==> u in users)
    && (forall u :: u in byUser ==> byUser[u] == OwnedBy(items, u))
  }

  /** Pushing one more item onto its owner's group, creating the group first when needed. */
  lemma GroupedStep(items: seq<DueItem>, users: seq<ObjectId>, byUser: map<ObjectId, seq<DueItem>>, w: DueItem)
    requires Grouped(items, users, byUser)
    ensures var u := Owner(w);
      Grouped(items + [w], if u in byUser then users else users + [u],
              byUser[u := (if u in byUser then byUser[u] else []) + [w]])
  {
    GroupStep(items, w);
    var u := Owner(w);
    var users' := if u in byUser then users else users + [u];
    var byUser' := byUser[u := (if u in byUser then byUser[u] else []) + [w]];
    assert users' == UserOrder(items + [w]);
    forall v ensures v in byUser' <==> v in users' {
    }
    forall v | v in byUser' ensures byUser'[v] == OwnedBy(items + [w], v) {
      if v != u {
        assert byUser'[v] == byUser[v];
      } else if u !in byUser {
        NoKeyNoGroup(items, u);
      }
    }
  }

  /** The `forEach` that builds `topicsByUser`. */
  method GroupByUser(due: seq<Topic>, subjects: map<ObjectId, Subject>)
    returns (users: seq<ObjectId>, byUser: map<ObjectId, seq<DueItem>>)
    ensures Grouped(Resolved(due, subjects), users, byUser)
  {
    users, byUser := [], map[];
    for i := 0 to |due|
      invariant Grouped(Resolved(due[..i], subjects), users, byUser)
    {
      var topic := due[i];
      ResolvedStep(due, i, subjects);
      if topic.subject in subjects {
        var subject := subjects[topic.subject];
        var w := DueItem(topic, subject);
        GroupedStep(Resolved(due[..i], subjects), users, byUser, w);
        if subject.user in byUser {
          byUser := byUser[subject.user := byUser[subject.user] + [w]];
        } else {
          assert [] + [w] == [w];
          users := users + [subject.user];
          byUser := byUser[subject.user := [w]];
        }
      }
    }
    assert due[..|due|] == due;
  }

  /** What processing one more item does to the created list, in the terms `createReviewNotification` decides by. */
  lemma NotifyStep(ns0: seq<Notification>, processed: seq<DueItem>, w: DueItem, next0: nat, now: Instant)
    ensures var prev := Created(ns0, processed, next0, now);
      var cur := Created(ns0, processed + [w], next0, now);
      if HasUnread(ns0 + prev, Owner(w), w.topic.id) then cur == prev
      else
        && ns0 + cur == (ns0 + prev) + [ReviewNotification(next0 + |prev|, w, now)]
        && |cur| == |prev| + 1
  {
    CreatedStep(ns0, processed, w, next0, now);
    var prev := Created(ns0, processed, next0, now);
    assert ns0 + prev + [ReviewNotification(next0 + |prev|, w, now)]
        == ns0 + (prev + [ReviewNotification(next0 + |prev|, w, now)]);
  }

  /**
   * One iteration of the inner loop: `createReviewNotification` for the next
   * item, seen as one more step of `Created`; `prev` is what the scan has
   * created so far.
   */
  method NotifyOne(db: Db, w: DueItem, now: Instant, ghost ns0: seq<Notification>, ghost next0: nat,
                   ghost processed: seq<DueItem>, ghost prev: seq<Notification>)
    returns (created: bool, ghost prev': seq<Notification>)
    requires db.Valid()
    requires prev == Created(ns0, processed, next0, now)
    requires db.notifications == ns0 + prev && db.nextId == next0 + |prev|
    modifies db`notifications, db`nextId
    ensures db.Valid()
    ensures prev' == Created(ns0, processed + [w], next0, now)
    ensures db.notifications == ns0 + prev' && db.nextId == next0 + |prev'|
    ensures |prev'| == |prev| + if created then 1 else 0
  {
    NotifyStep(ns0, processed, w, next0, now);
    var n := CreateReviewNotification(db, w, now);
    created := n.Some?;
    prev' := Created(ns0, processed + [w], next0, now);
  }

  /**
   * The inner loop over one user's due topics. `done` is what the scan has
   * already processed; afterwards `group` has been processed too.
   */
  method NotifyGroup(db: Db, group: seq<DueItem>, now: Instant, ghost ns0: seq<Notification>, ghost next0: nat,
                     ghost done: seq<DueItem>)
    returns (count: nat)
    requires db.Valid()
    requires db.notifications == ns0 + Created(ns0, done, next0, now)
    requires db.nextId == next0 + |Created(ns0, done, next0, now)|
    modifies db`notifications, db`nextId
    ensures db.Valid()
    ensures db.notifications == ns0 + Created(ns0, done + group, next0, now)
    ensures db.nextId == next0 + |Created(ns0, done + group, next0, now)|
    ensures |Created(ns0, done + group, next0, now)| == |Created(ns0, done, next0, now)| + count
  {
    count := 0;
    ghost var processed := done;
    ghost var prev := Created(ns0, done, next0, now);
    ghost var base := |prev|;
    assert done + group[..0] == done;
    for k := 0 to |group|
      invariant db.Valid()
      invariant processed == done + group[..k]
      invariant prev == Created(ns0, processed, next0, now)
      invariant db.notifications == ns0 + prev && db.nextId == next0 + |prev|
      invariant |prev| == base + count
    {
      var created;
      created, prev := NotifyOne(db, group[k], now, ns0, next0, processed, prev);
      if created {
        count := count + 1;
      }
      assert done + group[..k + 1] == processed + [group[k]];
      processed := processed + [group[k]];
    }
    assert group[..|group|] == group;
  }

  /** One step of the visiting order. */
  lemma VisitStep(users: seq<ObjectId>, j: nat, items: seq<DueItem>)
    requires j < |users|
    ensures Visit(users[..j + 1], items) == Visit(users[..j], items) + OwnedBy(items, users[j])
  {
    assert users[..j + 1][..j] == users[..j];
  }

  /**
   * `checkDueReviews`: one scan at `now`. Returns `totalNotifications`, the
   * number of notifications actually created; only the notification
   * collection and the id source change.
   */
  method CheckDueReviews(db: Db, now: Instant) returns (total: nat)
    requires db.Valid()
    modifies db`notifications, db`nextId
    ensures db.Valid()
    ensures var created := Created(old(db.notifications),
                                   ScanOrder(Resolved(DueTopics(old(db.topics), now), old(db.subjects))),
                                   old(db.nextId), now);
      && db.notifications == old(db.notifications) + created
      && db.nextId == old(db.nextId) + |created|
      && total == |created|
  {
    var dueTopics := DueTopics(db.topics, now);
    ghost var items := Resolved(dueTopics, db.subjects);
    ghost var ns0, next0 := db.notifications, db.nextId;
    if |dueTopics| == 0 {
      assert ns0 + [] == ns0;
      return 0;
    }
    var users, byUser := GroupByUser(dueTopics, db.subjects);
    total := 0;
    assert users[..0] == [];
    assert ns0 + [] == ns0;
    for j := 0 to |users|
      invariant db.Valid()
      invariant db.notifications == ns0 + Created(ns0, Visit(users[..j], items), next0, now)
      invariant db.nextId == next0 + |Created(ns0, Visit(users[..j], items), next0, now)|
      invariant total == |Created(ns0, Visit(users[..j], items), next0, now)|
    {
      VisitStep(users, j, items);
      assert users[j] in users;
      var count := NotifyGroup(db, byUser[users[j]], now, ns0, next0, Visit(users[..j], items));
      total := total + count;
    }
    assert users[..|users|] == users;
  }
}
