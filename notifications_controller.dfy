/**
 * The client's view of the notification store: listing a user's
 * notifications newest first with their unread count, and marking one read.
 */
module NotificationsController {
  import opened Wrappers
  import opened Time
  import opened Models
  import opened Store
  import Sorting
  import ReviewNotifier

  // ---- listing ----

  /** `Notification.find({ user })`, in the collection's natural order. */
  function OfUser(ns: seq<Notification>, user: ObjectId): seq<Notification> {
    if ns == [] then []
    else
      var init := OfUser(ns[..|ns| - 1], user);
      if ns[|ns| - 1].user == user then init + [ns[|ns| - 1]] else init
  }

  /** The query returns exactly the user's notifications. */
  lemma {:induction false} OfUserMembers(ns: seq<Notification>, user: ObjectId)
    ensures forall n :: n in OfUser(ns, user) <==> n in ns && n.user == user
    decreases |ns|
  {
    if ns != [] {
      OfUserMembers(ns[..|ns| - 1], user);
      assert ns == ns[..|ns| - 1] + [ns[|ns| - 1]];
    }
  }

  /** The sort key of `sort({ createdAt: -1 })`. */
  function CreatedAt(n: Notification): int {
    n.createdAt
  }

  /** `notifications.filter(n => !n.read).length`. */
  function Unread(ns: seq<Notification>): (r: nat)
    ensures r <= |ns|
  {
    if ns == [] then 0 else (if ns[0].read then 0 else 1) + Unread(ns[1..])
  }

  /** The unread count does not depend on the order, so sorting keeps it. */
  lemma {:induction false} UnreadInsert(x: Notification, s: seq<Notification>)
    ensures Unread(Sorting.InsertDesc(x, s, CreatedAt)) == (if x.read then 0 else 1) + Unread(s)
  {
    var r := Sorting.InsertDesc(x, s, CreatedAt);
    if s == [] || CreatedAt(x) >= CreatedAt(s[0]) {
      assert r[0] == x && r[1..] == s;
    } else {
      var tail := Sorting.InsertDesc(x, s[1..], CreatedAt);
      assert r == [s[0]] + tail;
      assert r[0] == s[0] && r[1..] == tail;
      UnreadInsert(x, s[1..]);
    }
  }

  lemma {:induction false} UnreadSort(s: seq<Notification>)
    ensures Unread(Sorting.SortDesc(s, CreatedAt)) == Unread(s)
  {
    if s != [] {
      UnreadSort(s[1..]);
      UnreadInsert(s[0], Sorting.SortDesc(s[1..], CreatedAt));
    }
  }

  /** The response's `data`: the list, its length, and how many of it are unread. */
  datatype Listing = Listing(notifications: seq<Notification>, count: nat, unreadCount: nat)

  /** `getUserNotifications`: the user's notifications, newest first. */
  function GetUserNotifications(ns: seq<Notification>, user: ObjectId): (r: Listing)
    ensures r.count == |r.notifications|
    ensures r.unreadCount <= r.count
    ensures multiset(r.notifications) == multiset(OfUser(ns, user))
  {
    var list := Sorting.SortDesc(OfUser(ns, user), CreatedAt);
    Listing(list, |list|, Unread(list))
  }

  /**
   * The listing holds exactly the user's notifications, newest first, with
   * equal timestamps in store order, and counts their unread ones.
   */
  lemma ListingIsTheUsersNewestFirst(ns: seq<Notification>, user: ObjectId)
    ensures var r := GetUserNotifications(ns, user);
      && (forall n :: n in r.notifications <==> n in ns && n.user == user)
      && Sorting.SortedDesc(r.notifications, CreatedAt)
      && (forall t :: Sorting.WithKey(r.notifications, CreatedAt, t) == Sorting.WithKey(OfUser(ns, user), CreatedAt, t))
      && r.unreadCount == Unread(OfUser(ns, user))
  {
    var mine := OfUser(ns, user);
    var r := GetUserNotifications(ns, user);
    OfUserMembers(ns, user);
    forall n ensures n in r.notifications <==> n in mine {
      assert n in r.notifications <==> n in multiset(r.notifications);
      assert n in mine <==> n in multiset(mine);
    }
    Sorting.SortIsSorted(mine, CreatedAt);
    forall t ensures Sorting.WithKey(r.notifications, CreatedAt, t) == Sorting.WithKey(mine, CreatedAt, t) {
      Sorting.SortIsStable(mine, CreatedAt, t);
    }
    UnreadSort(mine);
  }

  // ---- marking read ----

  /** The lookup predicate `{ _id: id, user }`: the id must belong to the caller. */
  predicate Owns(n: Notification, id: ObjectId, user: ObjectId) {
    n.id == id && n.user == user
  }

  /** The position of the first document matching the lookup predicate. */
  function FindOwned(ns: seq<Notification>, id: ObjectId, user: ObjectId): (r: Option<nat>)
    ensures r.Some? ==> r.value < |ns| && Owns(ns[r.value], id, user)
    ensures r.Some? ==> forall j :: 0 <= j < r.value ==> !Owns(ns[j], id, user)
    ensures r.None? <==> forall j :: 0 <= j < |ns| ==> !Owns(ns[j], id, user)
  {
    if ns == [] then None
    else
      match FindOwned(ns[..|ns| - 1], id, user)
      case Some(i) => Some(i)
      case None => if Owns(ns[|ns| - 1], id, user) then Some(|ns| - 1) else None
  }

  /** The update `{ read: true }`, with the `updatedAt` the timestamps option maintains. */
  function MarkedRead(n: Notification, now: Instant): (r: Notification)
    ensures r.read && r.updatedAt == now
    ensures r.(read := n.read, updatedAt := n.updatedAt) == n
  {
    n.(read := true, updatedAt := now)
  }

  /**
   * `findOneAndUpdate` with `{ new: true }`: the store after the update and
   * the updated document, or 404 when the caller owns no notification with
   * that id.
   */
  function MarkRead(ns: seq<Notification>, id: ObjectId, user: ObjectId, now: Instant)
    : (r: Result<(seq<Notification>, Notification), Status>)
    ensures r.Failure? <==> forall j :: 0 <= j < |ns| ==> !Owns(ns[j], id, user)
    ensures r.Failure? ==> r.error == NotFound
    ensures r.Success? ==> |r.value.0| == |ns| && r.value.1.read && Owns(r.value.1, id, user) && r.value.1 in r.value.0
  {
    match FindOwned(ns, id, user)
    case None => Failure(NotFound)
    case Some(i) =>
      var n := MarkedRead(ns[i], now);
      var ns' := ns[i := n];
      assert ns'[i] == n;
      Success((ns', n))
  }

  /**
   * Only the caller's notification with that id changes, and in it only
   * `read` (now true) and `updatedAt`; every other document is untouched.
   */
  lemma MarkReadChangesOnlyTarget(ns: seq<Notification>, nextId: nat, id: ObjectId, user: ObjectId, now: Instant)
    requires NotificationsValid(ns, nextId)
    requires MarkRead(ns, id, user, now).Success?
    ensures var ns' := MarkRead(ns, id, user, now).value.0;
      && NotificationsValid(ns', nextId)
      && forall j :: 0 <= j < |ns| ==>
        if ns[j].id == id then ns'[j] == ns[j].(read := true, updatedAt := now) && ns[j].user == user
        else ns'[j] == ns[j]
  {
    var i := FindOwned(ns, id, user).value;
    ReplaceNotificationValid(ns, nextId, i, MarkedRead(ns[i], now));
  }

  /** Marking the same notification read again at the same instant changes nothing more. */
  lemma MarkReadIdempotent(ns: seq<Notification>, id: ObjectId, user: ObjectId, now: Instant)
    requires MarkRead(ns, id, user, now).Success?
    ensures var once := MarkRead(ns, id, user, now).value;
      MarkRead(once.0, id, user, now) == Success(once)
  {
    var i := FindOwned(ns, id, user).value;
    var ns' := ns[i := MarkedRead(ns[i], now)];
    assert Owns(ns'[i], id, user);
    assert forall j :: 0 <= j < i ==> ns'[j] == ns[j];
    assert FindOwned(ns', id, user) == Some(i);
    assert MarkedRead(ns'[i], now) == MarkedRead(ns[i], now);
    assert ns'[i := MarkedRead(ns'[i], now)] == ns';
  }

  /** Replacing one document changes a pair's unread count by what the two versions contribute. */
  lemma {:induction false} CountUnreadUpdate(ns: seq<Notification>, i: nat, n: Notification, user: ObjectId, topic: ObjectId)
    requires i < |ns|
    ensures ReviewNotifier.CountUnread(ns[i := n], user, topic) + (if ReviewNotifier.IsUnreadFor(ns[i], user, topic) then 1 else 0)
         == ReviewNotifier.CountUnread(ns, user, topic) + (if ReviewNotifier.IsUnreadFor(n, user, topic) then 1 else 0)
    decreases |ns|
  {
    var ns' := ns[i := n];
    var last := |ns| - 1;
    assert ns'[..last] == if i < last then ns[..last][i := n] else ns[..last];
    if i < last {
      CountUnreadUpdate(ns[..last], i, n, user, topic);
    }
  }

  lemma {:induction false} CountUnreadConcat(a: seq<Notification>, b: seq<Notification>, user: ObjectId, topic: ObjectId)
    ensures ReviewNotifier.CountUnread(a + b, user, topic)
         == ReviewNotifier.CountUnread(a, user, topic) + ReviewNotifier.CountUnread(b, user, topic)
    decreases |b|
  {
    if b == [] {
      assert a + b == a;
    } else {
      var init := b[..|b| - 1];
      CountUnreadConcat(a, init, user, topic);
      assert a + b == (a + init) + [b[|b| - 1]];
      ReviewNotifier.CountUnreadAppend(a + init, b[|b| - 1], user, topic);
    }
  }

  /**
   * Marking the pending notification of a pair read lets the next scan
   * that processes the pair create exactly one new unread notification for it.
   */
  lemma ReadThenScan(ns: seq<Notification>, nextId: nat, id: ObjectId, user: ObjectId, topic: ObjectId, now: Instant,
                     work: seq<ReviewNotifier.DueItem>, next: nat, later: Instant)
    requires NotificationsValid(ns, nextId)
    requires ReviewNotifier.CountUnread(ns, user, topic) == 1
    requires exists j :: 0 <= j < |ns| && Owns(ns[j], id, user) && ReviewNotifier.IsUnreadFor(ns[j], user, topic)
    requires ReviewNotifier.Processes(work, user, topic)
    ensures MarkRead(ns, id, user, now).Success?
    ensures var ns' := MarkRead(ns, id, user, now).value.0;
      && !ReviewNotifier.HasUnread(ns', user, topic)
      && ReviewNotifier.CountUnread(ReviewNotifier.Created(ns', work, next, later), user, topic) == 1
  {
    var j :| 0 <= j < |ns| && Owns(ns[j], id, user) && ReviewNotifier.IsUnreadFor(ns[j], user, topic);
    var i := FindOwned(ns, id, user).value;
    assert i == j;
    var ns' := ns[i := MarkedRead(ns[i], now)];
    CountUnreadUpdate(ns, i, MarkedRead(ns[i], now), user, topic);
    ReviewNotifier.HasUnreadIffCount(ns', user, topic);
    ReviewNotifier.CreatedUnreadCount(ns', work, next, later, user, topic);
    CountUnreadConcat(ns', ReviewNotifier.Created(ns', work, next, later), user, topic);
  }

  /**
   * `markNotificationRead`: the store primitive finds and updates the
   * caller's notification in one step; 404 leaves the store as it was.
   */
  method MarkNotificationRead(db: Db, id: ObjectId, user: ObjectId, now: Instant)
    returns (r: Result<Notification, Status>)
    requires db.Valid()
    modifies db`notifications
    ensures db.Valid()
    ensures MarkRead(old(db.notifications), id, user, now).Failure? ==> r == Failure(NotFound) && unchanged(db)
    ensures MarkRead(old(db.notifications), id, user, now).Success? ==>
      && r == Success(MarkRead(old(db.notifications), id, user, now).value.1)
      && db.notifications == MarkRead(old(db.notifications), id, user, now).value.0
  {
    var found := FindOwned(db.notifications, id, user);
    if found.None? {
      return Failure(NotFound);
    }
    var i := found.value;
    var n := MarkedRead(db.notifications[i], now);
    ReplaceNotificationValid(db.notifications, db.nextId, i, n);
    db.notifications := db.notifications[i := n];
    r := Success(n);
  }
}
