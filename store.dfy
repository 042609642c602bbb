/**
 * The in-memory store that stands for the database: the topic and
 * notification collections in their natural (insertion) order, subjects and
 * users by id, and the source of fresh ObjectIds.
 */
module Store {
  import opened Wrappers
  import opened Models

  /** Position of the topic with this id (`Topic.findById`). */
  function IndexOfTopic(ts: seq<Topic>, id: ObjectId): (r: Option<nat>)
    ensures r.Some? ==> r.value < |ts| && ts[r.value].id == id
    ensures r.None? <==> forall i :: 0 <= i < |ts| ==> ts[i].id != id
  {
    if ts == [] then None
    else if ts[0].id == id then Some(0)
    else match IndexOfTopic(ts[1..], id)
      case None => None
      case Some(i) => Some(i + 1)
  }

  /** Ids are unique and already handed out; every topic passes the schema validators. */
  ghost predicate TopicsValid(ts: seq<Topic>, nextId: nat) {
    && (forall i, j :: 0 <= i < j < |ts| ==> ts[i].id != ts[j].id)
    && (forall i :: 0 <= i < |ts| ==> ts[i].id < nextId && ValidTopic(ts[i]))
  }

  ghost predicate NotificationsValid(ns: seq<Notification>, nextId: nat) {
    && (forall i, j :: 0 <= i < j < |ns| ==> ns[i].id != ns[j].id)
    && (forall i :: 0 <= i < |ns| ==> ns[i].id < nextId)
  }

  /** Saving a topic in place under its own id keeps the collection valid. */
  lemma ReplaceTopicValid(ts: seq<Topic>, nextId: nat, i: nat, t: Topic)
    requires TopicsValid(ts, nextId) && i < |ts| && t.id == ts[i].id && ValidTopic(t)
    ensures TopicsValid(ts[i := t], nextId)
  {
  }

  /** Inserting a document under the next fresh id keeps the collection valid. */
  lemma AppendTopicValid(ts: seq<Topic>, nextId: nat, t: Topic)
    requires TopicsValid(ts, nextId) && t.id == nextId && ValidTopic(t)
    ensures TopicsValid(ts + [t], nextId + 1)
  {
    var ts' := ts + [t];
    assert forall i :: 0 <= i < |ts| ==> ts'[i] == ts[i];
    assert ts'[|ts|] == t;
  }

  lemma AppendNotificationValid(ns: seq<Notification>, nextId: nat, n: Notification)
    requires NotificationsValid(ns, nextId) && n.id == nextId
    ensures NotificationsValid(ns + [n], nextId + 1)
  {
  }

  /** Updating a notification in place under its own id keeps the collection valid. */
  lemma ReplaceNotificationValid(ns: seq<Notification>, nextId: nat, i: nat, n: Notification)
    requires NotificationsValid(ns, nextId) && i < |ns| && n.id == ns[i].id
    ensures NotificationsValid(ns[i := n], nextId)
  {
  }

  lemma GrowIdValid(ts: seq<Topic>, ns: seq<Notification>, nextId: nat)
    requires TopicsValid(ts, nextId) && NotificationsValid(ns, nextId)
    ensures TopicsValid(ts, nextId + 1) && NotificationsValid(ns, nextId + 1)
  {
  }

  class Db {
    var topics: seq<Topic>
    var subjects: map<ObjectId, Subject>
    var users: map<ObjectId, User>
    var notifications: seq<Notification>
    /** Every id handed out so far is below this. */
    var nextId: nat

    ghost predicate Valid()
      reads this
    {
      TopicsValid(topics, nextId) && NotificationsValid(notifications, nextId)
    }

    constructor (subjects: map<ObjectId, Subject>, users: map<ObjectId, User>)
      ensures Valid()
      ensures this.topics == [] && this.notifications == [] && this.nextId == 0
      ensures this.subjects == subjects && this.users == users
    {
      this.topics := [];
      this.subjects := subjects;
      this.users := users;
      this.notifications := [];
      this.nextId := 0;
    }

    /** A fresh ObjectId. */
    method FreshId() returns (id: ObjectId)
      requires Valid()
      modifies this`nextId
      ensures Valid()
      ensures id == old(nextId) && nextId == id + 1
    {
      GrowIdValid(topics, notifications, nextId);
      id := nextId;
      nextId := nextId + 1;
    }

    /** `topic.save()` of a document the schema accepts: it replaces the stored one with the same id. */
    method SaveTopic(i: nat, t: Topic)
      requires Valid() && i < |topics| && t.id == topics[i].id && ValidTopic(t)
      modifies this`topics
      ensures Valid() && topics == old(topics)[i := t]
    {
      ReplaceTopicValid(topics, nextId, i, t);
      topics := topics[i := t];
    }

    /** `Topic.create` of a document the schema accepts, under the next fresh id. */
    method InsertTopic(t: Topic)
      requires Valid() && t.id == nextId && ValidTopic(t)
      modifies this`topics, this`nextId
      ensures Valid() && topics == old(topics) + [t] && nextId == old(nextId) + 1
    {
      AppendTopicValid(topics, nextId, t);
      GrowIdValid(topics, notifications, nextId);
      topics := topics + [t];
      nextId := nextId + 1;
    }
  }
}
