/** Topics and subscriptions. Subscriptions outlive their topic as visible orphans
    (handlers/pubsub.go, repository/repository.go). */
module Pubsub {
  import opened Wrappers
  import opened Json
  import opened Tables
  import opened Text
  import opened References
  import opened Merge
  import opened Requests
  import opened Compute

  /** `topicName` is the hidden column a topic's subscriptions are looked up by. */
  datatype Subscription = Subscription(topicName: string, data: Document)

  datatype PubsubDb = PubsubDb(topics: map<GlobalKey, Document>, subscriptions: map<GlobalKey, Subscription>)

  const NO_TOPICS := PubsubDb(map[], map[])

  const TOMBSTONE := "_deleted-topic_"

  /** `topic` and `subscription` are path parameters; the handlers build the full name from them. */
  datatype PubsubOp =
    | CreateTopic(project: string, topic: string, body: Document)
    | DeleteTopic(project: string, topic: string)
    | CreateSubscription(project: string, subscription: string, body: Document)
    | UpdateSubscription(project: string, subscription: string, patch: Document)
    | DeleteSubscription(project: string, subscription: string)

  function FullName(project: string, collection: string, name: string): string {
    "projects/" + project + "/" + collection + "/" + name
  }

  /** A bare or missing name is replaced by the full one; a name with a path is kept. */
  function Named(data: Document, project: string, collection: string, name: string): Document {
    var stamped := data[FProject := Str(project)];
    if GetString(data, FName) == "" || GetString(data, FName) == name
    then stamped[FName := Str(FullName(project, collection, name))]
    else stamped
  }

  predicate NoColumnLeadsTo(db: PubsubDb, project: string, topic: string) {
    forall k :: k in db.subscriptions && k.project == project ==> db.subscriptions[k].topicName != topic
  }

  function InsertTopic(db: PubsubDb, project: string, data: Document): Outcome<PubsubDb> {
    var name := ExtractName(GetString(data, FName));
    var key := GlobalKey(project, name);
    if name == "" then Fail(db, Required)
    else if key in db.topics then Fail(db, AlreadyExists)
    else
      var row := Named(data, project, "topics", name);
      Outcome(db.(topics := db.topics[key := row]), Ok(row))
  }

  function Orphaned(sub: Subscription): Subscription {
    Subscription(TOMBSTONE, sub.data[FTopic := Str(TOMBSTONE)])
  }

  function OrphanAll(subs: map<GlobalKey, Subscription>, project: string, topic: string): map<GlobalKey, Subscription> {
    map k | k in subs :: if k.project == project && subs[k].topicName == topic then Orphaned(subs[k]) else subs[k]
  }

  /** The subscriptions are rewritten first, also when the topic then turns out to be missing. */
  function RemoveTopic(db: PubsubDb, project: string, topic: string): Outcome<PubsubDb> {
    var key := GlobalKey(project, topic);
    var orphaned := db.(subscriptions := OrphanAll(db.subscriptions, project, topic));
    if key !in db.topics then Fail(orphaned, NotFound)
    else Outcome(orphaned.(topics := db.topics - {key}), Ok(map[]))
  }

  function InsertSubscription(db: PubsubDb, project: string, data: Document): Outcome<PubsubDb> {
    var name := ExtractName(GetString(data, FName));
    var key := GlobalKey(project, name);
    var ref := GetString(data, FTopic);
    if name == "" || ref == "" then Fail(db, Required)
    else
      match ResolveSameProjectName(project, ref, "topics")
      case Err(e) => Fail(db, e)
      case Ok(topic) =>
        if GlobalKey(project, topic) !in db.topics then Fail(db, NotFound)
        else if key in db.subscriptions then Fail(db, AlreadyExists)
        else
          var row := Named(data, project, "subscriptions", name)[FTopicName := Str(topic)];
          Outcome(db.(subscriptions := db.subscriptions[key := Subscription(topic, row)]), Ok(row))
  }

  /** The topic is immutable on patch; the hidden column is set from the stored document. */
  function PatchedSubscription(project: string, current: Document, patch: Document): Result<Subscription> {
    var merged := Merged(current, patch, {FName, FProject, FTopicName, FTopic})[FProject := Str(project)];
    var short := ExtractName(GetString(current, FName));
    var named := if short == "" then merged else merged[FName := Str(FullName(project, "subscriptions", short))];
    var topic := if GetString(current, FTopicName) != "" then GetString(current, FTopicName)
      else ExtractName(GetString(current, FTopic));
    if topic == "" then Err(Required) else Ok(Subscription(topic, named[FTopicName := Str(topic)]))
  }

  function PatchSubscription(db: PubsubDb, project: string, name: string, patch: Document): Outcome<PubsubDb> {
    var key := GlobalKey(project, name);
    if key !in db.subscriptions then Fail(db, NotFound)
    else
      match PatchedSubscription(project, db.subscriptions[key].data, patch)
      case Err(e) => Fail(db, e)
      case Ok(sub) => Outcome(db.(subscriptions := db.subscriptions[key := sub]), Ok(sub.data))
  }

  function RemoveSubscription(db: PubsubDb, project: string, name: string): Outcome<PubsubDb> {
    var key := GlobalKey(project, name);
    if key !in db.subscriptions then Fail(db, NotFound)
    else Outcome(db.(subscriptions := db.subscriptions - {key}), Ok(map[]))
  }

  function Apply(db: PubsubDb, op: PubsubOp): Outcome<PubsubDb> {
    match op
    case CreateTopic(project, topic, body) =>
      InsertTopic(db, project, body[FName := Str(FullName(project, "topics", topic))])
    case DeleteTopic(project, topic) => RemoveTopic(db, project, topic)
    case CreateSubscription(project, subscription, body) =>
      InsertSubscription(db, project, body[FName := Str(FullName(project, "subscriptions", subscription))])
    case UpdateSubscription(project, subscription, patch) => PatchSubscription(db, project, subscription, patch)
    case DeleteSubscription(project, subscription) => RemoveSubscription(db, project, subscription)
  }

  // --------------------------------------------------------------- invariants

  function Topic(sub: Subscription): string {
    GetString(sub.data, FTopic)
  }

  predicate Orphan(sub: Subscription) {
    Topic(sub) == TOMBSTONE
  }

  /** A subscription that is no orphan is bound, in all three records, to one existing topic. */
  predicate Bound(topics: map<GlobalKey, Document>, project: string, sub: Subscription) {
    && ResolveSameProjectName(project, Topic(sub), "topics") == Ok(sub.topicName)
    && GetString(sub.data, FTopicName) == sub.topicName
    && GlobalKey(project, sub.topicName) in topics
  }

  /** The stored name reads back as the key, now and after the name has been rebuilt from it. */
  predicate NameFits(key: GlobalKey, sub: Subscription) {
    ShortName(key.name) && ExtractName(GetString(sub.data, FName)) == key.name
  }

  predicate RowValid(topics: map<GlobalKey, Document>, key: GlobalKey, sub: Subscription) {
    NameFits(key, sub) && Topic(sub) != "" && (Orphan(sub) || Bound(topics, key.project, sub))
  }

  ghost predicate Valid(db: PubsubDb) {
    && (forall k :: k in db.topics ==> k.name != "")
    && forall k :: k in db.subscriptions ==> RowValid(db.topics, k, db.subscriptions[k])
  }

  /** The router hands over path parameters without slashes. */
  predicate Routed(op: PubsubOp) {
    match op
    case CreateTopic(_, topic, _) => SlashFree(topic)
    case CreateSubscription(_, subscription, _) => SlashFree(subscription)
    case _ => true
  }

  lemma NameOfFullName(project: string, collection: string, text: string)
    requires ShortName(collection) && SlashFree(text)
    ensures ShortName(ExtractName(FullName(project, collection, text)))
    ensures ShortName(text) ==> ExtractName(FullName(project, collection, text)) == text
  {
    hide ExtractName, IsSpace;
    var front := "projects/" + project;
    assert FullName(project, collection, text) == front + "/" + collection + "/" + text;
    NameOfAppendedText(front, collection, text);
    if ShortName(text) {
      ShortNameReadBack(front + "/" + collection, text);
    }
  }

  lemma CollectionsAreShortNames()
    ensures ShortName("topics") && ShortName("subscriptions")
  {
  }

  lemma InsertTopicKeepsValid(db: PubsubDb, project: string, data: Document)
    requires Valid(db)
    ensures Valid(InsertTopic(db, project, data).db)
  {
    hide ResolveSameProjectName, ExtractName, Named, NameFits;
  }

  lemma RemoveTopicKeepsValid(db: PubsubDb, project: string, topic: string)
    requires Valid(db)
    ensures Valid(RemoveTopic(db, project, topic).db)
  {
    hide ResolveSameProjectName, ExtractName, ShortName;
    assert TOMBSTONE != "";
  }

  lemma InsertSubscriptionKeepsValid(db: PubsubDb, project: string, data: Document)
    requires Valid(db) && ShortName(ExtractName(GetString(data, FName)))
    ensures Valid(InsertSubscription(db, project, data).db)
  {
    hide ResolveSameProjectName, ExtractName, ShortName;
    var name := ExtractName(GetString(data, FName));
    CollectionsAreShortNames();
    ShortNameIsSlashFree(name);
    NameOfFullName(project, "subscriptions", name);
    hide FullName;
  }

  lemma PatchSubscriptionKeepsValid(db: PubsubDb, project: string, name: string, patch: Document)
    requires Valid(db)
    ensures Valid(PatchSubscription(db, project, name, patch).db)
  {
    hide ResolveSameProjectName, ExtractName, ShortName, FullName;
    var key := GlobalKey(project, name);
    if key in db.subscriptions {
      CollectionsAreShortNames();
      ShortNameIsSlashFree(name);
      NameOfFullName(project, "subscriptions", name);
    }
  }

  lemma ShortNameIsSlashFree(name: string)
    ensures ShortName(name) ==> SlashFree(name)
  {
  }

  lemma StepKeepsValid(db: PubsubDb, op: PubsubOp)
    requires Valid(db) && Routed(op)
    ensures Valid(Apply(db, op).db)
  {
    hide InsertTopic, RemoveTopic, InsertSubscription, PatchSubscription, RemoveSubscription, ShortName, ExtractName,
         FullName;
    CollectionsAreShortNames();
    match op
    case CreateTopic(project, topic, body) =>
      InsertTopicKeepsValid(db, project, body[FName := Str(FullName(project, "topics", topic))]);
    case DeleteTopic(project, topic) => RemoveTopicKeepsValid(db, project, topic);
    case CreateSubscription(project, subscription, body) =>
      NameOfFullName(project, "subscriptions", subscription);
      InsertSubscriptionKeepsValid(db, project, body[FName := Str(FullName(project, "subscriptions", subscription))]);
    case UpdateSubscription(project, subscription, patch) =>
      PatchSubscriptionKeepsValid(db, project, subscription, patch);
    case DeleteSubscription(project, subscription) => RemoveSubscriptionKeepsValid(db, project, subscription);
  }

  lemma RemoveSubscriptionKeepsValid(db: PubsubDb, project: string, name: string)
    requires Valid(db)
    ensures Valid(RemoveSubscription(db, project, name).db)
  {
    hide RowValid;
  }

  /** A rejected operation changes nothing, but for the orphaning a topic deletion starts with. */
  lemma RejectedStepChangesNothing(db: PubsubDb, op: PubsubOp)
    requires Apply(db, op).result.Err? && !op.DeleteTopic?
    ensures Apply(db, op).db == db
  {
    hide ResolveSameProjectName, ExtractName, FullName, Merged, Named;
  }

  // ------------------------------------------------------------------ orphans

  /** Deleting a topic orphans exactly the subscriptions that show it, and leaves the others alone. */
  lemma DeletionOrphansItsSubscriptions(db: PubsubDb, project: string, topic: string, k: GlobalKey)
    requires Valid(db) && k in db.subscriptions && GlobalKey(project, topic) in db.topics
    ensures var before, db' := db.subscriptions[k], RemoveTopic(db, project, topic).db;
            && k in db'.subscriptions
            && (Orphan(db'.subscriptions[k]) <==>
                Orphan(before)
                  || (k.project == project && ResolveSameProjectName(project, Topic(before), "topics") == Ok(topic)))
            && (!Orphan(db'.subscriptions[k]) ==> db'.subscriptions[k] == before)
  {
    hide ResolveSameProjectName, ExtractName, ShortName;
  }

  /** An orphan stays one under every patch, topic creation and topic deletion: only its own deletion
      ends it. A subscription that is not orphaned keeps showing the topic it was created with. */
  lemma OrphansStayOrphans(db: PubsubDb, op: PubsubOp, k: GlobalKey)
    requires Valid(db) && k in db.subscriptions && op != DeleteSubscription(k.project, k.name)
    ensures var db' := Apply(db, op).db;
            && k in db'.subscriptions
            && (Orphan(db.subscriptions[k]) ==> Orphan(db'.subscriptions[k]))
            && (Orphan(db'.subscriptions[k]) || Topic(db'.subscriptions[k]) == Topic(db.subscriptions[k]))
  {
    hide ResolveSameProjectName, ExtractName, NameFits, FullName, Bound;
  }

  ghost function ApplyAll(db: PubsubDb, ops: seq<PubsubOp>): PubsubDb {
    if ops == [] then db else Apply(ApplyAll(db, ops[..|ops| - 1]), ops[|ops| - 1]).db
  }

  ghost predicate RoutedAll(ops: seq<PubsubOp>, k: GlobalKey) {
    forall op :: op in ops ==> Routed(op) && op != DeleteSubscription(k.project, k.name)
  }

  /** The topic name in the document, kept when the topic is gone. */
  function StoredTopic(sub: Subscription): string {
    GetString(sub.data, FTopicName)
  }

  /** Two kinds of request write the hidden column: patches of the subscription, and deletions of its topic.
      Of those in the list, the last is a deletion. */
  predicate DeletionHasTheLastWord(ops: seq<PubsubOp>, k: GlobalKey, topic: string) {
    if ops == [] then false
    else
      var last := ops[|ops| - 1];
      if last == DeleteTopic(k.project, topic) then true
      else if Patches(last, k) then false
      else DeletionHasTheLastWord(ops[..|ops| - 1], k, topic)
  }

  predicate Patches(op: PubsubOp, k: GlobalKey) {
    op.UpdateSubscription? && GlobalKey(op.project, op.subscription) == k
  }

  lemma StepWritesTheColumn(db: PubsubDb, op: PubsubOp, k: GlobalKey)
    requires k in db.subscriptions && op != DeleteSubscription(k.project, k.name)
    requires var sub := db.subscriptions[k]; StoredTopic(sub) != "" && sub.topicName in {StoredTopic(sub), TOMBSTONE}
    ensures var before, db' := db.subscriptions[k], Apply(db, op).db;
            && k in db'.subscriptions && StoredTopic(db'.subscriptions[k]) == StoredTopic(before)
            && db'.subscriptions[k].topicName
               == if op == DeleteTopic(k.project, StoredTopic(before)) then TOMBSTONE
                  else if Patches(op, k) then StoredTopic(before)
                  else before.topicName
  {
    hide ResolveSameProjectName, ExtractName, NameFits, FullName, Bound;
  }

  /** A bound subscription becomes an orphan with the deletion of its topic, and with nothing else. */
  lemma StepOrphansIff(db: PubsubDb, op: PubsubOp, k: GlobalKey)
    requires Valid(db) && k in db.subscriptions && op != DeleteSubscription(k.project, k.name)
    requires !Orphan(db.subscriptions[k])
    ensures var before, db' := db.subscriptions[k], Apply(db, op).db;
            && k in db'.subscriptions && StoredTopic(before) == before.topicName != ""
            && (Orphan(db'.subscriptions[k]) <==> op == DeleteTopic(k.project, before.topicName))
  {
    hide ResolveSameProjectName, ExtractName, NameFits, FullName;
    assert RowValid(db.topics, k, db.subscriptions[k]);
  }

  /** The hidden column is less faithful than the visible topic. Over any requests that leave a bound
      subscription in place it becomes an orphan exactly when its topic is deleted, and stays one. Its
      hidden column is the tombstone exactly when, of the patches of the subscription and the deletions of
      the topic, a deletion comes last: a patch that comes last points the column at the topic again. */
  lemma {:induction false} PatchRepointsTheHiddenColumnIff(db: PubsubDb, ops: seq<PubsubOp>, k: GlobalKey)
    requires Valid(db) && RoutedAll(ops, k) && k in db.subscriptions && !Orphan(db.subscriptions[k])
    ensures var topic, after := db.subscriptions[k].topicName, ApplyAll(db, ops);
            && Valid(after) && k in after.subscriptions && StoredTopic(after.subscriptions[k]) == topic != ""
            && (Orphan(after.subscriptions[k]) <==> DeleteTopic(k.project, topic) in ops)
            && after.subscriptions[k].topicName == if DeletionHasTheLastWord(ops, k, topic) then TOMBSTONE else topic
  {
    hide Valid, Apply, Orphan, Routed, StoredTopic;
    StepOrphansIff(db, CreateTopic("", "", map[]), k);
    if ops != [] {
      var front, last := ops[..|ops| - 1], ops[|ops| - 1];
      assert last in ops && ops == front + [last];
      PatchRepointsTheHiddenColumnIff(db, front, k);
      var before := ApplyAll(db, front);
      StepKeepsValid(before, last);
      StepWritesTheColumn(before, last, k);
      if Orphan(before.subscriptions[k]) {
        OrphansStayOrphans(before, last, k);
      } else {
        StepOrphansIff(before, last, k);
      }
    }
  }

  /** The subscriptions patched since the topic they were created on was last deleted, kept from request to
      request: a patch adds its own, the deletion of a topic takes away those created on it. */
  function Repointed(marked: set<GlobalKey>, db: PubsubDb, op: PubsubOp): set<GlobalKey> {
    match op
    case UpdateSubscription(project, name, _) =>
      if Apply(db, op).result.Ok? then marked + {GlobalKey(project, name)} else marked
    case DeleteTopic(project, topic) =>
      set k | k in marked
        && !(k.project == project && k in db.subscriptions && StoredTopic(db.subscriptions[k]) == topic)
    case _ => marked
  }

  /** Every hidden column can be told from the document and the mark. */
  ghost predicate ColumnsFollow(marked: set<GlobalKey>, db: PubsubDb) {
    forall k :: k in db.subscriptions ==> ColumnFollows(k in marked, db.subscriptions[k])
  }

  predicate ColumnFollows(marked: bool, sub: Subscription) {
    StoredTopic(sub) != "" && sub.topicName == if Orphan(sub) && !marked then TOMBSTONE else StoredTopic(sub)
  }

  lemma StepKeepsColumnsFollowing(marked: set<GlobalKey>, db: PubsubDb, op: PubsubOp)
    requires Valid(db) && ColumnsFollow(marked, db)
    ensures ColumnsFollow(Repointed(marked, db, op), Apply(db, op).db)
  {
    hide Repointed, Valid, Apply, Orphan, StoredTopic;
    forall k | k in Apply(db, op).db.subscriptions
      ensures ColumnFollows(k in Repointed(marked, db, op), Apply(db, op).db.subscriptions[k])
    {
      if k in db.subscriptions && op != DeleteSubscription(k.project, k.name) {
        KeptColumnFollows(marked, db, op, k);
      } else {
        NewColumnFollows(db, op, k, k in Repointed(marked, db, op));
      }
    }
  }

  lemma KeptColumnFollows(marked: set<GlobalKey>, db: PubsubDb, op: PubsubOp, k: GlobalKey)
    requires Valid(db) && k in db.subscriptions && op != DeleteSubscription(k.project, k.name)
    requires ColumnFollows(k in marked, db.subscriptions[k])
    ensures k in Apply(db, op).db.subscriptions
    ensures ColumnFollows(k in Repointed(marked, db, op), Apply(db, op).db.subscriptions[k])
  {
    hide Valid, Apply, Orphan, StoredTopic, TOMBSTONE;
    StepWritesTheColumn(db, op, k);
    if Patches(op, k) { PatchSucceeds(db, op, k); }
    if Orphan(db.subscriptions[k]) { OrphansStayOrphans(db, op, k); } else { StepOrphansIff(db, op, k); }
  }

  lemma PatchSucceeds(db: PubsubDb, op: PubsubOp, k: GlobalKey)
    requires Patches(op, k) && k in db.subscriptions && StoredTopic(db.subscriptions[k]) != ""
    ensures Apply(db, op).result.Ok?
  {
    hide Merged, ExtractName, FullName;
  }

  lemma NewColumnFollows(db: PubsubDb, op: PubsubOp, k: GlobalKey, marked: bool)
    requires Valid(db) && k in Apply(db, op).db.subscriptions
    requires k !in db.subscriptions || op == DeleteSubscription(k.project, k.name)
    ensures ColumnFollows(marked, Apply(db, op).db.subscriptions[k])
  {
    hide ExtractName, FullName, NameFits, RowValid;
    TombstoneResolves(k.project);
    hide ResolveSameProjectName;
  }

  lemma TombstoneResolves(project: string)
    ensures ResolveSameProjectName(project, TOMBSTONE, "topics") == Ok(TOMBSTONE)
  {
    hide ResolveParts, LenientPath, Text.Split;
  }

  /** The orphans a refused deletion of the topic would rewrite: created on it, and patched since. */
  predicate LeadsBack(marked: set<GlobalKey>, db: PubsubDb, k: GlobalKey, project: string, topic: string) {
    k in marked && k in db.subscriptions && k.project == project
    && Orphan(db.subscriptions[k]) && StoredTopic(db.subscriptions[k]) == topic
  }

  /** A refused deletion alters no topic and no visible document, only hidden columns; it alters nothing at
      all exactly when no subscription's hidden column leads to the name (the tombstone's own aside). */
  lemma FailedTopicDeletionChangesNothingIff(db: PubsubDb, project: string, topic: string)
    requires Valid(db) && GlobalKey(project, topic) !in db.topics
    ensures var out := RemoveTopic(db, project, topic);
            && out.result == Err(NotFound)
            && out.db.topics == db.topics && out.db.subscriptions.Keys == db.subscriptions.Keys
            && (forall k :: k in db.subscriptions ==> out.db.subscriptions[k].data == db.subscriptions[k].data)
            && (out.db == db <==> topic == TOMBSTONE || NoColumnLeadsTo(db, project, topic))
  {
    hide ResolveSameProjectName, ExtractName, NameFits;
    forall k | k in db.subscriptions && k.project == project && db.subscriptions[k].topicName == topic
      ensures Orphaned(db.subscriptions[k]) == Subscription(TOMBSTONE, db.subscriptions[k].data)
    {
      assert RowValid(db.topics, k, db.subscriptions[k]);
      assert db.subscriptions[k].data[FTopic] == Str(TOMBSTONE);
    }
    if topic == TOMBSTONE || NoColumnLeadsTo(db, project, topic) {
      assert OrphanAll(db.subscriptions, project, topic) == db.subscriptions;
    }
  }

  /** While a topic does not exist, the hidden columns that lead to its name are those of the orphans
      created on it and patched since it was deleted. */
  lemma ColumnsLeadingBack(marked: set<GlobalKey>, db: PubsubDb, project: string, topic: string)
    requires Valid(db) && ColumnsFollow(marked, db) && GlobalKey(project, topic) !in db.topics && topic != TOMBSTONE
    ensures (NoColumnLeadsTo(db, project, topic))
            <==> forall k :: !LeadsBack(marked, db, k, project, topic)
  {
    forall k | k in db.subscriptions && k.project == project
      ensures db.subscriptions[k].topicName == topic <==> LeadsBack(marked, db, k, project, topic)
    {
      assert RowValid(db.topics, k, db.subscriptions[k]) && ColumnFollows(k in marked, db.subscriptions[k]);
    }
    hide Valid, ColumnsFollow;
  }

  /** A run that ends in a refused request with an effect: a topic is deleted, its subscription patched,
      and the topic deleted once more. */
  lemma RefusedDeletionLeavesATrace(project: string, topic: string, subscription: string)
    requires ShortName(topic) && ShortName(subscription) && topic != TOMBSTONE
    ensures var ops := [CreateTopic(project, topic, map[]),
            CreateSubscription(project, subscription, map[FTopic := Str(topic)]),
                        DeleteTopic(project, topic), UpdateSubscription(project, subscription, map[])];
            var db := ApplyAll(NO_TOPICS, ops);
            var out := Apply(db, DeleteTopic(project, topic));
            out.result == Err(NotFound) && out.db != db
  {
    var create := CreateTopic(project, topic, map[]);
    var subscribe := CreateSubscription(project, subscription, map[FTopic := Str(topic)]);
    var delete, patch := DeleteTopic(project, topic), UpdateSubscription(project, subscription, map[]);
    hide FullName, Merged, ExtractName, ShortName, Apply;
    ApplyFour(NO_TOPICS, create, subscribe, delete, patch);
    var k := GlobalKey(project, subscription);
    var two := Apply(Apply(NO_TOPICS, create).db, subscribe).db;
    SubscriptionIsBound(project, topic, subscription);
    var three := Apply(two, delete).db;
    var four := Apply(three, patch).db;
    PatchedAfterDeletion(two, k, delete, patch);
    LastTwoSteps(two, project, topic, subscription);
    hide Valid;
    FailedTopicDeletionChangesNothingIff(four, project, topic);
  }

  lemma PatchedAfterDeletion(db: PubsubDb, k: GlobalKey, delete: PubsubOp, patch: PubsubOp)
    requires Valid(db) && k in db.subscriptions && !Orphan(db.subscriptions[k])
    requires delete == DeleteTopic(k.project, db.subscriptions[k].topicName) && Patches(patch, k)
    ensures var four := Apply(Apply(db, delete).db, patch).db;
            Valid(four) && k in four.subscriptions && four.subscriptions[k].topicName == db.subscriptions[k].topicName
  {
    hide Apply, Valid, Orphan, Routed, TOMBSTONE;
    var ops := [delete, patch];
    assert ops[..1] == [delete] && [delete][..0] == [];
    assert ApplyAll(db, [delete]) == Apply(db, delete).db;
    assert ApplyAll(db, ops) == Apply(Apply(db, delete).db, patch).db;
    WritersAreRouted(delete, patch);
    PatchRepointsTheHiddenColumnIff(db, ops, k);
  }

  lemma WritersAreRouted(delete: PubsubOp, patch: PubsubOp)
    ensures delete.DeleteTopic? ==> Routed(delete)
    ensures patch.UpdateSubscription? ==> Routed(patch)
  {
  }

  lemma ApplyFour(db: PubsubDb, a: PubsubOp, b: PubsubOp, c: PubsubOp, d: PubsubOp)
    ensures ApplyAll(db, [a, b, c, d]) == Apply(Apply(Apply(Apply(db, a).db, b).db, c).db, d).db
  {
    hide Apply;
    assert [a, b, c, d][..3] == [a, b, c] && [a, b, c][..2] == [a, b] && [a, b][..1] == [a];
    assert ApplyAll(db, [a]) == Apply(db, a).db;
    assert ApplyAll(db, [a, b]) == Apply(Apply(db, a).db, b).db;
    assert ApplyAll(db, [a, b, c]) == Apply(Apply(Apply(db, a).db, b).db, c).db;
  }

  /** Topic deletion and the patch after it, as transitions; neither adds a topic. */
  lemma LastTwoSteps(db: PubsubDb, project: string, topic: string, subscription: string)
    ensures var three := Apply(db, DeleteTopic(project, topic)).db;
            var four := Apply(three, UpdateSubscription(project, subscription, map[])).db;
            && three == RemoveTopic(db, project, topic).db
            && four == PatchSubscription(three, project, subscription, map[]).db
            && GlobalKey(project, topic) !in four.topics
            && Apply(four, DeleteTopic(project, topic)) == RemoveTopic(four, project, topic)
  {
    hide FullName, ExtractName, Merged;
  }

  lemma SubscriptionIsBound(project: string, topic: string, subscription: string)
    requires ShortName(topic) && ShortName(subscription) && topic != TOMBSTONE
    ensures var one := Apply(NO_TOPICS, CreateTopic(project, topic, map[])).db;
            var two := Apply(one, CreateSubscription(project, subscription, map[FTopic := Str(topic)])).db;
            var k := GlobalKey(project, subscription);
            Valid(two) && k in two.subscriptions && two.subscriptions[k].topicName == topic
              && !Orphan(two.subscriptions[k])
  {
    hide FullName, ExtractName, Valid, ResolveSameProjectName, Named, ShortName, IsSpace, SlashFree, RowValid;
    var one := Apply(NO_TOPICS, CreateTopic(project, topic, map[])).db;
    FirstTopic(project, topic);
    CollectionsAreShortNames();
    ShortNameIsSlashFree(topic);
    ShortNameIsSlashFree(subscription);
    NameOfFullName(project, "subscriptions", subscription);
    ShortNameResolves(project, topic);
    ShortNameResolves(project, subscription);
    StepKeepsValid(one, CreateSubscription(project, subscription, map[FTopic := Str(topic)]));
    KeepsTopicField(project, map[FTopic := Str(topic)][FName := Str(FullName(project, "subscriptions", subscription))],
      subscription);
  }

  lemma ShortNameResolves(project: string, name: string)
    requires ShortName(name)
    ensures name != "" && ResolveSameProjectName(project, name, "topics") == Ok(name)
  {
  }

  lemma KeepsTopicField(project: string, data: Document, name: string)
    requires FTopic in data
    ensures var row := Named(data, project, "subscriptions", name); FTopic in row && row[FTopic] == data[FTopic]
  {
  }

  lemma FirstTopic(project: string, topic: string)
    requires ShortName(topic)
    ensures var one := Apply(NO_TOPICS, CreateTopic(project, topic, map[])).db;
            Valid(one) && one.topics.Keys == {GlobalKey(project, topic)} && one.subscriptions == map[]
  {
    hide FullName, ExtractName, ShortName, SlashFree, IsSpace, ResolveSameProjectName, NameFits, Named, RowValid;
    CollectionsAreShortNames();
    ShortNameIsSlashFree(topic);
    ShortNameResolves(project, topic);
    NameOfFullName(project, "topics", topic);
    hide Valid, TOMBSTONE;
    var data: Document := map[FName := Str(FullName(project, "topics", topic))];
    NothingIsValid();
    InsertTopicKeepsValid(NO_TOPICS, project, data);
    assert map[][FName := Str(FullName(project, "topics", topic))] == data;
  }

  lemma NothingIsValid()
    ensures Valid(NO_TOPICS)
  {
  }

  /** Deleting a topic just created brings back the topics and every visible document, but not always the
      hidden columns: it brings back the tables as they were exactly when no patched orphan leads back to
      the topic's name (a topic called like the tombstone aside). */
  lemma TopicDeletionUndoesCreationIff(db: PubsubDb, project: string, data: Document)
    requires Valid(db) && InsertTopic(db, project, data).result.Ok?
    ensures var name := ExtractName(GetString(data, FName));
            var undone := RemoveTopic(InsertTopic(db, project, data).db, project, name);
            && undone.result == Ok(map[])
            && undone.db.topics == db.topics
            && undone.db.subscriptions.Keys == db.subscriptions.Keys
            && (forall k :: k in db.subscriptions ==> undone.db.subscriptions[k].data == db.subscriptions[k].data)
            && (undone.db == db <==> name == TOMBSTONE || NoColumnLeadsTo(db, project, name))
  {
    hide ResolveSameProjectName, ExtractName, NameFits, Named;
    var name := ExtractName(GetString(data, FName));
    var once := InsertTopic(db, project, data).db;
    var undone := RemoveTopic(once, project, name).db;
    assert once.topics - {GlobalKey(project, name)} == db.topics;
    forall k | k in db.subscriptions && k.project == project && db.subscriptions[k].topicName == name
      ensures Orphaned(db.subscriptions[k]) == Subscription(TOMBSTONE, db.subscriptions[k].data)
    {
      assert RowValid(db.topics, k, db.subscriptions[k]);
      assert db.subscriptions[k].data[FTopic] == Str(TOMBSTONE);
    }
    if name == TOMBSTONE || NoColumnLeadsTo(db, project, name) {
      assert undone.subscriptions == db.subscriptions;
    }
  }

  function TakenBackBy(op: PubsubOp): PubsubOp
    requires op.CreateSubscription?
  {
    DeleteSubscription(op.project, ExtractName(FullName(op.project, "subscriptions", op.subscription)))
  }

  /** Deleting a subscription just created brings back the tables as they were. */
  lemma SubscriptionDeletionUndoesCreation(db: PubsubDb, op: PubsubOp)
    requires op.CreateSubscription? && Apply(db, op).result.Ok?
    ensures Apply(Apply(db, op).db, TakenBackBy(op)) == Outcome(db, Ok(map[]))
  {
    hide ResolveSameProjectName, ExtractName, Named, FullName;
    var key := GlobalKey(op.project, ExtractName(FullName(op.project, "subscriptions", op.subscription)));
    assert Apply(db, op).db.subscriptions - {key} == db.subscriptions;
  }

  function Stamps(project: string, name: string, topic: string): Document {
    map[FProject := Str(project), FName := Str(FullName(project, "subscriptions", name)), FTopicName := Str(topic)]
  }

  lemma PatchedSubscriptionStamps(project: string, name: string, current: Document, patch: Document)
    requires name != "" && ExtractName(GetString(current, FName)) == name
    ensures var patched := PatchedSubscription(project, current, patch);
            patched.Ok? ==>
            && patched.value.topicName != ""
            && (GetString(current, FTopicName) != "" ==> patched.value.topicName == GetString(current, FTopicName))
            && patched.value.data
               == Merged(current, patch, {FName, FProject, FTopicName, FTopic}) + Stamps(project, name,
               patched.value.topicName)
  {
    hide Merged, ExtractName, FullName;
  }

  lemma PatchedSubscriptionIsIdempotent(project: string, name: string, current: Document, patch: Document)
    requires name != "" && ExtractName(GetString(current, FName)) == name
    requires ExtractName(FullName(project, "subscriptions", name)) == name
    ensures var once := PatchedSubscription(project, current, patch);
            once.Ok? ==> PatchedSubscription(project, once.value.data, patch) == once
  {
    hide Merged, ExtractName, FullName;
    var once, skip := PatchedSubscription(project, current, patch), {FName, FProject, FTopicName, FTopic};
    if once.Ok? {
      var row, topic := once.value.data, once.value.topicName;
      PatchedSubscriptionStamps(project, name, current, patch);
      StampedMergeIsIdempotent(current, patch, skip, Stamps(project, name, topic));
      assert GetString(row, FTopicName) == topic && ExtractName(GetString(row, FName)) == name;
      assert PatchedSubscription(project, row, patch).Ok?;
      PatchedSubscriptionStamps(project, name, row, patch);
    }
  }

  /** A successful subscription update repeated with the same patch changes nothing: the rebuilt name reads
      back as the name it was rebuilt from, and the column set from the document sets the document's own. */
  lemma UpdatesAreIdempotent(db: PubsubDb, project: string, name: string, patch: Document)
    requires Valid(db) && PatchSubscription(db, project, name, patch).result.Ok?
    ensures var once := PatchSubscription(db, project, name, patch);
            PatchSubscription(once.db, project, name, patch) == once
  {
    hide PatchedSubscription, ResolveSameProjectName, ExtractName, FullName, IsSpace;
    assert ShortName(name) ==> name != "";
    var key := GlobalKey(project, name);
    assert RowValid(db.topics, key, db.subscriptions[key]);
    CollectionsAreShortNames();
    ShortNameIsSlashFree(name);
    NameOfFullName(project, "subscriptions", name);
    PatchedSubscriptionIsIdempotent(project, name, db.subscriptions[key].data, patch);
    RewritingIsIdempotent(db.subscriptions, key, PatchSubscription(db, project, name, patch).db.subscriptions[key]);
  }

  // ------------------------------------------------ outcomes, read off the request

  lemma FullNameText(project: string, collection: string, name: string)
    ensures FullName(project, collection, name) == "projects/" + project + "/" + collection + "/" + name
  {
  }

  /** A topic is named by the last segment of its path parameter's full name; the stored document shows the
      full name and the project, and keeps the rest of the body. */
  lemma TopicCreation(db: PubsubDb, project: string, topic: string, body: Document)
    ensures var full := FullName(project, "topics", topic);
            var key, out := GlobalKey(project, ExtractName(full)), Apply(db, CreateTopic(project, topic, body));
            && (out.result.Ok? <==> key.name != "" && key !in db.topics)
            && (out.result.Err? ==> out == Outcome(db, Err(if key.name == "" then Required else AlreadyExists)))
            && (out.result.Ok? ==>
                && out.db == db.(topics := db.topics[key := out.result.value])
                && Says(out.result.value, FProject, project)
                && ShowsName(out.result.value, full, project, "topics", key.name)
                && SameElsewhere(out.result.value, body, {FName, FProject}))
  {
    hide ExtractName, ResolveSameProjectName, FullName;
  }

  /** The stored name: the one handed over, unless it is bare; then the full one made of it. */
  predicate ShowsName(data: Document, given: string, project: string, collection: string, name: string) {
    Says(data, FName, if given == "" || given == name then FullName(project, collection, name) else given)
  }

  /** A subscription needs a name, a topic reference, and the topic. It is stored bound to the topic. */
  lemma SubscriptionCreation(db: PubsubDb, project: string, subscription: string, body: Document)
    ensures var full := FullName(project, "subscriptions", subscription);
            var key, ref := GlobalKey(project, ExtractName(full)), GetString(body, FTopic);
            var topic := ResolveSameProjectName(project, ref, "topics");
            var found := topic.Ok? && GlobalKey(project, topic.value) in db.topics;
            var out := Apply(db, CreateSubscription(project, subscription, body));
            && (out.result.Ok? <==> key.name != "" && ref != "" && found && key !in db.subscriptions)
            && (out.result.Err? ==> out == Outcome(db, Err(if key.name == "" || ref == "" then Required
                                                           else if !found then NotFound else AlreadyExists)))
            && (out.result.Ok? ==>
                && out.db == db.(subscriptions := db.subscriptions[key := Subscription(topic.value, out.result.value)])
                && Says(out.result.value, FProject, project) && Says(out.result.value, FTopicName, topic.value)
                && ShowsName(out.result.value, full, project, "subscriptions", key.name)
                && SameElsewhere(out.result.value, body, {FName, FProject, FTopicName}))
  {
    UnresolvedIsNotFound(project, GetString(body, FTopic), "topics");
    hide ExtractName, ResolveSameProjectName, FullName;
  }

  /** A row as a patch leaves it: project and name its own, the topic's name kept, the rest patched. */
  ghost predicate PatchedTo(row: Subscription, current: Document, project: string, name: string, patch: Document) {
    && Says(row.data, FProject, project) && Says(row.data, FName, FullName(project, "subscriptions", name))
    && Unchanged(current, {FTopic}, row.data)
    && TakesPatch(current, patch, {FName, FProject, FTopicName, FTopic}, row.data)
  }

  lemma PatchedRow(project: string, name: string, current: Document, patch: Document)
    requires name != "" && ExtractName(GetString(current, FName)) == name
    ensures var row := PatchedSubscription(project, current, patch);
            && (row.Ok? ==> PatchedTo(row.value, current, project, name, patch))
            && (row.Err? ==> row == Err(Required) && GetString(current, FTopicName) == "")
  {
    hide ExtractName, FullName;
    PatchedSubscriptionStamps(project, name, current, patch);
    var row, skip := PatchedSubscription(project, current, patch), {FName, FProject, FTopicName, FTopic};
    if row.Ok? {
      hide PatchedSubscription;
      var stamps := Stamps(project, name, row.value.topicName);
      NameStamped(project, name, row.value.topicName);
      StampedMergeApplies(current, patch, skip, stamps);
      hide Merged, PatchedAt, Stamps;
      assert skip - stamps.Keys == {FTopic};
    }
  }

  /** A patch of an existing subscription that shows its topic's name takes effect, and leaves topic and
      topic name alone. */
  lemma SubscriptionUpdate(db: PubsubDb, project: string, name: string, patch: Document)
    requires Valid(db)
    ensures var key, out := GlobalKey(project, name), Apply(db, UpdateSubscription(project, name, patch));
            && (key !in db.subscriptions ==> out == Outcome(db, Err(NotFound)))
            && (key in db.subscriptions && out.result.Ok? ==>
                exists row :: PatchedTo(row, db.subscriptions[key].data, project, name, patch) &&
                  out == Outcome(db.(subscriptions := db.subscriptions[key := row]), Ok(row.data)))
            && (key in db.subscriptions && out.result.Err? ==>
                out == Outcome(db, Err(Required)) && StoredTopic(db.subscriptions[key]) == "")
  {
    hide ExtractName, FullName, ShortName, PatchedSubscription, PatchedTo, Valid, Orphan, Bound;
    var key := GlobalKey(project, name);
    if key in db.subscriptions {
      NameIsStored(db, key);
      PatchedRow(project, name, db.subscriptions[key].data, patch);
    }
  }

  lemma NameIsStored(db: PubsubDb, key: GlobalKey)
    requires Valid(db) && key in db.subscriptions
    ensures key.name != "" && ExtractName(GetString(db.subscriptions[key].data, FName)) == key.name
  {
    hide ExtractName, IsSpace, Orphan, Bound;
    assert RowValid(db.topics, key, db.subscriptions[key]);
    ShortNameIsNotEmpty(key.name);
  }

  lemma ShortNameIsNotEmpty(name: string)
    ensures ShortName(name) ==> name != ""
  {
  }

  lemma NameStamped(project: string, name: string, topic: string)
    ensures var stamps := Stamps(project, name, topic);
            && stamps.Keys == {FProject, FName, FTopicName}
            && Says(stamps, FProject, project) && Says(stamps, FTopicName, topic)
            && Says(stamps, FName, FullName(project, "subscriptions", name))
  {
    hide FullName;
  }

  /** A topic is deleted exactly when it is there, and no other topic with it; so is a subscription. */
  lemma Deletions(db: PubsubDb, project: string, name: string)
    ensures var key, out := GlobalKey(project, name), Apply(db, DeleteTopic(project, name));
            && out.result == (if key in db.topics then Ok(map[]) else Err(NotFound))
            && out.db.topics == db.topics - {key}
    ensures var key, out := GlobalKey(project, name), Apply(db, DeleteSubscription(project, name));
            out == if key in db.subscriptions then Outcome(db.(subscriptions := db.subscriptions - {key}), Ok(map[]))
                   else Outcome(db, Err(NotFound))
  {
    assert GlobalKey(project, name) !in db.topics ==> db.topics - {GlobalKey(project, name)} == db.topics;
  }
}
