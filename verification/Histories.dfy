/** What holds of single rows over whole runs of the service. */
module Histories {
  import opened Wrappers
  import opened Json
  import opened Tables
  import opened Text
  import opened References
  import opened Service
  import Compute
  import Rows
  import Dns
  import Secrets
  import Pubsub

  // ------------------------------------------------------- the network records

  type Places = set<Rows.Row>

  /** The places whose binding was settled by the visible reference, with a baseline of their own. */
  datatype Settled = Settled(live: Places, base: Option<Places>)

  ghost function AfterRequest(places: Places, db: Compute.ComputeDb, op: Compute.ComputeOp): Places {
    var row := Rows.NamedRow(op);
    if Compute.Apply(db, op).result.Err? then places
    else if Rows.IsDeletion(op) then places - {row}
    else if Rows.SettlesBinding(op) then places + {row}
    else places
  }

  ghost function SettledStep(before: Settled, s: State, op: Op): Settled {
    match op
    case OnCompute(o) => before.(live := AfterRequest(before.live, s.db.compute, o))
    case Reset => Settled({}, None)
    case Snapshot => before.(base := Some(before.live))
    case Restore => if before.base.None? then before else before.(live := before.base.value)
    case _ => before
  }

  /** Kept from the requests alone: which of them succeeded, and what they said of the network. */
  ghost function SettledRun(ops: seq<Op>): Settled {
    if ops == [] then Settled({}, None)
    else
      var front := ops[..|ops| - 1];
      SettledStep(SettledRun(front), Run(INITIAL, front), ops[|ops| - 1])
  }

  ghost predicate Agreeing(places: Places, db: Compute.ComputeDb) {
    forall row :: row in places <==> Rows.RowAgrees(db, row)
  }

  ghost predicate BothAgreeing(settled: Settled, s: State) {
    && Agreeing(settled.live, s.db.compute)
    && (settled.base.Some? <==> s.baseline.Some?)
    && (s.baseline.Some? ==> Agreeing(settled.base.value, s.baseline.value.compute))
  }

  lemma RequestKeepsAgreeing(places: Places, db: Compute.ComputeDb, op: Compute.ComputeOp)
    requires Compute.Valid(db) && Agreeing(places, db)
    ensures Agreeing(AfterRequest(places, db, op), Compute.Apply(db, op).db)
  {
    hide Compute.Apply, Compute.Valid, Rows.RowAgrees, Rows.NamedRow, Rows.SettlesBinding;
    forall row ensures row in AfterRequest(places, db, op) <==> Rows.RowAgrees(Compute.Apply(db, op).db, row) {
      Rows.StepAgreementIff(db, op, row);
    }
  }

  lemma NothingAgreesInEmpty()
    ensures Agreeing({}, Compute.EMPTY)
  {
  }

  lemma SettledStepAgrees(before: Settled, s: State, op: Op)
    requires Sound(s) && BothAgreeing(before, s)
    ensures BothAgreeing(SettledStep(before, s, op), Step(s, op).state)
  {
    SoundTablesAreValid(s);
    NothingAgreesInEmpty();
    hide Sound, Agreeing, AfterRequest, Compute.Valid, Compute.Apply, Dns.ApplyChange, Record;
    if op.OnCompute? { RequestKeepsAgreeing(before.live, s.db.compute, op.compute); }
  }

  /** In every reachable state, and in its baseline, foreign-key column, network_name and resolved reference
      are one in exactly those subnetworks, firewalls and routers whose binding was settled by the visible
      reference, row by row and whatever other clients supply for other rows. */
  lemma {:induction false} NetworkRecordsAgree(ops: seq<Op>)
    requires AllRouted(ops)
    ensures BothAgreeing(SettledRun(ops), Run(INITIAL, ops))
  {
    NothingAgreesInEmpty();
    if ops != [] {
      hide Routed, Sound, BothAgreeing, Step, SettledStep;
      var front, last := ops[..|ops| - 1], ops[|ops| - 1];
      assert last in ops;
      NetworkRecordsAgree(front);
      ReachableStatesAreSound(front);
      SettledStepAgrees(SettledRun(front), Run(INITIAL, front), last);
    }
  }

  lemma SoundTablesAreValid(s: State)
    requires Sound(s)
    ensures Compute.Valid(s.db.compute)
  {
  }

  predicate KeepsRow(op: Op, row: Rows.Row) {
    !op.Reset? && !op.Restore? && op != OnCompute(Rows.DeletionOf(row))
  }

  lemma StepKeepsRowAgreement(s: State, op: Op, row: Rows.Row)
    requires Sound(s) && KeepsRow(op, row) && Rows.RowAgrees(s.db.compute, row)
    ensures Rows.RowAgrees(Step(s, op).state.db.compute, row)
  {
    hide Sound, Compute.Apply, Dns.ApplyChange, Record, Rows.RowAgrees, Rows.NamedRow, Rows.SettlesBinding;
    SoundTablesAreValid(s);
    if op.OnCompute? { Rows.StepAgreementIff(s.db.compute, op.compute, row); }
  }

  /** Once its records agree, a row keeps them in agreement until its own deletion or a rewind, over every
      run of requests of any clients. */
  lemma {:induction false} AgreementLastsOverRuns(past: seq<Op>, ops: seq<Op>, row: Rows.Row)
    requires AllRouted(past) && AllRouted(ops)
    requires Rows.RowAgrees(Run(INITIAL, past).db.compute, row)
    requires forall op :: op in ops ==> KeepsRow(op, row)
    ensures Rows.RowAgrees(Run(INITIAL, past + ops).db.compute, row)
    decreases |ops|
  {
    hide Step, Routed, Sound, KeepsRow, Rows.RowAgrees;
    if ops == [] {
      assert past + ops == past;
    } else {
      var front, last := ops[..|ops| - 1], ops[|ops| - 1];
      assert last in ops;
      AgreementLastsOverRuns(past, front, row);
      assert past + ops == (past + front) + [last];
      RunOneMore(INITIAL, past + front, last);
      RoutedConcatenation(past, front);
      ReachableStatesAreSound(past + front);
      StepKeepsRowAgreement(Run(INITIAL, past + front), last, row);
    }
  }

  // ------------------------------------------------------------- key columns

  ghost predicate StateShowsKeys(s: State) {
    Rows.RowsShowTheirKeys(s.db.compute) && (s.baseline.Some? ==> Rows.RowsShowTheirKeys(s.baseline.value.compute))
  }

  lemma StepKeepsStateKeysShown(s: State, op: Op)
    requires StateShowsKeys(s)
    ensures StateShowsKeys(Step(s, op).state)
  {
    hide Rows.RowsShowTheirKeys, Compute.Apply, Dns.ApplyChange, Record;
    match op
    case OnCompute(o) => Rows.StepKeepsKeysShown(s.db.compute, o);
    case Reset => EmptyShowsKeys();
    case _ =>
  }

  lemma EmptyShowsKeys()
    ensures StateShowsKeys(INITIAL)
  {
  }

  /** In every reachable state the document of each compute row shows the row's own key, whatever name,
      project or location the documents of the requests claimed. */
  lemma {:induction false} RowsShowTheirKeysOverRuns(ops: seq<Op>, row: Rows.Row)
    ensures StateShowsKeys(Run(INITIAL, ops))
    ensures var shown := Rows.Stored(Run(INITIAL, ops).db.compute, row);
            shown.Some? ==> Rows.Shows(shown.value, Rows.KeyColumns(row))
  {
    hide Step, Rows.Stored, Rows.Shows, Rows.KeyColumns;
    if ops == [] {
      EmptyShowsKeys();
    } else {
      RowsShowTheirKeysOverRuns(ops[..|ops| - 1], row);
      StepKeepsStateKeysShown(Run(INITIAL, ops[..|ops| - 1]), ops[|ops| - 1]);
    }
  }

  // ----------------------------------------------------------- secret versions

  /** The run may do anything but rewind the tables or delete the version's secret. */
  predicate KeepsSecret(op: Op, project: string, secret: string) {
    !op.Reset? && !op.Restore? && op != OnSecrets(Secrets.DeleteSecret(project, secret))
  }

  lemma StepEvolvesVersion(s: State, op: Op, name: string)
    requires Sound(s) && Routed(op) && name in s.db.secrets.versions
    requires var row := s.db.secrets.versions[name]; KeepsSecret(op, row.project, row.secret)
    ensures var s' := Step(s, op).state;
            name in s'.db.secrets.versions && Secrets.Evolved(s.db.secrets.versions[name], s'.db.secrets.versions[name])
  {
    hide Compute.Apply, Dns.ApplyChange, Record, Secrets.Apply, Secrets.Numbered, Secrets.RowOrderIsNumberOrder,
         Compute.Valid, Dns.Valid, Pubsub.Valid;
    if op.OnSecrets? {
      Secrets.VersionsOnlyEvolve(s.db.secrets, op.secrets, name);
    }
  }

  /** From any reachable state on, a version is destroyed for good or still has the payload it had. */
  lemma {:induction false} VersionsOnlyEvolveOverRuns(past: seq<Op>, ops: seq<Op>, name: string)
    requires AllRouted(past) && AllRouted(ops)
    requires name in Run(INITIAL, past).db.secrets.versions
    requires var row := Run(INITIAL, past).db.secrets.versions[name];
             forall op :: op in ops ==> KeepsSecret(op, row.project, row.secret)
    ensures var before, after := Run(INITIAL, past).db.secrets.versions, Run(INITIAL, past + ops).db.secrets.versions;
            name in after && Secrets.Evolved(before[name], after[name])
    decreases |ops|
  {
    hide Step, Routed, Sound, KeepsSecret;
    var before := Run(INITIAL, past).db.secrets.versions[name];
    if ops == [] {
      assert past + ops == past;
      assert Secrets.Evolved(before, before) by {
        ReachableStatesAreSound(past);
        EvolvedIsReflexive(Run(INITIAL, past), name);
      }
    } else {
      var front, last := ops[..|ops| - 1], ops[|ops| - 1];
      assert last in ops;
      VersionsOnlyEvolveOverRuns(past, front, name);
      assert past + ops == (past + front) + [last];
      RunOneMore(INITIAL, past + front, last);
      var s := Run(INITIAL, past + front);
      ReachableStatesAreSound(past + front);
      StepEvolvesVersion(s, last, name);
    }
  }

  lemma EvolvedIsReflexive(s: State, name: string)
    requires Sound(s) && name in s.db.secrets.versions
    ensures Secrets.Evolved(s.db.secrets.versions[name], s.db.secrets.versions[name])
  {
    hide Secrets.Numbered, Secrets.RowOrderIsNumberOrder, Compute.Valid, Dns.Valid, Pubsub.Valid;
  }

  /** The life of a version from its creation: as long as it is not destroyed, access answers with the
      payload of the addVersion request, under any sequence of enabling and disabling. */
  lemma AddedPayloadIsServed(past: seq<Op>, project: string, secret: string, body: Document, env: Env, ops: seq<Op>)
    requires AllRouted(past) && AllRouted(ops) && SlashFree(project) && SlashFree(secret)
    requires Secrets.HasPayload(body)
    requires GlobalKey(project, secret) in Run(INITIAL, past).db.secrets.secrets
    requires forall op :: op in ops ==> KeepsSecret(op, project, secret)
    ensures var add := OnSecrets(Secrets.AddVersion(project, secret, body, env));
            var name := AddedName(Run(INITIAL, past), project, secret);
            var after := Run(INITIAL, past + [add] + ops).db.secrets.versions;
            && Step(Run(INITIAL, past), add).result.Ok?
            && name in after
            && Secrets.AccessResponse(after[name].data)[FPayload]
               == if Secrets.Destroyed(after[name]) then Obj(map[FData := Str("")]) else body[FPayload]
  {
    hide Run, Step, Routed, KeepsSecret, Sound, Secrets.HasPayload, Secrets.VersionName, Secrets.Evolved,
         Secrets.AccessResponse, Decimal;
    var add := OnSecrets(Secrets.AddVersion(project, secret, body, env));
    assert Routed(add) by { AddVersionIsRouted(project, secret, body, env); }
    ReachableStatesAreSound(past);
    AddingStoresThePayload(Run(INITIAL, past), project, secret, body, env);
    RunOneMore(INITIAL, past, add);
    RoutedAddition(past, add);
    VersionsOnlyEvolveOverRuns(past + [add], ops, AddedName(Run(INITIAL, past), project, secret));
    RoutedConcatenation(past + [add], ops);
    ReachableStatesAreSound(past + [add] + ops);
    EvolvedVersionIsServed(Run(INITIAL, past + [add]), Run(INITIAL, past + [add] + ops),
      AddedName(Run(INITIAL, past), project, secret));
  }

  lemma AddVersionIsRouted(project: string, secret: string, body: Document, env: Env)
    requires SlashFree(project) && SlashFree(secret)
    ensures Routed(OnSecrets(Secrets.AddVersion(project, secret, body, env)))
  {
  }

  /** The name the next version of a secret gets. */
  ghost function AddedName(s: State, project: string, secret: string): string {
    Secrets.VersionName(project, secret, Decimal(Secrets.MaxOfSecret(s.db.secrets.versions, project, secret) + 1))
  }

  lemma AddingStoresThePayload(s: State, project: string, secret: string, body: Document, env: Env)
    requires Sound(s) && SlashFree(project) && SlashFree(secret)
    requires Secrets.HasPayload(body) && GlobalKey(project, secret) in s.db.secrets.secrets
    ensures var out, name := Step(s, OnSecrets(Secrets.AddVersion(project, secret, body, env))),
            AddedName(s, project, secret);
            && out.result.Ok? && name in out.state.db.secrets.versions
            && var row := out.state.db.secrets.versions[name];
            && row.project == project && row.secret == secret && FPayload in row.data
               && row.data[FPayload] == body[FPayload]
  {
    hide Secrets.VersionName, Secrets.Number, Decimal, Compute.Valid, Dns.Valid, Pubsub.Valid, Secrets.Valid,
         Secrets.IsLatest, Secrets.MaxOfSecret;
    Secrets.VersionNumbersNeverCollide(s.db.secrets, project, secret, body, env);
  }

  lemma EvolvedVersionIsServed(s: State, s': State, name: string)
    requires Sound(s') && name in s.db.secrets.versions && name in s'.db.secrets.versions
    requires Secrets.Evolved(s.db.secrets.versions[name], s'.db.secrets.versions[name])
    ensures Secrets.AccessResponse(s'.db.secrets.versions[name].data)[FPayload]
         == if Secrets.Destroyed(s'.db.secrets.versions[name]) then Obj(map[FData := Str("")])
           else s.db.secrets.versions[name].data[FPayload]
  {
    hide Secrets.AccessResponse, Compute.Valid, Dns.Valid, Pubsub.Valid, Secrets.Numbered,
         Secrets.RowOrderIsNumberOrder;
    Secrets.AccessShowsThePayload(s'.db.secrets, name);
  }

  lemma RoutedAddition(past: seq<Op>, op: Op)
    requires AllRouted(past) && Routed(op)
    ensures AllRouted(past + [op])
  {
  }

  lemma RoutedConcatenation(past: seq<Op>, ops: seq<Op>)
    requires AllRouted(past) && AllRouted(ops)
    ensures AllRouted(past + ops)
  {
  }

  // ------------------------------------------------------------- subscriptions

  predicate KeepsSubscription(op: Op, k: GlobalKey) {
    !op.Reset? && !op.Restore? && op != OnPubsub(Pubsub.DeleteSubscription(k.project, k.name))
  }

  lemma StepKeepsOrphan(s: State, op: Op, k: GlobalKey)
    requires Sound(s) && k in s.db.pubsub.subscriptions && KeepsSubscription(op, k)
    ensures var s' := Step(s, op).state;
            && k in s'.db.pubsub.subscriptions
            && (Pubsub.Orphan(s.db.pubsub.subscriptions[k]) ==> Pubsub.Orphan(s'.db.pubsub.subscriptions[k]))
  {
    hide Compute.Apply, Dns.ApplyChange, Record, Pubsub.Apply, Pubsub.RowValid, Secrets.Valid, Compute.Valid,
         Dns.Valid, Pubsub.Orphan;
    if op.OnPubsub? {
      Pubsub.OrphansStayOrphans(s.db.pubsub, op.pubsub, k);
    }
  }

  /** Once tombstoned, a subscription stays so until it is deleted or the tables are rewound, whatever
      topics are created again under the old name. */
  lemma {:induction false} OrphansStayOrphansOverRuns(past: seq<Op>, ops: seq<Op>, k: GlobalKey)
    requires AllRouted(past) && AllRouted(ops)
    requires k in Run(INITIAL, past).db.pubsub.subscriptions
             && Pubsub.Orphan(Run(INITIAL, past).db.pubsub.subscriptions[k])
    requires forall op :: op in ops ==> KeepsSubscription(op, k)
    ensures var after := Run(INITIAL, past + ops).db.pubsub.subscriptions;
            k in after && Pubsub.Orphan(after[k])
    decreases |ops|
  {
    hide Step, Routed, Sound, KeepsSubscription, Pubsub.Orphan;
    if ops == [] {
      assert past + ops == past;
    } else {
      var front, last := ops[..|ops| - 1], ops[|ops| - 1];
      assert last in ops;
      OrphansStayOrphansOverRuns(past, front, k);
      assert past + ops == (past + front) + [last];
      RunOneMore(INITIAL, past + front, last);
      RoutedConcatenation(past, front);
      ReachableStatesAreSound(past + front);
      StepKeepsOrphan(Run(INITIAL, past + front), last, k);
    }
  }

  /** Every reachable subscription shows the tombstone or a topic of its project that exists. */
  lemma SubscriptionsShowLiveTopics(ops: seq<Op>, k: GlobalKey)
    requires AllRouted(ops) && k in Run(INITIAL, ops).db.pubsub.subscriptions
    ensures var db := Run(INITIAL, ops).db.pubsub;
            var shown := Pubsub.Topic(db.subscriptions[k]);
            shown == Pubsub.TOMBSTONE ||
            (ResolveSameProjectName(k.project, shown, "topics").Ok?
             && GlobalKey(k.project, ResolveSameProjectName(k.project, shown, "topics").value) in db.topics)
  {
    hide Run, Routed, ResolveSameProjectName, Pubsub.NameFits, Secrets.Valid, Compute.Valid, Dns.Valid;
    ReachableStatesAreSound(ops);
    assert Pubsub.RowValid(Run(INITIAL, ops).db.pubsub.topics, k, Run(INITIAL, ops).db.pubsub.subscriptions[k]);
  }

  type Subscriptions = set<GlobalKey>

  /** The subscriptions patched since the deletion of their topic, with a baseline of their own. */
  datatype Marks = Marks(live: Subscriptions, base: Option<Subscriptions>)

  ghost function MarkedStep(before: Marks, s: State, op: Op): Marks {
    match op
    case OnPubsub(o) => before.(live := Pubsub.Repointed(before.live, s.db.pubsub, o))
    case Reset => Marks({}, None)
    case Snapshot => before.(base := Some(before.live))
    case Restore => if before.base.None? then before else before.(live := before.base.value)
    case _ => before
  }

  ghost function MarkedRun(ops: seq<Op>): Marks {
    if ops == [] then Marks({}, None)
    else
      var front := ops[..|ops| - 1];
      MarkedStep(MarkedRun(front), Run(INITIAL, front), ops[|ops| - 1])
  }

  ghost predicate BothFollow(marks: Marks, s: State) {
    && Pubsub.ColumnsFollow(marks.live, s.db.pubsub)
    && (marks.base.Some? <==> s.baseline.Some?)
    && (s.baseline.Some? ==> Pubsub.ColumnsFollow(marks.base.value, s.baseline.value.pubsub))
  }

  lemma NothingFollowsInEmpty()
    ensures Pubsub.ColumnsFollow({}, Pubsub.NO_TOPICS)
  {
  }

  lemma MarkedStepFollows(before: Marks, s: State, op: Op)
    requires Sound(s) && BothFollow(before, s)
    ensures BothFollow(MarkedStep(before, s, op), Step(s, op).state)
  {
    SoundSubscriptionsAreValid(s);
    NothingFollowsInEmpty();
    hide Sound, Pubsub.Valid, Pubsub.ColumnsFollow, Pubsub.Repointed, Pubsub.Apply, Dns.ApplyChange, Record;
    if op.OnPubsub? { Pubsub.StepKeepsColumnsFollowing(before.live, s.db.pubsub, op.pubsub); }
  }

  /** In every reachable state, and in its baseline, the hidden column of a subscription is the tombstone
      exactly when the subscription shows it and was not patched since; else it is the topic's name. */
  lemma {:induction false} HiddenColumnsFollowTheRequests(ops: seq<Op>)
    requires AllRouted(ops)
    ensures BothFollow(MarkedRun(ops), Run(INITIAL, ops))
  {
    NothingFollowsInEmpty();
    if ops != [] {
      hide Routed, Sound, BothFollow, Step, MarkedStep;
      var front, last := ops[..|ops| - 1], ops[|ops| - 1];
      assert last in ops;
      HiddenColumnsFollowTheRequests(front);
      ReachableStatesAreSound(front);
      MarkedStepFollows(MarkedRun(front), Run(INITIAL, front), last);
    }
  }

  lemma SoundSubscriptionsAreValid(s: State)
    requires Sound(s)
    ensures Pubsub.Valid(s.db.pubsub)
  {
    hide Pubsub.Valid, Secrets.Valid, Compute.Valid, Dns.Valid;
  }

  /** After any run, the refused deletion of a missing topic leaves the whole state alone exactly when no
      orphan created on it was patched since its deletion (the tombstone's own name aside). */
  lemma RefusedDeletionChangesNothingIff(ops: seq<Op>, project: string, topic: string)
    requires AllRouted(ops) && GlobalKey(project, topic) !in Run(INITIAL, ops).db.pubsub.topics
    ensures var s := Run(INITIAL, ops);
            var out := Step(s, OnPubsub(Pubsub.DeleteTopic(project, topic)));
            && out.result == Err(NotFound)
            && (out.state == s <==>
                topic == Pubsub.TOMBSTONE ||
                forall k :: !Pubsub.LeadsBack(MarkedRun(ops).live, s.db.pubsub, k, project, topic))
  {
    hide Run, MarkedRun, Routed, Sound, Step, Pubsub.ColumnsFollow, Pubsub.LeadsBack;
    HiddenColumnsFollowTheRequests(ops);
    ReachableStatesAreSound(ops);
    RefusedIn(Run(INITIAL, ops), MarkedRun(ops).live, project, topic);
  }

  lemma RefusedIn(s: State, marked: Subscriptions, project: string, topic: string)
    requires Sound(s) && Pubsub.ColumnsFollow(marked, s.db.pubsub)
    requires GlobalKey(project, topic) !in s.db.pubsub.topics
    ensures var out := Step(s, OnPubsub(Pubsub.DeleteTopic(project, topic)));
            && out.result == Err(NotFound)
            && (out.state == s <==>
                topic == Pubsub.TOMBSTONE ||
                forall k :: !Pubsub.LeadsBack(marked, s.db.pubsub, k, project, topic))
  {
    hide Sound, Pubsub.ColumnsFollow, Pubsub.LeadsBack, Pubsub.Valid, Pubsub.OrphanAll;
    SoundSubscriptionsAreValid(s);
    if topic != Pubsub.TOMBSTONE { Pubsub.ColumnsLeadingBack(marked, s.db.pubsub, project, topic); }
    RejectedTopicDeletionChangesNothingIff(s, project, topic);
  }

  // ---------------------------------------------------------------- record sets

  /** A record set is lost or altered only by its own deletion, by a change that names it, by a reset or
      by a restore. */
  lemma RecordSetsLeaveOnlyWhenTold(s: State, op: Op, key: Dns.RrKey)
    requires key in s.db.dns.rrsets
    requires !op.Reset? && !op.Restore?
    requires op != OnDns(Dns.DeleteRecordSet(key.project, key.zone, key.name, key.rrtype))
    requires op.CreateDnsChange? ==> key !in Dns.Keys(op.project, op.zone, Dns.Entries(Dns.Items(op.body, FDeletions)))
    ensures var rrsets := Step(s, op).state.db.dns.rrsets; key in rrsets && rrsets[key] == s.db.dns.rrsets[key]
  {
    hide Compute.Apply, Record, Dns.Apply, Dns.ApplyChange, Dns.Items, Dns.Entries;
    match op
    case OnDns(o) => Dns.OnlyItsDeletionRemovesARecordSet(s.db.dns, o, key);
    case CreateDnsChange(project, zone, body, now, id) =>
      Dns.ChangeIsExact(s.db.dns, project, zone, body, now, id);
    case _ =>
  }

  /** A change that fails leaves tables and change cache as they were; one that succeeds records itself,
      and nothing else, in the cache. */
  lemma ChangesAreAtomic(s: State, project: string, zone: string, body: Document, now: string, id: string)
    requires id != ""
    ensures var out := Step(s, CreateDnsChange(project, zone, body, now, id));
            && (out.result.Err? ==> out.state == s)
            && (out.result.Ok? ==>
                && out.state == s.(db := s.db.(dns := out.state.db.dns), changes := out.state.changes)
                && out.state.changes == s.changes[ChangeKey(project, zone, id) := out.result.value]
                && GetString(out.result.value, FId) == id)
  {
    hide Dns.ApplyChange, ChangeKey, ApplyToTables;
    Dns.ChangeAnswers(s.db.dns, project, zone, body, now, id);
  }

  // --------------------------------------------------- the cache, keyed by tuple

  datatype ChangeId = ChangeId(project: string, zone: string, id: string)

  type TupleCache = map<ChangeId, Document>

  predicate Plain(t: ChangeId) {
    SlashFree(t.project) && SlashFree(t.zone) && SlashFree(t.id)
  }

  function KeyText(t: ChangeId): string {
    ChangeKey(t.project, t.zone, t.id)
  }

  /** The string-keyed cache holds what the tuple-keyed one holds, each record under its key text. */
  ghost predicate Represents(cache: Cache, tuples: TupleCache) {
    && (forall t :: t in tuples ==> Plain(t) && KeyText(t) in cache && cache[KeyText(t)] == tuples[t])
    && (forall k :: k in cache ==> exists t :: t in tuples && KeyText(t) == k)
  }

  lemma KeyTextIsInjective(t: ChangeId, u: ChangeId)
    requires Plain(t) && Plain(u) && KeyText(t) == KeyText(u)
    ensures t == u
  {
    SplitJoin([t.project, t.zone, t.id], '/');
    SplitJoin([u.project, u.zone, u.id], '/');
    hide Split, Join;
    var a, b := [t.project, t.zone, t.id], [u.project, u.zone, u.id];
    assert a[0] == b[0] && a[1] == b[1] && a[2] == b[2];
  }

  lemma RecordingRefines(cache: Cache, tuples: TupleCache, t: ChangeId, change: Document)
    requires Represents(cache, tuples) && Plain(t)
    ensures Represents(cache[KeyText(t) := change], tuples[t := change])
  {
    hide KeyText, Plain;
    forall u | u in tuples ensures KeyText(u) == KeyText(t) ==> u == t {
      if KeyText(u) == KeyText(t) { KeyTextIsInjective(u, t); }
    }
    var cache', tuples' := cache[KeyText(t) := change], tuples[t := change];
    assert t in tuples' && forall u :: u in tuples ==> u in tuples';
    assert forall k :: k in cache' ==> k == KeyText(t) || k in cache;
  }

  /** The cache as it would be were it keyed by (project, zone, id), with its own baseline. */
  datatype Tuples = Tuples(live: TupleCache, base: Option<TupleCache>)

  ghost function TupleRun(ops: seq<Op>): Tuples {
    if ops == [] then Tuples(map[], None)
    else
      var front, last := ops[..|ops| - 1], ops[|ops| - 1];
      var before := TupleRun(front);
      match last
      case CreateDnsChange(project, zone, body, now, id) =>
        var out := Step(Run(INITIAL, front), last);
        if out.result.Err? || GetString(out.result.value, FId) == "" then before
        else before.(live := before.live[ChangeId(project, zone, GetString(out.result.value, FId)) := out.result.value])
      case Reset => Tuples(map[], None)
      case Snapshot => before.(base := Some(before.live))
      case Restore => if before.base.None? then before else before.(live := before.base.value)
      case _ => before
  }

  /** String keys lose nothing: over every run of routed requests the cache is the tuple-keyed one. */
  lemma {:induction false} CacheIsKeyedByTuples(ops: seq<Op>)
    requires AllRouted(ops)
    ensures var s, t := Run(INITIAL, ops), TupleRun(ops);
            && Represents(s.changes, t.live)
            && (t.base.Some? <==> s.changesBaseline.Some?)
            && (t.base.Some? ==> Represents(s.changesBaseline.value, t.base.value))
  {
    hide ApplyToTables, Dns.ApplyChange, Represents, Sound, ChangeKey;
    if ops == [] {
      assert Represents(map[], map[]) by { EmptyRepresents(); }
    } else {
      var front, last := ops[..|ops| - 1], ops[|ops| - 1];
      assert last in ops;
      CacheIsKeyedByTuples(front);
      assert (Run(INITIAL, front).baseline.Some? <==> Run(INITIAL, front).changesBaseline.Some?) by {
        ReachableStatesAreSound(front);
        SoundBaselinesMatch(Run(INITIAL, front));
      }
      EmptyRepresents();
      if last.CreateDnsChange? {
        var s, t := Run(INITIAL, front), TupleRun(front);
        var out := Step(s, last);
        if out.result.Ok? {
          ChangeIdIsTheRequests(s, last);
          RecordingRefines(s.changes, t.live, ChangeId(last.project, last.zone, last.id), out.result.value);
        }
      }
    }
  }

  lemma EmptyRepresents()
    ensures Represents(map[], map[])
  {
  }

  lemma SoundBaselinesMatch(s: State)
    requires Sound(s)
    ensures s.baseline.Some? <==> s.changesBaseline.Some?
  {
    hide Integrity;
  }

  lemma ChangeIdIsTheRequests(s: State, op: Op)
    requires op.CreateDnsChange? && Step(s, op).result.Ok?
    ensures GetString(Step(s, op).result.value, FId) == op.id
  {
    hide Dns.ApplyChange, ChangeKey, ApplyToTables;
    Dns.ChangeAnswers(s.db.dns, op.project, op.zone, op.body, op.now, op.id);
  }

  function Lookup(cache: Cache, project: string, zone: string, id: string): Option<Document> {
    var k := ChangeKey(project, zone, id);
    if k in cache then Some(cache[k]) else None
  }

  /** A lookup finds a change exactly under the triple it was recorded under. */
  lemma LookupIsByTriple(ops: seq<Op>, project: string, zone: string, id: string)
    requires AllRouted(ops) && SlashFree(project) && SlashFree(zone) && SlashFree(id)
    ensures var t, live := ChangeId(project, zone, id), TupleRun(ops).live;
            Lookup(Run(INITIAL, ops).changes, project, zone, id) == if t in live then Some(live[t]) else None
  {
    hide Run, TupleRun, ChangeKey, Routed;
    CacheIsKeyedByTuples(ops);
    var t, live, cache := ChangeId(project, zone, id), TupleRun(ops).live, Run(INITIAL, ops).changes;
    if KeyText(t) in cache {
      var u :| u in live && KeyText(u) == KeyText(t);
      KeyTextIsInjective(u, t);
    }
  }

  predicate KeepsChange(op: Op, t: ChangeId) {
    !op.Reset? && !op.Restore? && (op.CreateDnsChange? ==> ChangeId(op.project, op.zone, op.id) != t)
  }

  lemma StepKeepsChange(s: State, op: Op, t: ChangeId)
    requires Plain(t) && Routed(op) && KeepsChange(op, t) && KeyText(t) in s.changes
    ensures var s' := Step(s, op).state; KeyText(t) in s'.changes && s'.changes[KeyText(t)] == s.changes[KeyText(t)]
  {
    hide ApplyToTables, Dns.ApplyChange, ChangeKey;
    if op.CreateDnsChange? && Step(s, op).result.Ok? {
      ChangeIdIsTheRequests(s, op);
      var u := ChangeId(op.project, op.zone, op.id);
      if KeyText(u) == KeyText(t) { KeyTextIsInjective(u, t); }
    }
  }

  /** What a successful change was answered with is what a poll for it finds, in its own zone and under its
      own id, until a rewind or a change of the same id in the zone. */
  lemma {:induction false} RecordedChangeIsServed(past: seq<Op>, change: Op, ops: seq<Op>)
    requires change.CreateDnsChange? && change.id != "" && Routed(change) && AllRouted(ops)
    requires Step(Run(INITIAL, past), change).result.Ok?
    requires forall op :: op in ops ==> KeepsChange(op, ChangeId(change.project, change.zone, change.id))
    ensures Lookup(Run(INITIAL, past + [change] + ops).changes, change.project, change.zone, change.id)
         == Some(Step(Run(INITIAL, past), change).result.value)
    decreases |ops|
  {
    hide Step, Run, KeepsChange, ChangeKey;
    var t := ChangeId(change.project, change.zone, change.id);
    if ops == [] {
      assert past + [change] + ops == past + [change];
      RunOneMore(INITIAL, past, change);
      ChangeIsRecorded(Run(INITIAL, past), change);
    } else {
      var front, last := ops[..|ops| - 1], ops[|ops| - 1];
      assert last in ops;
      RecordedChangeIsServed(past, change, front);
      assert past + [change] + ops == (past + [change] + front) + [last];
      RunOneMore(INITIAL, past + [change] + front, last);
      StepKeepsChange(Run(INITIAL, past + [change] + front), last, t);
    }
  }

  lemma ChangeIsRecorded(s: State, change: Op)
    requires change.CreateDnsChange? && change.id != "" && Step(s, change).result.Ok?
    ensures Lookup(Step(s, change).state.changes, change.project, change.zone, change.id)
            == Some(Step(s, change).result.value)
  {
    hide Dns.ApplyChange, ChangeKey, ApplyToTables;
    ChangeIdIsTheRequests(s, change);
  }
}
