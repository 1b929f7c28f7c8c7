/** The whole service as a state machine: every table, the snapshot baseline, the change cache with a
    baseline of its own,
      and whether the connection cache has a baseline (repository/repository.go, handlers/admin.go,
      handlers/handlers.go). */
module Service {
  import opened Wrappers
  import opened Json
  import opened Tables
  import opened Text
  import opened References
  import Compute
  import Rows
  import Container
  import Sql
  import ServiceAccounts
  import IamPolicy
  import Dns
  import Secrets
  import Pubsub

  datatype Database = Database(
    compute: Compute.ComputeDb,
    container: Container.ContainerDb,
    sql: Sql.SqlDb,
    accounts: ServiceAccounts.AccountDb,
    bindings: IamPolicy.Bindings,
    dns: Dns.DnsDb,
    secrets: Secrets.SecretDb,
    pubsub: Pubsub.PubsubDb)

  const EMPTY := Database(
    Compute.EMPTY, Container.NO_CLUSTERS, Sql.NO_SQL, ServiceAccounts.NO_ACCOUNTS, map[],
    Dns.NO_ZONES, Secrets.NO_SECRETS, Pubsub.NO_TOPICS)

  /** Change records under "project/zone/id". */
  type Cache = map<string, Document>

  datatype State = State(
    db: Database,
    baseline: Option<Database>,
    changes: Cache,
    changesBaseline: Option<Cache>,
    connectionsBaseline: bool)

  const INITIAL := State(EMPTY, None, map[], None, false)

  datatype Op =
    | OnCompute(compute: Compute.ComputeOp)
    | OnContainer(container: Container.ContainerOp)
    | OnSql(sql: Sql.SqlOp)
    | OnAccounts(accounts: ServiceAccounts.AccountOp)
    | OnDns(dns: Dns.DnsOp)
    | OnSecrets(secrets: Secrets.SecretOp)
    | OnPubsub(pubsub: Pubsub.PubsubOp)
    | SetIamPolicy(project: string, body: Document)
    | CreateDnsChange(project: string, zone: string, body: Document, now: string, id: string)
    | Reset
    | Snapshot
    | Restore

  datatype Reply = Reply(state: State, result: Result<Document>)

  function ChangeKey(project: string, zone: string, id: string): string {
    Join([project, zone, id], '/')
  }

  function Record(changes: Cache, project: string, zone: string, change: Document): Cache {
    if GetString(change, FId) == "" then changes
    else changes[ChangeKey(project, zone, GetString(change, FId)) := change]
  }

  /** The operations that touch tables only. */
  ghost function ApplyToTables(db: Database, op: Op): Outcome<Database>
    requires op.OnCompute? || op.OnContainer? || op.OnSql? || op.OnAccounts? || op.OnDns? || op.OnSecrets?
             || op.OnPubsub? || op.SetIamPolicy?
  {
    match op
    case OnCompute(o) => var out := Compute.Apply(db.compute, o); Outcome(db.(compute := out.db), out.result)
    case OnContainer(o) =>
      var out := Container.Apply(db.compute, db.container, o); Outcome(db.(container := out.db), out.result)
    case OnSql(o) => var out := Sql.Apply(db.compute, db.sql, o); Outcome(db.(sql := out.db), out.result)
    case OnAccounts(o) => var out := ServiceAccounts.Apply(db.accounts, o); Outcome(db.(accounts := out.db), out.result)
    case OnDns(o) => var out := Dns.Apply(db.dns, o); Outcome(db.(dns := out.db), out.result)
    case OnSecrets(o) => var out := Secrets.Apply(db.secrets, o); Outcome(db.(secrets := out.db), out.result)
    case OnPubsub(o) => var out := Pubsub.Apply(db.pubsub, o); Outcome(db.(pubsub := out.db), out.result)
    case SetIamPolicy(project, body) =>
      var out := IamPolicy.SetPolicy(db.bindings, project, body); Outcome(db.(bindings := out.db), out.result)
  }

  ghost function Step(s: State, op: Op): Reply {
    match op
    case CreateDnsChange(project, zone, body, now, id) =>
      var out := Dns.ApplyChange(s.db.dns, project, zone, body, now, id);
      (match out.result
       case Err(e) => Reply(s, Err(e))
       case Ok(change) =>
         Reply(s.(db := s.db.(dns := out.db), changes := Record(s.changes, project, zone, change)), Ok(change)))
    case Reset => Reply(INITIAL, Ok(map[]))
    case Snapshot =>
      Reply(s.(baseline := Some(s.db), changesBaseline := Some(s.changes), connectionsBaseline := true), Ok(map[]))
    case Restore =>
      if s.baseline.None? then Reply(s, Err(NotFound))
      else
        var changes := if s.changesBaseline.Some? then s.changesBaseline.value else s.changes;
        Reply(s.(db := s.baseline.value, changes := changes), Ok(map[]))
    case _ =>
      var out := ApplyToTables(s.db, op);
      Reply(s.(db := out.db), out.result)
  }

  ghost function Run(s: State, ops: seq<Op>): State {
    if ops == [] then s else Step(Run(s, ops[..|ops| - 1]), ops[|ops| - 1]).state
  }

  lemma RunOneMore(s: State, ops: seq<Op>, op: Op)
    ensures Run(s, ops + [op]) == Step(Run(s, ops), op).state
  {
    assert (ops + [op])[..|ops|] == ops;
  }

  // ------------------------------------------------------ integrity of tables

  /** Every child row has its parent, every redundant record agrees with its key (see the predicates
      of the single services). */
  ghost predicate Integrity(db: Database) {
    && Compute.Valid(db.compute)
    && Container.Valid(db.container)
    && Sql.Valid(db.sql)
    && ServiceAccounts.Valid(db.accounts)
    && IamPolicy.Valid(db.bindings)
    && Dns.Valid(db.dns)
    && Secrets.Valid(db.secrets)
    && Pubsub.Valid(db.pubsub)
  }

  /** The path parameters a routed request can carry. */
  predicate Routed(op: Op) {
    match op
    case OnSecrets(o) => Secrets.Routed(o)
    case OnPubsub(o) => Pubsub.Routed(o)
    case CreateDnsChange(project, zone, _, _, id) => SlashFree(project) && SlashFree(zone) && SlashFree(id)
    case _ => true
  }

  ghost predicate Sound(s: State) {
    && Integrity(s.db)
    && (s.baseline.Some? <==> s.changesBaseline.Some?)
    && (s.baseline.Some? <==> s.connectionsBaseline)
    && (s.baseline.Some? ==> Integrity(s.baseline.value))
  }

  lemma TablesKeepIntegrity(db: Database, op: Op)
    requires op.OnCompute? || op.OnContainer? || op.OnSql? || op.OnAccounts? || op.OnDns? || op.OnSecrets?
             || op.OnPubsub? || op.SetIamPolicy?
    requires Integrity(db) && Routed(op)
    ensures Integrity(ApplyToTables(db, op).db)
  {
    hide Compute.Valid, Container.Valid, Sql.Valid, ServiceAccounts.Valid, IamPolicy.Valid, Dns.Valid, Secrets.Valid,
         Pubsub.Valid;
    hide Compute.Apply, Container.Apply, Sql.Apply, ServiceAccounts.Apply, Dns.Apply, Secrets.Apply, Pubsub.Apply,
         IamPolicy.SetPolicy;
    match op
    case OnCompute(o) => Compute.StepKeepsValid(db.compute, o);
    case OnContainer(o) => Container.StepKeepsValid(db.compute, db.container, o);
    case OnSql(o) => Sql.StepKeepsValid(db.compute, db.sql, o);
    case OnAccounts(o) => ServiceAccounts.StepKeepsValid(db.accounts, o);
    case OnDns(o) => Dns.StepKeepsValid(db.dns, o);
    case OnSecrets(o) => Secrets.StepKeepsValid(db.secrets, o);
    case OnPubsub(o) => Pubsub.StepKeepsValid(db.pubsub, o);
    case SetIamPolicy(project, body) => IamPolicy.SetPolicyKeepsValid(db.bindings, project, body);
  }

  lemma EmptyIsSound()
    ensures Sound(INITIAL)
  {
  }

  lemma StepKeepsSound(s: State, op: Op)
    requires Sound(s) && Routed(op)
    ensures Sound(Step(s, op).state)
  {
    hide Compute.Valid, Container.Valid, Sql.Valid, ServiceAccounts.Valid, IamPolicy.Valid, Dns.Valid, Secrets.Valid,
         Pubsub.Valid;
    hide ApplyToTables, Dns.ApplyChange, Record;
    match op
    case CreateDnsChange(project, zone, body, now, id) => Dns.ChangeKeepsValid(s.db.dns, project, zone, body, now, id);
    case Reset => EmptyIsSound();
    case Snapshot =>
    case Restore =>
    case _ => TablesKeepIntegrity(s.db, op);
  }

  ghost predicate AllRouted(ops: seq<Op>) {
    forall op :: op in ops ==> Routed(op)
  }

  /** In every reachable state every parent exists and every redundant record agrees, in the tables and
      in the baseline, through any mix of requests, resets, snapshots and restores. */
  lemma {:induction false} ReachableStatesAreSound(ops: seq<Op>)
    requires AllRouted(ops)
    ensures Sound(Run(INITIAL, ops))
  {
    hide Step, Routed, Sound;
    if ops == [] {
      EmptyIsSound();
    } else {
      assert ops[|ops| - 1] in ops;
      ReachableStatesAreSound(ops[..|ops| - 1]);
      StepKeepsSound(Run(INITIAL, ops[..|ops| - 1]), ops[|ops| - 1]);
    }
  }

  ghost predicate Reachable(s: State) {
    exists ops :: AllRouted(ops) && Run(INITIAL, ops) == s
  }

  lemma ReachableIsSound(s: State)
    requires Reachable(s)
    ensures Sound(s)
  {
    hide Run, Sound, Routed;
    var ops :| AllRouted(ops) && Run(INITIAL, ops) == s;
    ReachableStatesAreSound(ops);
  }

  lemma InitialIsReachable()
    ensures Reachable(INITIAL)
  {
    assert Run(INITIAL, []) == INITIAL;
  }

  lemma StepStaysReachable(s: State, op: Op)
    requires Reachable(s)
    ensures Routed(op) ==> Reachable(Step(s, op).state)
  {
    hide Step, Routed;
    var ops :| AllRouted(ops) && Run(INITIAL, ops) == s;
    RunOneMore(INITIAL, ops, op);
    if Routed(op) {
      assert AllRouted(ops + [op]);
    }
  }

  // -------------------------------------------------------- rejected requests

  /** The two requests that can be rejected half way: a policy replacement, and the deletion of a topic,
      which orphans subscriptions before it looks for the topic. */
  predicate CanStopHalfWay(op: Op) {
    op.SetIamPolicy? || (op.OnPubsub? && op.pubsub.DeleteTopic?)
  }

  /** Every other rejected request leaves the whole state as it was. */
  lemma RejectedRequestsChangeNothing(s: State, op: Op)
    requires Step(s, op).result.Err? && !CanStopHalfWay(op)
    ensures Step(s, op).state == s
  {
    hide Compute.Apply, Container.Apply, Sql.Apply, ServiceAccounts.Apply, Dns.Apply, Dns.ApplyChange, Secrets.Apply,
         Pubsub.Apply, Record;
    match op
    case OnCompute(o) => Compute.RejectedStepChangesNothing(s.db.compute, o);
    case OnContainer(o) => Container.RejectedStepChangesNothing(s.db.compute, s.db.container, o);
    case OnSql(o) => Sql.RejectedStepChangesNothing(s.db.compute, s.db.sql, o);
    case OnAccounts(o) => ServiceAccounts.RejectedStepChangesNothing(s.db.accounts, o);
    case OnDns(o) => Dns.RejectedStepChangesNothing(s.db.dns, o);
    case OnSecrets(o) => Secrets.RejectedStepChangesNothing(s.db.secrets, o);
    case OnPubsub(o) => Pubsub.RejectedStepChangesNothing(s.db.pubsub, o);
    case _ =>
  }

  /** The deletion of a topic that is not there does change tables exactly when a subscription's hidden
      column leads to its name. */
  lemma RejectedTopicDeletionChangesNothingIff(s: State, project: string, topic: string)
    requires Sound(s) && Step(s, OnPubsub(Pubsub.DeleteTopic(project, topic))).result.Err?
    ensures Step(s, OnPubsub(Pubsub.DeleteTopic(project, topic))).state == s
            <==> topic == Pubsub.TOMBSTONE || Pubsub.NoColumnLeadsTo(s.db.pubsub, project, topic)
  {
    hide Compute.Valid, Container.Valid, Sql.Valid, ServiceAccounts.Valid, IamPolicy.Valid, Dns.Valid, Secrets.Valid,
         Pubsub.Valid;
    Pubsub.FailedTopicDeletionChangesNothingIff(s.db.pubsub, project, topic);
  }

  // ------------------------------------------------- repeating and taking back

  predicate IsUpdate(op: Op) {
    match op
    case OnCompute(o) => Compute.IsUpdate(o)
    case OnContainer(o) => o.UpdateCluster?
    case OnSql(o) => o.UpdateInstance? || o.UpdateUser?
    case OnAccounts(o) => o.UpdateAccount?
    case OnDns(o) => o.UpdateZone?
    case OnSecrets(o) => o.UpdateSecret?
    case OnPubsub(o) => o.UpdateSubscription?
    case _ => false
  }

  /** In every service: a successful update repeated with the same patch succeeds with the same answer and
      changes nothing. */
  lemma UpdatesAreIdempotent(s: State, op: Op)
    requires Sound(s) && IsUpdate(op) && Step(s, op).result.Ok?
    ensures var once := Step(s, op); Step(once.state, op) == once
  {
    hide Compute.Valid, Container.Valid, Sql.Valid, ServiceAccounts.Valid, IamPolicy.Valid, Dns.Valid, Secrets.Valid,
         Pubsub.Valid;
    hide Compute.Apply, Container.Apply, Sql.Apply, ServiceAccounts.Apply, Dns.Apply;
    hide Secrets.PatchSecret, Pubsub.PatchSubscription, Dns.ApplyChange, Record, IamPolicy.SetPolicy;
    match op
    case OnCompute(o) => Compute.UpdatesAreIdempotent(s.db.compute, o);
    case OnContainer(o) => Container.UpdatesAreIdempotent(s.db.compute, s.db.container, o);
    case OnSql(o) => Sql.UpdatesAreIdempotent(s.db.compute, s.db.sql, o);
    case OnAccounts(o) => ServiceAccounts.UpdatesAreIdempotent(s.db.accounts, o);
    case OnDns(o) => Dns.UpdatesAreIdempotent(s.db.dns, o);
    case OnSecrets(o) => Secrets.UpdatesAreIdempotent(s.db.secrets, o.project, o.name, o.patch);
    case OnPubsub(o) => Pubsub.UpdatesAreIdempotent(s.db.pubsub, o.project, o.subscription, o.patch);
  }

  /** The deletion of what a request created, for every kind of row but topics and secret versions. */
  function TakenBackBy(op: Op): Option<Op> {
    match op
    case OnCompute(o) => if Rows.IsCreation(o) then Some(OnCompute(Rows.DeletionOf(Rows.NamedRow(o)))) else None
    case OnContainer(o) => if Container.DeletionOf(o) != o then Some(OnContainer(Container.DeletionOf(o))) else None
    case OnSql(o) => if Sql.DeletionOf(o) != o then Some(OnSql(Sql.DeletionOf(o))) else None
    case OnAccounts(o) =>
      if ServiceAccounts.DeletionOf(o) != o then Some(OnAccounts(ServiceAccounts.DeletionOf(o))) else None
    case OnDns(o) => if Dns.DeletionOf(o) != o then Some(OnDns(Dns.DeletionOf(o))) else None
    case OnSecrets(o) =>
      if o.CreateSecret? then Some(OnSecrets(Secrets.DeleteSecret(o.project, Secrets.NewName(o.data)))) else None
    case OnPubsub(o) => if o.CreateSubscription? then Some(OnPubsub(Pubsub.TakenBackBy(o))) else None
    case _ => None
  }

  /** Deleting what was just created succeeds and brings the whole state back: nothing can refer to a new
      row yet, so no deletion is blocked, and none that cascades takes anything along. */
  lemma DeletionUndoesCreation(s: State, op: Op)
    requires Sound(s) && TakenBackBy(op).Some? && Step(s, op).result.Ok?
    ensures Step(Step(s, op).state, TakenBackBy(op).value) == Reply(s, Ok(map[]))
  {
    hide Compute.Valid, Container.Valid, Sql.Valid, ServiceAccounts.Valid, IamPolicy.Valid, Dns.Valid, Secrets.Valid,
         Pubsub.Valid;
    hide Compute.Apply, Container.Apply, Sql.Apply, ServiceAccounts.Apply, Dns.Apply, Pubsub.Apply, Secrets.Apply;
    hide Dns.ApplyChange, Record, IamPolicy.SetPolicy, Secrets.NewName, Pubsub.TakenBackBy;
    hide Rows.DeletionOf, Rows.NamedRow, Rows.IsCreation, Container.DeletionOf, Sql.DeletionOf,
         ServiceAccounts.DeletionOf, Dns.DeletionOf;
    match op
    case OnCompute(o) => Rows.DeletionUndoesCreation(s.db.compute, o);
    case OnContainer(o) => Container.DeletionUndoesCreation(s.db.compute, s.db.container, o);
    case OnSql(o) => Sql.DeletionUndoesCreation(s.db.compute, s.db.sql, o);
    case OnAccounts(o) => ServiceAccounts.DeletionUndoesCreation(s.db.accounts, o);
    case OnDns(o) => Dns.DeletionUndoesCreation(s.db.dns, o);
    case OnSecrets(o) => Secrets.DeletionUndoesCreation(s.db.secrets, o);
    case OnPubsub(o) => Pubsub.SubscriptionDeletionUndoesCreation(s.db.pubsub, o);
  }

  // ------------------------------------------------------ snapshot and restore

  /** `at` is the position of the latest snapshot, with no reset after it. */
  ghost predicate LatestSnapshot(ops: seq<Op>, at: nat) {
    at < |ops| && ops[at].Snapshot? && forall j :: at < j < |ops| ==> !ops[j].Snapshot? && !ops[j].Reset?
  }

  /** No snapshot is left: each one is followed by a reset. */
  ghost predicate NoSnapshotLeft(ops: seq<Op>) {
    forall i: nat :: i < |ops| && ops[i].Snapshot? ==> exists j :: i < j < |ops| && ops[j].Reset?
  }

  lemma {:induction false} BaselinesAreTheLatestSnapshot(ops: seq<Op>, at: nat)
    requires LatestSnapshot(ops, at)
    ensures var past := Run(INITIAL, ops[..at]);
            && Run(INITIAL, ops).baseline == Some(past.db)
            && Run(INITIAL, ops).changesBaseline == Some(past.changes)
            && Run(INITIAL, ops).connectionsBaseline
  {
    hide ApplyToTables, Dns.ApplyChange, Record;
    var n := |ops| - 1;
    if at < n {
      assert ops[..n][at] == ops[at];
      assert forall j :: at < j < n ==> ops[..n][j] == ops[j];
      BaselinesAreTheLatestSnapshot(ops[..n], at);
      assert ops[..n][..at] == ops[..at];
    }
  }

  lemma {:induction false} BaselinesAreEmptyWithoutSnapshot(ops: seq<Op>)
    requires NoSnapshotLeft(ops)
    ensures Run(INITIAL, ops).baseline == None && Run(INITIAL, ops).changesBaseline == None
    ensures !Run(INITIAL, ops).connectionsBaseline
  {
    hide ApplyToTables, Dns.ApplyChange, Record;
    var n := |ops| - 1;
    if ops != [] && !ops[n].Reset? {
      var front := ops[..n];
      forall i: nat | i < |front| && front[i].Snapshot?
        ensures exists j :: i < j < |front| && front[j].Reset?
      {
        assert ops[i].Snapshot?;
        var j :| i < j < |ops| && ops[j].Reset?;
        assert j < n && front[j] == ops[j];
      }
      assert !ops[n].Snapshot?;
      BaselinesAreEmptyWithoutSnapshot(front);
    }
  }

  /** Restore brings back the tables and the change cache of the latest snapshot since the latest reset. */
  lemma RestoreReturnsToTheSnapshot(ops: seq<Op>, at: nat)
    requires LatestSnapshot(ops, at)
    ensures var past, out := Run(INITIAL, ops[..at]), Step(Run(INITIAL, ops), Restore);
            out.result.Ok? && out.state.db == past.db && out.state.changes == past.changes
  {
    hide ApplyToTables, Dns.ApplyChange, Record, Run;
    BaselinesAreTheLatestSnapshot(ops, at);
  }

  /** Any number of times, whatever happens in between short of another snapshot or a reset. */
  lemma RestoreWorksAgain(ops: seq<Op>, at: nat, more: seq<Op>)
    requires LatestSnapshot(ops, at) && forall op :: op in more ==> !op.Snapshot? && !op.Reset?
    ensures var past, out := Run(INITIAL, ops[..at]), Step(Run(INITIAL, ops + [Restore] + more), Restore);
            out.result.Ok? && out.state.db == past.db && out.state.changes == past.changes
  {
    var all := ops + [Restore] + more;
    assert all[..at] == ops[..at];
    assert forall j :: |ops| < j < |all| ==> all[j] in more;
    hide Run, Step;
    RestoreReturnsToTheSnapshot(all, at);
  }

  /** With no snapshot left, restore fails and changes nothing. */
  lemma RestoreNeedsASnapshot(ops: seq<Op>)
    requires NoSnapshotLeft(ops)
    ensures Step(Run(INITIAL, ops), Restore) == Reply(Run(INITIAL, ops), Err(NotFound))
  {
    hide ApplyToTables, Dns.ApplyChange, Record, Run;
    BaselinesAreEmptyWithoutSnapshot(ops);
  }

  /** One of the two cases always applies. */
  lemma {:induction false} SnapshotLeftOrNot(ops: seq<Op>)
    ensures NoSnapshotLeft(ops) || exists at: nat :: LatestSnapshot(ops, at)
  {
    if ops != [] {
      var n := |ops| - 1;
      var front := ops[..n];
      SnapshotLeftOrNot(front);
      if ops[n].Snapshot? {
        assert LatestSnapshot(ops, n);
      } else if ops[n].Reset? {
        assert forall i: nat :: i < |ops| && ops[i].Snapshot? ==> i < n;
      } else if at: nat :| LatestSnapshot(front, at) {
        assert forall j :: 0 <= j < n ==> ops[j] == front[j];
        assert LatestSnapshot(ops, at);
      } else {
        forall i: nat | i < |ops| && ops[i].Snapshot? ensures exists j :: i < j < |ops| && ops[j].Reset? {
          assert front[i].Snapshot?;
          var j :| i < j < |front| && front[j].Reset?;
          assert ops[j].Reset?;
        }
      }
    }
  }
}
