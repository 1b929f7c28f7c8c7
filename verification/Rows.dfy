/** The compute tables row by row: what one operation writes, what it leaves alone, and what a deletion
    undoes (repository/repository.go). */
module Rows {
  import opened Wrappers
  import opened Json
  import opened Tables
  import opened References
  import opened Merge
  import opened Compute

  /** A place in one of the tables. */
  datatype Row =
    | NetworkRow(network: GlobalKey)
    | SubnetworkRow(subnetwork: ScopedKey)
    | FirewallRow(firewall: GlobalKey)
    | RouterRow(router: ScopedKey)
    | NatRow(routerNat: NestedKey)
    | InstanceRow(instance: ScopedKey)

  function Found<K, V>(table: map<K, V>, key: K): Option<V> {
    if key in table then Some(table[key]) else None
  }

  function DataOf(found: Option<Bound>): Option<Document> {
    if found.Some? then Some(found.value.data) else None
  }

  /** The document a client sees at a place. */
  function Stored(db: ComputeDb, row: Row): Option<Document> {
    match row
    case NetworkRow(key) => Found(db.networks, key)
    case SubnetworkRow(key) => DataOf(Found(db.subnetworks, key))
    case FirewallRow(key) => DataOf(Found(db.firewalls, key))
    case RouterRow(key) => DataOf(Found(db.routers, key))
    case NatRow(key) => Found(db.nats, key)
    case InstanceRow(key) => Found(db.instances, key)
  }

  /** The key columns of a place, as a document shows them. */
  function KeyColumns(row: Row): Document {
    match row
    case NetworkRow(key) => GlobalStamps(key.project, key.name)
    case SubnetworkRow(key) => ScopedStamps(key.project, FRegion, key.scope, key.name)
    case FirewallRow(key) => GlobalStamps(key.project, key.name)
    case RouterRow(key) => ScopedStamps(key.project, FRegion, key.scope, key.name)
    case NatRow(key) => NatStamps(key.project, key.scope, key.parent, key.name)
    case InstanceRow(key) => ScopedStamps(key.project, FZone, key.scope, key.name)
  }

  /** The place an operation is about: named by the path, or by the document to be created. */
  function NamedRow(op: ComputeOp): Row {
    match op
    case CreateNetwork(p, data, _) => NetworkRow(GlobalKey(p, GetString(data, FName)))
    case UpdateNetwork(p, name, _) => NetworkRow(GlobalKey(p, name))
    case DeleteNetwork(p, name) => NetworkRow(GlobalKey(p, name))
    case CreateSubnetwork(p, r, data, _) => SubnetworkRow(ScopedKey(p, r, GetString(data, FName)))
    case UpdateSubnetwork(p, r, name, _) => SubnetworkRow(ScopedKey(p, r, name))
    case DeleteSubnetwork(p, r, name) => SubnetworkRow(ScopedKey(p, r, name))
    case CreateFirewall(p, data, _) => FirewallRow(GlobalKey(p, GetString(data, FName)))
    case UpdateFirewall(p, name, _) => FirewallRow(GlobalKey(p, name))
    case DeleteFirewall(p, name) => FirewallRow(GlobalKey(p, name))
    case CreateRouter(p, r, data, _) => RouterRow(ScopedKey(p, r, GetString(data, FName)))
    case UpdateRouter(p, r, name, _) => RouterRow(ScopedKey(p, r, name))
    case DeleteRouter(p, r, name) => RouterRow(ScopedKey(p, r, name))
    case CreateRouterNAT(p, r, router, data, _) => NatRow(NestedKey(p, r, router, GetString(data, FName)))
    case UpdateRouterNAT(p, r, router, name, _) => NatRow(NestedKey(p, r, router, name))
    case DeleteRouterNAT(p, r, router, name) => NatRow(NestedKey(p, r, router, name))
    case CreateInstance(p, z, data, _) => InstanceRow(ScopedKey(p, z, GetString(data, FName)))
    case DeleteInstance(p, z, name) => InstanceRow(ScopedKey(p, z, name))
  }

  /** The operation that deletes a place. */
  function DeletionOf(row: Row): ComputeOp {
    match row
    case NetworkRow(key) => DeleteNetwork(key.project, key.name)
    case SubnetworkRow(key) => DeleteSubnetwork(key.project, key.scope, key.name)
    case FirewallRow(key) => DeleteFirewall(key.project, key.name)
    case RouterRow(key) => DeleteRouter(key.project, key.scope, key.name)
    case NatRow(key) => DeleteRouterNAT(key.project, key.scope, key.parent, key.name)
    case InstanceRow(key) => DeleteInstance(key.project, key.scope, key.name)
  }

  predicate IsDeletion(op: ComputeOp) {
    op == DeletionOf(NamedRow(op))
  }

  predicate IsCreation(op: ComputeOp) {
    !IsDeletion(op) && !IsUpdate(op)
  }

  /** A router's NATs go with it. */
  predicate Cascades(op: ComputeOp, row: Row) {
    op.DeleteRouter? && row.NatRow? && RouterRow(ParentOf(row.routerNat)) == NamedRow(op)
  }

  // ------------------------------------------------------- one step, every row

  lemma DeletionsTouchOneRow(db: ComputeDb, op: ComputeOp, row: Row)
    requires IsDeletion(op) && row != NamedRow(op) && !Cascades(op, row)
    ensures Stored(Apply(db, op).db, row) == Stored(db, row)
  {
    hide NetworkInUse;
  }

  lemma CreationsTouchOneRow(db: ComputeDb, op: ComputeOp, row: Row)
    requires IsCreation(op) && row != NamedRow(op)
    ensures Stored(Apply(db, op).db, row) == Stored(db, row)
  {
    hide NewData, NewBound, NicsValid, GlobalStamps, ScopedStamps, NatStamps, InsertError;
  }

  lemma UpdatesTouchOneRow(db: ComputeDb, op: ComputeOp, row: Row)
    requires IsUpdate(op) && row != NamedRow(op)
    ensures Stored(Apply(db, op).db, row) == Stored(db, row)
  {
    hide PatchedBound, Merged, GlobalStamps, ScopedStamps, NatStamps;
  }

  /** An operation writes the row it names and no other, cascading deletions excepted. */
  lemma OnlyTheNamedRowChanges(db: ComputeDb, op: ComputeOp, row: Row)
    requires row != NamedRow(op) && !Cascades(op, row)
    ensures Stored(Apply(db, op).db, row) == Stored(db, row)
  {
    hide Apply, Stored, Cascades;
    if IsDeletion(op) {
      DeletionsTouchOneRow(db, op, row);
    } else if IsUpdate(op) {
      UpdatesTouchOneRow(db, op, row);
    } else {
      CreationsTouchOneRow(db, op, row);
    }
  }

  /** After a success the named row holds what the caller was told, or is gone when it was deleted;
      creation demands a free place, update and deletion an occupied one. */
  lemma AnswerIsTheStoredRow(db: ComputeDb, op: ComputeOp)
    requires Apply(db, op).result.Ok?
    ensures var out, row := Apply(db, op), NamedRow(op);
            && Stored(out.db, row) == (if IsDeletion(op) then None else Some(out.result.value))
            && (Stored(db, row).Some? <==> IsDeletion(op) || IsUpdate(op))
  {
    hide NewData, NewBound, PatchedBound, Merged, NicsValid, NetworkInUse, GlobalStamps, ScopedStamps, NatStamps;
  }

  // --------------------------------------------------- rows repeat their keys

  predicate Shows(data: Document, columns: Document) {
    forall f :: f in columns ==> f in data && data[f] == columns[f]
  }

  ghost predicate RowsShowTheirKeys(db: ComputeDb) {
    forall row :: Stored(db, row).Some? ==> Shows(Stored(db, row).value, KeyColumns(row))
  }

  predicate KeyColumnsOnly(columns: Document) {
    columns.Keys !! {FId, FCreationTimestamp, FNetwork, FNetworkName}
  }

  lemma ColumnsOfRows(row: Row)
    ensures KeyColumnsOnly(KeyColumns(row))
  {
  }

  lemma NewDataShows(data: Document, columns: Document, env: Env)
    requires KeyColumnsOnly(columns)
    ensures Shows(NewData(data, columns, env), columns)
  {
  }

  lemma NewBoundShows(networks: map<GlobalKey, Document>, project: string, data: Document, columns: Document, env: Env)
    requires KeyColumnsOnly(columns)
    ensures var bound := NewBound(networks, project, data, columns, env);
            bound.Ok? ==> Shows(bound.value.data, columns)
  {
    hide BindingOf;
  }

  lemma PatchedBoundShows(networks: map<GlobalKey, Document>, project: string, current: Document, patch: Document,
                          columns: Document)
    requires KeyColumnsOnly(columns)
    ensures var bound := PatchedBound(networks, project, current, patch, columns);
            bound.Ok? ==> Shows(bound.value.data, columns)
  {
    hide BindingOf, Merged;
  }

  lemma NewAnswerShowsItsKey(db: ComputeDb, op: ComputeOp)
    requires IsCreation(op) && Apply(db, op).result.Ok?
    ensures Shows(Apply(db, op).result.value, KeyColumns(NamedRow(op)))
  {
    var columns := KeyColumns(NamedRow(op));
    ColumnsOfRows(NamedRow(op));
    hide NewData, NewBound, NicsValid, GlobalStamps, ScopedStamps, NatStamps, KeyColumnsOnly, Shows;
    match op
    case CreateNetwork(_, data, env) => NewDataShows(data, columns, env);
    case CreateRouterNAT(_, _, _, data, env) => NewDataShows(data, columns, env);
    case CreateInstance(_, _, data, env) => NewDataShows(data, columns, env);
    case CreateSubnetwork(p, _, data, env) => NewBoundShows(db.networks, p, data, columns, env);
    case CreateFirewall(p, data, env) => NewBoundShows(db.networks, p, data, columns, env);
    case CreateRouter(p, _, data, env) => NewBoundShows(db.networks, p, data, columns, env);
  }

  lemma PatchedAnswerShowsItsKey(db: ComputeDb, op: ComputeOp)
    requires IsUpdate(op) && Apply(db, op).result.Ok?
    ensures Shows(Apply(db, op).result.value, KeyColumns(NamedRow(op)))
  {
    var row := NamedRow(op);
    var columns := KeyColumns(row);
    ColumnsOfRows(row);
    hide PatchedBound, Merged, GlobalStamps, ScopedStamps, NatStamps, KeyColumnsOnly;
    match op
    case UpdateSubnetwork(p, _, _, patch) =>
      PatchedBoundShows(db.networks, p, db.subnetworks[row.subnetwork].data, patch, columns);
    case UpdateFirewall(p, _, patch) =>
      PatchedBoundShows(db.networks, p, db.firewalls[row.firewall].data, patch, columns);
    case UpdateRouter(p, _, _, patch) => PatchedBoundShows(db.networks, p, db.routers[row.router].data, patch, columns);
    case _ =>
  }

  /** Created or updated, whatever the request's document says: the answer shows the key. */
  lemma AnswerShowsItsKey(db: ComputeDb, op: ComputeOp)
    requires Apply(db, op).result.Ok? && !IsDeletion(op)
    ensures Shows(Apply(db, op).result.value, KeyColumns(NamedRow(op)))
  {
    hide Apply, KeyColumns, Shows;
    if IsUpdate(op) { PatchedAnswerShowsItsKey(db, op); } else { NewAnswerShowsItsKey(db, op); }
  }

  lemma StepKeepsKeysShown(db: ComputeDb, op: ComputeOp)
    requires RowsShowTheirKeys(db)
    ensures RowsShowTheirKeys(Apply(db, op).db)
  {
    hide Apply, Stored, KeyColumns, NamedRow, Shows, Cascades;
    var out := Apply(db, op);
    if out.result.Err? {
      RejectedStepChangesNothing(db, op);
    } else {
      AnswerIsTheStoredRow(db, op);
      if !IsDeletion(op) { AnswerShowsItsKey(db, op); }
      forall row | Stored(out.db, row).Some? ensures Shows(Stored(out.db, row).value, KeyColumns(row)) {
        if row != NamedRow(op) {
          if Cascades(op, row) { CascadeRemoves(db, op, row); } else { OnlyTheNamedRowChanges(db, op, row); }
        }
      }
    }
  }

  lemma CascadeRemoves(db: ComputeDb, op: ComputeOp, row: Row)
    requires Cascades(op, row) && Apply(db, op).result.Ok?
    ensures Stored(Apply(db, op).db, row) == None
  {
  }

  // ------------------------------------------------- a deletion undoes a creation

  lemma NewNetworkIsFree(db: ComputeDb, op: ComputeOp)
    requires Valid(db) && op.CreateNetwork? && Apply(db, op).result.Ok?
    ensures Apply(Apply(db, op).db, DeletionOf(NamedRow(op))) == Outcome(db, Ok(map[]))
  {
    hide NewData, GlobalStamps;
    var once := Apply(db, op).db;
    var key := GlobalKey(op.project, GetString(op.data, FName));
    assert !NetworkInUse(once, key.project, key.name);
    assert once.networks - {key} == db.networks;
  }

  lemma NewRouterHasNoNats(db: ComputeDb, op: ComputeOp)
    requires Valid(db) && op.CreateRouter? && Apply(db, op).result.Ok?
    ensures Apply(Apply(db, op).db, DeletionOf(NamedRow(op))) == Outcome(db, Ok(map[]))
  {
    hide NewBound, GlobalStamps, ScopedStamps, SubnetworksValid, FirewallsValid, RoutersValid;
    var once := Apply(db, op).db;
    var key := ScopedKey(op.project, op.region, GetString(op.data, FName));
    assert once.nats == db.nats && key !in db.routers && once.routers - {key} == db.routers;
    NothingToTakeAlong(db.routers, db.nats, key);
    hide Valid, WithoutChildren;
  }

  lemma NothingToTakeAlong(routers: map<ScopedKey, Bound>, nats: map<NestedKey, Document>, key: ScopedKey)
    requires NatsValid(routers, nats) && key !in routers
    ensures WithoutChildren(nats, key) == nats
  {
  }

  lemma NewBoundRowIsTakenBack(db: ComputeDb, op: ComputeOp)
    requires (op.CreateSubnetwork? || op.CreateFirewall?) && Apply(db, op).result.Ok?
    ensures Apply(Apply(db, op).db, DeletionOf(NamedRow(op))) == Outcome(db, Ok(map[]))
  {
    hide NewBound, GlobalStamps, ScopedStamps;
    var once, row := Apply(db, op).db, NamedRow(op);
    if op.CreateSubnetwork? {
      assert once.subnetworks - {row.subnetwork} == db.subnetworks;
    } else {
      assert once.firewalls - {row.firewall} == db.firewalls;
    }
  }

  lemma NewPlainRowIsTakenBack(db: ComputeDb, op: ComputeOp)
    requires (op.CreateRouterNAT? || op.CreateInstance?) && Apply(db, op).result.Ok?
    ensures Apply(Apply(db, op).db, DeletionOf(NamedRow(op))) == Outcome(db, Ok(map[]))
  {
    hide NewData, NicsValid, ScopedStamps, NatStamps;
    var once, row := Apply(db, op).db, NamedRow(op);
    if op.CreateRouterNAT? {
      assert once.nats - {row.routerNat} == db.nats;
    } else {
      assert once.instances - {row.instance} == db.instances;
    }
  }

  /** Deleting a row just created succeeds and brings back the tables as they were: nothing can refer to
      the new row yet, so no deletion is blocked and none cascades. */
  lemma DeletionUndoesCreation(db: ComputeDb, op: ComputeOp)
    requires Valid(db) && IsCreation(op) && Apply(db, op).result.Ok?
    ensures Apply(Apply(db, op).db, DeletionOf(NamedRow(op))) == Outcome(db, Ok(map[]))
  {
    hide Apply, Valid;
    match op
    case CreateNetwork(_, _, _) => NewNetworkIsFree(db, op);
    case CreateRouter(_, _, _, _) => NewRouterHasNoNats(db, op);
    case CreateSubnetwork(_, _, _, _) => NewBoundRowIsTakenBack(db, op);
    case CreateFirewall(_, _, _) => NewBoundRowIsTakenBack(db, op);
    case _ => NewPlainRowIsTakenBack(db, op);
  }

  // ------------------------------------------------ the records of a network

  /** The row at a place of one of the tables with a foreign key to the networks. */
  function BoundAt(db: ComputeDb, row: Row): Option<Bound> {
    match row
    case SubnetworkRow(key) => Found(db.subnetworks, key)
    case FirewallRow(key) => Found(db.firewalls, key)
    case RouterRow(key) => Found(db.routers, key)
    case _ => None
  }

  function ProjectOf(row: Row): string {
    match row
    case NetworkRow(key) => key.project
    case SubnetworkRow(key) => key.project
    case FirewallRow(key) => key.project
    case RouterRow(key) => key.project
    case NatRow(key) => key.project
    case InstanceRow(key) => key.project
  }

  /** Foreign-key column, stored network_name and resolved reference are one and the same. */
  predicate RowAgrees(db: ComputeDb, row: Row) {
    var bound := BoundAt(db, row);
    && bound.Some?
    && GetString(bound.value.data, FNetworkName) == bound.value.networkName
    && Agrees(ProjectOf(row), bound.value)
  }

  /** A request that settles which network its row is bound to, going by the visible reference: a creation
      that leaves the hidden field to the server or repeats what the server would put there, or a patch
      that mentions the network. */
  predicate SettlesBinding(op: ComputeOp) {
    match op
    case CreateSubnetwork(p, _, data, _) => SuppliesNoOther(p, data)
    case CreateFirewall(p, data, _) => SuppliesNoOther(p, data)
    case CreateRouter(p, _, data, _) => SuppliesNoOther(p, data)
    case UpdateSubnetwork(_, _, _, patch) => FNetwork in patch
    case UpdateFirewall(_, _, patch) => FNetwork in patch
    case UpdateRouter(_, _, _, patch) => FNetwork in patch
    case _ => false
  }

  predicate SuppliesNoOther(project: string, data: Document) {
    var supplied := GetString(data, FNetworkName);
    supplied == "" || ResolveSameProjectName(project, GetString(data, FNetwork), "networks") == Ok(supplied)
  }

  /** Under the invariant a bound row can be told from its document. */
  predicate DataAgrees(row: Row, data: Document) {
    (row.SubnetworkRow? || row.FirewallRow? || row.RouterRow?) &&
    ResolveSameProjectName(ProjectOf(row), GetString(data, FNetwork), "networks") == Ok(GetString(data, FNetworkName))
  }

  lemma RowAgreesByData(db: ComputeDb, row: Row)
    requires Valid(db)
    ensures RowAgrees(db, row) <==> Stored(db, row).Some? && DataAgrees(row, Stored(db, row).value)
  {
    hide ResolveSameProjectName;
  }

  lemma NewAnswerAgreesIff(db: ComputeDb, op: ComputeOp)
    requires IsCreation(op) && Apply(db, op).result.Ok?
    ensures DataAgrees(NamedRow(op), Apply(db, op).result.value) <==> SettlesBinding(op)
  {
    hide ResolveSameProjectName, NewBound, NewData, NicsValid, ScopedStamps, GlobalStamps, NatStamps;
    var row := NamedRow(op);
    var columns := KeyColumns(row);
    ColumnsOfRows(row);
    match op
    case CreateSubnetwork(p, _, data, env) => NewDocumentAgreesIff(db.networks, p, data, columns, env);
    case CreateFirewall(p, data, env) => NewDocumentAgreesIff(db.networks, p, data, columns, env);
    case CreateRouter(p, _, data, env) => NewDocumentAgreesIff(db.networks, p, data, columns, env);
    case _ =>
  }

  lemma NewDocumentAgreesIff(networks: map<GlobalKey, Document>, project: string, data: Document, columns: Document,
                             env: Env)
    requires KeyColumnsOnly(columns)
    ensures var bound := NewBound(networks, project, data, columns, env);
            bound.Ok? ==>
            (ResolveSameProjectName(project, GetString(bound.value.data, FNetwork), "networks")
              == Ok(GetString(bound.value.data, FNetworkName))
             <==> SuppliesNoOther(project, data))
  {
    NewBoundAgreesIff(networks, project, data, columns, env);
    NewBoundIsCoherent(networks, project, data, columns, env);
    hide NewBound, ResolveSameProjectName;
  }

  lemma PatchedBoundRowAgreesIff(db: ComputeDb, op: ComputeOp)
    requires Valid(db) && (op.UpdateSubnetwork? || op.UpdateFirewall? || op.UpdateRouter?) && Apply(db, op).result.Ok?
    ensures DataAgrees(NamedRow(op), Apply(db, op).result.value)
            <==> SettlesBinding(op) || RowAgrees(db, NamedRow(op))
  {
    hide ResolveSameProjectName, PatchedBound, Merged, ScopedStamps, GlobalStamps, NatsValid, KeyColumnsOnly;
    var row := NamedRow(op);
    var columns := KeyColumns(row);
    ColumnsOfRows(row);
    match op
    case UpdateSubnetwork(p, _, _, patch) =>
      PatchedDocumentAgreesIff(db.networks, p, db.subnetworks[row.subnetwork], patch, columns);
    case UpdateFirewall(p, _, patch) =>
      PatchedDocumentAgreesIff(db.networks, p, db.firewalls[row.firewall], patch, columns);
    case UpdateRouter(p, _, _, patch) =>
      PatchedDocumentAgreesIff(db.networks, p, db.routers[row.router], patch, columns);
  }

  lemma PatchedAnswerAgreesIff(db: ComputeDb, op: ComputeOp)
    requires Valid(db) && IsUpdate(op) && Apply(db, op).result.Ok?
    ensures DataAgrees(NamedRow(op), Apply(db, op).result.value)
            <==> SettlesBinding(op) || RowAgrees(db, NamedRow(op))
  {
    if !op.UpdateNetwork? && !op.UpdateRouterNAT? { PatchedBoundRowAgreesIff(db, op); }
    hide Apply, Valid, ResolveSameProjectName;
  }

  lemma PatchedDocumentAgreesIff(networks: map<GlobalKey, Document>, project: string, current: Bound, patch: Document,
                                 columns: Document)
    requires Coherent(networks, project, current) && KeyColumnsOnly(columns)
    ensures var bound := PatchedBound(networks, project, current.data, patch, columns);
            bound.Ok? ==>
            (ResolveSameProjectName(project, GetString(bound.value.data, FNetwork), "networks")
              == Ok(GetString(bound.value.data, FNetworkName))
             <==> FNetwork in patch || Agrees(project, current))
  {
    PatchedBoundAgreesIff(networks, project, current, patch, columns);
    hide ResolveSameProjectName, Merged, BindingOf;
  }

  /** The rows that agree after an operation, of whatever client, are those that agreed before, but for the
      row it names: that one agrees when the request settled its binding, and no more when it is deleted. */
  lemma StepAgreementIff(db: ComputeDb, op: ComputeOp, row: Row)
    requires Valid(db)
    ensures RowAgrees(Apply(db, op).db, row) <==>
            if row != NamedRow(op) || Apply(db, op).result.Err? then RowAgrees(db, row)
            else !IsDeletion(op) && (SettlesBinding(op) || RowAgrees(db, row))
  {
    hide Apply, Stored, DataAgrees, RowAgrees, NamedRow, Cascades, SettlesBinding, Valid;
    StepKeepsValid(db, op);
    RowAgreesByData(db, row);
    RowAgreesByData(Apply(db, op).db, row);
    if Apply(db, op).result.Err? {
      RejectedStepChangesNothing(db, op);
    } else if row == NamedRow(op) {
      AnswerIsTheStoredRow(db, op);
      if IsUpdate(op) {
        PatchedAnswerAgreesIff(db, op);
      } else if !IsDeletion(op) {
        NewAnswerAgreesIff(db, op);
      }
    } else if Cascades(op, row) {
      CascadedRowsAreNotBound(db, op, row);
    } else {
      OnlyTheNamedRowChanges(db, op, row);
    }
  }

  lemma CascadedRowsAreNotBound(db: ComputeDb, op: ComputeOp, row: Row)
    requires Cascades(op, row)
    ensures !RowAgrees(db, row) && !RowAgrees(Apply(db, op).db, row)
  {
  }

  // ------------------------------------------------- what a deletion is refused for

  /** A subnetwork, firewall or router of the project whose document shows the network's name. */
  predicate ShowsNetwork(db: ComputeDb, row: Row, network: GlobalKey) {
    (row.SubnetworkRow? || row.FirewallRow? || row.RouterRow?) && ProjectOf(row) == network.project &&
    Stored(db, row).Some? && GetString(Stored(db, row).value, FNetworkName) == network.name
  }

  /** NO ACTION, as a client can see it: a network is deleted exactly when it exists and no row shows it;
      else the deletion is refused as in use or not found, and nothing changes. */
  lemma NetworkDeletionIff(db: ComputeDb, network: GlobalKey)
    requires Valid(db)
    ensures var out := RemoveNetwork(db, network.project, network.name);
            && (out.result.Ok? <==> network in db.networks && forall row :: !ShowsNetwork(db, row, network))
            && (out.result == Err(InUse) <==> exists row :: ShowsNetwork(db, row, network))
            && (out.result.Err? ==> out.db == db)
  {
    if k :| k in db.subnetworks && k.project == network.project && db.subnetworks[k].networkName == network.name {
      assert ShowsNetwork(db, SubnetworkRow(k), network);
    } else if k :| k in db.firewalls && k.project == network.project && db.firewalls[k].networkName == network.name {
      assert ShowsNetwork(db, FirewallRow(k), network);
    } else if k :| k in db.routers && k.project == network.project && db.routers[k].networkName == network.name {
      assert ShowsNetwork(db, RouterRow(k), network);
    } else {
      assert forall row :: !ShowsNetwork(db, row, network);
    }
  }

  /** CASCADE: with a router go exactly its own NATs. */
  lemma RouterDeletionTakesItsNats(db: ComputeDb, router: ScopedKey, row: Row)
    requires router in db.routers
    ensures var after := RemoveRouter(db, router.project, router.scope, router.name).db;
            Stored(after, row) ==
              if row == RouterRow(router) || (row.NatRow? && ParentOf(row.routerNat) == router) then None
              else Stored(db, row)
  {
  }
}
