/** GKE clusters and node pools. A cluster is admitted against the network tables. */
module Container {
  import opened Wrappers
  import opened Json
  import opened Tables
  import opened References
  import opened Merge
  import opened Compute
  import opened Requests
  import opened Outcomes

  datatype ContainerDb = ContainerDb(clusters: map<ScopedKey, Document>, nodePools: map<NestedKey, Document>)

  const NO_CLUSTERS := ContainerDb(map[], map[])

  datatype ContainerOp =
    | CreateCluster(project: string, location: string, data: Document, env: Env)
    | UpdateCluster(project: string, location: string, name: string, patch: Document)
    | DeleteCluster(project: string, location: string, name: string)
    | CreateNodePool(project: string, location: string, cluster: string, data: Document, env: Env)
    | DeleteNodePool(project: string, location: string, cluster: string, name: string)

  function ClusterStamps(project: string, location: string, name: string): Document {
    ScopedStamps(project, FLocation, location, name)
  }

  function NewClusterData(data: Document, stamps: Document, env: Env): Document {
    WithDefault(WithDefault(data + stamps, FId, env.id), FCreateTime, env.now)
  }

  predicate ClusterValid(net: ComputeDb, project: string, location: string, data: Document) {
    RefsValid(net, project, location, GetString(data, FNetwork), GetString(data, FSubnetwork))
  }

  function InsertCluster(net: ComputeDb, db: ContainerDb, project: string, location: string, data: Document,
                         env: Env): Outcome<ContainerDb> {
    var name := GetString(data, FName);
    var key := ScopedKey(project, location, name);
    if name == "" then Fail(db, Required)
    else if !ClusterValid(net, project, location, data) then Fail(db, NotFound)
    else if key in db.clusters then Fail(db, AlreadyExists)
    else
      var row := NewClusterData(data, ClusterStamps(project, location, name), env);
      Outcome(db.(clusters := db.clusters[key := row]), Ok(row))
  }

  /** The merged cluster is validated, not the patch on its own. */
  function PatchCluster(net: ComputeDb, db: ContainerDb, project: string, location: string, name: string,
                        patch: Document): Outcome<ContainerDb> {
    var key, stamps := ScopedKey(project, location, name), ClusterStamps(project, location, name);
    if key !in db.clusters then Fail(db, NotFound)
    else
      var row := Merged(db.clusters[key], patch, stamps.Keys) + stamps;
      if !ClusterValid(net, project, location, row) then Fail(db, NotFound)
      else Outcome(db.(clusters := db.clusters[key := row]), Ok(row))
  }

  function RemoveCluster(db: ContainerDb, project: string, location: string, name: string): Outcome<ContainerDb> {
    var key := ScopedKey(project, location, name);
    if key !in db.clusters then Fail(db, NotFound)
    else Outcome(ContainerDb(db.clusters - {key}, WithoutChildren(db.nodePools, key)), Ok(map[]))
  }

  function InsertNodePool(db: ContainerDb, project: string, location: string, cluster: string, data: Document,
                          env: Env): Outcome<ContainerDb> {
    var name := GetString(data, FName);
    var key := NestedKey(project, location, cluster, name);
    if name == "" then Fail(db, Required)
    else
      match InsertError(key in db.nodePools, ParentOf(key) in db.clusters)
      case Some(e) => Fail(db, e)
      case None =>
        var row := NewClusterData(data, ClusterStamps(project, location, name)[FClusterName := Str(cluster)], env);
        Outcome(db.(nodePools := db.nodePools[key := row]), Ok(row))
  }

  function RemoveNodePool(db: ContainerDb, project: string, location: string, cluster: string,
                          name: string): Outcome<ContainerDb> {
    var key := NestedKey(project, location, cluster, name);
    if key !in db.nodePools then Fail(db, NotFound)
    else Outcome(db.(nodePools := db.nodePools - {key}), Ok(map[]))
  }

  function Apply(net: ComputeDb, db: ContainerDb, op: ContainerOp): Outcome<ContainerDb> {
    match op
    case CreateCluster(project, location, data, env) => InsertCluster(net, db, project, location, data, env)
    case UpdateCluster(project, location, name, patch) => PatchCluster(net, db, project, location, name, patch)
    case DeleteCluster(project, location, name) => RemoveCluster(db, project, location, name)
    case CreateNodePool(project, location, cluster, data, env) =>
      InsertNodePool(db, project, location, cluster, data, env)
    case DeleteNodePool(project, location, cluster, name) => RemoveNodePool(db, project, location, cluster, name)
  }

  ghost predicate Valid(db: ContainerDb) {
    forall k :: k in db.nodePools ==> ParentOf(k) in db.clusters
  }

  lemma StepKeepsValid(net: ComputeDb, db: ContainerDb, op: ContainerOp)
    requires Valid(db)
    ensures Valid(Apply(net, db, op).db)
  {
    hide ClusterValid, Merged, NewClusterData, ClusterStamps;
  }

  lemma RejectedStepChangesNothing(net: ComputeDb, db: ContainerDb, op: ContainerOp)
    requires Apply(net, db, op).result.Err?
    ensures Apply(net, db, op).db == db
  {
    hide ClusterValid, Merged, NewClusterData, ClusterStamps;
  }

  ghost predicate ClusterAttached(net: ComputeDb, key: ScopedKey, data: Document) {
    Attached(net, key.project, key.scope, GetString(data, FNetwork), GetString(data, FSubnetwork))
  }

  lemma ValidClusterIsAttached(net: ComputeDb, key: ScopedKey, data: Document)
    requires Compute.Valid(net) && ClusterValid(net, key.project, key.scope, data)
    ensures ClusterAttached(net, key, data)
  {
    hide RefsValid, Attached;
    ValidRefsAreAttached(net, key.project, key.scope, GetString(data, FNetwork), GetString(data, FSubnetwork));
  }

  lemma StampingKeepsTheRefs(net: ComputeDb, project: string, location: string, name: string, data: Document, env: Env)
    ensures ClusterValid(net, project, location, NewClusterData(data, ClusterStamps(project, location, name), env))
            <==> ClusterValid(net, project, location, data)
  {
    hide RefsValid;
    var row := NewClusterData(data, ClusterStamps(project, location, name), env);
    assert GetString(row, FNetwork) == GetString(data, FNetwork);
    assert GetString(row, FSubnetwork) == GetString(data, FSubnetwork);
  }

  function NameOf(op: ContainerOp): string
    requires op.CreateCluster? || op.UpdateCluster?
  {
    if op.CreateCluster? then GetString(op.data, FName) else op.name
  }

  /** Creation and update alike leave behind a stored cluster whose network and subnetwork exist and
      belong together; an update is judged on the merged document. */
  lemma StoredClusterIsAttached(net: ComputeDb, db: ContainerDb, op: ContainerOp)
    requires Compute.Valid(net) && (op.CreateCluster? || op.UpdateCluster?)
    ensures var key := ScopedKey(op.project, op.location, NameOf(op));
            var out := Apply(net, db, op);
            out.result.Ok? ==> key in out.db.clusters && out.result == Ok(out.db.clusters[key])
                               && ClusterAttached(net, key, out.db.clusters[key])
  {
    hide ClusterValid, ClusterAttached, NewClusterData, ClusterStamps, Merged;
    var key := ScopedKey(op.project, op.location, NameOf(op));
    var out := Apply(net, db, op);
    if out.result.Ok? {
      if op.CreateCluster? {
        StampingKeepsTheRefs(net, op.project, op.location, key.name, op.data, op.env);
      }
      ValidClusterIsAttached(net, key, out.result.value);
    }
  }

  /** A patch of the network alone is refused when the stored subnetwork belongs elsewhere. */
  lemma NetworkOnlyPatchNeedsTheSubnetwork(net: ComputeDb, db: ContainerDb, project: string, location: string,
                                           name: string, network: string, subnetwork: string)
    requires Compute.Valid(net)
    requires var key := ScopedKey(project, location, name);
             key in db.clusters && GetString(db.clusters[key], FSubnetwork) == subnetwork
    requires network != "" && subnetwork != ""
    ensures var out := PatchCluster(net, db, project, location, name, map[FNetwork := Str(network)]);
            out.result.Ok? <==>
              Attached(net, project, location, network, subnetwork) && SubnetworkRegion(location, subnetwork) != ""
  {
    hide RefsValid, Attached;
    ValidRefsAreAttached(net, project, location, network, subnetwork);
    var key, stamps := ScopedKey(project, location, name), ClusterStamps(project, location, name);
    var row := Merged(db.clusters[key], map[FNetwork := Str(network)], stamps.Keys) + stamps;
    assert GetString(row, FNetwork) == network && GetString(row, FSubnetwork) == subnetwork;
  }

  /** A successful cluster update repeated with the same patch is admitted again and changes nothing. */
  lemma UpdatesAreIdempotent(net: ComputeDb, db: ContainerDb, op: ContainerOp)
    requires op.UpdateCluster? && Apply(net, db, op).result.Ok?
    ensures var once := Apply(net, db, op); Apply(net, once.db, op) == once
  {
    hide ClusterValid;
    var key, stamps := ScopedKey(op.project, op.location, op.name), ClusterStamps(op.project, op.location, op.name);
    StampedMergeIsIdempotent(db.clusters[key], op.patch, stamps.Keys, stamps);
    RewritingIsIdempotent(db.clusters, key, Apply(net, db, op).result.value);
  }

  /** The operation that takes back a creation. */
  function DeletionOf(op: ContainerOp): ContainerOp {
    match op
    case CreateCluster(project, location, data, _) => DeleteCluster(project, location, GetString(data, FName))
    case CreateNodePool(project, location, cluster, data, _) =>
      DeleteNodePool(project, location, cluster, GetString(data, FName))
    case _ => op
  }

  /** Deleting a cluster or pool just created brings back the tables as they were: a new cluster has no
      pools for the deletion to take along. */
  lemma DeletionUndoesCreation(net: ComputeDb, db: ContainerDb, op: ContainerOp)
    requires Valid(db) && DeletionOf(op) != op && Apply(net, db, op).result.Ok?
    ensures Apply(net, Apply(net, db, op).db, DeletionOf(op)) == Outcome(db, Ok(map[]))
  {
    hide ClusterValid, NewClusterData, ClusterStamps;
    var once := Apply(net, db, op).db;
    if op.CreateCluster? {
      var key := ScopedKey(op.project, op.location, GetString(op.data, FName));
      assert once.clusters - {key} == db.clusters && WithoutChildren(once.nodePools, key) == db.nodePools;
    } else {
      assert once.nodePools - {NestedKey(op.project, op.location, op.cluster, GetString(op.data, FName))}
        == db.nodePools;
    }
  }

  /** A pool is lost only with its own deletion or its cluster's, and no operation alters one. */
  lemma PoolsLeaveOnlyWhenTold(net: ComputeDb, db: ContainerDb, op: ContainerOp, pool: NestedKey)
    requires pool in db.nodePools
    requires op != DeleteNodePool(pool.project, pool.scope, pool.parent, pool.name)
    requires op != DeleteCluster(pool.project, pool.scope, pool.parent)
    ensures var after := Apply(net, db, op).db.nodePools; pool in after && after[pool] == db.nodePools[pool]
  {
    hide ClusterValid, NewClusterData, ClusterStamps, Merged;
  }

  // ------------------------------------------------ outcomes, read off the request

  lemma NewClusterDataIsWritten(data: Document, columns: Document, env: Env)
    requires columns.Keys !! {FId, FCreateTime}
    ensures WrittenFor(NewClusterData(data, columns, env), data, columns,
            map[FId := Str(env.id), FCreateTime := Str(env.now)])
  {
    WrittenWithDefaults(data, columns, FId, env.id, FCreateTime, env.now);
    hide WithDefault, WrittenFor;
  }

  lemma ClusterCreation(net: ComputeDb, db: ContainerDb, project: string, location: string, data: Document, env: Env)
    requires Compute.Valid(net)
    ensures var key := ScopedKey(project, location, GetString(data, FName));
            var out := Apply(net, db, CreateCluster(project, location, data, env));
            var fits := Fits(net, project, location, GetString(data, FNetwork), GetString(data, FSubnetwork));
            && (out.result.Ok? <==> key.name != "" && fits && key !in db.clusters)
            && (out.result.Err? ==> out.result.error == if key.name == "" then Required
                                      else if !fits then NotFound else AlreadyExists)
            && (out.result.Ok? ==>
                && out.db == db.(clusters := db.clusters[key := out.result.value])
                && WrittenFor(out.result.value, data,
                              map[FName := Str(key.name), FProject := Str(project), FLocation := Str(location)],
                              map[FId := Str(env.id), FCreateTime := Str(env.now)]))
  {
    FitsIff(net, project, location, GetString(data, FNetwork), GetString(data, FSubnetwork));
    var columns := map[FName := Str(GetString(data, FName)), FProject := Str(project), FLocation := Str(location)];
    NewClusterDataIsWritten(data, columns, env);
    hide RefsValid, Fits, NewClusterData, WrittenFor, Compute.Valid;
    assert ClusterStamps(project, location, GetString(data, FName)) == columns;
  }

  /** The merged cluster must fit: a null in the patch keeps the stored reference, anything else replaces it. */
  function MergedText(current: Document, patch: Document, field: Field): string {
    if field !in patch || patch[field] == Null then GetString(current, field) else GetString(patch, field)
  }

  lemma ClusterUpdate(net: ComputeDb, db: ContainerDb, project: string, location: string, name: string, patch: Document)
    requires Compute.Valid(net)
    ensures var key := ScopedKey(project, location, name);
            var out := Apply(net, db, UpdateCluster(project, location, name, patch));
            && (out.result == Err(NotFound) <==> out.result.Err?)
            && (out.result.Ok? <==>
                  key in db.clusters &&
                  Fits(net, project, location, MergedText(db.clusters[key], patch, FNetwork),
                       MergedText(db.clusters[key], patch, FSubnetwork)))
            && (out.result.Ok? ==>
                && out.db == db.(clusters := db.clusters[key := out.result.value])
                && Says(out.result.value, FName, name) && Says(out.result.value, FProject, project)
                && Says(out.result.value, FLocation, location)
                && TakesPatch(db.clusters[key], patch, {FName, FProject, FLocation}, out.result.value))
  {
    var key := ScopedKey(project, location, name);
    var columns := map[FName := Str(name), FProject := Str(project), FLocation := Str(location)];
    assert ClusterStamps(project, location, name) == columns;
    if key in db.clusters {
      var current := db.clusters[key];
      StampedMergeApplies(current, patch, columns.Keys, columns);
      var row := Merged(current, patch, columns.Keys) + columns;
      assert PatchedAt(current, patch, row, FNetwork) && PatchedAt(current, patch, row, FSubnetwork);
      hide Merged;
      assert GetString(row, FNetwork) == MergedText(current, patch, FNetwork);
      assert GetString(row, FSubnetwork) == MergedText(current, patch, FSubnetwork);
      FitsIff(net, project, location, GetString(row, FNetwork), GetString(row, FSubnetwork));
      assert columns.Keys == {FName, FProject, FLocation};
    }
    hide Merged, RefsValid, Fits, TakesPatch, PatchedAt, ClusterStamps, Compute.Valid, MergedText;
  }

  lemma NodePoolCreation(net: ComputeDb, db: ContainerDb, project: string, location: string, cluster: string,
                         data: Document, env: Env)
    ensures var key := NestedKey(project, location, cluster, GetString(data, FName));
            var out := Apply(net, db, CreateNodePool(project, location, cluster, data, env));
            && (out.result.Ok?
               <==> key.name != "" && key !in db.nodePools && ScopedKey(project, location, cluster) in db.clusters)
            && (out.result.Err? ==> out.result.error == if key.name == "" then Required
                                      else if key in db.nodePools then AlreadyExists else NotFound)
            && (out.result.Ok? ==>
                && out.db == db.(nodePools := db.nodePools[key := out.result.value])
                && WrittenFor(out.result.value, data,
                              map[FName := Str(key.name), FProject := Str(project), FLocation := Str(location),
                                  FClusterName := Str(cluster)],
                              map[FId := Str(env.id), FCreateTime := Str(env.now)]))
  {
    var columns := map[FName := Str(GetString(data, FName)), FProject := Str(project), FLocation := Str(location),
                       FClusterName := Str(cluster)];
    NewClusterDataIsWritten(data, columns, env);
    hide NewClusterData, WrittenFor;
    assert ClusterStamps(project, location, GetString(data, FName))[FClusterName := Str(cluster)] == columns;
  }

  /** Deletions succeed exactly when there is something to delete; with a cluster go exactly its own pools. */
  lemma Deletions(net: ComputeDb, db: ContainerDb, project: string, location: string, cluster: string, name: string)
    ensures var out, key := Apply(net, db, DeleteCluster(project, location, name)), ScopedKey(project, location, name);
            && (key !in db.clusters ==> out == Outcome(db, Err(NotFound)))
            && (key in db.clusters ==>
                && out.result == Ok(map[]) && out.db.clusters == db.clusters - {key}
                && forall pool :: pool in out.db.nodePools <==>
                     pool in db.nodePools && ScopedKey(pool.project, pool.scope, pool.parent) != key)
    ensures var key := NestedKey(project, location, cluster, name);
            Apply(net, db, DeleteNodePool(project, location, cluster, name)) ==
              if key in db.nodePools then Outcome(db.(nodePools := db.nodePools - {key}), Ok(map[]))
              else Outcome(db, Err(NotFound))
  {
  }
}
