/** Cloud SQL instances with their databases and users. */
module Sql {
  import opened Wrappers
  import opened Json
  import opened Tables
  import opened References
  import opened Merge
  import opened Requests
  import opened Compute

  /** Databases and users are keyed by (project, instance, name). */
  datatype SqlDb = SqlDb(
    instances: map<GlobalKey, Document>,
    databases: map<ScopedKey, Document>,
    users: map<ScopedKey, Document>)

  const NO_SQL := SqlDb(map[], map[], map[])

  datatype SqlOp =
    | CreateInstance(project: string, data: Document, env: Env)
    | UpdateInstance(project: string, name: string, patch: Document)
    | DeleteInstance(project: string, name: string)
    | CreateDatabase(project: string, instance: string, data: Document, env: Env)
    | DeleteDatabase(project: string, instance: string, name: string)
    | CreateUser(project: string, instance: string, data: Document, env: Env)
    | UpdateUser(project: string, instance: string, name: string, patch: Document)
    | DeleteUser(project: string, instance: string, name: string)

  function SubObject(d: Document, key: Field): Document {
    if key in d && d[key].Obj? then d[key].fields else map[]
  }

  function PrivateNetwork(data: Document): string {
    GetString(SubObject(SubObject(data, FSettings), FIpConfiguration), FPrivateNetwork)
  }

  predicate PrivateNetworkValid(net: ComputeDb, project: string, data: Document) {
    var ref := PrivateNetwork(data);
    ref == "" ||
    match ResolveSameProjectName(project, ref, "networks")
    case Err(_) => false
    case Ok(name) => GlobalKey(project, name) in net.networks
  }

  function ChildStamps(project: string, instance: string, name: string): Document {
    ScopedStamps(project, FInstanceName, instance, name)
  }

  function InstanceOf(key: ScopedKey): GlobalKey {
    GlobalKey(key.project, key.scope)
  }

  function WithoutInstance(children: map<ScopedKey, Document>, instance: GlobalKey): map<ScopedKey, Document> {
    map k | k in children && InstanceOf(k) != instance :: children[k]
  }

  /** A user is named by `name`, else by `user`. */
  function UserName(data: Document): string {
    if GetString(data, FName) != "" then GetString(data, FName) else GetString(data, FUser)
  }

  function Apply(net: ComputeDb, db: SqlDb, op: SqlOp): Outcome<SqlDb> {
    match op
    case CreateInstance(project, data, env) =>
      var key := GlobalKey(project, GetString(data, FName));
      if key.name == "" then Fail(db, Required)
      else if !PrivateNetworkValid(net, project, data) then Fail(db, NotFound)
      else if key in db.instances then Fail(db, AlreadyExists)
      else
        var row := WithDefault(WithDefault(data + GlobalStamps(project, key.name), FId, env.id), FCreateTime, env.now);
        Outcome(db.(instances := db.instances[key := row]), Ok(row))
    case UpdateInstance(project, name, patch) =>
      var key, stamps := GlobalKey(project, name), GlobalStamps(project, name);
      if key !in db.instances then Fail(db, NotFound)
      else
        var row := Merged(db.instances[key], patch, stamps.Keys) + stamps;
        if !PrivateNetworkValid(net, project, row) then Fail(db, NotFound)
        else Outcome(db.(instances := db.instances[key := row]), Ok(row))
    case DeleteInstance(project, name) =>
      var key := GlobalKey(project, name);
      if key !in db.instances then Fail(db, NotFound)
      else
        var databases, users := WithoutInstance(db.databases, key), WithoutInstance(db.users, key);
        Outcome(SqlDb(db.instances - {key}, databases, users), Ok(map[]))
    case CreateDatabase(project, instance, data, env) =>
      var key := ScopedKey(project, instance, GetString(data, FName));
      if key.name == "" then Fail(db, Required)
      else
        (match InsertError(key in db.databases, InstanceOf(key) in db.instances)
         case Some(e) => Fail(db, e)
         case None =>
           var row := WithDefault(data + ChildStamps(project, instance, key.name), FId, env.id);
           Outcome(db.(databases := db.databases[key := row]), Ok(row)))
    case DeleteDatabase(project, instance, name) =>
      var key := ScopedKey(project, instance, name);
      if key !in db.databases then Fail(db, NotFound)
      else Outcome(db.(databases := db.databases - {key}), Ok(map[]))
    case CreateUser(project, instance, data, env) =>
      var name := UserName(data);
      var key := ScopedKey(project, instance, name);
      if name == "" then Fail(db, Required)
      else
        (match InsertError(key in db.users, InstanceOf(key) in db.instances)
         case Some(e) => Fail(db, e)
         case None =>
           var row := WithDefault(data + ChildStamps(project, instance, name), FId, env.id);
           Outcome(db.(users := db.users[key := row]), Ok(row)))
    case UpdateUser(project, instance, name, patch) =>
      var key, stamps := ScopedKey(project, instance, name), ChildStamps(project, instance, name);
      if key !in db.users then Fail(db, NotFound)
      else
        var row := Merged(db.users[key], patch, stamps.Keys) + stamps;
        Outcome(db.(users := db.users[key := row]), Ok(row))
    case DeleteUser(project, instance, name) =>
      var key := ScopedKey(project, instance, name);
      if key !in db.users then Fail(db, NotFound)
      else Outcome(db.(users := db.users - {key}), Ok(map[]))
  }

  ghost predicate Valid(db: SqlDb) {
    && (forall k :: k in db.databases ==> InstanceOf(k) in db.instances)
    && (forall k :: k in db.users ==> InstanceOf(k) in db.instances)
  }

  lemma StepKeepsValid(net: ComputeDb, db: SqlDb, op: SqlOp)
    requires Valid(db)
    ensures Valid(Apply(net, db, op).db)
  {
    hide PrivateNetworkValid, Merged, GlobalStamps, ChildStamps, WithDefault;
  }

  lemma RejectedStepChangesNothing(net: ComputeDb, db: SqlDb, op: SqlOp)
    requires Apply(net, db, op).result.Err?
    ensures Apply(net, db, op).db == db
  {
    hide PrivateNetworkValid, Merged, GlobalStamps, ChildStamps, WithDefault;
  }

  /** The operation that takes back a creation. */
  function DeletionOf(op: SqlOp): SqlOp {
    match op
    case CreateInstance(project, data, _) => SqlOp.DeleteInstance(project, GetString(data, FName))
    case CreateDatabase(project, instance, data, _) => DeleteDatabase(project, instance, GetString(data, FName))
    case CreateUser(project, instance, data, _) =>
      DeleteUser(project, instance, UserName(data))
    case _ => op
  }

  /** Deleting what was just created brings back the tables as they were: a new instance has nothing for
      the deletion to take along. */
  lemma DeletionUndoesCreation(net: ComputeDb, db: SqlDb, op: SqlOp)
    requires Valid(db) && DeletionOf(op) != op && Apply(net, db, op).result.Ok?
    ensures Apply(net, Apply(net, db, op).db, DeletionOf(op)) == Outcome(db, Ok(map[]))
  {
    hide PrivateNetworkValid, GlobalStamps, ChildStamps, WithDefault;
    var once := Apply(net, db, op).db;
    match DeletionOf(op)
    case DeleteInstance(project, name) =>
      var key := GlobalKey(project, name);
      assert once.instances - {key} == db.instances;
      assert WithoutInstance(once.databases, key) == db.databases && WithoutInstance(once.users, key) == db.users;
    case DeleteDatabase(project, instance, name) =>
      assert once.databases - {ScopedKey(project, instance, name)} == db.databases;
    case DeleteUser(project, instance, name) =>
      assert once.users - {ScopedKey(project, instance, name)} == db.users;
  }

  /** A successful update of an instance or a user repeated with the same patch changes nothing. */
  lemma UpdatesAreIdempotent(net: ComputeDb, db: SqlDb, op: SqlOp)
    requires (op.UpdateInstance? || op.UpdateUser?) && Apply(net, db, op).result.Ok?
    ensures var once := Apply(net, db, op); Apply(net, once.db, op) == once
  {
    hide PrivateNetworkValid;
    var row := Apply(net, db, op).result.value;
    if op.UpdateInstance? {
      var key, stamps := GlobalKey(op.project, op.name), GlobalStamps(op.project, op.name);
      StampedMergeIsIdempotent(db.instances[key], op.patch, stamps.Keys, stamps);
      RewritingIsIdempotent(db.instances, key, row);
    } else {
      var key, stamps := ScopedKey(op.project, op.instance, op.name), ChildStamps(op.project, op.instance, op.name);
      StampedMergeIsIdempotent(db.users[key], op.patch, stamps.Keys, stamps);
      RewritingIsIdempotent(db.users, key, row);
    }
  }

  // ------------------------------------------------ outcomes, read off the request

  /** The private network of an instance: `settings.ipConfiguration.privateNetwork`, when all three are there. */
  predicate PrivateNetworkIs(data: Document, ref: string) {
    if FSettings in data && data[FSettings].Obj? && FIpConfiguration in data[FSettings].fields
       && data[FSettings].fields[FIpConfiguration].Obj?
    then ref == GetString(data[FSettings].fields[FIpConfiguration].fields, FPrivateNetwork)
    else ref == ""
  }

  /** It is not asked for, or resolves to a network that is there. */
  ghost predicate PrivatelyReachable(net: ComputeDb, project: string, data: Document) {
    exists ref :: PrivateNetworkIs(data, ref) &&
      (ref == "" || exists name :: ResolveSameProjectName(project, ref, "networks") == Ok(name) &&
                                   GlobalKey(project, name) in net.networks)
  }

  lemma ReachableIff(net: ComputeDb, project: string, data: Document)
    ensures PrivateNetworkValid(net, project, data) <==> PrivatelyReachable(net, project, data)
  {
    hide ResolveSameProjectName;
    assert PrivateNetworkIs(data, PrivateNetwork(data));
    assert forall ref :: PrivateNetworkIs(data, ref) ==> ref == PrivateNetwork(data);
  }

  lemma InstanceCreation(net: ComputeDb, db: SqlDb, project: string, data: Document, env: Env)
    ensures var key := GlobalKey(project, GetString(data, FName));
            var out := Apply(net, db, SqlOp.CreateInstance(project, data, env));
            var reachable := PrivatelyReachable(net, project, data);
            && (out.result.Ok? <==> key.name != "" && reachable && key !in db.instances)
            && (out.result.Err? ==> out == Outcome(db, Err(if key.name == "" then Required
                                                           else if !reachable then NotFound else AlreadyExists)))
            && (out.result.Ok? ==>
                && out.db == db.(instances := db.instances[key := out.result.value])
                && WrittenFor(out.result.value, data, map[FName := Str(key.name), FProject := Str(project)],
                              map[FId := Str(env.id), FCreateTime := Str(env.now)]))
  {
    ReachableIff(net, project, data);
    hide PrivateNetworkValid, PrivatelyReachable, WithDefault, WrittenFor;
    var columns: Document := map[FName := Str(GetString(data, FName)), FProject := Str(project)];
    assert GlobalStamps(project, GetString(data, FName)) == columns;
    WrittenWithDefaults(data, columns, FId, env.id, FCreateTime, env.now);
  }

  lemma InstanceUpdate(net: ComputeDb, db: SqlDb, project: string, name: string, patch: Document)
    ensures var key, out := GlobalKey(project, name), Apply(net, db, SqlOp.UpdateInstance(project, name, patch));
            && (out.result.Err? ==> out == Outcome(db, Err(NotFound)))
            && (key in db.instances ==>
                exists row :: Patched(row, project, name, db.instances[key], patch) &&
                  out == if PrivatelyReachable(net, project, row)
                         then Outcome(db.(instances := db.instances[key := row]), Ok(row))
                         else Outcome(db, Err(NotFound)))
            && (key !in db.instances ==> out.result.Err?)
  {
    var key, stamps := GlobalKey(project, name), GlobalStamps(project, name);
    if key in db.instances {
      var row := Merged(db.instances[key], patch, stamps.Keys) + stamps;
      StampedMergeApplies(db.instances[key], patch, stamps.Keys, stamps);
      assert stamps.Keys == {FName, FProject};
      ReachableIff(net, project, row);
      hide Merged, PrivateNetworkValid, PrivatelyReachable;
      assert Patched(row, project, name, db.instances[key], patch);
    }
  }

  ghost predicate Patched(row: Document, project: string, name: string, current: Document, patch: Document) {
    Says(row, FName, name) && Says(row, FProject, project) && TakesPatch(current, patch, {FName, FProject}, row)
  }

  function ChildColumns(project: string, instance: string, name: string): Document {
    map[FName := Str(name), FProject := Str(project), FInstanceName := Str(instance)]
  }

  lemma DatabaseCreation(net: ComputeDb, db: SqlDb, project: string, instance: string, data: Document, env: Env)
    ensures var key := ScopedKey(project, instance, GetString(data, FName));
            var out := Apply(net, db, CreateDatabase(project, instance, data, env));
            && (out.result.Ok?
               <==> key.name != "" && key !in db.databases && GlobalKey(project, instance) in db.instances)
            && (out.result.Err? ==> out == Outcome(db, Err(if key.name == "" then Required
                                                           else if key in db.databases then AlreadyExists
                                                             else NotFound)))
            && (out.result.Ok? ==>
                && out.db == db.(databases := db.databases[key := out.result.value])
                && WrittenFor(out.result.value, data, ChildColumns(project, instance, key.name),
                   map[FId := Str(env.id)]))
  {
    hide WithDefault, WrittenFor;
    var columns := ChildColumns(project, instance, GetString(data, FName));
    assert ChildStamps(project, instance, GetString(data, FName)) == columns;
    WrittenWithDefault(data, columns, FId, env.id);
  }

  lemma UserCreation(net: ComputeDb, db: SqlDb, project: string, instance: string, data: Document, env: Env)
    ensures var name := if GetString(data, FName) != "" then GetString(data, FName) else GetString(data, FUser);
            var key, out := ScopedKey(project, instance, name),
              Apply(net, db, CreateUser(project, instance, data, env));
            && (out.result.Ok? <==> name != "" && key !in db.users && GlobalKey(project, instance) in db.instances)
            && (out.result.Err? ==> out == Outcome(db, Err(if name == "" then Required
                                                           else if key in db.users then AlreadyExists else NotFound)))
            && (out.result.Ok? ==>
                && out.db == db.(users := db.users[key := out.result.value])
                && WrittenFor(out.result.value, data, ChildColumns(project, instance, name), map[FId := Str(env.id)]))
  {
    hide WithDefault, WrittenFor;
    var columns := ChildColumns(project, instance, UserName(data));
    assert ChildStamps(project, instance, UserName(data)) == columns;
    WrittenWithDefault(data, columns, FId, env.id);
  }

  lemma UserUpdate(net: ComputeDb, db: SqlDb, project: string, instance: string, name: string, patch: Document)
    ensures var key := ScopedKey(project, instance, name);
            var out := Apply(net, db, UpdateUser(project, instance, name, patch));
            && (key !in db.users ==> out == Outcome(db, Err(NotFound)))
            && (key in db.users ==>
                && out.result.Ok? && out.db == db.(users := db.users[key := out.result.value])
                && Says(out.result.value, FName, name) && Says(out.result.value, FProject, project)
                && Says(out.result.value, FInstanceName, instance)
                && TakesPatch(db.users[key], patch, {FName, FProject, FInstanceName}, out.result.value))
  {
    var key, columns := ScopedKey(project, instance, name), ChildColumns(project, instance, name);
    assert ChildStamps(project, instance, name) == columns;
    if key in db.users {
      StampedMergeApplies(db.users[key], patch, columns.Keys, columns);
      assert columns.Keys == {FName, FProject, FInstanceName};
    }
    hide Merged, TakesPatch;
  }

  /** Deletions succeed exactly when there is something to delete; with an instance go exactly its own
      databases and users. */
  lemma Deletions(net: ComputeDb, db: SqlDb, project: string, instance: string, name: string)
    ensures var out, key := Apply(net, db, SqlOp.DeleteInstance(project, instance)), GlobalKey(project, instance);
            && (key !in db.instances ==> out == Outcome(db, Err(NotFound)))
            && (key in db.instances ==>
                && out.result == Ok(map[]) && out.db.instances == db.instances - {key}
                && (forall k :: k in out.db.databases <==> k in db.databases && GlobalKey(k.project, k.scope) != key)
                && (forall k :: k in out.db.users <==> k in db.users && GlobalKey(k.project, k.scope) != key))
    ensures var out, key := Apply(net, db, DeleteDatabase(project, instance, name)), ScopedKey(project, instance, name);
            out == if key in db.databases then Outcome(db.(databases := db.databases - {key}), Ok(map[]))
                   else Outcome(db, Err(NotFound))
    ensures var out, key := Apply(net, db, DeleteUser(project, instance, name)), ScopedKey(project, instance, name);
            out == if key in db.users then Outcome(db.(users := db.users - {key}), Ok(map[]))
              else Outcome(db, Err(NotFound))
  {
  }
}
