/** When the operations on networks and what is bound to them succeed, why they are refused, and what they
    write, read off the request and the tables (repository/repository.go). */
module Outcomes {
  import opened Wrappers
  import opened Json
  import opened Tables
  import opened Requests
  import opened References
  import opened Merge
  import opened Compute

  function Columns(project: string, name: string): Document {
    map[FName := Str(name), FProject := Str(project)]
  }

  /** Identifier and time are the client's when given. */
  function Defaults(env: Env): Document {
    map[FId := Str(env.id), FCreationTimestamp := Str(env.now)]
  }

  lemma NewDataIsWritten(data: Document, columns: Document, env: Env)
    requires columns.Keys !! {FId, FCreationTimestamp}
    ensures WrittenFor(NewData(data, columns, env), data, columns, Defaults(env))
  {
    WrittenWithDefaults(data, columns, FId, env.id, FCreationTimestamp, env.now);
    hide WithDefault, WrittenFor;
  }

  // ------------------------------------------------------- unbound rows

  lemma NetworkCreation(db: ComputeDb, project: string, data: Document, env: Env)
    ensures var name := GetString(data, FName);
            var key, out := GlobalKey(project, name), Apply(db, CreateNetwork(project, data, env));
            && (out.result.Ok? <==> name != "" && key !in db.networks)
            && (out.result.Err? ==> out.result.error == if name == "" then Required else AlreadyExists)
            && (out.result.Ok? ==>
                && out.db == db.(networks := db.networks[key := out.result.value])
                && WrittenFor(out.result.value, data, Columns(project, name), Defaults(env)))
  {
    NewDataIsWritten(data, Columns(project, GetString(data, FName)), env);
    hide NewData, WrittenFor, Defaults;
  }

  lemma NetworkUpdate(db: ComputeDb, project: string, name: string, patch: Document)
    ensures var key, out := GlobalKey(project, name), Apply(db, UpdateNetwork(project, name, patch));
            && (out.result == Err(NotFound) <==> out.result.Err?)
            && (out.result.Ok? <==> key in db.networks)
            && (out.result.Ok? ==>
                && out.db == db.(networks := db.networks[key := out.result.value])
                && Says(out.result.value, FName, name) && Says(out.result.value, FProject, project)
                && TakesPatch(db.networks[key], patch, {FName, FProject}, out.result.value))
  {
    var key, columns := GlobalKey(project, name), Columns(project, name);
    if key in db.networks {
      StampedMergeApplies(db.networks[key], patch, columns.Keys, columns);
      assert columns.Keys == {FName, FProject};
    }
    hide Merged, TakesPatch;
  }

  lemma NatCreation(db: ComputeDb, project: string, region: string, router: string, data: Document, env: Env)
    ensures var name := GetString(data, FName);
            var key := NestedKey(project, region, router, name);
            var out := Apply(db, CreateRouterNAT(project, region, router, data, env));
            && (out.result.Ok? <==> name != "" && key !in db.nats && ScopedKey(project, region, router) in db.routers)
            && (out.result.Err? ==>
                  out.result.error == if name == "" then Required else if key in db.nats then AlreadyExists
                    else NotFound)
            && (out.result.Ok? ==>
                && out.db == db.(nats := db.nats[key := out.result.value])
                && WrittenFor(out.result.value, data,
                              Columns(project, name)[FRegion := Str(region)][FRouterName := Str(router)],
                                Defaults(env)))
  {
    NewDataIsWritten(data,
      Columns(project, GetString(data, FName))[FRegion := Str(region)][FRouterName := Str(router)], env);
    hide NewData, WrittenFor, Defaults;
  }

  lemma NatUpdate(db: ComputeDb, project: string, region: string, router: string, name: string, patch: Document)
    ensures var key := NestedKey(project, region, router, name);
            var out := Apply(db, UpdateRouterNAT(project, region, router, name, patch));
            && (out.result == Err(NotFound) <==> out.result.Err?)
            && (out.result.Ok? <==> key in db.nats)
            && (out.result.Ok? ==>
                && out.db == db.(nats := db.nats[key := out.result.value])
                && Says(out.result.value, FName, name) && Says(out.result.value, FProject, project)
                && Says(out.result.value, FRegion, region) && Says(out.result.value, FRouterName, router)
                && TakesPatch(db.nats[key], patch, {FName, FProject, FRegion, FRouterName}, out.result.value))
  {
    var key := NestedKey(project, region, router, name);
    var columns := Columns(project, name)[FRegion := Str(region)][FRouterName := Str(router)];
    if key in db.nats {
      StampedMergeApplies(db.nats[key], patch, columns.Keys, columns);
      assert columns.Keys == {FName, FProject, FRegion, FRouterName};
    }
    hide Merged, TakesPatch;
  }

  /** A deletion of anything but a network succeeds exactly when there is something to delete. */
  lemma Deletions(db: ComputeDb, project: string, scope: string, router: string, name: string)
    ensures var out, key := Apply(db, DeleteSubnetwork(project, scope, name)), ScopedKey(project, scope, name);
            out == if key in db.subnetworks then Outcome(db.(subnetworks := db.subnetworks - {key}), Ok(map[]))
                   else Outcome(db, Err(NotFound))
    ensures var out, key := Apply(db, DeleteFirewall(project, name)), GlobalKey(project, name);
            out == if key in db.firewalls then Outcome(db.(firewalls := db.firewalls - {key}), Ok(map[]))
                   else Outcome(db, Err(NotFound))
    ensures var out, key := Apply(db, DeleteRouterNAT(project, scope, router, name)),
            NestedKey(project, scope, router, name);
            out == if key in db.nats then Outcome(db.(nats := db.nats - {key}), Ok(map[]))
              else Outcome(db, Err(NotFound))
    ensures var out, key := Apply(db, DeleteInstance(project, scope, name)), ScopedKey(project, scope, name);
            out == if key in db.instances then Outcome(db.(instances := db.instances - {key}), Ok(map[]))
                   else Outcome(db, Err(NotFound))
    ensures var out, key := Apply(db, DeleteRouter(project, scope, name)), ScopedKey(project, scope, name);
            (out.result.Ok? <==> key in db.routers) && (out.result.Err? ==> out == Outcome(db, Err(NotFound)))
  {
  }

  // ------------------------------------------------------------- bound rows

  /** The network a document is to be bound to: the one its hidden field names, or else the one its visible
      reference resolves to. */
  predicate Chosen(project: string, data: Document, name: string) {
    if GetString(data, FNetworkName) != "" then name == GetString(data, FNetworkName)
    else ResolveSameProjectName(project, GetString(data, FNetwork), "networks") == Ok(name)
  }

  /** The document chooses a network, and the network is there. */
  ghost predicate ChoosesStored(networks: map<GlobalKey, Document>, project: string, data: Document) {
    exists name :: Chosen(project, data, name) && name != "" && GlobalKey(project, name) in networks
  }

  /** Why a creation that names a free place is refused: no network chosen, or not one that is there. */
  function BindingError(project: string, data: Document): Error {
    if Chosen(project, data, "") then Required else NotFound
  }

  lemma NewBinding(networks: map<GlobalKey, Document>, project: string, data: Document, columns: Document, env: Env)
    requires GetString(data, FName) != "" && columns.Keys !! {FId, FCreationTimestamp, FNetworkName}
    ensures var bound := NewBound(networks, project, data, columns, env);
            && (ChoosesStored(networks, project, data)
               <==> bound.Ok? && GlobalKey(project, bound.value.networkName) in networks)
            && (bound.Ok? ==>
                && Chosen(project, data, bound.value.networkName)
                && WrittenFor(bound.value.data, data, columns[FNetworkName := Str(bound.value.networkName)],
                   Defaults(env)))
            && (bound.Ok? && !ChoosesStored(networks, project, data) ==> GetString(data, FNetworkName) != "")
            && (bound.Err? ==> GetString(data, FNetworkName) == "" && bound.error == BindingError(project, data))
  {
    UnresolvedIsNotFound(project, GetString(data, FNetwork), "networks");
    hide ResolveSameProjectName, NewData, Defaults, WrittenFor;
    var bound := NewBound(networks, project, data, columns, env);
    if bound.Ok? {
      NewDataIsWritten(data, columns[FNetworkName := Str(bound.value.networkName)], env);
      if GlobalKey(project, bound.value.networkName) in networks {
        assert Chosen(project, data, bound.value.networkName) && bound.value.networkName != "";
      }
    }
  }

  /** A creation succeeds exactly when it names a free place and chooses a network that is there. */
  ghost predicate BoundCreation(result: Result<Document>, networks: map<GlobalKey, Document>, project: string,
                                data: Document, free: bool)
  {
    var name, stored := GetString(data, FName), ChoosesStored(networks, project, data);
    && (result.Ok? <==> name != "" && free && stored)
    && (result.Err? ==>
          result.error == if name == "" then Required
                          else if !stored && GetString(data, FNetworkName) == "" then BindingError(project, data)
                          else if !free then AlreadyExists
                          else NotFound)
  }

  /** A stored row as a creation leaves it: bound to the chosen network, its document the answer. */
  predicate BindsTo(row: Bound, answer: Document, project: string, data: Document, env: Env, columns: Document) {
    && row.data == answer && Chosen(project, data, row.networkName) && row.networkName != ""
    && WrittenFor(answer, data, columns[FNetworkName := Str(row.networkName)], Defaults(env))
  }

  /** What the three creations have in common: the row they make, and the outcome of storing it. */
  lemma NewBoundOutcome(networks: map<GlobalKey, Document>, project: string, data: Document, columns: Document,
                        env: Env, free: bool, result: Result<Document>)
    requires columns.Keys !! {FId, FCreationTimestamp, FNetworkName}
    requires var bound := NewBound(networks, project, data, columns, env);
             result == if bound.Err? then Err(bound.error)
                       else match InsertError(!free, GlobalKey(project, bound.value.networkName) in networks)
                            case Some(e) => Err(e)
                            case None => Ok(bound.value.data)
    ensures BoundCreation(result, networks, project, data, free)
    ensures result.Ok?
            ==> BindsTo(NewBound(networks, project, data, columns, env).value, result.value, project, data, env,
                columns)
  {
    if GetString(data, FName) == "" {
      NamelessIsRefused(networks, project, data, columns, env);
    } else {
      NewBinding(networks, project, data, columns, env);
      NewBoundIsCoherent(networks, project, data, columns, env);
    }
    hide NewBound, ChoosesStored, Chosen, BindingError, WrittenFor, Defaults;
  }

  lemma NamelessIsRefused(networks: map<GlobalKey, Document>, project: string, data: Document, columns: Document,
                          env: Env)
    requires GetString(data, FName) == ""
    ensures NewBound(networks, project, data, columns, env) == Err(Required)
  {
  }

  lemma SubnetworkCreation(db: ComputeDb, project: string, region: string, data: Document, env: Env)
    ensures var key := ScopedKey(project, region, GetString(data, FName));
            var out := Apply(db, CreateSubnetwork(project, region, data, env));
            && BoundCreation(out.result, db.networks, project, data, key !in db.subnetworks)
            && (out.result.Ok? ==>
                && key in out.db.subnetworks
                && out.db == db.(subnetworks := db.subnetworks[key := out.db.subnetworks[key]])
                && BindsTo(out.db.subnetworks[key], out.result.value, project, data, env,
                           map[FName := Str(key.name), FProject := Str(project), FRegion := Str(region)]))
  {
    hide NewBound, BoundCreation, BindsTo;
    var key := ScopedKey(project, region, GetString(data, FName));
    var columns: Document := map[FName := Str(key.name), FProject := Str(project), FRegion := Str(region)];
    assert ScopedStamps(project, FRegion, region, key.name) == columns;
    NewBoundOutcome(db.networks, project, data, columns, env, key !in db.subnetworks,
      Apply(db, CreateSubnetwork(project, region, data, env)).result);
  }

  lemma FirewallCreation(db: ComputeDb, project: string, data: Document, env: Env)
    ensures var key := GlobalKey(project, GetString(data, FName));
            var out := Apply(db, CreateFirewall(project, data, env));
            && BoundCreation(out.result, db.networks, project, data, key !in db.firewalls)
            && (out.result.Ok? ==>
                && key in out.db.firewalls
                && out.db == db.(firewalls := db.firewalls[key := out.db.firewalls[key]])
                && BindsTo(out.db.firewalls[key], out.result.value, project, data, env, Columns(project, key.name)))
  {
    hide NewBound, BoundCreation, BindsTo;
    var key := GlobalKey(project, GetString(data, FName));
    assert GlobalStamps(project, key.name) == Columns(project, key.name);
    NewBoundOutcome(db.networks, project, data, Columns(project, key.name), env, key !in db.firewalls,
      Apply(db, CreateFirewall(project, data, env)).result);
  }

  lemma RouterCreation(db: ComputeDb, project: string, region: string, data: Document, env: Env)
    ensures var key := ScopedKey(project, region, GetString(data, FName));
            var out := Apply(db, CreateRouter(project, region, data, env));
            && BoundCreation(out.result, db.networks, project, data, key !in db.routers)
            && (out.result.Ok? ==>
                && key in out.db.routers
                && out.db == db.(routers := db.routers[key := out.db.routers[key]])
                && BindsTo(out.db.routers[key], out.result.value, project, data, env,
                           map[FName := Str(key.name), FProject := Str(project), FRegion := Str(region)]))
  {
    hide NewBound, BoundCreation, BindsTo;
    var key := ScopedKey(project, region, GetString(data, FName));
    var columns: Document := map[FName := Str(key.name), FProject := Str(project), FRegion := Str(region)];
    assert ScopedStamps(project, FRegion, region, key.name) == columns;
    NewBoundOutcome(db.networks, project, data, columns, env, key !in db.routers,
      Apply(db, CreateRouter(project, region, data, env)).result);
  }

  // ------------------------------------------------------ patching bound rows

  /** The visible reference after the merge: a null leaves the stored one, anything else replaces it. */
  function MergedReference(current: Document, patch: Document): string {
    if FNetwork !in patch || patch[FNetwork] == Null then GetString(current, FNetwork) else GetString(patch, FNetwork)
  }

  /** An update succeeds exactly when the patch leaves the network alone or the merged reference resolves to
      one that is there; the row is bound to that one, or as it was. */
  predicate BoundUpdate(result: Result<Bound>, networks: map<GlobalKey, Document>, project: string, current: Bound,
                        patch: Document)
  {
    var ref := ResolveSameProjectName(project, MergedReference(current.data, patch), "networks");
    var found := ref.Ok? && ref.value != "" && GlobalKey(project, ref.value) in networks;
    && (result.Ok? <==> FNetwork !in patch || found)
    && (result.Err? ==> result.error == if ref == Ok("") then Required else NotFound)
    && (result.Ok? ==> result.value.networkName == if FNetwork in patch then ref.value else current.networkName)
  }

  /** The document of an updated row: its key, its network, and the patch on everything else. */
  ghost predicate PatchedRow(row: Bound, current: Bound, patch: Document, columns: Document) {
    && (forall f :: f in columns ==> f in row.data && row.data[f] == columns[f])
    && Says(row.data, FNetworkName, row.networkName)
    && TakesPatch(current.data, patch, columns.Keys + {FNetworkName}, row.data)
  }

  lemma ReferenceMerged(current: Document, patch: Document, skip: set<Field>)
    requires FNetwork !in skip
    ensures GetString(Merged(current, patch, skip), FNetwork) == MergedReference(current, patch)
  {
    MergeIsPointwise(current, patch, skip);
    assert PatchedAt(current, patch, Merged(current, patch, skip), FNetwork);
    hide Merged;
  }

  /** The merge as it is judged: key stamped, reference merged, the hidden field as it was. */
  lemma StampedMerge(current: Bound, patch: Document, columns: Document)
    requires columns.Keys !! {FNetwork, FNetworkName}
    requires GetString(current.data, FNetworkName) == current.networkName
    ensures var merged := Merged(current.data, patch, columns.Keys + {FNetworkName}) + columns;
            && GetString(merged, FNetwork) == MergedReference(current.data, patch)
            && GetString(merged, FNetworkName) == current.networkName
  {
    var skip := columns.Keys + {FNetworkName};
    ReferenceMerged(current.data, patch, skip);
    MergeIsPointwise(current.data, patch, skip);
    hide Merged, TakesPatch, MergedReference;
    assert FNetworkName in skip;
  }

  lemma PatchedBoundOutcome(networks: map<GlobalKey, Document>, project: string, current: Bound, patch: Document,
                            columns: Document)
    requires Coherent(networks, project, current) && columns.Keys !! {FNetwork, FNetworkName}
    ensures var bound := PatchedBound(networks, project, current.data, patch, columns);
            BoundUpdate(bound, networks, project, current, patch)
              && (bound.Ok? ==> PatchedRow(bound.value, current, patch, columns))
  {
    StampedMerge(current, patch, columns);
    UnresolvedIsNotFound(project, MergedReference(current.data, patch), "networks");
    PatchedBoundData(networks, project, current, patch, columns);
    hide Merged, ResolveSameProjectName, MergedReference, PatchedRow;
    var merged := Merged(current.data, patch, columns.Keys + {FNetworkName}) + columns;
    assert GetString(merged - {FNetworkName}, FNetwork) == GetString(merged, FNetwork);
  }

  lemma PatchedBoundData(networks: map<GlobalKey, Document>, project: string, current: Bound, patch: Document,
                         columns: Document)
    requires columns.Keys !! {FNetwork, FNetworkName}
    ensures var bound := PatchedBound(networks, project, current.data, patch, columns);
            bound.Ok? ==> PatchedRow(bound.value, current, patch, columns)
  {
    PatchedBoundParts(networks, project, current.data, patch, columns);
    StampedMergeApplies(current.data, patch, columns.Keys + {FNetworkName}, columns);
    hide Merged, PatchedBound, PatchedAt, BindingOf;
  }

  function Updated(answer: Result<Document>, row: Bound): Result<Bound> {
    match answer
    case Ok(_) => Ok(row)
    case Err(e) => Err(e)
  }

  lemma SubnetworkIsCoherent(db: ComputeDb, key: ScopedKey)
    requires Valid(db) && key in db.subnetworks
    ensures Coherent(db.networks, key.project, db.subnetworks[key])
  {
  }

  lemma SubnetworkUpdate(db: ComputeDb, project: string, region: string, name: string, patch: Document)
    requires Valid(db) && ScopedKey(project, region, name) in db.subnetworks
    ensures var key := ScopedKey(project, region, name);
            var out, current := Apply(db, UpdateSubnetwork(project, region, name, patch)), db.subnetworks[key];
            && key in out.db.subnetworks
            && var row := out.db.subnetworks[key];
               var columns := map[FName := Str(name), FProject := Str(project), FRegion := Str(region)];
               && BoundUpdate(Updated(out.result, row), db.networks, project, current, patch)
               && out.db == (if out.result.Ok? then db.(subnetworks := db.subnetworks[key := row]) else db)
               && (out.result.Ok? ==> out.result.value == row.data && PatchedRow(row, current, patch, columns))
  {
    hide ResolveSameProjectName, Merged, BoundUpdate, PatchedRow, Valid, Coherent;
    var key := ScopedKey(project, region, name);
    var columns: Document := map[FName := Str(name), FProject := Str(project), FRegion := Str(region)];
    assert ScopedStamps(project, FRegion, region, name) == columns;
    SubnetworkIsCoherent(db, key);
    PatchedBoundOutcome(db.networks, project, db.subnetworks[key], patch, columns);
    hide GlobalStamps, ScopedStamps, PatchedBound;
  }

  lemma FirewallIsCoherent(db: ComputeDb, key: GlobalKey)
    requires Valid(db) && key in db.firewalls
    ensures Coherent(db.networks, key.project, db.firewalls[key])
  {
  }

  lemma FirewallUpdate(db: ComputeDb, project: string, name: string, patch: Document)
    requires Valid(db) && GlobalKey(project, name) in db.firewalls
    ensures var key := GlobalKey(project, name);
            var out, current := Apply(db, UpdateFirewall(project, name, patch)), db.firewalls[key];
            && key in out.db.firewalls
            && var row := out.db.firewalls[key];
               var columns := Columns(project, name);
               && BoundUpdate(Updated(out.result, row), db.networks, project, current, patch)
               && out.db == (if out.result.Ok? then db.(firewalls := db.firewalls[key := row]) else db)
               && (out.result.Ok? ==> out.result.value == row.data && PatchedRow(row, current, patch, columns))
  {
    hide ResolveSameProjectName, Merged, BoundUpdate, PatchedRow, Valid, Coherent;
    var key := GlobalKey(project, name);
    var columns: Document := Columns(project, name);
    assert GlobalStamps(project, name) == columns;
    FirewallIsCoherent(db, key);
    PatchedBoundOutcome(db.networks, project, db.firewalls[key], patch, columns);
    hide GlobalStamps, ScopedStamps, PatchedBound;
  }

  lemma RouterIsCoherent(db: ComputeDb, key: ScopedKey)
    requires Valid(db) && key in db.routers
    ensures Coherent(db.networks, key.project, db.routers[key])
  {
  }

  lemma RouterUpdate(db: ComputeDb, project: string, region: string, name: string, patch: Document)
    requires Valid(db) && ScopedKey(project, region, name) in db.routers
    ensures var key := ScopedKey(project, region, name);
            var out, current := Apply(db, UpdateRouter(project, region, name, patch)), db.routers[key];
            && key in out.db.routers
            && var row := out.db.routers[key];
               var columns := map[FName := Str(name), FProject := Str(project), FRegion := Str(region)];
               && BoundUpdate(Updated(out.result, row), db.networks, project, current, patch)
               && out.db == (if out.result.Ok? then db.(routers := db.routers[key := row]) else db)
               && (out.result.Ok? ==> out.result.value == row.data && PatchedRow(row, current, patch, columns))
  {
    hide ResolveSameProjectName, Merged, BoundUpdate, PatchedRow, Valid, Coherent;
    var key := ScopedKey(project, region, name);
    var columns: Document := map[FName := Str(name), FProject := Str(project), FRegion := Str(region)];
    assert ScopedStamps(project, FRegion, region, name) == columns;
    RouterIsCoherent(db, key);
    PatchedBoundOutcome(db.networks, project, db.routers[key], patch, columns);
    hide GlobalStamps, ScopedStamps, PatchedBound;
  }

  /** There is nothing to update. */
  lemma MissingRows(db: ComputeDb, project: string, region: string, name: string, patch: Document)
    ensures ScopedKey(project, region, name) !in db.subnetworks ==>
              Apply(db, UpdateSubnetwork(project, region, name, patch)) == Outcome(db, Err(NotFound))
    ensures GlobalKey(project, name) !in db.firewalls ==>
              Apply(db, UpdateFirewall(project, name, patch)) == Outcome(db, Err(NotFound))
    ensures ScopedKey(project, region, name) !in db.routers ==>
              Apply(db, UpdateRouter(project, region, name, patch)) == Outcome(db, Err(NotFound))
  {
  }

  // -------------------------------------------------------------- admission

  /** The region a subnetwork reference is looked up in: the one it carries, else the one around the place. */
  ghost predicate LooksIn(location: string, subRef: string, region: string) {
    if exists r :: r != "" && NamesRegion(subRef, r) then region != "" && NamesRegion(subRef, region)
    else region == RegionFromZone(location)
  }

  lemma SubnetworkRegionIs(location: string, subRef: string, region: string)
    ensures LooksIn(location, subRef, region) <==> region == SubnetworkRegion(location, subRef)
  {
    var own := ExtractRegion(subRef);
    if own != "" { ExtractRegionIff(subRef, own); }
    if region != "" { ExtractRegionIff(subRef, region); }
    forall r | r != "" ensures NamesRegion(subRef, r) <==> own == r {
      ExtractRegionIff(subRef, r);
    }
    hide ExtractRegion, NamesRegion, RegionFromZone;
  }

  /** References a resource at a place may hold: the network exists if one is named, and the subnetwork, if
      one is referred to, exists in its region and hangs on that network. */
  ghost predicate Fits(db: ComputeDb, project: string, location: string, netRef: string, subRef: string) {
    var net, sub := ResolveSameProjectName(project, netRef, "networks"),
      ResolveSameProjectName(project, subRef, "subnetworks");
    && net.Ok? && (net.value != "" ==> GlobalKey(project, net.value) in db.networks)
    && (subRef != "" ==>
          && sub.Ok?
          && exists region :: region != "" && LooksIn(location, subRef, region) &&
               HangsOn(db, ScopedKey(project, region, sub.value), net.value))
  }

  predicate HangsOn(db: ComputeDb, key: ScopedKey, network: string) {
    key in db.subnetworks && (network != "" ==> db.subnetworks[key].networkName == network)
  }

  lemma FitsIff(db: ComputeDb, project: string, location: string, netRef: string, subRef: string)
    requires Valid(db)
    ensures RefsValid(db, project, location, netRef, subRef) <==> Fits(db, project, location, netRef, subRef)
  {
    var region := SubnetworkRegion(location, subRef);
    SubnetworkRegionIs(location, subRef, region);
    forall r ensures LooksIn(location, subRef, r) <==> r == region {
      SubnetworkRegionIs(location, subRef, r);
    }
    hide ResolveSameProjectName, SubnetworkRegion, LooksIn, FirewallsValid, RoutersValid, NatsValid;
  }

  lemma NicsAreListed(data: Document, nics: seq<Json>)
    requires Lists(data, FNetworkInterfaces, nics)
    ensures Nics(data) == nics
  {
  }

  /** Every network interface that is an object fits. */
  ghost predicate AllFit(db: ComputeDb, project: string, zone: string, nics: seq<Json>) {
    forall nic :: nic in nics && nic.Obj? ==>
      Fits(db, project, zone, GetString(nic.fields, FNetwork), GetString(nic.fields, FSubnetwork))
  }

  lemma AllFitIff(db: ComputeDb, project: string, zone: string, data: Document, nics: seq<Json>)
    requires Valid(db) && Lists(data, FNetworkInterfaces, nics)
    ensures NicsValid(db, project, zone, data) <==> AllFit(db, project, zone, nics)
  {
    NicsAreListed(data, nics);
    hide Nics, Lists, Valid, RefsValid, Fits;
    forall nic | nic in nics && nic.Obj?
      ensures NicValid(db, project, zone, nic)
              <==> Fits(db, project, zone, GetString(nic.fields, FNetwork), GetString(nic.fields, FSubnetwork))
    {
      FitsIff(db, project, zone, GetString(nic.fields, FNetwork), GetString(nic.fields, FSubnetwork));
    }
  }

  lemma InstanceCreation(db: ComputeDb, project: string, zone: string, data: Document, env: Env, nics: seq<Json>)
    requires Valid(db) && Lists(data, FNetworkInterfaces, nics)
    ensures var key := ScopedKey(project, zone, GetString(data, FName));
            var out := Apply(db, CreateInstance(project, zone, data, env));
            && (out.result.Ok? <==> key.name != "" && AllFit(db, project, zone, nics) && key !in db.instances)
            && (out.result.Err? ==> out.result.error == if key.name == "" then Required
                                      else if !AllFit(db, project, zone, nics) then NotFound else AlreadyExists)
            && (out.result.Ok? ==>
                && out.db == db.(instances := db.instances[key := out.result.value])
                && WrittenFor(out.result.value, data, Columns(project, key.name)[FZone := Str(zone)], Defaults(env)))
  {
    hide NicsValid, AllFit, NewData, WrittenFor, Defaults, Valid, Lists;
    AllFitIff(db, project, zone, data, nics);
    var columns := Columns(project, GetString(data, FName))[FZone := Str(zone)];
    NewDataIsWritten(data, columns, env);
    assert ScopedStamps(project, FZone, zone, GetString(data, FName)) == columns;
  }
}
