/** Networks and everything bound to them: subnetworks, firewalls, routers, router NATs and instances.
    One map per table; each transition is one repository operation (repository/repository.go). */
module Compute {
  import opened Wrappers
  import opened Json
  import opened Tables
  import opened References
  import opened Merge

  /** A row with a foreign-key column beside its document: the network is recorded twice. */
  datatype Bound = Bound(networkName: string, data: Document)

  datatype ComputeDb = ComputeDb(
    networks: map<GlobalKey, Document>,
    subnetworks: map<ScopedKey, Bound>,
    firewalls: map<GlobalKey, Bound>,
    routers: map<ScopedKey, Bound>,
    nats: map<NestedKey, Document>,
    instances: map<ScopedKey, Document>)

  const EMPTY := ComputeDb(map[], map[], map[], map[], map[], map[])

  datatype ComputeOp =
    | CreateNetwork(project: string, data: Document, env: Env)
    | UpdateNetwork(project: string, name: string, patch: Document)
    | DeleteNetwork(project: string, name: string)
    | CreateSubnetwork(project: string, region: string, data: Document, env: Env)
    | UpdateSubnetwork(project: string, region: string, name: string, patch: Document)
    | DeleteSubnetwork(project: string, region: string, name: string)
    | CreateFirewall(project: string, data: Document, env: Env)
    | UpdateFirewall(project: string, name: string, patch: Document)
    | DeleteFirewall(project: string, name: string)
    | CreateRouter(project: string, region: string, data: Document, env: Env)
    | UpdateRouter(project: string, region: string, name: string, patch: Document)
    | DeleteRouter(project: string, region: string, name: string)
    | CreateRouterNAT(project: string, region: string, router: string, data: Document, env: Env)
    | UpdateRouterNAT(project: string, region: string, router: string, name: string, patch: Document)
    | DeleteRouterNAT(project: string, region: string, router: string, name: string)
    | CreateInstance(project: string, zone: string, data: Document, env: Env)
    | DeleteInstance(project: string, zone: string, name: string)

  // ------------------------------------------------------------ building rows

  function GlobalStamps(project: string, name: string): Document {
    map[FName := Str(name), FProject := Str(project)]
  }

  function ScopedStamps(project: string, scopeField: Field, scope: string, name: string): Document {
    GlobalStamps(project, name)[scopeField := Str(scope)]
  }

  function NatStamps(project: string, region: string, router: string, name: string): Document {
    ScopedStamps(project, FRegion, region, name)[FRouterName := Str(router)]
  }

  function NewData(data: Document, stamps: Document, env: Env): Document {
    WithDefault(WithDefault(data + stamps, FId, env.id), FCreationTimestamp, env.now)
  }

  function ResolveExistingNetwork(networks: map<GlobalKey, Document>, project: string, ref: string): Result<string> {
    match ResolveSameProjectName(project, ref, "networks")
    case Err(e) => Err(e)
    case Ok(name) => if name == "" || GlobalKey(project, name) in networks then Ok(name) else Err(NotFound)
  }

  /** The network a row is to be bound to: the hidden field when it is set, else the visible reference. */
  function BindingOf(networks: map<GlobalKey, Document>, project: string, data: Document): Result<string> {
    if GetString(data, FNetworkName) != "" then Ok(GetString(data, FNetworkName))
    else
      match ResolveExistingNetwork(networks, project, GetString(data, FNetwork))
      case Err(e) => Err(e)
      case Ok(name) => if name == "" then Err(Required) else Ok(name)
  }

  function NewBound(networks: map<GlobalKey, Document>, project: string, data: Document, stamps: Document,
                    env: Env): Result<Bound> {
    if GetString(data, FName) == "" then Err(Required)
    else
      match BindingOf(networks, project, data)
      case Err(e) => Err(e)
      case Ok(name) => Ok(Bound(name, NewData(data, stamps[FNetworkName := Str(name)], env)))
  }

  /** A patch that mentions `network` re-derives the hidden field from the merged reference. */
  function PatchedBound(networks: map<GlobalKey, Document>, project: string, current: Document, patch: Document,
                        stamps: Document): Result<Bound> {
    var merged := Merged(current, patch, stamps.Keys + {FNetworkName}) + stamps;
    var binding := BindingOf(networks, project, if FNetwork in patch then merged - {FNetworkName} else merged);
    match binding
    case Err(e) => Err(e)
    case Ok(name) =>
      if GlobalKey(project, name) in networks then Ok(Bound(name, merged[FNetworkName := Str(name)])) else Err(NotFound)
  }

  // ------------------------------------------------------ admission of NICs

  /** The region a subnetwork reference is looked up in: its own, else the one around `location`. */
  function SubnetworkRegion(location: string, subRef: string): string {
    if ExtractRegion(subRef) != "" then ExtractRegion(subRef) else RegionFromZone(location)
  }

  predicate RefsValid(db: ComputeDb, project: string, location: string, netRef: string, subRef: string) {
    match ResolveExistingNetwork(db.networks, project, netRef)
    case Err(_) => false
    case Ok(netName) =>
      subRef == "" ||
      match ResolveSameProjectName(project, subRef, "subnetworks")
      case Err(_) => false
      case Ok(subName) =>
        var region := SubnetworkRegion(location, subRef);
        var key := ScopedKey(project, region, subName);
        region != "" && key in db.subnetworks &&
        (netName == "" || GetString(db.subnetworks[key].data, FNetworkName) in {"", netName})
  }

  function Nics(data: Document): seq<Json> {
    if FNetworkInterfaces in data && data[FNetworkInterfaces].Arr? then data[FNetworkInterfaces].items else []
  }

  predicate NicValid(db: ComputeDb, project: string, zone: string, nic: Json) {
    nic.Obj? ==> RefsValid(db, project, zone, GetString(nic.fields, FNetwork), GetString(nic.fields, FSubnetwork))
  }

  predicate NicsValid(db: ComputeDb, project: string, zone: string, data: Document) {
    forall nic :: nic in Nics(data) ==> NicValid(db, project, zone, nic)
  }

  // -------------------------------------------------------------- transitions

  predicate NetworkInUse(db: ComputeDb, project: string, name: string) {
    || (exists k :: k in db.subnetworks && k.project == project && db.subnetworks[k].networkName == name)
    || (exists k :: k in db.firewalls && k.project == project && db.firewalls[k].networkName == name)
    || (exists k :: k in db.routers && k.project == project && db.routers[k].networkName == name)
  }

  function Fail<D>(db: D, e: Error): Outcome<D> {
    Outcome(db, Err(e))
  }

  function InsertNetwork(db: ComputeDb, project: string, data: Document, env: Env): Outcome<ComputeDb> {
    var name := GetString(data, FName);
    var key := GlobalKey(project, name);
    if name == "" then Fail(db, Required)
    else if key in db.networks then Fail(db, AlreadyExists)
    else
      var row := NewData(data, GlobalStamps(project, name), env);
      Outcome(db.(networks := db.networks[key := row]), Ok(row))
  }

  function PatchNetwork(db: ComputeDb, project: string, name: string, patch: Document): Outcome<ComputeDb> {
    var key, stamps := GlobalKey(project, name), GlobalStamps(project, name);
    if key !in db.networks then Fail(db, NotFound)
    else
      var row := Merged(db.networks[key], patch, stamps.Keys) + stamps;
      Outcome(db.(networks := db.networks[key := row]), Ok(row))
  }

  /** NO ACTION: a network with bound rows stays. */
  function RemoveNetwork(db: ComputeDb, project: string, name: string): Outcome<ComputeDb> {
    var key := GlobalKey(project, name);
    if NetworkInUse(db, project, name) then Fail(db, InUse)
    else if key !in db.networks then Fail(db, NotFound)
    else Outcome(db.(networks := db.networks - {key}), Ok(map[]))
  }

  function InsertSubnetwork(db: ComputeDb, project: string, region: string, data: Document,
                            env: Env): Outcome<ComputeDb> {
    var key := ScopedKey(project, region, GetString(data, FName));
    match NewBound(db.networks, project, data, ScopedStamps(project, FRegion, region, key.name), env)
    case Err(e) => Fail(db, e)
    case Ok(row) =>
      match InsertError(key in db.subnetworks, GlobalKey(project, row.networkName) in db.networks)
      case Some(e) => Fail(db, e)
      case None => Outcome(db.(subnetworks := db.subnetworks[key := row]), Ok(row.data))
  }

  function PatchSubnetwork(db: ComputeDb, project: string, region: string, name: string,
                           patch: Document): Outcome<ComputeDb> {
    var key := ScopedKey(project, region, name);
    if key !in db.subnetworks then Fail(db, NotFound)
    else
      match PatchedBound(db.networks, project, db.subnetworks[key].data, patch,
        ScopedStamps(project, FRegion, region, name))
      case Err(e) => Fail(db, e)
      case Ok(row) => Outcome(db.(subnetworks := db.subnetworks[key := row]), Ok(row.data))
  }

  function RemoveSubnetwork(db: ComputeDb, project: string, region: string, name: string): Outcome<ComputeDb> {
    var key := ScopedKey(project, region, name);
    if key !in db.subnetworks then Fail(db, NotFound)
    else Outcome(db.(subnetworks := db.subnetworks - {key}), Ok(map[]))
  }

  function InsertFirewall(db: ComputeDb, project: string, data: Document, env: Env): Outcome<ComputeDb> {
    var key := GlobalKey(project, GetString(data, FName));
    match NewBound(db.networks, project, data, GlobalStamps(project, key.name), env)
    case Err(e) => Fail(db, e)
    case Ok(row) =>
      match InsertError(key in db.firewalls, GlobalKey(project, row.networkName) in db.networks)
      case Some(e) => Fail(db, e)
      case None => Outcome(db.(firewalls := db.firewalls[key := row]), Ok(row.data))
  }

  function PatchFirewall(db: ComputeDb, project: string, name: string, patch: Document): Outcome<ComputeDb> {
    var key := GlobalKey(project, name);
    if key !in db.firewalls then Fail(db, NotFound)
    else
      match PatchedBound(db.networks, project, db.firewalls[key].data, patch, GlobalStamps(project, name))
      case Err(e) => Fail(db, e)
      case Ok(row) => Outcome(db.(firewalls := db.firewalls[key := row]), Ok(row.data))
  }

  function RemoveFirewall(db: ComputeDb, project: string, name: string): Outcome<ComputeDb> {
    var key := GlobalKey(project, name);
    if key !in db.firewalls then Fail(db, NotFound)
    else Outcome(db.(firewalls := db.firewalls - {key}), Ok(map[]))
  }

  function InsertRouter(db: ComputeDb, project: string, region: string, data: Document, env: Env): Outcome<ComputeDb> {
    var key := ScopedKey(project, region, GetString(data, FName));
    match NewBound(db.networks, project, data, ScopedStamps(project, FRegion, region, key.name), env)
    case Err(e) => Fail(db, e)
    case Ok(row) =>
      match InsertError(key in db.routers, GlobalKey(project, row.networkName) in db.networks)
      case Some(e) => Fail(db, e)
      case None => Outcome(db.(routers := db.routers[key := row]), Ok(row.data))
  }

  function PatchRouter(db: ComputeDb, project: string, region: string, name: string,
                       patch: Document): Outcome<ComputeDb> {
    var key := ScopedKey(project, region, name);
    if key !in db.routers then Fail(db, NotFound)
    else
      match PatchedBound(db.networks, project, db.routers[key].data, patch,
        ScopedStamps(project, FRegion, region, name))
      case Err(e) => Fail(db, e)
      case Ok(row) => Outcome(db.(routers := db.routers[key := row]), Ok(row.data))
  }

  function RemoveRouter(db: ComputeDb, project: string, region: string, name: string): Outcome<ComputeDb> {
    var key := ScopedKey(project, region, name);
    if key !in db.routers then Fail(db, NotFound)
    else Outcome(db.(routers := db.routers - {key}, nats := WithoutChildren(db.nats, key)), Ok(map[]))
  }

  function InsertNat(db: ComputeDb, project: string, region: string, router: string, data: Document,
                     env: Env): Outcome<ComputeDb> {
    var name := GetString(data, FName);
    var key := NestedKey(project, region, router, name);
    if name == "" then Fail(db, Required)
    else
      match InsertError(key in db.nats, ParentOf(key) in db.routers)
      case Some(e) => Fail(db, e)
      case None =>
        var row := NewData(data, NatStamps(project, region, router, name), env);
        Outcome(db.(nats := db.nats[key := row]), Ok(row))
  }

  function PatchNat(db: ComputeDb, project: string, region: string, router: string, name: string,
                    patch: Document): Outcome<ComputeDb> {
    var key, stamps := NestedKey(project, region, router, name), NatStamps(project, region, router, name);
    if key !in db.nats then Fail(db, NotFound)
    else
      var row := Merged(db.nats[key], patch, stamps.Keys) + stamps;
      Outcome(db.(nats := db.nats[key := row]), Ok(row))
  }

  function RemoveNat(db: ComputeDb, project: string, region: string, router: string, name: string): Outcome<ComputeDb> {
    var key := NestedKey(project, region, router, name);
    if key !in db.nats then Fail(db, NotFound)
    else Outcome(db.(nats := db.nats - {key}), Ok(map[]))
  }

  function InsertInstance(db: ComputeDb, project: string, zone: string, data: Document, env: Env): Outcome<ComputeDb> {
    var name := GetString(data, FName);
    var key := ScopedKey(project, zone, name);
    if name == "" then Fail(db, Required)
    else if !NicsValid(db, project, zone, data) then Fail(db, NotFound)
    else if key in db.instances then Fail(db, AlreadyExists)
    else
      var row := NewData(data, ScopedStamps(project, FZone, zone, name), env);
      Outcome(db.(instances := db.instances[key := row]), Ok(row))
  }

  function RemoveInstance(db: ComputeDb, project: string, zone: string, name: string): Outcome<ComputeDb> {
    var key := ScopedKey(project, zone, name);
    if key !in db.instances then Fail(db, NotFound)
    else Outcome(db.(instances := db.instances - {key}), Ok(map[]))
  }

  function Apply(db: ComputeDb, op: ComputeOp): Outcome<ComputeDb> {
    match op
    case CreateNetwork(project, data, env) => InsertNetwork(db, project, data, env)
    case UpdateNetwork(project, name, patch) => PatchNetwork(db, project, name, patch)
    case DeleteNetwork(project, name) => RemoveNetwork(db, project, name)
    case CreateSubnetwork(project, region, data, env) => InsertSubnetwork(db, project, region, data, env)
    case UpdateSubnetwork(project, region, name, patch) => PatchSubnetwork(db, project, region, name, patch)
    case DeleteSubnetwork(project, region, name) => RemoveSubnetwork(db, project, region, name)
    case CreateFirewall(project, data, env) => InsertFirewall(db, project, data, env)
    case UpdateFirewall(project, name, patch) => PatchFirewall(db, project, name, patch)
    case DeleteFirewall(project, name) => RemoveFirewall(db, project, name)
    case CreateRouter(project, region, data, env) => InsertRouter(db, project, region, data, env)
    case UpdateRouter(project, region, name, patch) => PatchRouter(db, project, region, name, patch)
    case DeleteRouter(project, region, name) => RemoveRouter(db, project, region, name)
    case CreateRouterNAT(project, region, router, data, env) => InsertNat(db, project, region, router, data, env)
    case UpdateRouterNAT(project, region, router, name, patch) => PatchNat(db, project, region, router, name, patch)
    case DeleteRouterNAT(project, region, router, name) => RemoveNat(db, project, region, router, name)
    case CreateInstance(project, zone, data, env) => InsertInstance(db, project, zone, data, env)
    case DeleteInstance(project, zone, name) => RemoveInstance(db, project, zone, name)
  }

  function ParentOf(key: NestedKey): ScopedKey {
    ScopedKey(key.project, key.scope, key.parent)
  }

  /** ON DELETE CASCADE: the children of `parent` go with it. */
  function WithoutChildren<V>(children: map<NestedKey, V>, parent: ScopedKey): map<NestedKey, V> {
    map k | k in children && ParentOf(k) != parent :: children[k]
  }

  // --------------------------------------------------------------- invariants

  predicate Coherent(networks: map<GlobalKey, Document>, project: string, row: Bound) {
    && GlobalKey(project, row.networkName) in networks
    && row.networkName != ""
    && GetString(row.data, FNetworkName) == row.networkName
  }

  ghost predicate SubnetworksValid(networks: map<GlobalKey, Document>, rows: map<ScopedKey, Bound>) {
    forall k :: k in rows ==> k.name != "" && Coherent(networks, k.project, rows[k])
  }

  ghost predicate FirewallsValid(networks: map<GlobalKey, Document>, rows: map<GlobalKey, Bound>) {
    forall k :: k in rows ==> Coherent(networks, k.project, rows[k])
  }

  ghost predicate RoutersValid(networks: map<GlobalKey, Document>, rows: map<ScopedKey, Bound>) {
    forall k :: k in rows ==> Coherent(networks, k.project, rows[k])
  }

  ghost predicate NatsValid(routers: map<ScopedKey, Bound>, rows: map<NestedKey, Document>) {
    forall k :: k in rows ==> ParentOf(k) in routers
  }

  /** Parents exist, names are not empty, and the foreign-key column repeats the stored network_name. */
  ghost predicate Valid(db: ComputeDb) {
    && (forall k :: k in db.networks ==> k.name != "")
    && SubnetworksValid(db.networks, db.subnetworks)
    && FirewallsValid(db.networks, db.firewalls)
    && RoutersValid(db.networks, db.routers)
    && NatsValid(db.routers, db.nats)
  }

  lemma NewDataKeeps(data: Document, stamps: Document, env: Env)
    ensures forall k :: k in stamps && stamps[k].Str? && stamps[k].s != "" ==>
            k in NewData(data, stamps, env) && NewData(data, stamps, env)[k] == stamps[k]
    ensures forall k :: k !in stamps && k !in {FId, FCreationTimestamp} ==>
              (k in data <==> k in NewData(data, stamps, env))
                && (k in data ==> NewData(data, stamps, env)[k] == data[k])
  {
  }

  lemma NewBoundIsCoherent(networks: map<GlobalKey, Document>, project: string, data: Document, stamps: Document,
                           env: Env)
    ensures match NewBound(networks, project, data, stamps, env)
            case Err(_) => true
            case Ok(row) => row.networkName != "" && GetString(row.data, FNetworkName) == row.networkName
  {
    if NewBound(networks, project, data, stamps, env).Ok? {
      var name := BindingOf(networks, project, data).value;
      NewDataKeeps(data, stamps[FNetworkName := Str(name)], env);
    }
  }

  lemma InsertNetworkKeepsValid(db: ComputeDb, project: string, data: Document, env: Env)
    requires Valid(db)
    ensures Valid(InsertNetwork(db, project, data, env).db)
  {
  }

  lemma PatchNetworkKeepsValid(db: ComputeDb, project: string, name: string, patch: Document)
    requires Valid(db)
    ensures Valid(PatchNetwork(db, project, name, patch).db)
  {
  }

  lemma RemoveNetworkKeepsValid(db: ComputeDb, project: string, name: string)
    requires Valid(db)
    ensures Valid(RemoveNetwork(db, project, name).db)
  {
  }

  lemma InsertSubnetworkKeepsValid(db: ComputeDb, project: string, region: string, data: Document, env: Env)
    requires Valid(db)
    ensures Valid(InsertSubnetwork(db, project, region, data, env).db)
  {
    NewBoundIsCoherent(db.networks, project, data, ScopedStamps(project, FRegion, region, GetString(data, FName)), env);
    hide NewData, BindingOf;
  }

  lemma PatchSubnetworkKeepsValid(db: ComputeDb, project: string, region: string, name: string, patch: Document)
    requires Valid(db)
    ensures Valid(PatchSubnetwork(db, project, region, name, patch).db)
  {
    hide Merged, ResolveExistingNetwork;
  }

  lemma InsertFirewallKeepsValid(db: ComputeDb, project: string, data: Document, env: Env)
    requires Valid(db)
    ensures Valid(InsertFirewall(db, project, data, env).db)
  {
    NewBoundIsCoherent(db.networks, project, data, GlobalStamps(project, GetString(data, FName)), env);
    hide NewData, BindingOf;
  }

  lemma PatchFirewallKeepsValid(db: ComputeDb, project: string, name: string, patch: Document)
    requires Valid(db)
    ensures Valid(PatchFirewall(db, project, name, patch).db)
  {
    hide Merged, ResolveExistingNetwork;
  }

  lemma InsertRouterKeepsValid(db: ComputeDb, project: string, region: string, data: Document, env: Env)
    requires Valid(db)
    ensures Valid(InsertRouter(db, project, region, data, env).db)
  {
    NewBoundIsCoherent(db.networks, project, data, ScopedStamps(project, FRegion, region, GetString(data, FName)), env);
    hide NewData, BindingOf;
  }

  lemma PatchRouterKeepsValid(db: ComputeDb, project: string, region: string, name: string, patch: Document)
    requires Valid(db)
    ensures Valid(PatchRouter(db, project, region, name, patch).db)
  {
    hide Merged, ResolveExistingNetwork;
  }

  lemma RemoveRouterKeepsValid(db: ComputeDb, project: string, region: string, name: string)
    requires Valid(db)
    ensures Valid(RemoveRouter(db, project, region, name).db)
  {
  }

  lemma InsertNatKeepsValid(db: ComputeDb, project: string, region: string, router: string, data: Document, env: Env)
    requires Valid(db)
    ensures Valid(InsertNat(db, project, region, router, data, env).db)
  {
  }

  lemma PatchNatKeepsValid(db: ComputeDb, project: string, region: string, router: string, name: string,
                           patch: Document)
    requires Valid(db)
    ensures Valid(PatchNat(db, project, region, router, name, patch).db)
  {
  }

  lemma RemovalsKeepValid(db: ComputeDb, project: string, region: string, router: string, name: string)
    requires Valid(db)
    ensures Valid(RemoveSubnetwork(db, project, region, name).db)
    ensures Valid(RemoveFirewall(db, project, name).db)
    ensures Valid(RemoveNat(db, project, region, router, name).db)
  {
  }

  lemma InstancesKeepValid(db: ComputeDb, project: string, zone: string, name: string, data: Document, env: Env)
    requires Valid(db)
    ensures Valid(InsertInstance(db, project, zone, data, env).db)
    ensures Valid(RemoveInstance(db, project, zone, name).db)
  {
    hide NicsValid, NewData, SubnetworksValid, FirewallsValid, RoutersValid, NatsValid;
  }

  /** Every operation keeps every parent, coherent binding and name in place. */
  lemma StepKeepsValid(db: ComputeDb, op: ComputeOp)
    requires Valid(db)
    ensures Valid(Apply(db, op).db)
  {
    hide InsertNetwork, PatchNetwork, RemoveNetwork, InsertSubnetwork, PatchSubnetwork, RemoveSubnetwork,
         InsertFirewall, PatchFirewall, RemoveFirewall, InsertRouter, PatchRouter, RemoveRouter,
         InsertNat, PatchNat, RemoveNat, InsertInstance, RemoveInstance, Valid;
    match op
    case CreateNetwork(p, data, env) => InsertNetworkKeepsValid(db, p, data, env);
    case UpdateNetwork(p, name, patch) => PatchNetworkKeepsValid(db, p, name, patch);
    case DeleteNetwork(p, name) => RemoveNetworkKeepsValid(db, p, name);
    case CreateSubnetwork(p, r, data, env) => InsertSubnetworkKeepsValid(db, p, r, data, env);
    case UpdateSubnetwork(p, r, name, patch) => PatchSubnetworkKeepsValid(db, p, r, name, patch);
    case CreateFirewall(p, data, env) => InsertFirewallKeepsValid(db, p, data, env);
    case UpdateFirewall(p, name, patch) => PatchFirewallKeepsValid(db, p, name, patch);
    case CreateRouter(p, r, data, env) => InsertRouterKeepsValid(db, p, r, data, env);
    case UpdateRouter(p, r, name, patch) => PatchRouterKeepsValid(db, p, r, name, patch);
    case DeleteRouter(p, r, name) => RemoveRouterKeepsValid(db, p, r, name);
    case CreateRouterNAT(p, r, router, data, env) => InsertNatKeepsValid(db, p, r, router, data, env);
    case DeleteSubnetwork(p, r, name) => RemovalsKeepValid(db, p, r, "", name);
    case DeleteFirewall(p, name) => RemovalsKeepValid(db, p, "", "", name);
    case UpdateRouterNAT(p, r, router, name, patch) => PatchNatKeepsValid(db, p, r, router, name, patch);
    case DeleteRouterNAT(p, r, router, name) => RemovalsKeepValid(db, p, r, router, name);
    case CreateInstance(p, z, data, env) => InstancesKeepValid(db, p, z, "", data, env);
    case DeleteInstance(p, z, name) => InstancesKeepValid(db, p, z, name, map[], Env("", ""));
  }

  /** A rejected operation changes no table. */
  lemma RejectedStepChangesNothing(db: ComputeDb, op: ComputeOp)
    requires Apply(db, op).result.Err?
    ensures Apply(db, op).db == db
  {
  }

  // -------------------------------------------------------- repeating an update

  /** What a patched row is: merged, stamped, and bound to a network that is there. */
  lemma PatchedBoundParts(networks: map<GlobalKey, Document>, project: string, current: Document, patch: Document,
                          stamps: Document)
    ensures var bound := PatchedBound(networks, project, current, patch, stamps);
            bound.Ok? ==>
            var name, merged := bound.value.networkName, Merged(current, patch, stamps.Keys + {FNetworkName}) + stamps;
            && name != "" && GlobalKey(project, name) in networks
            && bound.value.data == merged[FNetworkName := Str(name)]
            && BindingOf(networks, project, if FNetwork in patch then merged - {FNetworkName} else merged) == Ok(name)
  {
    hide Merged, ResolveSameProjectName;
  }

  /** A row that shows its network is bound to it, and dropping the field leaves the visible reference. */
  lemma BindingShown(networks: map<GlobalKey, Document>, project: string, data: Document, name: string)
    requires name != ""
    ensures var row := data[FNetworkName := Str(name)];
            && BindingOf(networks, project, row) == Ok(name)
            && row[FNetworkName := Str(name)] == row
            && row - {FNetworkName} == data - {FNetworkName}
  {
    hide ResolveExistingNetwork;
  }

  /** Patching a bound row twice is patching it once, the re-derived network included. */
  lemma PatchedBoundIsIdempotent(networks: map<GlobalKey, Document>, project: string, current: Document,
                                 patch: Document, stamps: Document)
    requires FNetworkName !in stamps && FNetwork !in stamps
    ensures var once := PatchedBound(networks, project, current, patch, stamps);
            once.Ok? ==> PatchedBound(networks, project, once.value.data, patch, stamps) == once
  {
    PatchedBoundParts(networks, project, current, patch, stamps);
    var once := PatchedBound(networks, project, current, patch, stamps);
    if once.Ok? {
      var name, skip := once.value.networkName, stamps.Keys + {FNetworkName};
      MergeAbsorbsSkipped(current, patch, skip, stamps, FNetworkName, Str(name));
      BindingShown(networks, project, Merged(current, patch, skip) + stamps, name);
      hide Merged, BindingOf;
    }
  }

  predicate IsUpdate(op: ComputeOp) {
    op.UpdateNetwork? || op.UpdateSubnetwork? || op.UpdateFirewall? || op.UpdateRouter? || op.UpdateRouterNAT?
  }

  lemma RewritingIsIdempotent<K, V>(table: map<K, V>, key: K, row: V)
    ensures table[key := row][key := row] == table[key := row]
  {
  }

  lemma NetworkUpdatesAreIdempotent(db: ComputeDb, op: ComputeOp)
    requires (op.UpdateNetwork? || op.UpdateRouterNAT?) && Apply(db, op).result.Ok?
    ensures var once := Apply(db, op); Apply(once.db, op) == once
  {
    var row := Apply(db, op).result.value;
    if op.UpdateNetwork? {
      var key, stamps := GlobalKey(op.project, op.name), GlobalStamps(op.project, op.name);
      StampedMergeIsIdempotent(db.networks[key], op.patch, stamps.Keys, stamps);
      RewritingIsIdempotent(db.networks, key, row);
    } else {
      var key, stamps := NestedKey(op.project, op.region, op.router, op.name),
        NatStamps(op.project, op.region, op.router, op.name);
      StampedMergeIsIdempotent(db.nats[key], op.patch, stamps.Keys, stamps);
      RewritingIsIdempotent(db.nats, key, row);
    }
  }

  lemma BoundUpdatesAreIdempotent(db: ComputeDb, op: ComputeOp)
    requires (op.UpdateSubnetwork? || op.UpdateFirewall? || op.UpdateRouter?) && Apply(db, op).result.Ok?
    ensures var once := Apply(db, op); Apply(once.db, op) == once
  {
    var once := Apply(db, op).db;
    match op
    case UpdateSubnetwork(project, region, name, patch) =>
      var key, stamps := ScopedKey(project, region, name), ScopedStamps(project, FRegion, region, name);
      PatchedBoundIsIdempotent(db.networks, project, db.subnetworks[key].data, patch, stamps);
      hide PatchedBound;
      RewritingIsIdempotent(db.subnetworks, key, once.subnetworks[key]);
    case UpdateFirewall(project, name, patch) =>
      var key, stamps := GlobalKey(project, name), GlobalStamps(project, name);
      PatchedBoundIsIdempotent(db.networks, project, db.firewalls[key].data, patch, stamps);
      hide PatchedBound;
      RewritingIsIdempotent(db.firewalls, key, once.firewalls[key]);
    case UpdateRouter(project, region, name, patch) =>
      var key, stamps := ScopedKey(project, region, name), ScopedStamps(project, FRegion, region, name);
      PatchedBoundIsIdempotent(db.networks, project, db.routers[key].data, patch, stamps);
      hide PatchedBound;
      RewritingIsIdempotent(db.routers, key, once.routers[key]);
  }

  /** A successful update repeated with the same patch succeeds with the same document and changes nothing. */
  lemma UpdatesAreIdempotent(db: ComputeDb, op: ComputeOp)
    requires IsUpdate(op) && Apply(db, op).result.Ok?
    ensures var once := Apply(db, op); Apply(once.db, op) == once
  {
    hide Apply;
    if op.UpdateNetwork? || op.UpdateRouterNAT? {
      NetworkUpdatesAreIdempotent(db, op);
    } else {
      BoundUpdatesAreIdempotent(db, op);
    }
  }

  // -------------------------------------------- the network a row shows agrees

  /** The visible reference names the network of the foreign-key column. */
  predicate Agrees(project: string, row: Bound) {
    ResolveSameProjectName(project, GetString(row.data, FNetwork), "networks") == Ok(row.networkName)
  }

  /** A new row agrees exactly when the client left the hidden field to the server, or guessed it right. */
  lemma NewBoundAgreesIff(networks: map<GlobalKey, Document>, project: string, data: Document, stamps: Document,
                          env: Env)
    requires FNetwork !in stamps
    ensures var supplied := GetString(data, FNetworkName);
            NewBound(networks, project, data, stamps, env).Ok? ==>
            (Agrees(project, NewBound(networks, project, data, stamps, env).value)
             <==> supplied == ""
                  || ResolveSameProjectName(project, GetString(data, FNetwork), "networks") == Ok(supplied))
  {
    if NewBound(networks, project, data, stamps, env).Err? { return; }
    var name := BindingOf(networks, project, data).value;
    var row := NewBound(networks, project, data, stamps, env).value;
    NewDataKeeps(data, stamps[FNetworkName := Str(name)], env);
    assert GetString(row.data, FNetwork) == GetString(data, FNetwork);
  }

  /** A patched row agrees exactly when the patch mentions the network, or the row agreed before. */
  lemma PatchedBoundAgreesIff(networks: map<GlobalKey, Document>, project: string, row: Bound, patch: Document,
                              stamps: Document)
    requires Coherent(networks, project, row)
    requires FNetwork !in stamps && FNetworkName !in stamps
    ensures PatchedBound(networks, project, row.data, patch, stamps).Ok? ==>
              (Agrees(project, PatchedBound(networks, project, row.data, patch, stamps).value)
               <==> FNetwork in patch || Agrees(project, row))
  {
  }

  // ---------------------------------------------------- what admission means

  predicate IsNetwork(db: ComputeDb, project: string, ref: string, name: string) {
    ResolveSameProjectName(project, ref, "networks") == Ok(name) && name != ""
      && GlobalKey(project, name) in db.networks
  }

  /** An admitted network reference stands for an existing network exactly when it names one at all: the
      empty reference does not, nor does one that leads to an empty segment. */
  lemma AdmittedNetworkExistsIff(db: ComputeDb, project: string, ref: string)
    requires ResolveExistingNetwork(db.networks, project, ref).Ok?
    ensures (exists name :: IsNetwork(db, project, ref, name)) <==> NamesOne(ref, "networks")
  {
    hide ResolveSameProjectName, NamesOne;
    ResolvesToANameIff(project, ref, "networks");
    var name := ResolveSameProjectName(project, ref, "networks").value;
    if name != "" { assert IsNetwork(db, project, ref, name); }
  }

  /** The references point at rows that exist and belong together, read off the foreign-key columns.
      A network reference that names nothing constrains nothing. */
  ghost predicate Attached(db: ComputeDb, project: string, location: string, netRef: string, subRef: string) {
    var net := ResolveSameProjectName(project, netRef, "networks");
    && net.Ok?
    && (NamesOne(netRef, "networks") ==> IsNetwork(db, project, netRef, net.value))
    && (subRef != "" ==>
        var sub := ResolveSameProjectName(project, subRef, "subnetworks");
        && sub.Ok?
        && var key := ScopedKey(project, SubnetworkRegion(location, subRef), sub.value);
        && key in db.subnetworks && key.scope != "" && key.name != ""
        && GlobalKey(project, db.subnetworks[key].networkName) in db.networks
        && (NamesOne(netRef, "networks") ==> db.subnetworks[key].networkName == net.value))
  }

  lemma ValidRefsAreAttached(db: ComputeDb, project: string, location: string, netRef: string, subRef: string)
    requires Valid(db)
    ensures RefsValid(db, project, location, netRef, subRef)
            <==> Attached(db, project, location, netRef, subRef)
                 && (subRef != "" ==> SubnetworkRegion(location, subRef) != "")
  {
    hide ResolveSameProjectName, NamesOne, FirewallsValid, RoutersValid, NatsValid;
    if ResolveSameProjectName(project, netRef, "networks").Ok? { ResolvesToANameIff(project, netRef, "networks"); }
  }

  ghost predicate InstanceAttached(db: ComputeDb, key: ScopedKey, data: Document) {
    forall nic :: nic in Nics(data) && nic.Obj? ==>
      Attached(db, key.project, key.scope, GetString(nic.fields, FNetwork), GetString(nic.fields, FSubnetwork))
  }

  /** A created instance is stored with every NIC attached; one NIC that is not makes the creation fail. */
  lemma CreatedInstanceIsAttached(db: ComputeDb, project: string, zone: string, data: Document, env: Env)
    requires Valid(db) && GetString(data, FName) != ""
    ensures var key := ScopedKey(project, zone, GetString(data, FName));
            var out := InsertInstance(db, project, zone, data, env);
            && (out.result.Ok? <==> key !in db.instances && InstanceAttached(db, key, data))
            && (out.result.Ok? ==> key in out.db.instances && InstanceAttached(out.db, key, out.db.instances[key]))
  {
    var name := GetString(data, FName);
    var key := ScopedKey(project, zone, name);
    forall nic | nic in Nics(data) && nic.Obj?
      ensures NicValid(db, project, zone, nic)
              <==> Attached(db, project, zone, GetString(nic.fields, FNetwork), GetString(nic.fields, FSubnetwork))
    {
      ValidRefsAreAttached(db, project, zone, GetString(nic.fields, FNetwork), GetString(nic.fields, FSubnetwork));
    }
    NewDataKeeps(data, ScopedStamps(project, FZone, zone, name), env);
    assert Nics(NewData(data, ScopedStamps(project, FZone, zone, name), env)) == Nics(data);
  }

  /** The code does not demand that a network reference names a network. In a store without networks a
      reference below "networks/" is admitted exactly when the segment behind it is empty: "networks/" and
      "networks//x" are, "networks/vpc" and "networks/vpc/" are not. */
  lemma EmptySegmentIsAdmittedIff(project: string, zone: string, tail: string)
    requires Text.Index(tail, "://") < 0
    ensures RefsValid(EMPTY, project, zone, "networks/" + tail, "") <==> Text.Split(tail, '/')[0] == ""
  {
    hide ResolveSameProjectName;
    RelativeRefResolves(project, "networks", tail);
    assert "networks" + "/" + tail == "networks/" + tail;
  }

  lemma RelativeRefResolves(project: string, collection: string, tail: string)
    requires Segment(collection) && ':' !in collection && collection[0] !in {'c', 'v'} && collection != "projects"
    requires Text.Index(tail, "://") < 0
    ensures ResolveSameProjectName(project, collection + "/" + tail, collection) == Ok(Text.Split(tail, '/')[0])
  {
    var ref := collection + "/" + tail;
    Text.IndexBehind(collection + "/", "://", tail);
    PrefixNeedsItsFirstCharacter(ref, "/");
    PrefixNeedsItsFirstCharacter(ref, "compute/v1/");
    PrefixNeedsItsFirstCharacter(ref, "v1/");
    Text.SplitFront(collection, tail, '/');
    assert ref[|collection|] == '/';
    var parts := [collection] + Text.Split(tail, '/');
    assert FirstAfter(parts, 0, collection) == Some(parts[1]);
  }
}
