/** The repository object: one handle on the current tables, replaced as a whole by a restore, and the
    snapshot file beside it (repository/repository.go). Each method performs the statements of its
    original in order and is proved against the transition of its service. */
module Repository {
  import opened Wrappers
  import opened Json
  import opened Tables
  import opened Text
  import opened References
  import opened Merge
  import opened Service
  import Compute
  import Container
  import IamPolicy
  import PolicyView
  import Dns
  import Secrets
  import Pubsub

  /** The tables the model holds, in the order they are cleared. */
  datatype Table =
    | SecretVersions | SecretRows | Subscriptions | Topics | RecordSets | ManagedZones | RouterNats | Routers
    | IamBindings | SaKeys | Accounts | NodePools | Clusters | SqlDatabases | SqlUsers | SqlInstances
    | Subnetworks | Firewalls | Instances | Networks

  const CLEARING_ORDER: seq<Table> := [
    SecretVersions, SecretRows, Subscriptions, Topics, RecordSets, ManagedZones, RouterNats, Routers,
    IamBindings, SaKeys, Accounts, NodePools, Clusters, SqlDatabases, SqlUsers, SqlInstances,
    Subnetworks, Firewalls, Instances, Networks]

  function Cleared(db: Database, table: Table): Database {
    match table
    case SecretVersions => db.(secrets := db.secrets.(versions := map[]))
    case SecretRows => db.(secrets := db.secrets.(secrets := map[]))
    case Subscriptions => db.(pubsub := db.pubsub.(subscriptions := map[]))
    case Topics => db.(pubsub := db.pubsub.(topics := map[]))
    case RecordSets => db.(dns := db.dns.(rrsets := map[]))
    case ManagedZones => db.(dns := db.dns.(zones := map[]))
    case RouterNats => db.(compute := db.compute.(nats := map[]))
    case Routers => db.(compute := db.compute.(routers := map[]))
    case IamBindings => db.(bindings := map[])
    case SaKeys => db.(accounts := db.accounts.(keys := map[]))
    case Accounts => db.(accounts := db.accounts.(accounts := map[]))
    case NodePools => db.(container := db.container.(nodePools := map[]))
    case Clusters => db.(container := db.container.(clusters := map[]))
    case SqlDatabases => db.(sql := db.sql.(databases := map[]))
    case SqlUsers => db.(sql := db.sql.(users := map[]))
    case SqlInstances => db.(sql := db.sql.(instances := map[]))
    case Subnetworks => db.(compute := db.compute.(subnetworks := map[]))
    case Firewalls => db.(compute := db.compute.(firewalls := map[]))
    case Instances => db.(compute := db.compute.(instances := map[]))
    case Networks => db.(compute := db.compute.(networks := map[]))
  }

  predicate IsCleared(db: Database, table: Table) {
    match table
    case SecretVersions => db.secrets.versions == map[]
    case SecretRows => db.secrets.secrets == map[]
    case Subscriptions => db.pubsub.subscriptions == map[]
    case Topics => db.pubsub.topics == map[]
    case RecordSets => db.dns.rrsets == map[]
    case ManagedZones => db.dns.zones == map[]
    case RouterNats => db.compute.nats == map[]
    case Routers => db.compute.routers == map[]
    case IamBindings => db.bindings == map[]
    case SaKeys => db.accounts.keys == map[]
    case Accounts => db.accounts.accounts == map[]
    case NodePools => db.container.nodePools == map[]
    case Clusters => db.container.clusters == map[]
    case SqlDatabases => db.sql.databases == map[]
    case SqlUsers => db.sql.users == map[]
    case SqlInstances => db.sql.instances == map[]
    case Subnetworks => db.compute.subnetworks == map[]
    case Firewalls => db.compute.firewalls == map[]
    case Instances => db.compute.instances == map[]
    case Networks => db.compute.networks == map[]
  }

  predicate IsComputeTable(table: Table) {
    table in {RouterNats, Routers, Subnetworks, Firewalls, Instances, Networks}
  }

  lemma ClearingIsDone(db: Database, table: Table)
    ensures IsCleared(Cleared(db, table), table)
  {
  }

  lemma ClearingKeepsComputeTables(db: Database, table: Table, other: Table)
    requires IsComputeTable(other) && IsCleared(db, other)
    ensures IsCleared(Cleared(db, table), other)
  {
  }

  lemma ClearingKeepsOtherTables(db: Database, table: Table, other: Table)
    requires !IsComputeTable(other) && IsCleared(db, other)
    ensures IsCleared(Cleared(db, table), other)
  {
  }

  lemma ClearingKeepsCleared(db: Database, table: Table, other: Table)
    requires IsCleared(db, other)
    ensures IsCleared(Cleared(db, table), other)
  {
    hide IsCleared, Cleared;
    if IsComputeTable(other) {
      ClearingKeepsComputeTables(db, table, other);
    } else {
      ClearingKeepsOtherTables(db, table, other);
    }
  }

  /** No table of the model is missing from the list. */
  lemma ClearingOrderIsComplete(table: Table)
    ensures table in CLEARING_ORDER
  {
    var i := match table
      case SecretVersions => 0 case SecretRows => 1 case Subscriptions => 2 case Topics => 3
      case RecordSets => 4 case ManagedZones => 5 case RouterNats => 6 case Routers => 7
      case IamBindings => 8 case SaKeys => 9 case Accounts => 10 case NodePools => 11
      case Clusters => 12 case SqlDatabases => 13 case SqlUsers => 14 case SqlInstances => 15
      case Subnetworks => 16 case Firewalls => 17 case Instances => 18 case Networks => 19;
    assert CLEARING_ORDER[i] == table;
  }

  lemma ComputeIsCleared(db: Database)
    requires IsCleared(db, RouterNats) && IsCleared(db, Routers) && IsCleared(db, Subnetworks)
    requires IsCleared(db, Firewalls) && IsCleared(db, Instances) && IsCleared(db, Networks)
    ensures db.compute == EMPTY.compute
  {
  }

  lemma SqlAndAccountsAreCleared(db: Database)
    requires IsCleared(db, SqlDatabases) && IsCleared(db, SqlUsers) && IsCleared(db, SqlInstances)
    requires IsCleared(db, SaKeys) && IsCleared(db, Accounts) && IsCleared(db, IamBindings)
    ensures db.sql == EMPTY.sql && db.accounts == EMPTY.accounts && db.bindings == EMPTY.bindings
  {
  }

  lemma PairsAreCleared(db: Database)
    requires IsCleared(db, SecretVersions) && IsCleared(db, SecretRows) && IsCleared(db, Subscriptions)
             && IsCleared(db, Topics)
    requires IsCleared(db, RecordSets) && IsCleared(db, ManagedZones) && IsCleared(db, NodePools)
             && IsCleared(db, Clusters)
    ensures db.secrets == EMPTY.secrets && db.pubsub == EMPTY.pubsub
    ensures db.dns == EMPTY.dns && db.container == EMPTY.container
  {
  }

  lemma AllClearedIsEmpty(db: Database)
    requires forall table :: IsCleared(db, table)
    ensures db == EMPTY
  {
    hide IsCleared;
    ComputeIsCleared(db);
    SqlAndAccountsAreCleared(db);
    PairsAreCleared(db);
  }

  class Repository {
    var db: Database
    var snapshotFile: Option<Database>

    constructor ()
      ensures db == EMPTY && snapshotFile == None
    {
      db := EMPTY;
      snapshotFile := None;
    }

    // -------------------------------------------------------- reset, snapshot

    method Reset()
      modifies this
      ensures db == EMPTY && snapshotFile == None
    {
      hide Cleared, IsCleared;
      for i := 0 to |CLEARING_ORDER|
        invariant forall j :: 0 <= j < i ==> IsCleared(db, CLEARING_ORDER[j])
      {
        forall j | 0 <= j < i ensures IsCleared(Cleared(db, CLEARING_ORDER[i]), CLEARING_ORDER[j]) {
          ClearingKeepsCleared(db, CLEARING_ORDER[i], CLEARING_ORDER[j]);
        }
        ClearingIsDone(db, CLEARING_ORDER[i]);
        db := Cleared(db, CLEARING_ORDER[i]);
      }
      forall table ensures IsCleared(db, table) {
        ClearingOrderIsComplete(table);
      }
      AllClearedIsEmpty(db);
      snapshotFile := None;
    }

    method Snapshot()
      modifies this`snapshotFile
      ensures snapshotFile == Some(db)
    {
      snapshotFile := Some(db);
    }

    method Restore() returns (r: Result<Document>)
      modifies this`db
      ensures r == if snapshotFile.Some? then Ok(map[]) else Err(NotFound)
      ensures db == if snapshotFile.Some? then snapshotFile.value else old(db)
    {
      if snapshotFile.None? {
        return Err(NotFound);
      }
      db := snapshotFile.value;
      return Ok(map[]);
    }

    // ------------------------------------------------- rows bound to a network

    method ResolveExistingNetwork(project: string, ref: string) returns (r: Result<string>)
      ensures r == Compute.ResolveExistingNetwork(db.compute.networks, project, ref)
    {
      r := ResolveSameProjectName(project, ref, "networks");
      if r.Err? {
        return;
      }
      if r.value == "" {
        return Ok("");
      }
      if GlobalKey(project, r.value) !in db.compute.networks {
        return Err(NotFound);
      }
    }

    method BindNew(project: string, data: Document, stamps: Document, env: Env) returns (r: Result<Compute.Bound>)
      ensures r == Compute.NewBound(db.compute.networks, project, data, stamps, env)
    {
      hide ResolveSameProjectName;
      if GetString(data, FName) == "" {
        return Err(Required);
      }
      var networkName := GetString(data, FNetworkName);
      if networkName == "" {
        var resolved := ResolveExistingNetwork(project, GetString(data, FNetwork));
        if resolved.Err? {
          return Err(resolved.error);
        }
        networkName := resolved.value;
      }
      if networkName == "" {
        return Err(Required);
      }
      var row := data + stamps[FNetworkName := Str(networkName)];
      if GetString(row, FId) == "" {
        row := row[FId := Str(env.id)];
      }
      if GetString(row, FCreationTimestamp) == "" {
        row := row[FCreationTimestamp := Str(env.now)];
      }
      return Ok(Compute.Bound(networkName, row));
    }

    method BindPatched(project: string, current: Document, patch: Document, stamps: Document)
      returns (r: Result<Compute.Bound>)
      requires FNetworkName !in stamps
      ensures r == Compute.PatchedBound(db.compute.networks, project, current, patch, stamps)
    {
      hide ResolveSameProjectName, Merged;
      var merged := PatchMerge(current, patch, stamps.Keys + {FNetworkName});
      merged := merged + stamps;
      ghost var plain := merged;
      if FNetwork in patch {
        var resolved := ResolveExistingNetwork(project, GetString(merged, FNetwork));
        if resolved.Err? {
          return Err(resolved.error);
        }
        if resolved.value == "" {
          return Err(Required);
        }
        merged := merged[FNetworkName := Str(resolved.value)];
      }
      var networkName := GetString(merged, FNetworkName);
      if networkName == "" {
        var resolved := ResolveExistingNetwork(project, GetString(merged, FNetwork));
        if resolved.Err? {
          return Err(resolved.error);
        }
        networkName := resolved.value;
      }
      if networkName == "" {
        return Err(Required);
      }
      merged := merged[FNetworkName := Str(networkName)];
      assert merged == plain[FNetworkName := Str(networkName)];
      if GlobalKey(project, networkName) !in db.compute.networks {
        return Err(NotFound);
      }
      return Ok(Compute.Bound(networkName, merged));
    }

    method CreateSubnetwork(project: string, region: string, data: Document, env: Env) returns (r: Result<Document>)
      modifies this`db
      ensures Outcome(db, r) == ApplyToTables(old(db), OnCompute(Compute.CreateSubnetwork(project, region, data, env)))
    {
      hide Compute.NewBound;
      var name := GetString(data, FName);
      var bound := BindNew(project, data, Compute.ScopedStamps(project, FRegion, region, name), env);
      if bound.Err? {
        return Err(bound.error);
      }
      var key := ScopedKey(project, region, name);
      if key in db.compute.subnetworks {
        return Err(AlreadyExists);
      }
      if GlobalKey(project, bound.value.networkName) !in db.compute.networks {
        return Err(NotFound);
      }
      db := db.(compute := db.compute.(subnetworks := db.compute.subnetworks[key := bound.value]));
      return Ok(db.compute.subnetworks[key].data);
    }

    method UpdateSubnetwork(project: string, region: string, name: string, patch: Document)
      returns (r: Result<Document>)
      modifies this`db
      ensures Outcome(db, r)
              == ApplyToTables(old(db), OnCompute(Compute.UpdateSubnetwork(project, region, name, patch)))
    {
      hide Compute.PatchedBound;
      var key := ScopedKey(project, region, name);
      if key !in db.compute.subnetworks {
        return Err(NotFound);
      }
      var bound := BindPatched(project, db.compute.subnetworks[key].data, patch,
        Compute.ScopedStamps(project, FRegion, region, name));
      if bound.Err? {
        return Err(bound.error);
      }
      db := db.(compute := db.compute.(subnetworks := db.compute.subnetworks[key := bound.value]));
      return Ok(bound.value.data);
    }

    method CreateFirewall(project: string, data: Document, env: Env) returns (r: Result<Document>)
      modifies this`db
      ensures Outcome(db, r) == ApplyToTables(old(db), OnCompute(Compute.CreateFirewall(project, data, env)))
    {
      hide Compute.NewBound;
      var name := GetString(data, FName);
      var bound := BindNew(project, data, Compute.GlobalStamps(project, name), env);
      if bound.Err? {
        return Err(bound.error);
      }
      var key := GlobalKey(project, name);
      if key in db.compute.firewalls {
        return Err(AlreadyExists);
      }
      if GlobalKey(project, bound.value.networkName) !in db.compute.networks {
        return Err(NotFound);
      }
      db := db.(compute := db.compute.(firewalls := db.compute.firewalls[key := bound.value]));
      return Ok(db.compute.firewalls[key].data);
    }

    method UpdateFirewall(project: string, name: string, patch: Document) returns (r: Result<Document>)
      modifies this`db
      ensures Outcome(db, r) == ApplyToTables(old(db), OnCompute(Compute.UpdateFirewall(project, name, patch)))
    {
      hide Compute.PatchedBound;
      var key := GlobalKey(project, name);
      if key !in db.compute.firewalls {
        return Err(NotFound);
      }
      var bound := BindPatched(project, db.compute.firewalls[key].data, patch, Compute.GlobalStamps(project, name));
      if bound.Err? {
        return Err(bound.error);
      }
      db := db.(compute := db.compute.(firewalls := db.compute.firewalls[key := bound.value]));
      return Ok(bound.value.data);
    }

    method CreateRouter(project: string, region: string, data: Document, env: Env) returns (r: Result<Document>)
      modifies this`db
      ensures Outcome(db, r) == ApplyToTables(old(db), OnCompute(Compute.CreateRouter(project, region, data, env)))
    {
      hide Compute.NewBound;
      var name := GetString(data, FName);
      var bound := BindNew(project, data, Compute.ScopedStamps(project, FRegion, region, name), env);
      if bound.Err? {
        return Err(bound.error);
      }
      var key := ScopedKey(project, region, name);
      if key in db.compute.routers {
        return Err(AlreadyExists);
      }
      if GlobalKey(project, bound.value.networkName) !in db.compute.networks {
        return Err(NotFound);
      }
      db := db.(compute := db.compute.(routers := db.compute.routers[key := bound.value]));
      return Ok(db.compute.routers[key].data);
    }

    method UpdateRouter(project: string, region: string, name: string, patch: Document) returns (r: Result<Document>)
      modifies this`db
      ensures Outcome(db, r) == ApplyToTables(old(db), OnCompute(Compute.UpdateRouter(project, region, name, patch)))
    {
      hide Compute.PatchedBound;
      var key := ScopedKey(project, region, name);
      if key !in db.compute.routers {
        return Err(NotFound);
      }
      var bound := BindPatched(project, db.compute.routers[key].data, patch,
        Compute.ScopedStamps(project, FRegion, region, name));
      if bound.Err? {
        return Err(bound.error);
      }
      db := db.(compute := db.compute.(routers := db.compute.routers[key := bound.value]));
      return Ok(bound.value.data);
    }

    // ------------------------------------------------ instances and clusters

    method ValidateRefs(project: string, location: string, netRef: string, subRef: string) returns (ok: bool)
      ensures ok == Compute.RefsValid(db.compute, project, location, netRef, subRef)
    {
      hide ResolveSameProjectName, ExtractRegion, RegionFromZone;
      var net := ResolveSameProjectName(project, netRef, "networks");
      if net.Err? {
        return false;
      }
      if net.value != "" && GlobalKey(project, net.value) !in db.compute.networks {
        return false;
      }
      if subRef == "" {
        return true;
      }
      var sub := ResolveSameProjectName(project, subRef, "subnetworks");
      if sub.Err? {
        return false;
      }
      var region := ExtractRegion(subRef);
      if region == "" {
        region := RegionFromZone(location);
      }
      if region == "" {
        return false;
      }
      var key := ScopedKey(project, region, sub.value);
      if key !in db.compute.subnetworks {
        return false;
      }
      if net.value != "" {
        var got := GetString(db.compute.subnetworks[key].data, FNetworkName);
        if got != "" && got != net.value {
          return false;
        }
      }
      return true;
    }

    method ValidateInstanceNics(project: string, zone: string, data: Document) returns (ok: bool)
      ensures ok == Compute.NicsValid(db.compute, project, zone, data)
    {
      hide Compute.RefsValid;
      var nics := Compute.Nics(data);
      for i := 0 to |nics|
        invariant forall nic :: nic in nics[..i] ==> Compute.NicValid(db.compute, project, zone, nic)
      {
        assert nics[..i + 1] == nics[..i] + [nics[i]];
        if !nics[i].Obj? {
          continue;
        }
        var valid := ValidateRefs(project, zone, GetString(nics[i].fields, FNetwork),
          GetString(nics[i].fields, FSubnetwork));
        if !valid {
          assert nics[i] in nics;
          return false;
        }
      }
      assert nics[..|nics|] == nics;
      return true;
    }

    method CreateInstance(project: string, zone: string, data: Document, env: Env) returns (r: Result<Document>)
      modifies this`db
      ensures Outcome(db, r) == ApplyToTables(old(db), OnCompute(Compute.CreateInstance(project, zone, data, env)))
    {
      hide Compute.NicsValid, Compute.NewData;
      var name := GetString(data, FName);
      if name == "" {
        return Err(Required);
      }
      var valid := ValidateInstanceNics(project, zone, data);
      if !valid {
        return Err(NotFound);
      }
      var row := Compute.NewData(data, Compute.ScopedStamps(project, FZone, zone, name), env);
      var key := ScopedKey(project, zone, name);
      if key in db.compute.instances {
        return Err(AlreadyExists);
      }
      db := db.(compute := db.compute.(instances := db.compute.instances[key := row]));
      return Ok(row);
    }

    method CreateCluster(project: string, location: string, data: Document, env: Env) returns (r: Result<Document>)
      modifies this`db
      ensures Outcome(db, r)
              == ApplyToTables(old(db), OnContainer(Container.CreateCluster(project, location, data, env)))
    {
      hide Compute.RefsValid, Container.NewClusterData;
      var name := GetString(data, FName);
      if name == "" {
        return Err(Required);
      }
      var valid := ValidateRefs(project, location, GetString(data, FNetwork), GetString(data, FSubnetwork));
      if !valid {
        return Err(NotFound);
      }
      var row := Container.NewClusterData(data, Container.ClusterStamps(project, location, name), env);
      var key := ScopedKey(project, location, name);
      if key in db.container.clusters {
        return Err(AlreadyExists);
      }
      db := db.(container := db.container.(clusters := db.container.clusters[key := row]));
      return Ok(row);
    }

    method UpdateCluster(project: string, location: string, name: string, patch: Document) returns (r: Result<Document>)
      modifies this`db
      ensures Outcome(db, r)
              == ApplyToTables(old(db), OnContainer(Container.UpdateCluster(project, location, name, patch)))
    {
      hide Compute.RefsValid, Merged;
      var key := ScopedKey(project, location, name);
      if key !in db.container.clusters {
        return Err(NotFound);
      }
      var stamps := Container.ClusterStamps(project, location, name);
      var merged := PatchMerge(db.container.clusters[key], patch, stamps.Keys);
      merged := merged + stamps;
      var valid := ValidateRefs(project, location, GetString(merged, FNetwork), GetString(merged, FSubnetwork));
      if !valid {
        return Err(NotFound);
      }
      db := db.(container := db.container.(clusters := db.container.clusters[key := merged]));
      return Ok(merged);
    }

    // -------------------------------------------------------------------- DNS

    method CreateDNSRecordSet(project: string, zone: string, data: Document) returns (r: Result<Document>)
      modifies this`db
      ensures Outcome(db.dns, r) == Dns.InsertRecordSet(old(db.dns), project, zone, data)
      ensures db == old(db).(dns := db.dns)
    {
      var key := Dns.KeyOf(project, zone, data);
      if key.name == "" {
        return Err(Required);
      }
      if key.rrtype == "" {
        return Err(Required);
      }
      var row := data + Dns.RrStamps(key);
      if key in db.dns.rrsets {
        return Err(AlreadyExists);
      }
      if GlobalKey(project, zone) !in db.dns.zones {
        return Err(NotFound);
      }
      db := db.(dns := db.dns.(rrsets := db.dns.rrsets[key := row]));
      return Ok(row);
    }

    method DeleteDNSRecordSet(project: string, zone: string, name: string, rrtype: string) returns (r: Result<Document>)
      modifies this`db
      ensures Outcome(db.dns, r) == Dns.RemoveRecordSet(old(db.dns), Dns.RrKey(project, zone, name, rrtype))
      ensures db == old(db).(dns := db.dns)
    {
      var key := Dns.RrKey(project, zone, name, rrtype);
      if key !in db.dns.rrsets {
        return Err(NotFound);
      }
      db := db.(dns := db.dns.(rrsets := db.dns.rrsets - {key}));
      return Ok(map[]);
    }

    /** The record sets are counted first, so the cascading delete below finds none. */
    method DeleteDNSZone(project: string, name: string) returns (r: Result<Document>)
      modifies this`db
      ensures Outcome(db, r) == ApplyToTables(old(db), OnDns(Dns.DeleteZone(project, name)))
      ensures db.dns.rrsets == old(db.dns.rrsets)
    {
      var key := GlobalKey(project, name);
      var children := set k | k in db.dns.rrsets && Dns.ZoneOf(k) == key;
      if children != {} {
        var k :| k in children;
        assert !Dns.ZoneEmpty(db.dns, key);
        return Err(InUse);
      }
      assert Dns.ZoneEmpty(db.dns, key) by {
        assert forall k :: k in db.dns.rrsets && Dns.ZoneOf(k) == key ==> k in children;
      }
      if key !in db.dns.zones {
        return Err(NotFound);
      }
      db := db.(dns := Dns.DnsDb(db.dns.zones - {key}, map k | k in db.dns.rrsets
        && Dns.ZoneOf(k) != key :: db.dns.rrsets[k]));
      return Ok(map[]);
    }

    // ---------------------------------------------------------------- secrets

    /** SELECT MAX(rowid) over the versions of one secret; 0 stands for no row. */
    method MaxRowOfSecret(project: string, secret: string) returns (max: nat)
      ensures max == Secrets.MaxOfSecret(db.secrets.versions, project, secret)
    {
      var versions := db.secrets.versions;
      max := 0;
      var todo := versions.Keys;
      while todo != {}
        invariant todo <= versions.Keys
        invariant Secrets.IsMaxOfSecret(versions - todo, project, secret, max)
        decreases todo
      {
        var n :| n in todo;
        ghost var seen, seen' := versions - todo, versions - (todo - {n});
        todo := todo - {n};
        assert seen' == seen[n := versions[n]];
        if Secrets.Belongs(versions[n], project, secret) && versions[n].rowid > max {
          max := versions[n].rowid;
          assert n in seen' && seen'[n].rowid == max;
        } else if max != 0 {
          ghost var m :| m in seen && Secrets.Belongs(seen[m], project, secret) && seen[m].rowid == max;
          assert m in seen' && seen'[m] == seen[m];
        }
      }
      assert versions - {} == versions;
      Secrets.MaximaAreUnique(versions, project, secret, max, Secrets.MaxOfSecret(versions, project, secret));
    }

    /** The row number SQLite assigns: one more than the largest in the table. */
    method NextRow() returns (rowid: nat)
      ensures rowid == Secrets.MaxOfTable(db.secrets.versions) + 1
    {
      var versions := db.secrets.versions;
      var max: nat := 0;
      var todo := versions.Keys;
      while todo != {}
        invariant todo <= versions.Keys
        invariant Secrets.IsMaxOfTable(versions - todo, max)
        decreases todo
      {
        var n :| n in todo;
        ghost var seen, seen' := versions - todo, versions - (todo - {n});
        todo := todo - {n};
        assert seen' == seen[n := versions[n]];
        if versions[n].rowid > max {
          max := versions[n].rowid;
          assert n in seen' && seen'[n].rowid == max;
        } else if max != 0 {
          ghost var m :| m in seen && seen[m].rowid == max;
          assert m in seen' && seen'[m] == seen[m];
        }
      }
      assert versions - {} == versions;
      Secrets.MaximaAreUnique(versions, "", "", max, Secrets.MaxOfTable(versions));
      rowid := max + 1;
    }

    method CreateSecretVersion(project: string, secret: string, data: Document, env: Env) returns (r: Result<Document>)
      modifies this`db
      ensures Outcome(db.secrets, r) == Secrets.InsertVersionRow(old(db.secrets), project, secret, data, env)
      ensures db == old(db).(secrets := db.secrets)
    {
      hide Secrets.VersionName, Decimal;
      var max := MaxRowOfSecret(project, secret);
      var name := Secrets.VersionName(project, secret, Decimal(max + 1));
      var row := data[FName := Str(name)][FProject := Str(project)][FSecretName := Str(secret)];
      if GetString(row, FCreateTime) == "" {
        row := row[FCreateTime := Str(env.now)];
      }
      if name in db.secrets.versions {
        return Err(AlreadyExists);
      }
      if GlobalKey(project, secret) !in db.secrets.secrets {
        return Err(NotFound);
      }
      var rowid := NextRow();
      db := db.(secrets :=
        db.secrets.(versions := db.secrets.versions[name := Secrets.VersionRow(rowid, project, secret, row)]));
      return Ok(row);
    }

    /** ORDER BY rowid DESC LIMIT 1. */
    method GetLatestSecretVersion(project: string, secret: string) returns (latest: Option<string>)
      ensures match latest
              case None =>
                forall n :: n in db.secrets.versions ==> !Secrets.Belongs(db.secrets.versions[n], project, secret)
              case Some(name) => Secrets.IsLatest(db.secrets, project, secret, name)
    {
      var versions := db.secrets.versions;
      latest := None;
      var todo := versions.Keys;
      while todo != {}
        invariant todo <= versions.Keys
        invariant latest.Some? ==> latest.value in versions && Secrets.Belongs(versions[latest.value], project, secret)
        invariant forall n :: n in versions && n !in todo && Secrets.Belongs(versions[n], project, secret) ==>
                    latest.Some? && versions[n].rowid <= versions[latest.value].rowid
        decreases todo
      {
        var n :| n in todo;
        todo := todo - {n};
        if Secrets.Belongs(versions[n], project, secret) &&
           (latest.None? || versions[n].rowid > versions[latest.value].rowid) {
          latest := Some(n);
        }
      }
    }

    method SetSecretVersionState(name: string, state: string) returns (r: Result<Document>)
      modifies this`db
      ensures Outcome(db.secrets, r) == Secrets.SetState(old(db.secrets), name, state)
      ensures db == old(db).(secrets := db.secrets)
    {
      if name !in db.secrets.versions {
        return Err(NotFound);
      }
      var current := db.secrets.versions[name].data;
      if GetString(current, FState) == Secrets.DESTROYED {
        return Err(TerminalState);
      }
      current := current[FState := Str(state)];
      db := db.(secrets :=
        db.secrets.(versions := db.secrets.versions[name := db.secrets.versions[name].(data := current)]));
      return Ok(current);
    }

    method DestroySecretVersion(name: string, now: string) returns (r: Result<Document>)
      modifies this`db
      ensures Outcome(db.secrets, r) == Secrets.Destroy(old(db.secrets), name, now)
      ensures db == old(db).(secrets := db.secrets)
    {
      if name !in db.secrets.versions {
        return Err(NotFound);
      }
      var current := db.secrets.versions[name].data;
      current := current[FState := Str(Secrets.DESTROYED)];
      current := current[FDestroyTime := Str(now)];
      current := current - {FPayload};
      db := db.(secrets :=
        db.secrets.(versions := db.secrets.versions[name := db.secrets.versions[name].(data := current)]));
      return Ok(current);
    }

    // ---------------------------------------------------------------- Pub/Sub

    /** The rows are found by the hidden column, and written back under the name in their document. */
    method OrphanSubscriptions(project: string, topic: string)
      requires Pubsub.Valid(db.pubsub)
      modifies this`db
      ensures db == old(db).(pubsub := old(db.pubsub).(subscriptions :=
                Pubsub.OrphanAll(old(db.pubsub.subscriptions), project, topic)))
    {
      hide ResolveSameProjectName, ExtractName, Pubsub.Bound;
      var subs := db.pubsub.subscriptions;
      var todo := set k | k in subs && k.project == project && subs[k].topicName == topic;
      ghost var found := todo;
      while todo != {}
        invariant todo <= found
        invariant db == old(db).(pubsub := db.pubsub) && db.pubsub.topics == old(db.pubsub.topics)
        invariant db.pubsub.subscriptions ==
                  map k | k in subs :: if k in found - todo then Pubsub.Orphaned(subs[k]) else subs[k]
        decreases todo
      {
        var k :| k in todo;
        var sub := subs[k].data[FTopic := Str(Pubsub.TOMBSTONE)];
        var subName := GetString(sub, FName);
        var short := ExtractName(subName);
        assert Pubsub.RowValid(old(db.pubsub.topics), k, subs[k]);
        assert short == k.name;
        if short == "" {
          short := subName;
        }
        var row := GlobalKey(project, short);
        if row in db.pubsub.subscriptions {
          db := db.(pubsub :=
            db.pubsub.(subscriptions := db.pubsub.subscriptions[row := Pubsub.Subscription(Pubsub.TOMBSTONE, sub)]));
        }
        todo := todo - {k};
      }
      assert db.pubsub.subscriptions == Pubsub.OrphanAll(subs, project, topic);
    }

    method DeleteTopic(project: string, topic: string) returns (r: Result<Document>)
      requires Pubsub.Valid(db.pubsub)
      modifies this`db
      ensures Outcome(db, r) == ApplyToTables(old(db), OnPubsub(Pubsub.DeleteTopic(project, topic)))
    {
      hide Pubsub.Valid, Pubsub.OrphanAll;
      OrphanSubscriptions(project, topic);
      var key := GlobalKey(project, topic);
      if key !in db.pubsub.topics {
        return Err(NotFound);
      }
      db := db.(pubsub := db.pubsub.(topics := db.pubsub.topics - {key}));
      return Ok(map[]);
    }

    method CreateSubscription(project: string, data: Document) returns (r: Result<Document>)
      modifies this`db
      ensures Outcome(db.pubsub, r) == Pubsub.InsertSubscription(old(db.pubsub), project, data)
      ensures db == old(db).(pubsub := db.pubsub)
    {
      hide ResolveSameProjectName, ExtractName, Pubsub.FullName;
      var name := ExtractName(GetString(data, FName));
      if name == "" {
        return Err(Required);
      }
      var ref := GetString(data, FTopic);
      if ref == "" {
        return Err(Required);
      }
      var topic := ResolveSameProjectName(project, ref, "topics");
      if topic.Err? {
        return Err(topic.error);
      }
      if GlobalKey(project, topic.value) !in db.pubsub.topics {
        return Err(NotFound);
      }
      var row := data[FProject := Str(project)];
      if GetString(data, FName) == "" || GetString(data, FName) == name {
        row := row[FName := Str(Pubsub.FullName(project, "subscriptions", name))];
      }
      row := row[FTopicName := Str(topic.value)];
      var key := GlobalKey(project, name);
      if key in db.pubsub.subscriptions {
        return Err(AlreadyExists);
      }
      db := db.(pubsub :=
        db.pubsub.(subscriptions := db.pubsub.subscriptions[key := Pubsub.Subscription(topic.value, row)]));
      return Ok(row);
    }

    method UpdateSubscription(project: string, name: string, patch: Document) returns (r: Result<Document>)
      modifies this`db
      ensures Outcome(db, r) == ApplyToTables(old(db), OnPubsub(Pubsub.UpdateSubscription(project, name, patch)))
    {
      hide Pubsub.PatchedSubscription;
      var key := GlobalKey(project, name);
      if key !in db.pubsub.subscriptions {
        return Err(NotFound);
      }
      var sub := PatchSubscription(project, db.pubsub.subscriptions[key].data, patch);
      if sub.Err? {
        return Err(sub.error);
      }
      db := db.(pubsub := db.pubsub.(subscriptions := db.pubsub.subscriptions[key := sub.value]));
      return Ok(sub.value.data);
    }

    /** The row a patch leads to. The topic is put back from the stored document, and so is its name. */
    static method PatchSubscription(project: string, current: Document, patch: Document)
      returns (r: Result<Pubsub.Subscription>)
      ensures r == Pubsub.PatchedSubscription(project, current, patch)
    {
      hide ExtractName, Pubsub.FullName;
      var merged := PatchMerge(current, patch, {FName, FProject, FTopicName, FTopic});
      MergeKeepsTheRest(current, patch, {FName, FProject, FTopicName, FTopic});
      hide Merged;
      merged := merged[FProject := Str(project)];
      var currentName := ExtractName(GetString(current, FName));
      if currentName != "" {
        merged := merged[FName := Str(Pubsub.FullName(project, "subscriptions", currentName))];
      }
      var currentTopic := GetString(current, FTopic);
      if currentTopic != "" {
        assert merged[FTopic := Str(currentTopic)] == merged;
        merged := merged[FTopic := Str(currentTopic)];
      }
      var topicName := GetString(current, FTopicName);
      if topicName == "" {
        topicName := ExtractName(GetString(current, FTopic));
      }
      if topicName == "" {
        return Err(Required);
      }
      return Ok(Pubsub.Subscription(topicName, merged[FTopicName := Str(topicName)]));
    }

    // -------------------------------------------------------------------- IAM

    /** One transaction: the rows are replaced in a copy that is committed at the end, or not at all. */
    method SetIAMBinding(project: string, role: string, members: seq<string>) returns (r: Result<Document>)
      modifies this`db
      ensures Outcome(db.bindings, r) == IamPolicy.SetRole(old(db.bindings), project, role, members)
      ensures db == old(db).(bindings := db.bindings)
    {
      hide Blank, IamPolicy.Kept, IamPolicy.NoRepeats, IamPolicy.RoleRows, IamPolicy.WithoutRole;
      if role == "" {
        return Err(Required);
      }
      IamPolicy.NothingKept(project, role, members[..0]);
      var tx := IamPolicy.WithoutRole(db.bindings, project, role);
      ghost var base := tx;
      for i := 0 to |members|
        invariant db == old(db)
        invariant IamPolicy.NoRepeats(members[..i])
        invariant tx == base + IamPolicy.RoleRows(project, role, members[..i])
      {
        var member := members[i];
        IamPolicy.RowIsThereIff(db.bindings, project, role, members[..i], member);
        if Blank(member) {
          IamPolicy.MemberSkipped(project, role, members, i);
          continue;
        }
        var key := IamPolicy.BindingKey(project, role, member);
        if key in tx {
          IamPolicy.MemberRepeated(members, i);
          return Err(AlreadyExists);
        }
        IamPolicy.MemberAdded(project, role, members, i);
        tx := tx[key := IamPolicy.RowData(role, member)];
      }
      assert members[..|members|] == members;
      db := db.(bindings := tx);
      return Ok(map[]);
    }

    /** The policy a project shows: its bindings grouped by role, each role once, in order. */
    method GetIAMPolicy(project: string) returns (groups: seq<IamPolicy.RoleBinding>)
      requires IamPolicy.Valid(db.bindings)
      ensures PolicyView.Grouping(groups)
      ensures PolicyView.ListsProject(PolicyView.Flatten(groups), db.bindings, project)
    {
      var items := PolicyView.ListBindings(db.bindings, project);
      hide PolicyView.Sorted;
      forall p | p in items ensures PolicyView.Shown(p) {
        var k := IamPolicy.BindingKey(project, p.role, p.member);
        assert k in db.bindings;
        EmptyIsBlank(p.member);
      }
      PolicyView.AllAreVisible(items);
      groups := PolicyView.GroupByRole(items);
    }
  }

  lemma EmptyIsBlank(s: string)
    ensures !Blank(s) ==> s != ""
  {
  }
}
