/** The handlers that do more than forward a request: the change transaction, the policy replacement, the
    secret version verbs and the admin operations. Each is proved to take exactly the step of the service
    that its request stands for (the handlers package). */
module Application {
  import opened Wrappers
  import opened Json
  import opened Tables
  import opened Text
  import opened References
  import opened Service
  import opened Requests
  import Repo = Repository
  import IamPolicy
  import PolicyView
  import Dns
  import Secrets
  import SN = ServiceNetworking
  import Histories
  import Pubsub
  import Compute

  /** A record set about to be deleted, with the row to put back on rollback. */
  datatype Pending = Pending(name: string, rrtype: string, entry: Option<Document>)

  function KeyOfPending(project: string, zone: string, p: Pending): Dns.RrKey {
    Dns.RrKey(project, zone, p.name, p.rrtype)
  }

  function KeysOfPending(project: string, zone: string, ps: seq<Pending>): (keys: seq<Dns.RrKey>)
    ensures |keys| == |ps| && forall i :: 0 <= i < |ps| ==> keys[i] == KeyOfPending(project, zone, ps[i])
  {
    seq(|ps|, i requires 0 <= i < |ps| => KeyOfPending(project, zone, ps[i]))
  }

  type RecordSets = map<Dns.RrKey, Document>

  function Restricted(rows: RecordSets, keys: set<Dns.RrKey>): RecordSets {
    map k | k in rows && k in keys :: rows[k]
  }

  ghost predicate Restorable(rows: RecordSets, project: string, zone: string, p: Pending) {
    var key := KeyOfPending(project, zone, p);
    key in rows && p.entry == Some(rows[key]) && Dns.RepeatsKey(key, rows[key])
  }

  // -------------------------------------------- prefixes of the request lists

  lemma EntriesOneMore(items: seq<Json>, i: nat)
    requires i < |items|
    ensures Dns.Entries(items[..i + 1]) == Dns.Entries(items[..i]) + if items[i].Obj? then [items[i].fields] else []
  {
    assert items[..i + 1][..i] == items[..i];
  }

  lemma {:induction false} EntriesPrefix(items: seq<Json>, n: nat)
    requires n <= |items|
    ensures Dns.Entries(items[..n]) <= Dns.Entries(items)
  {
    if n < |items| {
      EntriesPrefix(items[..|items| - 1], n);
      assert items[..|items| - 1][..n] == items[..n];
    } else {
      assert items[..n] == items;
    }
  }

  lemma IncompleteEntry(items: seq<Json>, i: nat)
    requires i < |items| && items[i].Obj? && !Dns.Complete(items[i].fields)
    ensures !Dns.AllComplete(Dns.Entries(items))
  {
    hide Dns.Complete;
    EntriesOneMore(items, i);
    EntriesPrefix(items, i + 1);
    var e, front := items[i].fields, Dns.Entries(items[..i + 1]);
    assert front[|front| - 1] == e;
    assert Dns.Entries(items)[|front| - 1] == e;
  }

  // ------------------------------------------------- undoing what was applied

  lemma DeletingOneMore(rows: RecordSets, keys: seq<Dns.RrKey>, i: nat)
    requires i < |keys|
    ensures rows - Dns.SetOf(keys[..i + 1]) == rows - Dns.SetOf(keys[..i]) - {keys[i]}
  {
    assert keys[..i + 1] == keys[..i] + [keys[i]];
  }

  lemma RestoringOneMore(base: RecordSets, rows: RecordSets, keys: seq<Dns.RrKey>, i: nat)
    requires i < |keys| && keys[i] in rows && keys[i] !in base
    ensures base + Restricted(rows, Dns.SetOf(keys[..i + 1]))
            == (base + Restricted(rows, Dns.SetOf(keys[..i])))[keys[i] := rows[keys[i]]]
    ensures var now := base + Restricted(rows, Dns.SetOf(keys[..i])); keys[i] in now ==> now[keys[i]] == rows[keys[i]]
  {
    assert keys[..i + 1] == keys[..i] + [keys[i]];
  }

  /** The completed part of a list of deletions can be put back. */
  lemma CompletedAreRestorable(rows: RecordSets, project: string, zone: string, pending: seq<Pending>, i: nat)
    requires i <= |pending|
    requires forall k :: k in rows ==> Dns.RepeatsKey(k, rows[k])
    requires forall p :: p in pending ==> var key := KeyOfPending(project, zone, p);
             p.entry == if key in rows then Some(rows[key]) else None
    requires Dns.DeletionsApply(rows, KeysOfPending(project, zone, pending)[..i])
    ensures KeysOfPending(project, zone, pending[..i]) == KeysOfPending(project, zone, pending)[..i]
    ensures forall p :: p in pending[..i] ==>
            Restorable(rows, project, zone, p)
                && KeyOfPending(project, zone, p) in KeysOfPending(project, zone, pending[..i])
  {
    hide Dns.RepeatsKey, KeyOfPending;
    var done, keys := pending[..i], KeysOfPending(project, zone, pending[..i]);
    forall p | p in done ensures Restorable(rows, project, zone, p) && KeyOfPending(project, zone, p) in keys {
      var j :| 0 <= j < i && done[j] == p;
      assert keys[j] == KeyOfPending(project, zone, p) && p in pending;
    }
  }

  /** Putting a row back succeeds, or finds the row there already. */
  lemma RestoredOrThere(db: Dns.DnsDb, key: Dns.RrKey, data: Document)
    requires Dns.RepeatsKey(key, data) && Dns.ZoneOf(key) in db.zones
    requires key in db.rrsets ==> db.rrsets[key] == data
    ensures Dns.InsertRecordSet(db, key.project, key.zone, data).db == db.(rrsets := db.rrsets[key := data])
  {
    hide Dns.RepeatsKey;
    Dns.RestoredRowIsTheSame(db, key, data);
    assert key in db.rrsets ==> db.rrsets[key := data] == db.rrsets;
    RepeatedKeyIsComplete(key, data);
  }

  lemma RepeatedKeyIsComplete(key: Dns.RrKey, data: Document)
    requires Dns.RepeatsKey(key, data)
    ensures key.name != "" && key.rrtype != ""
  {
  }

  /** Taking the additions away first leaves the slots of the deletions free to be filled again. */
  lemma UndoneIsAsBefore(rows: RecordSets, gone: set<Dns.RrKey>, added: RecordSets)
    requires gone <= rows.Keys && added.Keys !! (rows - gone).Keys
    ensures (rows - gone + added) - added.Keys + Restricted(rows, gone) == rows
  {
  }

  lemma DeletionsUndone(rows: RecordSets, keys: seq<Dns.RrKey>)
    requires forall k :: k in keys ==> k in rows
    ensures rows - Dns.SetOf(keys) - Dns.SetOf([]) + Restricted(rows, Dns.SetOf(keys)) == rows
  {
  }

  /** The first additions of a list, each with a key that was free. */
  lemma AddingOneMore(project: string, zone: string, entries: seq<Document>, now: string, i: nat)
    requires i < |entries|
    ensures var key := Dns.KeyOf(project, zone, entries[i]);
            Dns.AddedRows(project, zone, entries[..i + 1], now)
            == Dns.AddedRows(project, zone, entries[..i], now)[key := Dns.AddedRow(project, zone, entries[i], now)]
  {
    assert entries[..i + 1][..i] == entries[..i];
  }

  /** An addition is refused exactly when its key survived the deletions or was added before. */
  lemma AdditionsOneMore(rows: RecordSets, gone: seq<Dns.RrKey>, keys: seq<Dns.RrKey>, i: nat)
    requires i < |keys| && Dns.AdditionsApply(rows, gone, keys[..i])
    ensures Dns.AdditionsApply(rows, gone, keys[..i + 1])
            <==> keys[i] !in rows.Keys - Dns.SetOf(gone) && keys[i] !in keys[..i]
    ensures Dns.AdditionsApply(rows, gone, keys) ==> Dns.AdditionsApply(rows, gone, keys[..i + 1])
  {
    assert keys[..i + 1] == keys[..i] + [keys[i]];
    if keys[i] in keys[..i] {
      var j :| 0 <= j < i && keys[..i][j] == keys[i];
      assert keys[..i + 1][j] == keys[..i + 1][i];
    }
  }

  lemma AddedKeysAreTheirs(rows: RecordSets, gone: seq<Dns.RrKey>, project: string, zone: string,
                           entries: seq<Document>, now: string)
    requires Dns.AdditionsApply(rows, gone, Dns.Keys(project, zone, entries))
    ensures var added := Dns.AddedRows(project, zone, entries, now);
            added.Keys == Dns.SetOf(Dns.Keys(project, zone, entries)) && added.Keys !! (rows - Dns.SetOf(gone)).Keys
  {
    hide Dns.AddedRow, Dns.AddedRows;
    Dns.AddedRowsContents(project, zone, entries, now);
  }

  /** The other order would not do: with the old row put back first it collides with the replacement, the
      re-creation is refused, and undoing the replacement then leaves the slot empty. */
  lemma UndoOrderMatters(db: Dns.DnsDb, key: Dns.RrKey, replacement: Document)
    requires Dns.Valid(db) && key in db.rrsets
    ensures var replaced := db.(rrsets := db.rrsets[key := replacement]);
            var undone := Dns.RemoveRecordSet(replaced, key).db;
            var undoneFirst := Dns.InsertRecordSet(undone, key.project, key.zone, db.rrsets[key]).db;
            var restored := Dns.InsertRecordSet(replaced, key.project, key.zone, db.rrsets[key]).db;
            var restoredFirst := Dns.RemoveRecordSet(restored, key).db;
            undoneFirst == db && key !in restoredFirst.rrsets
  {
    var emptied := db.(rrsets := db.rrsets[key := replacement] - {key});
    Dns.RestoredRowIsTheSame(emptied, key, db.rrsets[key]);
    assert emptied.rrsets[key := db.rrsets[key]] == db.rrsets;
  }

  class Application {
    const repo: Repo.Repository
    const connections: SN.ConnectionCache
    var dnsChanges: Cache
    var dnsChangesSnapshot: Option<Cache>

    ghost function View(): State
      reads this, repo, connections
    {
      State(repo.db, repo.snapshotFile, dnsChanges, dnsChangesSnapshot, connections.snapshot.Some?)
    }

    /** The object is in a state some run of requests leads to, so what is proved of runs holds of it. */
    ghost predicate Valid()
      reads this, repo, connections
    {
      Reachable(View())
    }

    /** So the tables of all services are sound, and the three baselines come and go together. */
    lemma TablesAreSound()
      requires Valid()
      ensures Integrity(repo.db) && BaselinesTogether()
    {
      hide Integrity, Reachable;
      ReachableIsSound(View());
    }

    lemma RecordSetsAreSound()
      requires Valid()
      ensures Dns.Valid(repo.db.dns)
    {
      hide Valid, Dns.Valid, Compute.Valid, Secrets.Valid, Pubsub.Valid, IamPolicy.Valid, BaselinesTogether;
      TablesAreSound();
    }

    lemma BindingsAreSound()
      requires Valid()
      ensures IamPolicy.Valid(repo.db.bindings)
    {
      hide Valid, Dns.Valid, Compute.Valid, Secrets.Valid, Pubsub.Valid, IamPolicy.Valid, BaselinesTogether;
      TablesAreSound();
    }

    lemma VersionsAreSound()
      requires Valid()
      ensures Secrets.Valid(repo.db.secrets)
    {
      hide Valid, Dns.Valid, Compute.Valid, Secrets.Valid, Pubsub.Valid, IamPolicy.Valid, BaselinesTogether;
      TablesAreSound();
    }

    ghost predicate BaselinesTogether()
      reads this, repo, connections
    {
      && (repo.snapshotFile.Some? <==> dnsChangesSnapshot.Some?)
      && (repo.snapshotFile.Some? <==> connections.snapshot.Some?)
    }

    constructor ()
      ensures View() == INITIAL && Valid() && connections.Valid() && BaselinesTogether() && fresh(repo)
              && fresh(connections)
    {
      InitialIsReachable();
      repo := new Repo.Repository();
      connections := new SN.ConnectionCache();
      dnsChanges := map[];
      dnsChangesSnapshot := None;
    }

    // ------------------------------------------------------------------- admin

    method ResetState() returns (r: Result<Document>)
      modifies this, repo, connections
      ensures Reply(View(), r) == Step(old(View()), Op.Reset) && Valid()
      ensures BaselinesTogether() && connections.Valid() && connections.View() == map[]
              && connections.SavedView() == map[]
    {
      InitialIsReachable();
      repo.Reset();
      dnsChanges := map[];
      dnsChangesSnapshot := None;
      connections.Reset();
      return Ok(map[]);
    }

    method SnapshotState() returns (r: Result<Document>)
      requires Valid() && connections.Valid()
      modifies this, repo, connections
      ensures Reply(View(), r) == Step(old(View()), Op.Snapshot) && Valid()
      ensures BaselinesTogether() && connections.Valid()
      ensures connections.View() == old(connections.View()) && connections.SavedView() == connections.View()
    {
      hide ApplyToTables, Dns.ApplyChange, Record, SN.ConnectionCache.Valid, SN.ConnectionCache.View,
           SN.ConnectionCache.SavedView;
      StepStaysReachable(View(), Op.Snapshot);
      hide Reachable;
      repo.Snapshot();
      var snap := CopyOfCache(dnsChanges);
      dnsChangesSnapshot := Some(snap);
      connections.Untouched();
      connections.Snapshot();
      return Ok(map[]);
    }

    /** Without a snapshot file nothing moves; with one, tables, change cache and connections go back together. */
    method RestoreState() returns (r: Result<Document>)
      requires Valid() && connections.Valid()
      modifies this, repo, connections
      ensures Reply(View(), r) == Step(old(View()), Op.Restore) && Valid()
      ensures BaselinesTogether() && connections.Valid() && connections.SavedView() == old(connections.SavedView())
      ensures connections.View() == if r.Ok? then connections.SavedView() else old(connections.View())
    {
      hide ApplyToTables, Dns.ApplyChange, Record, SN.ConnectionCache.Valid, SN.ConnectionCache.View,
           SN.ConnectionCache.SavedView;
      TablesAreSound();
      StepStaysReachable(View(), Op.Restore);
      hide Reachable;
      r := repo.Restore();
      connections.Untouched();
      if r.Err? {
        return;
      }
      if dnsChangesSnapshot.Some? {
        var restored := CopyOfCache(dnsChangesSnapshot.value);
        dnsChanges := restored;
      }
      connections.Untouched();
      connections.Restore();
    }

    static method CopyOfCache(source: Cache) returns (copy: Cache)
      ensures copy == source
    {
      copy := map[];
      var todo := source.Keys;
      while todo != {}
        invariant todo <= source.Keys
        invariant copy == source - todo
        decreases todo
      {
        var k :| k in todo;
        copy := copy[k := source[k]];
        todo := todo - {k};
      }
    }

    // ------------------------------------------------------------- DNS changes

    method RecordDNSChange(project: string, zone: string, change: Document)
      modifies this`dnsChanges
      ensures dnsChanges == Record(old(dnsChanges), project, zone, change)
    {
      var id := GetString(change, FId);
      if id == "" {
        return;
      }
      dnsChanges := dnsChanges[ChangeKey(project, zone, id) := change];
    }

    method UndoAdditions(added: seq<Dns.RrKey>)
      modifies repo`db
      ensures repo.db == old(repo.db).(dns := old(repo.db.dns).(rrsets := old(repo.db.dns.rrsets) - Dns.SetOf(added)))
    {
      ghost var before, rows := repo.db, repo.db.dns.rrsets;
      for i := 0 to |added|
        invariant repo.db == before.(dns := before.dns.(rrsets := rows - Dns.SetOf(added[..i])))
      {
        DeletingOneMore(rows, added, i);
        var _ := repo.DeleteDNSRecordSet(added[i].project, added[i].zone, added[i].name, added[i].rrtype);
      }
      assert added[..|added|] == added;
    }

    method PutBack(project: string, zone: string, p: Pending, ghost original: RecordSets)
      requires GlobalKey(project, zone) in repo.db.dns.zones && Restorable(original, project, zone, p)
      requires var key := KeyOfPending(project, zone, p);
               key in repo.db.dns.rrsets ==> repo.db.dns.rrsets[key] == original[key]
      modifies repo`db
      ensures var key := KeyOfPending(project, zone, p);
              var rows := old(repo.db.dns.rrsets)[key := original[key]];
              repo.db == old(repo.db).(dns := old(repo.db.dns).(rrsets := rows))
    {
      hide Dns.InsertRecordSet, Dns.RepeatsKey;
      RestoredOrThere(repo.db.dns, KeyOfPending(project, zone, p), original[KeyOfPending(project, zone, p)]);
      if p.entry.Some? {
        var _ := repo.CreateDNSRecordSet(project, zone, p.entry.value);
      }
    }

    method PutBackDeletions(project: string, zone: string, deleted: seq<Pending>, ghost original: RecordSets)
      requires GlobalKey(project, zone) in repo.db.dns.zones
      requires forall p :: p in deleted ==> Restorable(original, project, zone, p)
      requires forall p :: p in deleted ==> KeyOfPending(project, zone, p) !in repo.db.dns.rrsets
      modifies repo`db
      ensures repo.db == old(repo.db).(dns := old(repo.db.dns).(rrsets :=
                old(repo.db.dns.rrsets) + Restricted(original, Dns.SetOf(KeysOfPending(project, zone, deleted)))))
    {
      hide Dns.RepeatsKey;
      ghost var before, base, keys := repo.db, repo.db.dns.rrsets, KeysOfPending(project, zone, deleted);
      assert base + Restricted(original, Dns.SetOf(keys[..0])) == base;
      for i := 0 to |deleted|
        invariant repo.db == before.(dns := before.dns.(rrsets := base + Restricted(original, Dns.SetOf(keys[..i]))))
      {
        assert deleted[i] in deleted && Restorable(original, project, zone, deleted[i]);
        RestoringOneMore(base, original, keys, i);
        PutBack(project, zone, deleted[i], original);
      }
      assert keys[..|deleted|] == keys;
    }

    /** Additions are undone first, so the slot of a replaced record set is empty when the original is
        put back. Errors are ignored on the way. */
    method Rollback(project: string, zone: string, deleted: seq<Pending>, added: seq<Dns.RrKey>,
                    ghost original: RecordSets)
      requires GlobalKey(project, zone) in repo.db.dns.zones
      requires forall p :: p in deleted ==> Restorable(original, project, zone, p)
      requires forall p :: p in deleted ==>
               KeyOfPending(project, zone, p) !in repo.db.dns.rrsets.Keys - Dns.SetOf(added)
      modifies repo`db
      ensures repo.db == old(repo.db).(dns := old(repo.db.dns).(rrsets :=
                old(repo.db.dns.rrsets) - Dns.SetOf(added)
                + Restricted(original, Dns.SetOf(KeysOfPending(project, zone, deleted)))))
    {
      UndoAdditions(added);
      PutBackDeletions(project, zone, deleted, original);
    }

    /** The deletions of a request, each with the row it would remove; None when an entry is incomplete. */
    method PendingDeletions(project: string, zone: string, deletions: seq<Json>) returns (pending: Option<seq<Pending>>)
      ensures pending.Some? <==> Dns.AllComplete(Dns.Entries(deletions))
      ensures pending.Some?
              ==> KeysOfPending(project, zone, pending.value) == Dns.Keys(project, zone, Dns.Entries(deletions))
      ensures pending.Some? ==> forall p :: p in pending.value ==>
                var key := KeyOfPending(project, zone, p);
                p.entry == if key in repo.db.dns.rrsets then Some(repo.db.dns.rrsets[key]) else None
    {
      var ps: seq<Pending> := [];
      for i := 0 to |deletions|
        invariant Dns.AllComplete(Dns.Entries(deletions[..i]))
        invariant KeysOfPending(project, zone, ps) == Dns.Keys(project, zone, Dns.Entries(deletions[..i]))
        invariant forall p :: p in ps ==>
                    var key := KeyOfPending(project, zone, p);
                    p.entry == if key in repo.db.dns.rrsets then Some(repo.db.dns.rrsets[key]) else None
      {
        EntriesOneMore(deletions, i);
        if !deletions[i].Obj? {
          continue;
        }
        var entry := deletions[i].fields;
        var name, rrtype := GetString(entry, FName), GetString(entry, FType);
        if name == "" || rrtype == "" {
          IncompleteEntry(deletions, i);
          return None;
        }
        var key := Dns.RrKey(project, zone, name, rrtype);
        var current := if key in repo.db.dns.rrsets then Some(repo.db.dns.rrsets[key]) else None;
        ps := ps + [Pending(name, rrtype, current)];
      }
      assert deletions[..|deletions|] == deletions;
      return Some(ps);
    }

    /** The additions of a request, stamped by the server; None when an entry is incomplete. */
    static method PendingAdditions(additions: seq<Json>, now: string) returns (pending: Option<seq<Document>>)
      ensures pending.Some? <==> Dns.AllComplete(Dns.Entries(additions))
      ensures pending.Some? ==> var entries := Dns.Entries(additions);
                |pending.value| == |entries| && forall i :: 0 <= i < |entries| ==>
                  pending.value[i] == Dns.Served(entries[i], now)
    {
      var ps: seq<Document> := [];
      for i := 0 to |additions|
        invariant Dns.AllComplete(Dns.Entries(additions[..i]))
        invariant |ps| == |Dns.Entries(additions[..i])|
        invariant forall j :: 0 <= j < |ps| ==> ps[j] == Dns.Served(Dns.Entries(additions[..i])[j], now)
      {
        EntriesOneMore(additions, i);
        if !additions[i].Obj? {
          continue;
        }
        var entry := additions[i].fields;
        if GetString(entry, FName) == "" || GetString(entry, FType) == "" {
          IncompleteEntry(additions, i);
          return None;
        }
        entry := entry[FKind := Str(Dns.RECORD_SET_KIND)];
        entry := entry[FCreationTime := Str(now)];
        ps := ps + [entry];
      }
      assert additions[..|additions|] == additions;
      return Some(ps);
    }

    /** Delete the records one by one; on failure everything deleted so far is put back. */
    method ApplyDeletions(project: string, zone: string, pending: seq<Pending>) returns (r: Result<Document>)
      requires Dns.Valid(repo.db.dns) && GlobalKey(project, zone) in repo.db.dns.zones
      requires forall p :: p in pending ==>
                 var key := KeyOfPending(project, zone, p);
                 p.entry == if key in repo.db.dns.rrsets then Some(repo.db.dns.rrsets[key]) else None
      modifies repo`db
      ensures var keys := KeysOfPending(project, zone, pending);
              && (r.Ok? <==> Dns.DeletionsApply(old(repo.db.dns.rrsets), keys))
              && (r.Err? ==> r == Err(NotFound) && repo.db == old(repo.db))
              && (r.Ok? ==> var left := old(repo.db.dns.rrsets) - Dns.SetOf(keys);
                            repo.db == old(repo.db).(dns := old(repo.db.dns).(rrsets := left)))
    {
      hide Dns.RepeatsKey, Restricted, Restorable;
      ghost var before, rows, keys := repo.db, repo.db.dns.rrsets, KeysOfPending(project, zone, pending);
      var completed: seq<Pending> := [];
      for i := 0 to |pending|
        invariant completed == pending[..i]
        invariant Dns.DeletionsApply(rows, keys[..i])
        invariant repo.db == before.(dns := before.dns.(rrsets := rows - Dns.SetOf(keys[..i])))
      {
        assert pending[i] in pending;
        assert keys[..i + 1] == keys[..i] + [keys[i]];
        DeletingOneMore(rows, keys, i);
        var deleted := repo.DeleteDNSRecordSet(project, zone, pending[i].name, pending[i].rrtype);
        if deleted.Err? {
          CompletedAreRestorable(rows, project, zone, pending, i);
          Rollback(project, zone, completed, [], rows);
          DeletionsUndone(rows, keys[..i]);
          return Err(deleted.error);
        }
        completed := completed + [pending[i]];
      }
      assert keys[..|pending|] == keys;
      return Ok(map[]);
    }

    method AddOne(project: string, zone: string, data: Document, ghost entry: Document, now: string)
      returns (r: Result<Document>)
      requires GlobalKey(project, zone) in repo.db.dns.zones && Dns.Complete(entry) && data == Dns.Served(entry, now)
      modifies repo`db
      ensures var key, rows := Dns.KeyOf(project, zone, entry), old(repo.db.dns.rrsets);
              if key in rows then r == Err(AlreadyExists) && repo.db == old(repo.db)
              else
                var more := rows[key := Dns.AddedRow(project, zone, entry, now)];
                r.Ok? && repo.db == old(repo.db).(dns := old(repo.db.dns).(rrsets := more))
    {
      hide Dns.AddedRow, Dns.RrStamps, Dns.Served;
      AdditionStored(project, zone, entry, now);
      r := repo.CreateDNSRecordSet(project, zone, data);
    }

    /** Add the records one by one; on failure the additions are undone and the deletions put back. */
    method ApplyAdditions(project: string, zone: string, pending: seq<Document>, deleted: seq<Pending>,
                          ghost rows: RecordSets, ghost entries: seq<Document>, now: string)
      returns (r: Result<Document>)
      requires GlobalKey(project, zone) in repo.db.dns.zones
      requires Dns.AllComplete(entries) && |pending| == |entries|
      requires forall i :: 0 <= i < |entries| ==> pending[i] == Dns.Served(entries[i], now)
      requires forall p :: p in deleted ==> Restorable(rows, project, zone, p)
      requires repo.db.dns.rrsets == rows - Dns.SetOf(KeysOfPending(project, zone, deleted))
      modifies repo`db
      ensures var gone, fresh' := KeysOfPending(project, zone, deleted), Dns.Keys(project, zone, entries);
              && (r.Ok? <==> Dns.AdditionsApply(rows, gone, fresh'))
              && (r.Err? ==> r == Err(AlreadyExists))
              && var after := if r.Ok? then Applied(rows, gone, project, zone, entries, now) else rows;
                 repo.db == old(repo.db).(dns := old(repo.db.dns).(rrsets := after))
    {
      hide *;
      ghost var before, gone, fresh' := repo.db, KeysOfPending(project, zone, deleted),
        Dns.Keys(project, zone, entries);
      var completed: seq<Dns.RrKey> := [];
      NothingAddedYet(rows, gone, project, zone, entries, now);
      for i := 0 to |pending|
        invariant completed == fresh'[..i]
        invariant Dns.AdditionsApply(rows, gone, fresh'[..i])
        invariant repo.db
                  == before.(dns := before.dns.(rrsets := Applied(rows, gone, project, zone, entries[..i], now)))
      {
        AdditionStep(rows, gone, project, zone, entries, now, i);
        AdditionStored(project, zone, entries[i], now);
        EntryIsComplete(entries, i);
        var created := AddOne(project, zone, pending[i], entries[i], now);
        if created.Err? {
          AbortRestores(rows, project, zone, deleted, entries, now, i);
          Rollback(project, zone, deleted, completed, rows);
          return Err(created.error);
        }
        completed := completed + [Dns.KeyOf(project, zone, pending[i])];
      }
      assert entries[..|pending|] == entries && fresh'[..|pending|] == fresh';
      return Ok(map[]);
    }

    /** The list of additions as the response echoes it: the entries were stamped where they stand. */
    static method EchoOf(project: string, zone: string, items: seq<Json>, now: string) returns (echo: seq<Json>)
      ensures echo == Dns.Echo(project, zone, items, now)
    {
      echo := [];
      for i := 0 to |items|
        invariant echo == Dns.Echo(project, zone, items[..i], now)
      {
        assert items[..i + 1][..i] == items[..i];
        var item := items[i];
        if item.Obj? {
          item := Obj(Dns.AddedRow(project, zone, item.fields, now));
        }
        echo := echo + [item];
      }
      assert items[..|items|] == items;
    }

    /** The transaction on the record sets, and the change it is answered with. */
    method ApplyDNSChange(project: string, zone: string, body: Document, now: string, id: string)
      returns (r: Result<Document>)
      requires Dns.Valid(repo.db.dns)
      modifies repo`db
      ensures repo.db == old(repo.db).(dns := repo.db.dns)
      ensures Outcome(repo.db.dns, r) == Dns.ApplyChange(old(repo.db.dns), project, zone, body, now, id)
    {
      ChangeAnswer(repo.db.dns, project, zone, body, now, id);
      hide Dns.Valid, Dns.AllComplete, Dns.DeletionsApply, Dns.AdditionsApply, Dns.Entries, Dns.Items, Dns.Keys,
           Dns.Echo, Dns.ChangeRecord, Dns.RepeatsKey, Dns.ApplyChange, Applied, Restorable, KeysOfPending;
      if GlobalKey(project, zone) !in repo.db.dns.zones {
        return Err(NotFound);
      }
      var deletions, additions := Dns.Items(body, FDeletions), Dns.Items(body, FAdditions);
      ghost var rows, added := repo.db.dns.rrsets, Dns.Entries(additions);
      var pendingDeletions := PendingDeletions(project, zone, deletions);
      if pendingDeletions.None? {
        return Err(BadRequest);
      }
      var pendingAdditions := PendingAdditions(additions, now);
      if pendingAdditions.None? {
        return Err(BadRequest);
      }
      PendingAreRestorable(repo.db.dns, project, zone, pendingDeletions.value);
      assert KeysOfPending(project, zone, pendingDeletions.value) == Dns.Keys(project, zone, Dns.Entries(deletions));
      var deleted := ApplyDeletions(project, zone, pendingDeletions.value);
      if deleted.Err? {
        return deleted;
      }
      var created := ApplyAdditions(project, zone, pendingAdditions.value, pendingDeletions.value, rows, added, now);
      if created.Err? {
        return created;
      }
      var change: Document :=
        map[FKind := Str("dns#change"), FId := Str(id), FStatus := Str("done"), FStartTime := Str(now)];
      if |additions| > 0 {
        var echo := EchoOf(project, zone, additions, now);
        change := change[FAdditions := Arr(echo)];
      }
      if |deletions| > 0 {
        change := change[FDeletions := Arr(deletions)];
      }
      RecordParts(project, zone, body, now, id);
      return Ok(change);
    }

    method CreateDNSChange(project: string, zone: string, body: Document, now: string, id: string)
      returns (r: Result<Document>)
      requires Valid()
      modifies this`dnsChanges, repo`db
      ensures Reply(View(), r) == Step(old(View()), CreateDnsChange(project, zone, body, now, id))
      ensures Routed(CreateDnsChange(project, zone, body, now, id)) ==> Valid()
    {
      RecordSetsAreSound();
      StepStaysReachable(View(), CreateDnsChange(project, zone, body, now, id));
      Dns.ChangeAnswers(repo.db.dns, project, zone, body, now, id);
      hide Dns.Valid, Dns.ApplyChange, Record, Reachable, Routed, ApplyToTables;
      r := ApplyDNSChange(project, zone, body, now, id);
      if r.Ok? {
        RecordDNSChange(project, zone, r.value);
      }
    }

    /** A poll for a change demands the zone, and then answers with the change that was recorded under the
        triple by whatever run of requests led here. */
    method GetDNSChange(project: string, zone: string, id: string) returns (r: Result<Document>)
      requires Valid()
      ensures Histories.Plain(Histories.ChangeId(project, zone, id)) ==>
                forall ops :: Run(INITIAL, ops) == View() && AllRouted(ops) ==>
                  var t, recorded := Histories.ChangeId(project, zone, id), Histories.TupleRun(ops).live;
                  r == if GlobalKey(project, zone) in repo.db.dns.zones && t in recorded then Ok(recorded[t])
                       else Err(NotFound)
    {
      hide Run, AllRouted, ChangeKey, Histories.TupleRun, Reachable;
      ghost var polled := Histories.ChangeId(project, zone, id);
      forall ops | Run(INITIAL, ops) == View() && AllRouted(ops) && Histories.Plain(polled)
        ensures Histories.Lookup(dnsChanges, project, zone, id)
             == var t, recorded := Histories.ChangeId(project, zone, id), Histories.TupleRun(ops).live;
                if t in recorded then Some(recorded[t]) else None
      {
        Histories.LookupIsByTriple(ops, project, zone, id);
      }
      if GlobalKey(project, zone) !in repo.db.dns.zones {
        return Err(NotFound);
      }
      var key := ChangeKey(project, zone, id);
      if key in dnsChanges {
        return Ok(dnsChanges[key]);
      }
      return Err(NotFound);
    }

    // -------------------------------------------------------------- record sets

    method CreateDNSRecordSet(project: string, zone: string, body: Document, env: Env) returns (r: Result<Document>)
      requires Valid()
      modifies repo`db
      ensures Reply(View(), r) == Step(old(View()), OnDns(Dns.CreateRecordSet(project, zone, body, env))) && Valid()
    {
      StepStaysReachable(View(), OnDns(Dns.CreateRecordSet(project, zone, body, env)));
      hide Reachable, Dns.InsertRecordSet;
      if GlobalKey(project, zone) !in repo.db.dns.zones {
        return Err(NotFound);
      }
      if GetString(body, FName) == "" || GetString(body, FType) == "" {
        return Err(BadRequest);
      }
      var data := body[FKind := Str(Dns.RECORD_SET_KIND)];
      data := data[FCreationTime := Str(env.now)];
      r := repo.CreateDNSRecordSet(project, zone, data);
    }

    method DeleteDNSRecordSet(project: string, zone: string, name: string, rrtype: string) returns (r: Result<Document>)
      requires Valid()
      modifies repo`db
      ensures Reply(View(), r) == Step(old(View()), OnDns(Dns.DeleteRecordSet(project, zone, name, rrtype))) && Valid()
    {
      StepStaysReachable(View(), OnDns(Dns.DeleteRecordSet(project, zone, name, rrtype)));
      hide Reachable, Dns.RemoveRecordSet;
      if GlobalKey(project, zone) !in repo.db.dns.zones {
        return Err(NotFound);
      }
      r := repo.DeleteDNSRecordSet(project, zone, name, rrtype);
    }

    // ------------------------------------------------------------ subscriptions

    /** The name in the body is overwritten with the one in the path. */
    method CreateSubscription(project: string, subscription: string, body: Document) returns (r: Result<Document>)
      requires Valid()
      modifies repo`db
      ensures Reply(View(), r) == Step(old(View()), OnPubsub(Pubsub.CreateSubscription(project, subscription, body)))
      ensures SlashFree(subscription) ==> Valid()
    {
      StepStaysReachable(View(), OnPubsub(Pubsub.CreateSubscription(project, subscription, body)));
      hide Reachable, Pubsub.InsertSubscription, Pubsub.FullName;
      var data := body[FName := Str(Pubsub.FullName(project, "subscriptions", subscription))];
      r := repo.CreateSubscription(project, data);
    }

    // ------------------------------------------------------------- IAM policies

    static method MembersOf(raw: seq<Json>) returns (members: seq<string>)
      ensures members == IamPolicy.Members(raw)
    {
      members := [];
      for i := 0 to |raw|
        invariant members == IamPolicy.Members(raw[..i])
      {
        assert raw[..i + 1][..i] == raw[..i];
        if raw[i].Str? && raw[i].s != "" {
          members := members + [raw[i].s];
        }
      }
      assert raw[..|raw|] == raw;
    }

    /** Clear every role the project shows, one transaction each. */
    method ClearPolicy(project: string)
      requires IamPolicy.Valid(repo.db.bindings)
      modifies repo`db
      ensures repo.db == old(repo.db).(bindings := IamPolicy.WithoutProject(old(repo.db.bindings), project))
    {
      hide PolicyView.Flatten, PolicyView.Sorted, Blank;
      ghost var before, rows := repo.db, repo.db.bindings;
      var groups := repo.GetIAMPolicy(project);
      ghost var cleared: set<string> := {};
      for i := 0 to |groups|
        invariant cleared == set g | g in groups[..i] :: g.role
        invariant repo.db == before.(bindings := WithoutRoles(rows, project, cleared))
      {
        assert groups[i] in groups && groups[..i + 1] == groups[..i] + [groups[i]];
        PolicyView.GroupRoleIsShown(groups, groups[i]);
        ClearingOneMore(rows, project, cleared, groups[i].role);
        var _ := repo.SetIAMBinding(project, groups[i].role, []);
        cleared := cleared + {groups[i].role};
      }
      assert groups[..|groups|] == groups;
      forall k | k in rows && k.project == project ensures k.role in cleared {
        PolicyView.ShownRoleHasGroup(groups, PolicyView.Pair(k.role, k.member));
      }
    }

    /** Clear the project's policy, then set the requested bindings until one fails. */
    method ReplacePolicy(project: string, body: Document) returns (r: Result<Document>)
      requires IamPolicy.Valid(repo.db.bindings)
      modifies repo`db
      ensures repo.db == old(repo.db).(bindings := repo.db.bindings)
      ensures Outcome(repo.db.bindings, r) == IamPolicy.SetPolicy(old(repo.db.bindings), project, body)
    {
      hide IamPolicy.Valid, IamPolicy.WithoutProject, IamPolicy.SetRole, Dns.Items, IamPolicy.Members;
      if FPolicy !in body || !body[FPolicy].Obj? {
        return Err(BadRequest);
      }
      var items := Dns.Items(body[FPolicy].fields, FBindings);
      ghost var before := repo.db;
      ghost var base := IamPolicy.WithoutProject(before.bindings, project);
      ClearPolicy(project);
      for i := 0 to |items|
        invariant IamPolicy.SetRoles(base, project, IamPolicy.RoleBindings(items[..i]))
                  == Outcome(repo.db.bindings, Ok(map[]))
        invariant repo.db == before.(bindings := repo.db.bindings)
      {
        RoleBindingsOneMore(items, i);
        assert IamPolicy.RoleBindings(items[..i]) + [] == IamPolicy.RoleBindings(items[..i]);
        if !items[i].Obj? {
          continue;
        }
        var role := GetString(items[i].fields, FRole);
        if role == "" {
          continue;
        }
        var members := MembersOf(Dns.Items(items[i].fields, FMembers));
        SettingOneMore(base, project, IamPolicy.RoleBindings(items[..i]), IamPolicy.RoleBinding(role, members));
        SetRoleAnswersEmpty(repo.db.bindings, project, role, members);
        var done := repo.SetIAMBinding(project, role, members);
        if done.Err? {
          FailureSticks(base, project, items, i + 1);
          return done;
        }
      }
      assert items[..|items|] == items;
      return Ok(map[]);
    }

    /** Replace the project's policy and answer with the policy read back: it shows exactly what the request
        granted, each role once. */
    method SetIAMPolicy(project: string, body: Document) returns (r: Result<seq<IamPolicy.RoleBinding>>)
      requires Valid()
      modifies repo`db
      ensures var answer := if r.Ok? then Ok(map[]) else Err(r.error);
              Reply(View(), answer) == Step(old(View()), Op.SetIamPolicy(project, body)) && Valid()
      ensures r.Ok? ==> PolicyView.Grouping(r.value)
      ensures forall items :: IamPolicy.Asks(body, items) ==>
                && (r.Ok? <==> IamPolicy.HasPolicy(body) && IamPolicy.AllFree(items))
                && (r.Ok? ==> forall role, member ::
                      PolicyView.Shows(r.value, role, member) <==>
                        role != "" && IamPolicy.GrantedBy(items, role, member))
    {
      BindingsAreSound();
      StepStaysReachable(View(), Op.SetIamPolicy(project, body));
      hide Reachable, IamPolicy.Valid, IamPolicy.SetPolicy, IamPolicy.AllFree, IamPolicy.GrantedBy, IamPolicy.Asks,
           IamPolicy.HasPolicy, PolicyView.Grouping, PolicyView.Flatten, PolicyView.ListsProject, PolicyView.Shows;
      ghost var before := repo.db.bindings;
      var done := ReplacePolicy(project, body);
      forall items | IamPolicy.Asks(body, items)
        ensures done.Ok? <==> IamPolicy.HasPolicy(body) && IamPolicy.AllFree(items)
      {
        IamPolicy.SetPolicyReadsTheRequest(before, project, body, items);
      }
      if done.Err? {
        return Err(done.error);
      }
      BindingsAreSound();
      var groups := repo.GetIAMPolicy(project);
      forall items, role, member | IamPolicy.Asks(body, items)
        ensures PolicyView.Shows(groups, role, member) <==> role != "" && IamPolicy.GrantedBy(items, role, member)
      {
        IamPolicy.SetPolicyReadsTheRequest(before, project, body, items);
        PolicyView.GroupsShowTheRows(groups, repo.db.bindings, project, role, member);
        var k := IamPolicy.BindingKey(project, role, member);
        assert k in repo.db.bindings <==> k.role != "" && IamPolicy.GrantedBy(items, k.role, k.member);
      }
      return Ok(groups);
    }

    // ---------------------------------------------------------- secret versions

    method CreateSecretVersion(project: string, secret: string, body: Document, env: Env) returns (r: Result<Document>)
      requires Valid()
      modifies repo`db
      ensures Reply(View(), r) == Step(old(View()), OnSecrets(Secrets.AddVersion(project, secret, body, env)))
      ensures SlashFree(project) && SlashFree(secret) ==> Valid()
    {
      StepStaysReachable(View(), OnSecrets(Secrets.AddVersion(project, secret, body, env)));
      hide Reachable;
      hide Secrets.InsertVersionRow;
      if FPayload !in body || !body[FPayload].Obj? {
        return Err(BadRequest);
      }
      var payload := body[FPayload].fields;
      if FData !in payload || !payload[FData].Str? {
        return Err(BadRequest);
      }
      var data := body[FState := Str(Secrets.ENABLED)];
      data := data[FCreateTime := Str(env.now)];
      r := repo.CreateSecretVersion(project, secret, data, env);
    }

    /** The stored version a path parameter stands for. */
    method FindVersion(project: string, secret: string, version: string) returns (name: Option<string>)
      ensures name.Some? ==> Secrets.Designates(repo.db.secrets, project, secret, version, name.value)
      ensures name.None? ==> forall n :: !Secrets.Designates(repo.db.secrets, project, secret, version, n)
    {
      hide Secrets.VersionName;
      if version == "latest" {
        name := repo.GetLatestSecretVersion(project, secret);
      } else {
        var full := Secrets.VersionName(project, secret, version);
        name := if full in repo.db.secrets.versions then Some(full) else None;
      }
    }

    /** The payload of a version, by number or as "latest": the stored one, or empty data once destroyed. */
    method AccessSecretVersion(project: string, secret: string, version: string) returns (r: Result<Document>)
      requires Valid()
      ensures r.Ok? <==> exists name :: Secrets.Designates(repo.db.secrets, project, secret, version, name)
      ensures r.Err? ==> r == Err(NotFound)
      ensures forall name :: Secrets.Designates(repo.db.secrets, project, secret, version, name)
                ==> r == Ok(Secrets.AccessResponse(repo.db.secrets.versions[name].data))
    {
      VersionsAreSound();
      var name := FindVersion(project, secret, version);
      hide Reachable;
      if name.None? {
        return Err(NotFound);
      }
      Secrets.OneVersionIsDesignated(repo.db.secrets, project, secret, version, name.value);
      hide Secrets.Valid;
      var item := repo.db.secrets.versions[name.value].data;
      var resp: Document := map[FName := if FName in item then item[FName] else Null];
      if FPayload in item && item[FPayload].Obj? {
        resp := resp[FPayload := item[FPayload]];
      } else {
        resp := resp[FPayload := Obj(map[FData := Str("")])];
      }
      return Ok(resp);
    }

    method DestroySecretVersion(project: string, secret: string, version: string, env: Env)
      returns (r: Result<Document>)
      requires Valid()
      modifies repo`db
      ensures Reply(View(), r) == Step(old(View()), OnSecrets(Secrets.DestroyVersion(project, secret, version, env)))
      ensures Valid()
    {
      StepStaysReachable(View(), OnSecrets(Secrets.DestroyVersion(project, secret, version, env)));
      hide Reachable;
      hide Secrets.VersionName;
      r := repo.DestroySecretVersion(Secrets.VersionName(project, secret, version), env.now);
    }

    method EnableSecretVersion(project: string, secret: string, version: string) returns (r: Result<Document>)
      requires Valid()
      modifies repo`db
      ensures Reply(View(), r) == Step(old(View()), OnSecrets(Secrets.EnableVersion(project, secret, version)))
      ensures r.Ok? ==> Says(r.value, FState, "ENABLED")
      ensures Valid()
    {
      StepStaysReachable(View(), OnSecrets(Secrets.EnableVersion(project, secret, version)));
      hide Reachable;
      hide Secrets.VersionName;
      r := repo.SetSecretVersionState(Secrets.VersionName(project, secret, version), Secrets.ENABLED);
    }

    method DisableSecretVersion(project: string, secret: string, version: string) returns (r: Result<Document>)
      requires Valid()
      modifies repo`db
      ensures Reply(View(), r) == Step(old(View()), OnSecrets(Secrets.DisableVersion(project, secret, version)))
      ensures r.Ok? ==> Says(r.value, FState, "DISABLED")
      ensures Valid()
    {
      StepStaysReachable(View(), OnSecrets(Secrets.DisableVersion(project, secret, version)));
      hide Reachable;
      hide Secrets.VersionName;
      r := repo.SetSecretVersionState(Secrets.VersionName(project, secret, version), Secrets.DISABLED);
    }
  }

  // ------------------------------------------------------------ policy details

  ghost function WithoutRoles(b: IamPolicy.Bindings, project: string, roles: set<string>): IamPolicy.Bindings {
    map k | k in b && !(k.project == project && k.role in roles) :: b[k]
  }

  lemma ClearingOneMore(b: IamPolicy.Bindings, project: string, roles: set<string>, role: string)
    requires role != ""
    ensures var now := WithoutRoles(b, project, roles);
            IamPolicy.SetRole(now, project, role, []) == Outcome(WithoutRoles(b, project, roles + {role}), Ok(map[]))
  {
    hide IamPolicy.RoleRows, IamPolicy.NoRepeats;
    IamPolicy.NothingKept(project, role, []);
    var cleared := IamPolicy.WithoutRole(WithoutRoles(b, project, roles), project, role);
    assert cleared == WithoutRoles(b, project, roles + {role});
    assert cleared + map[] == cleared;
  }

  lemma RoleBindingsOneMore(items: seq<Json>, i: nat)
    requires i < |items|
    ensures IamPolicy.RoleBindings(items[..i + 1]) == IamPolicy.RoleBindings(items[..i]) +
              if items[i].Obj? && GetString(items[i].fields, FRole) != ""
              then [IamPolicy.RoleBinding(GetString(items[i].fields, FRole),
                IamPolicy.Members(Dns.Items(items[i].fields, FMembers)))]
              else []
  {
    assert items[..i + 1][..i] == items[..i];
  }

  lemma SettingOneMore(base: IamPolicy.Bindings, project: string, front: seq<IamPolicy.RoleBinding>,
                       last: IamPolicy.RoleBinding)
    requires IamPolicy.SetRoles(base, project, front).result.Ok?
    ensures IamPolicy.SetRoles(base, project, front + [last])
         == IamPolicy.SetRole(IamPolicy.SetRoles(base, project, front).db, project, last.role, last.members)
  {
    assert (front + [last])[..|front|] == front;
  }

  lemma SetRoleAnswersEmpty(b: IamPolicy.Bindings, project: string, role: string, members: seq<string>)
    ensures var result := IamPolicy.SetRole(b, project, role, members).result; result.Ok? ==> result == Ok(map[])
  {
  }

  /** What fails on a prefix of the request fails the same way on all of it. */
  lemma {:induction false} FailureSticks(base: IamPolicy.Bindings, project: string, items: seq<Json>, n: nat)
    requires n <= |items| && IamPolicy.SetRoles(base, project, IamPolicy.RoleBindings(items[..n])).result.Err?
    ensures IamPolicy.SetRoles(base, project, IamPolicy.RoleBindings(items))
         == IamPolicy.SetRoles(base, project, IamPolicy.RoleBindings(items[..n]))
    decreases |items|
  {
    hide IamPolicy.SetRole, IamPolicy.Members, Dns.Items;
    if n < |items| {
      var front := items[..|items| - 1];
      assert front[..n] == items[..n];
      FailureSticks(base, project, front, n);
      var bindings := IamPolicy.RoleBindings(items);
      if |bindings| > |IamPolicy.RoleBindings(front)| {
        assert bindings[..|bindings| - 1] == IamPolicy.RoleBindings(front);
      } else {
        assert bindings == IamPolicy.RoleBindings(front);
      }
    } else {
      assert items[..n] == items;
    }
  }

  /** The answers a change can get, one for each check in turn. */
  lemma ChangeAnswer(db: Dns.DnsDb, project: string, zone: string, body: Document, now: string, id: string)
    ensures var deleted, added := Dns.Entries(Dns.Items(body, FDeletions)), Dns.Entries(Dns.Items(body, FAdditions));
            var gone, fresh' := Dns.Keys(project, zone, deleted), Dns.Keys(project, zone, added);
            Dns.ApplyChange(db, project, zone, body, now, id) ==
              if GlobalKey(project, zone) !in db.zones then Outcome(db, Err(NotFound))
              else if !Dns.AllComplete(deleted) || !Dns.AllComplete(added) then Outcome(db, Err(BadRequest))
              else if !Dns.DeletionsApply(db.rrsets, gone) then Outcome(db, Err(NotFound))
              else if !Dns.AdditionsApply(db.rrsets, gone, fresh') then Outcome(db, Err(AlreadyExists))
              else Outcome(db.(rrsets := Applied(db.rrsets, gone, project, zone, added, now)),
                           Ok(Dns.ChangeRecord(project, zone, body, now, id)))
  {
    hide Dns.AllComplete, Dns.DeletionsApply, Dns.AdditionsApply, Dns.AddedRows, Dns.Entries, Dns.Items,
         Dns.ChangeRecord;
  }

  lemma RecordParts(project: string, zone: string, body: Document, now: string, id: string)
    ensures var additions, deletions := Dns.Items(body, FAdditions), Dns.Items(body, FDeletions);
            var base: Document := map[FKind := Str("dns#change"), FId := Str(id), FStatus := Str("done"),
              FStartTime := Str(now)];
            var withAdditions := if |additions| > 0
              then base[FAdditions := Arr(Dns.Echo(project, zone, additions, now))] else base;
            (if |deletions| > 0 then withAdditions[FDeletions := Arr(deletions)] else withAdditions)
            == Dns.ChangeRecord(project, zone, body, now, id)
  {
    hide Dns.Items, Dns.Echo;
  }

  /** A snapshot taken of the live record sets can be put back as it is. */
  lemma PendingAreRestorable(db: Dns.DnsDb, project: string, zone: string, pending: seq<Pending>)
    requires Dns.Valid(db)
    requires forall p :: p in pending ==> var key := KeyOfPending(project, zone, p);
             p.entry == if key in db.rrsets then Some(db.rrsets[key]) else None
    ensures forall k :: k in db.rrsets ==> Dns.RepeatsKey(k, db.rrsets[k])
    ensures Dns.DeletionsApply(db.rrsets, KeysOfPending(project, zone, pending)) ==>
              forall p :: p in pending ==> Restorable(db.rrsets, project, zone, p)
  {
    hide Dns.RepeatsKey, KeyOfPending;
    if Dns.DeletionsApply(db.rrsets, KeysOfPending(project, zone, pending)) {
      assert pending[..|pending|] == pending;
      var keys := KeysOfPending(project, zone, pending);
      assert keys[..|pending|] == keys;
      CompletedAreRestorable(db.rrsets, project, zone, pending, |pending|);
    }
  }

  /** The record sets once a change's deletions and these additions have been applied. */
  ghost function Applied(rows: RecordSets, gone: seq<Dns.RrKey>, project: string, zone: string,
                         entries: seq<Document>, now: string): RecordSets {
    rows - Dns.SetOf(gone) + Dns.AddedRows(project, zone, entries, now)
  }

  lemma EntryIsComplete(entries: seq<Document>, i: nat)
    requires i < |entries| && Dns.AllComplete(entries)
    ensures Dns.Complete(entries[i])
  {
    assert entries[i] in entries;
  }

  lemma SlotTakenIff(rows: RecordSets, gone: seq<Dns.RrKey>, project: string, zone: string, entries: seq<Document>,
                     now: string, i: nat)
    requires i < |entries|
    ensures var keys := Dns.Keys(project, zone, entries);
            keys[i] in Applied(rows, gone, project, zone, entries[..i], now)
            <==> keys[i] in rows.Keys - Dns.SetOf(gone) || keys[i] in keys[..i]
  {
    hide Dns.AddedRow, Dns.AddedRows, Dns.KeyOf;
    KeysOfFront(project, zone, entries, i);
    Dns.AddedRowsContents(project, zone, entries[..i], now);
  }

  /** One more addition either finds its slot taken, so that the change cannot apply, or fills it. */
  lemma AdditionStep(rows: RecordSets, gone: seq<Dns.RrKey>, project: string, zone: string, entries: seq<Document>,
                     now: string, i: nat)
    requires i < |entries| && Dns.AdditionsApply(rows, gone, Dns.Keys(project, zone, entries)[..i])
    ensures var key, keys := Dns.KeyOf(project, zone, entries[i]), Dns.Keys(project, zone, entries);
            var current := Applied(rows, gone, project, zone, entries[..i], now);
            if key in current then !Dns.AdditionsApply(rows, gone, keys)
            else && Dns.AdditionsApply(rows, gone, keys[..i + 1]) && keys[..i + 1] == keys[..i] + [key]
                 && current[key := Dns.AddedRow(project, zone, entries[i], now)]
                    == Applied(rows, gone, project, zone, entries[..i + 1], now)
  {
    hide Dns.AddedRow, Dns.AddedRows, Dns.AdditionsApply, Dns.KeyOf;
    var keys := Dns.Keys(project, zone, entries);
    assert keys[..i + 1] == keys[..i] + [keys[i]];
    AdditionsOneMore(rows, gone, keys, i);
    AddingOneMore(project, zone, entries, now, i);
    SlotTakenIff(rows, gone, project, zone, entries, now, i);
    hide Dns.SetOf;
  }

  /** Undoing the additions made so far and putting the deletions back gives the original rows. */
  lemma AbortRestores(rows: RecordSets, project: string, zone: string, deleted: seq<Pending>, entries: seq<Document>,
                      now: string, i: nat)
    requires i <= |entries| && forall p :: p in deleted ==> Restorable(rows, project, zone, p)
    requires Dns.AdditionsApply(rows, KeysOfPending(project, zone, deleted), Dns.Keys(project, zone, entries)[..i])
    ensures var gone, added := KeysOfPending(project, zone, deleted), Dns.SetOf(Dns.Keys(project, zone, entries)[..i]);
            var current := Applied(rows, gone, project, zone, entries[..i], now);
            && current - added + Restricted(rows, Dns.SetOf(gone)) == rows
            && forall p :: p in deleted ==> KeyOfPending(project, zone, p) !in current.Keys - added
  {
    hide Dns.AddedRows, Dns.AdditionsApply, Restorable, KeyOfPending;
    var gone := KeysOfPending(project, zone, deleted);
    KeysOfFront(project, zone, entries, i);
    AddedKeysAreTheirs(rows, gone, project, zone, entries[..i], now);
    KeysInRows(rows, project, zone, deleted);
    UndoneIsAsBefore(rows, Dns.SetOf(gone), Dns.AddedRows(project, zone, entries[..i], now));
  }

  lemma NothingAddedYet(rows: RecordSets, gone: seq<Dns.RrKey>, project: string, zone: string, entries: seq<Document>,
                        now: string)
    ensures Dns.AdditionsApply(rows, gone, Dns.Keys(project, zone, entries)[..0])
    ensures Applied(rows, gone, project, zone, entries[..0], now) == rows - Dns.SetOf(gone)
  {
  }

  lemma KeysOfFront(project: string, zone: string, entries: seq<Document>, i: nat)
    requires i <= |entries|
    ensures Dns.Keys(project, zone, entries[..i]) == Dns.Keys(project, zone, entries)[..i]
  {
  }

  lemma KeysInRows(rows: RecordSets, project: string, zone: string, deleted: seq<Pending>)
    requires forall p :: p in deleted ==> Restorable(rows, project, zone, p)
    ensures forall k :: k in KeysOfPending(project, zone, deleted) ==> k in rows
    ensures forall p :: p in deleted ==> KeyOfPending(project, zone, p) in KeysOfPending(project, zone, deleted)
  {
    var keys := KeysOfPending(project, zone, deleted);
    forall k | k in keys ensures k in rows {
      var j :| 0 <= j < |keys| && keys[j] == k;
      assert deleted[j] in deleted;
    }
    forall p | p in deleted ensures KeyOfPending(project, zone, p) in keys {
      var j :| 0 <= j < |deleted| && deleted[j] == p;
      assert keys[j] == KeyOfPending(project, zone, p);
    }
  }

  /** Stamping does not move an entry to another key, and what is stored is the added row. */
  lemma AdditionStored(project: string, zone: string, entry: Document, now: string)
    ensures Dns.KeyOf(project, zone, Dns.Served(entry, now)) == Dns.KeyOf(project, zone, entry)
    ensures Dns.Served(entry, now) + Dns.RrStamps(Dns.KeyOf(project, zone, entry))
            == Dns.AddedRow(project, zone, entry, now)
  {
  }
}
