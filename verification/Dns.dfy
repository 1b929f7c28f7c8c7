/** Managed zones, record sets and the change transaction (handlers/dns.go, repository/repository.go). */
module Dns {
  import opened Wrappers
  import opened Json
  import opened Tables
  import opened Merge
  import opened Compute
  import opened Requests

  datatype RrKey = RrKey(project: string, zone: string, name: string, rrtype: string)

  datatype DnsDb = DnsDb(zones: map<GlobalKey, Document>, rrsets: map<RrKey, Document>)

  const NO_ZONES := DnsDb(map[], map[])

  datatype DnsOp =
    | CreateZone(project: string, data: Document, env: Env)
    | UpdateZone(project: string, name: string, patch: Document)
    | DeleteZone(project: string, name: string)
    | CreateRecordSet(project: string, zone: string, data: Document, env: Env)
    | DeleteRecordSet(project: string, zone: string, name: string, rrtype: string)

  function ZoneOf(key: RrKey): GlobalKey {
    GlobalKey(key.project, key.zone)
  }

  function RrStamps(key: RrKey): Document {
    map[FName := Str(key.name), FProject := Str(key.project), FManagedZone := Str(key.zone), FType := Str(key.rrtype)]
  }

  function KeyOf(project: string, zone: string, data: Document): RrKey {
    RrKey(project, zone, GetString(data, FName), GetString(data, FType))
  }

  function InsertZone(db: DnsDb, project: string, data: Document, env: Env): Outcome<DnsDb> {
    var key := GlobalKey(project, GetString(data, FName));
    if key.name == "" then Fail(db, Required)
    else if key in db.zones then Fail(db, AlreadyExists)
    else
      var stamped := data + GlobalStamps(project, key.name);
      var row := WithDefault(if FId in stamped then stamped else stamped[FId := Str(env.id)], FCreationTime, env.now);
      Outcome(db.(zones := db.zones[key := row]), Ok(row))
  }

  function PatchZone(db: DnsDb, project: string, name: string, patch: Document): Outcome<DnsDb> {
    var key, stamps := GlobalKey(project, name), GlobalStamps(project, name);
    if key !in db.zones then Fail(db, NotFound)
    else
      var row := Merged(db.zones[key], patch, stamps.Keys) + stamps;
      Outcome(db.(zones := db.zones[key := row]), Ok(row))
  }

  predicate ZoneEmpty(db: DnsDb, zone: GlobalKey) {
    forall k :: k in db.rrsets ==> ZoneOf(k) != zone
  }

  /** The row's deletion would cascade to its record sets; the count taken first refuses when there are any. */
  function RemoveZone(db: DnsDb, project: string, name: string): Outcome<DnsDb> {
    var key := GlobalKey(project, name);
    if !ZoneEmpty(db, key) then Fail(db, InUse)
    else if key !in db.zones then Fail(db, NotFound)
    else Outcome(DnsDb(db.zones - {key}, map k | k in db.rrsets && ZoneOf(k) != key :: db.rrsets[k]), Ok(map[]))
  }

  function InsertRecordSet(db: DnsDb, project: string, zone: string, data: Document): Outcome<DnsDb> {
    var key := KeyOf(project, zone, data);
    if key.name == "" || key.rrtype == "" then Fail(db, Required)
    else
      match InsertError(key in db.rrsets, ZoneOf(key) in db.zones)
      case Some(e) => Fail(db, e)
      case None => Outcome(db.(rrsets := db.rrsets[key := data + RrStamps(key)]), Ok(data + RrStamps(key)))
  }

  function RemoveRecordSet(db: DnsDb, key: RrKey): Outcome<DnsDb> {
    if key !in db.rrsets then Fail(db, NotFound)
    else Outcome(db.(rrsets := db.rrsets - {key}), Ok(map[]))
  }

  /** The handlers demand a zone's DNS name and set its kind and time; they demand the zone itself before they
      look at a record set. */
  function Apply(db: DnsDb, op: DnsOp): Outcome<DnsDb> {
    match op
    case CreateZone(project, data, env) =>
      if GetString(data, FName) == "" || FDnsName !in data then Fail(db, BadRequest)
      else InsertZone(db, project, data[FKind := Str(ZONE_KIND)][FCreationTime := Str(env.now)], env)
    case UpdateZone(project, name, patch) => PatchZone(db, project, name, patch)
    case DeleteZone(project, name) => RemoveZone(db, project, name)
    case CreateRecordSet(project, zone, data, env) =>
      if GlobalKey(project, zone) !in db.zones then Fail(db, NotFound)
      else if GetString(data, FName) == "" || GetString(data, FType) == "" then Fail(db, BadRequest)
      else InsertRecordSet(db, project, zone, Served(data, env.now))
    case DeleteRecordSet(project, zone, name, rrtype) =>
      if GlobalKey(project, zone) !in db.zones then Fail(db, NotFound)
      else RemoveRecordSet(db, RrKey(project, zone, name, rrtype))
  }

  const ZONE_KIND := "dns#managedZone"

  const RECORD_SET_KIND := "dns#resourceRecordSet"

  /** Kind and creation time are the server's, whatever the client sent. */
  function Served(entry: Document, now: string): Document {
    entry[FKind := Str(RECORD_SET_KIND)][FCreationTime := Str(now)]
  }

  // --------------------------------------------------------------- invariants

  /** A stored record set repeats its key, so storing it again under its zone stores the same row. */
  predicate RepeatsKey(key: RrKey, data: Document) {
    key.name != "" && key.rrtype != "" && data + RrStamps(key) == data
  }

  ghost predicate Valid(db: DnsDb) {
    forall k :: k in db.rrsets ==> ZoneOf(k) in db.zones && RepeatsKey(k, db.rrsets[k])
  }

  lemma RestoredRowIsTheSame(db: DnsDb, key: RrKey, data: Document)
    requires RepeatsKey(key, data)
    ensures KeyOf(key.project, key.zone, data) == key
    ensures key !in db.rrsets && ZoneOf(key) in db.zones
            ==> InsertRecordSet(db, key.project, key.zone, data).db == db.(rrsets := db.rrsets[key := data])
  {
    assert (data + RrStamps(key))[FName] == Str(key.name) && (data + RrStamps(key))[FType] == Str(key.rrtype);
  }

  lemma StampedRowRepeatsKey(project: string, zone: string, data: Document)
    requires var key := KeyOf(project, zone, data); key.name != "" && key.rrtype != ""
    ensures RepeatsKey(KeyOf(project, zone, data), data + RrStamps(KeyOf(project, zone, data)))
  {
    var stamps := RrStamps(KeyOf(project, zone, data));
    assert data + stamps + stamps == data + stamps;
  }

  lemma StepKeepsValid(db: DnsDb, op: DnsOp)
    requires Valid(db)
    ensures Valid(Apply(db, op).db)
  {
    hide RrStamps, Merged, GlobalStamps, WithDefault;
    if op.CreateRecordSet? && GetString(op.data, FName) != "" && GetString(op.data, FType) != "" {
      StampedRowRepeatsKey(op.project, op.zone, Served(op.data, op.env.now));
    }
  }

  lemma RejectedStepChangesNothing(db: DnsDb, op: DnsOp)
    requires Apply(db, op).result.Err?
    ensures Apply(db, op).db == db
  {
    hide RrStamps, Merged, GlobalStamps, WithDefault, ZoneEmpty;
  }

  /** No single operation loses a record set except its own deletion: the declared cascade never fires. */
  lemma OnlyItsDeletionRemovesARecordSet(db: DnsDb, op: DnsOp, key: RrKey)
    requires key in db.rrsets
    requires op != DeleteRecordSet(key.project, key.zone, key.name, key.rrtype)
    ensures var db' := Apply(db, op).db; key in db'.rrsets && db'.rrsets[key] == db.rrsets[key]
  {
    hide RrStamps, Merged, GlobalStamps, WithDefault;
  }

  /** The operation that takes back a creation. */
  function DeletionOf(op: DnsOp): DnsOp {
    match op
    case CreateZone(project, data, _) => DeleteZone(project, GetString(data, FName))
    case CreateRecordSet(project, zone, data, _) =>
      DeleteRecordSet(project, zone, GetString(data, FName), GetString(data, FType))
    case _ => op
  }

  /** Deleting a zone or record set just created brings back the tables as they were: a new zone is empty. */
  lemma DeletionUndoesCreation(db: DnsDb, op: DnsOp)
    requires Valid(db) && DeletionOf(op) != op && Apply(db, op).result.Ok?
    ensures Apply(Apply(db, op).db, DeletionOf(op)) == Outcome(db, Ok(map[]))
  {
    hide RrStamps, RepeatsKey, GlobalStamps, WithDefault;
    var once := Apply(db, op).db;
    match DeletionOf(op)
    case DeleteZone(project, name) =>
      var key := GlobalKey(project, name);
      assert once.zones - {key} == db.zones && ZoneEmpty(once, key);
      assert (map k | k in once.rrsets && ZoneOf(k) != key :: once.rrsets[k]) == db.rrsets;
    case DeleteRecordSet(project, zone, name, rrtype) =>
      assert once.rrsets - {RrKey(project, zone, name, rrtype)} == db.rrsets;
  }

  /** A successful zone update repeated with the same patch changes nothing. */
  lemma UpdatesAreIdempotent(db: DnsDb, op: DnsOp)
    requires op.UpdateZone? && Apply(db, op).result.Ok?
    ensures var once := Apply(db, op); Apply(once.db, op) == once
  {
    var key, stamps := GlobalKey(op.project, op.name), GlobalStamps(op.project, op.name);
    StampedMergeIsIdempotent(db.zones[key], op.patch, stamps.Keys, stamps);
    RewritingIsIdempotent(db.zones, key, Apply(db, op).result.value);
  }

  // ---------------------------------------------------- the change transaction

  function Items(body: Document, field: Field): seq<Json> {
    if field in body && body[field].Arr? then body[field].items else []
  }

  /** The entries of a request list that are objects; the others are passed over. */
  function Entries(items: seq<Json>): seq<Document> {
    if items == [] then []
    else
      var last := items[|items| - 1];
      Entries(items[..|items| - 1]) + if last.Obj? then [last.fields] else []
  }

  predicate Complete(entry: Document) {
    GetString(entry, FName) != "" && GetString(entry, FType) != ""
  }

  predicate AllComplete(entries: seq<Document>) {
    forall e :: e in entries ==> Complete(e)
  }

  function Keys(project: string, zone: string, entries: seq<Document>): (keys: seq<RrKey>)
    ensures |keys| == |entries|
    ensures forall i :: 0 <= i < |entries| ==> keys[i] == KeyOf(project, zone, entries[i])
  {
    seq(|entries|, i requires 0 <= i < |entries| => KeyOf(project, zone, entries[i]))
  }

  predicate Distinct<T(==)>(s: seq<T>) {
    forall i, j :: 0 <= i < j < |s| ==> s[i] != s[j]
  }

  function SetOf<T>(s: seq<T>): set<T> {
    set x | x in s
  }

  /** What the deletions and additions of a change must satisfy for it to apply. */
  predicate DeletionsApply(rrsets: map<RrKey, Document>, deletions: seq<RrKey>) {
    Distinct(deletions) && forall k :: k in deletions ==> k in rrsets
  }

  predicate AdditionsApply(rrsets: map<RrKey, Document>, deletions: seq<RrKey>, additions: seq<RrKey>) {
    Distinct(additions) && forall k :: k in additions ==> k in rrsets ==> k in deletions
  }

  /** The row an addition is stored as. */
  function AddedRow(project: string, zone: string, entry: Document, now: string): Document {
    Served(entry, now) + RrStamps(KeyOf(project, zone, entry))
  }

  /** The additions as stored rows. With distinct keys every entry has a row of its own. */
  ghost function AddedRows(project: string, zone: string, entries: seq<Document>, now: string): map<RrKey, Document> {
    if entries == [] then map[]
    else
      var n := |entries| - 1;
      AddedRows(project, zone, entries[..n], now)
        [KeyOf(project, zone, entries[n]) := AddedRow(project, zone, entries[n], now)]
  }

  /** The request list as the response echoes it: an added entry has been stamped in place. */
  function Echo(project: string, zone: string, items: seq<Json>, now: string): seq<Json> {
    if items == [] then []
    else
      var last := items[|items| - 1];
      Echo(project, zone, items[..|items| - 1], now)
        + [if last.Obj? then Obj(AddedRow(project, zone, last.fields, now)) else last]
  }

  function ChangeRecord(project: string, zone: string, body: Document, now: string, id: string): Document {
    var additions, deletions := Items(body, FAdditions), Items(body, FDeletions);
    map[FKind := Str("dns#change"), FId := Str(id), FStatus := Str("done"), FStartTime := Str(now)]
      + (if additions == [] then map[] else map[FAdditions := Arr(Echo(project, zone, additions, now))])
      + (if deletions == [] then map[] else map[FDeletions := Arr(deletions)])
  }

  /** All or nothing: either every deletion and every addition, or none. */
  ghost function ApplyChange(db: DnsDb, project: string, zone: string, body: Document, now: string,
                             id: string): Outcome<DnsDb> {
    var deleted, added := Entries(Items(body, FDeletions)), Entries(Items(body, FAdditions));
    var deletedKeys, addedKeys := Keys(project, zone, deleted), Keys(project, zone, added);
    if GlobalKey(project, zone) !in db.zones then Fail(db, NotFound)
    else if !AllComplete(deleted) || !AllComplete(added) then Fail(db, BadRequest)
    else if !DeletionsApply(db.rrsets, deletedKeys) then Fail(db, NotFound)
    else if !AdditionsApply(db.rrsets, deletedKeys, addedKeys) then Fail(db, AlreadyExists)
    else
      Outcome(db.(rrsets := db.rrsets - SetOf(deletedKeys) + AddedRows(project, zone, added, now)),
              Ok(ChangeRecord(project, zone, body, now, id)))
  }

  lemma {:induction false} AddedRowsContents(project: string, zone: string, entries: seq<Document>, now: string)
    ensures AddedRows(project, zone, entries, now).Keys == SetOf(Keys(project, zone, entries))
    ensures Distinct(Keys(project, zone, entries)) ==> forall i :: 0 <= i < |entries| ==>
              AddedRows(project, zone, entries, now)[KeyOf(project, zone, entries[i])]
                == AddedRow(project, zone, entries[i], now)
  {
    hide KeyOf, AddedRow;
    if entries != [] {
      var n := |entries| - 1;
      AddedRowsContents(project, zone, entries[..n], now);
      var keys, front := Keys(project, zone, entries), Keys(project, zone, entries[..n]);
      assert keys == front + [keys[n]];
      assert keys[n] == KeyOf(project, zone, entries[n]);
      forall i | 0 <= i < |entries| && Distinct(keys)
        ensures AddedRows(project, zone, entries, now)[KeyOf(project, zone, entries[i])]
                == AddedRow(project, zone, entries[i], now)
      {
        if i < n {
          assert entries[..n][i] == entries[i] && keys[i] != keys[n];
        }
      }
    }
  }

  lemma ChangeSucceedsIff(db: DnsDb, project: string, zone: string, body: Document, now: string, id: string)
    ensures var deleted, added := Entries(Items(body, FDeletions)), Entries(Items(body, FAdditions));
            var gone, fresh' := Keys(project, zone, deleted), Keys(project, zone, added);
            ApplyChange(db, project, zone, body, now, id).result.Ok? <==>
              && GlobalKey(project, zone) in db.zones && AllComplete(deleted) && AllComplete(added)
              && Distinct(gone) && (forall k :: k in gone ==> k in db.rrsets)
              && Distinct(fresh') && (forall k :: k in fresh' ==> k !in db.rrsets.Keys - SetOf(gone))
  {
    hide AddedRow, AddedRows, Entries, Complete, ChangeRecord, Items, Keys;
  }

  /** A change in full: it applies exactly when the request is well formed, its deletions are distinct
      live keys and its additions are distinct keys that are free once the deletions are gone; then the
      zone holds the old record sets minus the deletions plus the stamped additions, and every other
      zone is as it was. */
  lemma ChangeIsExact(db: DnsDb, project: string, zone: string, body: Document, now: string, id: string)
    ensures var deleted, added := Entries(Items(body, FDeletions)), Entries(Items(body, FAdditions));
            var gone, fresh' := Keys(project, zone, deleted), Keys(project, zone, added);
            var out := ApplyChange(db, project, zone, body, now, id);
            && (out.result.Ok? <==>
                && GlobalKey(project, zone) in db.zones && AllComplete(deleted) && AllComplete(added)
                && Distinct(gone) && (forall k :: k in gone ==> k in db.rrsets)
                && Distinct(fresh') && (forall k :: k in fresh' ==> k !in db.rrsets.Keys - SetOf(gone)))
            && (out.result.Err? ==> out.db == db)
            && (out.result.Ok? ==>
                && out.db.zones == db.zones
                && out.db.rrsets.Keys == (db.rrsets.Keys - SetOf(gone)) + SetOf(fresh')
                && (forall i :: 0 <= i < |added| ==>
                      out.db.rrsets[KeyOf(project, zone, added[i])] == AddedRow(project, zone, added[i], now))
                && (forall k :: k in db.rrsets && k !in gone && k !in fresh' ==> out.db.rrsets[k] == db.rrsets[k])
                && (forall k :: ZoneOf(k) != GlobalKey(project, zone) ==>
                      (k in db.rrsets <==> k in out.db.rrsets)
                        && (k in db.rrsets ==> out.db.rrsets[k] == db.rrsets[k])))
  {
    hide AddedRow, AddedRows, Entries, AllComplete, ChangeRecord, Items;
    AddedRowsContents(project, zone, Entries(Items(body, FAdditions)), now);
    ChangeSucceedsIff(db, project, zone, body, now, id);
  }

  /** The answer to a change carries its id; a refused change leaves the tables alone. */
  lemma ChangeAnswers(db: DnsDb, project: string, zone: string, body: Document, now: string, id: string)
    ensures var out := ApplyChange(db, project, zone, body, now, id);
            && (out.result.Err? ==> out.db == db)
            && (out.result.Ok? ==> FId in out.result.value && out.result.value[FId] == Str(id))
  {
    hide Items, Entries, Echo, AllComplete, DeletionsApply, AdditionsApply, AddedRows;
  }

  lemma ChangeKeepsValid(db: DnsDb, project: string, zone: string, body: Document, now: string, id: string)
    requires Valid(db)
    ensures Valid(ApplyChange(db, project, zone, body, now, id).db)
  {
    hide AddedRow, Entries, ChangeRecord, Items, RepeatsKey;
    var added := Entries(Items(body, FAdditions));
    var out := ApplyChange(db, project, zone, body, now, id);
    if out.result.Ok? {
      ChangeIsExact(db, project, zone, body, now, id);
      var fresh' := Keys(project, zone, added);
      forall k | k in out.db.rrsets ensures ZoneOf(k) in out.db.zones && RepeatsKey(k, out.db.rrsets[k]) {
        if k in fresh' {
          var i :| 0 <= i < |added| && fresh'[i] == k;
          AddedRowRepeatsKey(project, zone, added[i], now);
        }
      }
    }
  }

  lemma AddedRowRepeatsKey(project: string, zone: string, entry: Document, now: string)
    requires Complete(entry)
    ensures RepeatsKey(KeyOf(project, zone, entry), AddedRow(project, zone, entry, now))
  {
    StampedRowRepeatsKey(project, zone, Served(entry, now));
  }

  // ------------------------------------------- a change, read off the request

  lemma {:induction false} EntriesAreTheObjects(items: seq<Json>, docs: seq<Document>)
    requires Objects(items, docs)
    ensures Entries(items) == docs
  {
    hide Objects;
    if items == [] {
      NoObjects(docs);
    } else {
      var n := |items| - 1;
      ObjectsOfFront(items, docs);
      EntriesAreTheObjects(items[..n], if items[n].Obj? then docs[..|docs| - 1] else docs);
    }
  }

  lemma NoObjects(docs: seq<Document>)
    ensures Objects([], docs) <==> docs == []
  {
    assert ObjectsBelow([], 0) == {};
  }

  /** Every list has its objects. */
  lemma {:induction false} EntriesAreObjects(items: seq<Json>)
    ensures Objects(items, Entries(items))
  {
    hide Objects;
    if items == [] {
      NoObjects([]);
    } else {
      EntriesAreObjects(items[..|items| - 1]);
      var docs := Entries(items);
      var front := Entries(items[..|items| - 1]);
      if items[|items| - 1].Obj? {
        assert docs[..|docs| - 1] == front;
      } else {
        assert docs == front;
      }
      ObjectsOfMore(items, docs);
    }
  }

  /** The keys the documents name, one for each. */
  predicate KeysNamed(project: string, zone: string, docs: seq<Document>, keys: seq<RrKey>) {
    && |keys| == |docs|
    && forall i :: 0 <= i < |docs| ==>
         keys[i] == RrKey(project, zone, GetString(docs[i], FName), GetString(docs[i], FType))
  }

  predicate NamedInFull(keys: seq<RrKey>) {
    forall k :: k in keys ==> k.name != "" && k.rrtype != ""
  }

  /** The stored row of an addition: its key, the server's kind and time, and every other field of the entry. */
  predicate Serves(row: Document, key: RrKey, entry: Document, now: string) {
    && Says(row, FName, key.name) && Says(row, FType, key.rrtype)
    && Says(row, FProject, key.project) && Says(row, FManagedZone, key.zone)
    && Says(row, FKind, "dns#resourceRecordSet") && Says(row, FCreationTime, now)
    && SameElsewhere(row, entry, {FName, FType, FProject, FManagedZone, FKind, FCreationTime})
  }

  lemma AddedRowServes(project: string, zone: string, entry: Document, now: string)
    ensures Serves(AddedRow(project, zone, entry, now),
                   RrKey(project, zone, GetString(entry, FName), GetString(entry, FType)), entry, now)
  {
  }

  /** What the request says, without the functions that read it: its lists, the objects in them, their keys. */
  predicate AsksFor(body: Document, field: Field, items: seq<Json>, docs: seq<Document>, project: string, zone: string,
                    keys: seq<RrKey>)
  {
    Lists(body, field, items) && Objects(items, docs) && KeysNamed(project, zone, docs, keys)
  }

  lemma ReadRequest(body: Document, field: Field, items: seq<Json>, docs: seq<Document>, project: string, zone: string,
                    keys: seq<RrKey>)
    requires AsksFor(body, field, items, docs, project, zone, keys)
    ensures Items(body, field) == items && Entries(Items(body, field)) == docs && Keys(project, zone, docs) == keys
    ensures AllComplete(docs) <==> NamedInFull(keys)
  {
    EntriesAreTheObjects(items, docs);
    hide Objects;
    assert forall i :: 0 <= i < |docs| ==> docs[i] in docs && keys[i] in keys;
  }

  /** A change, from what is under `deletions` and `additions`: it is a bad request when an entry misses a
      name or a type; it succeeds when each deletion names another live record set and each addition another
      one that is free once those are gone. Then these are gone, and each addition is stored under its key
      with the fields of its entry. */
  lemma ChangeReadsTheRequest(db: DnsDb, project: string, zone: string, body: Document, now: string, id: string,
                              dl: seq<Json>, ds: seq<Document>, gone: seq<RrKey>,
                              al: seq<Json>, adds: seq<Document>, fresh': seq<RrKey>)
    requires AsksFor(body, FDeletions, dl, ds, project, zone, gone)
    requires AsksFor(body, FAdditions, al, adds, project, zone, fresh')
    ensures var out := ApplyChange(db, project, zone, body, now, id);
            var known, complete := GlobalKey(project, zone) in db.zones, NamedInFull(gone) && NamedInFull(fresh');
            var deletable := Distinct(gone) && forall k :: k in gone ==> k in db.rrsets;
            var addable := Distinct(fresh') && forall k :: k in fresh' ==> k !in db.rrsets || k in gone;
            && (out.result.Ok? <==> known && complete && deletable && addable)
            && (out.result == Err(BadRequest) <==> known && !complete)
            && (out.result == Err(AlreadyExists) <==> known && complete && deletable && !addable)
            && (out.result == Err(NotFound) <==> !known || (complete && !deletable))
            && (out.result.Ok? ==>
                && out.db.rrsets.Keys == (db.rrsets.Keys - SetOf(gone)) + SetOf(fresh')
                && (forall i :: 0 <= i < |adds| ==> Serves(out.db.rrsets[fresh'[i]], fresh'[i], adds[i], now))
                && (forall k :: k in db.rrsets && k !in gone && k !in fresh' ==> out.db.rrsets[k] == db.rrsets[k]))
  {
    ReadRequest(body, FDeletions, dl, ds, project, zone, gone);
    ReadRequest(body, FAdditions, al, adds, project, zone, fresh');
    hide AsksFor, Serves, AddedRow, AddedRows, Entries, Items, AllComplete, NamedInFull, Keys, ChangeRecord, Distinct;
    ChangeIsExact(db, project, zone, body, now, id);
    RefusalsOfChanges(db, project, zone, body, now, id);
    forall i | 0 <= i < |adds| ensures Serves(AddedRow(project, zone, adds[i], now), fresh'[i], adds[i], now) {
      AddedRowServes(project, zone, adds[i], now);
    }
    hide ApplyChange;
  }

  /** A refused change is refused for the first check it fails. */
  lemma RefusalsOfChanges(db: DnsDb, project: string, zone: string, body: Document, now: string, id: string)
    ensures var deleted, added := Entries(Items(body, FDeletions)), Entries(Items(body, FAdditions));
            var gone := Keys(project, zone, deleted);
            var known, complete := GlobalKey(project, zone) in db.zones, AllComplete(deleted) && AllComplete(added);
            var deletable := Distinct(gone) && forall k :: k in gone ==> k in db.rrsets;
            var result := ApplyChange(db, project, zone, body, now, id).result;
            result.Err? ==> result.error == if !known then NotFound else if !complete then BadRequest
                                            else if !deletable then NotFound else AlreadyExists
  {
    hide AddedRow, AddedRows, Entries, AllComplete, ChangeRecord, Items, AdditionsApply, Distinct, Keys;
  }

  /** The same of a request that holds two lists of objects: the first is deleted, the second is added. */
  lemma ListsAreDeletedAndAdded(db: DnsDb, project: string, zone: string, rest: Document, ds: seq<Document>,
                                adds: seq<Document>, now: string, id: string)
    ensures var body := rest[FDeletions := Arrayed(ds)][FAdditions := Arrayed(adds)];
            var gone, fresh' := Keys(project, zone, ds), Keys(project, zone, adds);
            && AsksFor(body, FDeletions, Arrayed(ds).items, ds, project, zone, gone)
            && AsksFor(body, FAdditions, Arrayed(adds).items, adds, project, zone, fresh')
  {
    ObjectsOfArrayed(ds);
    ObjectsOfArrayed(adds);
    hide Objects;
  }

  /** The answer repeats the deletions as they came and the additions as they are stored; a list that is
      empty, missing or no list is left out. */
  lemma ChangeAnswerRepeatsTheRequest(db: DnsDb, project: string, zone: string, body: Document, now: string, id: string,
                                      dl: seq<Json>, al: seq<Json>)
    requires Lists(body, FDeletions, dl) && Lists(body, FAdditions, al)
    requires ApplyChange(db, project, zone, body, now, id).result.Ok?
    ensures var answer := ApplyChange(db, project, zone, body, now, id).result.value;
            && Says(answer, FKind, "dns#change") && Says(answer, FId, id)
            && Says(answer, FStatus, "done") && Says(answer, FStartTime, now)
            && answer.Keys == {FKind, FId, FStatus, FStartTime}
                              + (if dl == [] then {} else {FDeletions}) + (if al == [] then {} else {FAdditions})
            && (dl != [] ==> answer[FDeletions] == Arr(dl))
            && (al != [] ==> answer[FAdditions].Arr? && Echoes(answer[FAdditions].items, project, zone, al, now))
  {
    EchoEchoes(project, zone, al, now);
    assert Items(body, FDeletions) == dl && Items(body, FAdditions) == al;
    RecordOfLists(project, zone, body, now, id);
    ChangeAnswersItsRecord(db, project, zone, body, now, id);
    hide Echo, Echoes, Items, ApplyChange, ChangeRecord, Lists;
  }

  lemma ChangeAnswersItsRecord(db: DnsDb, project: string, zone: string, body: Document, now: string, id: string)
    ensures var out := ApplyChange(db, project, zone, body, now, id);
            out.result.Ok? ==> out.result.value == ChangeRecord(project, zone, body, now, id)
  {
    hide AddedRows, Entries, AllComplete, DeletionsApply, AdditionsApply, Items, ChangeRecord;
  }

  lemma RecordOfLists(project: string, zone: string, body: Document, now: string, id: string)
    ensures var answer := ChangeRecord(project, zone, body, now, id);
            var dl, al := Items(body, FDeletions), Items(body, FAdditions);
            && Says(answer, FKind, "dns#change") && Says(answer, FId, id)
            && Says(answer, FStatus, "done") && Says(answer, FStartTime, now)
            && answer.Keys == {FKind, FId, FStatus, FStartTime}
                              + (if dl == [] then {} else {FDeletions}) + (if al == [] then {} else {FAdditions})
            && (dl != [] ==> answer[FDeletions] == Arr(dl))
            && (al != [] ==> answer[FAdditions] == Arr(Echo(project, zone, al, now)))
  {
    hide Echo, Items;
  }

  predicate Echoes(echo: seq<Json>, project: string, zone: string, items: seq<Json>, now: string) {
    && |echo| == |items|
    && forall i :: 0 <= i < |items| ==>
         if items[i].Obj? then
           var entry := items[i].fields;
           && echo[i].Obj?
           && Serves(echo[i].fields, RrKey(project, zone, GetString(entry, FName), GetString(entry, FType)), entry, now)
         else echo[i] == items[i]
  }

  lemma {:induction false} EchoEchoes(project: string, zone: string, items: seq<Json>, now: string)
    ensures Echoes(Echo(project, zone, items, now), project, zone, items, now)
  {
    hide AddedRow, Serves;
    if items != [] {
      var n := |items| - 1;
      EchoEchoes(project, zone, items[..n], now);
      assert forall i :: 0 <= i < n ==> items[..n][i] == items[i];
      if items[n].Obj? { AddedRowServes(project, zone, items[n].fields, now); }
    }
  }

  // -------------------------------------- zones and record sets, read off the request

  lemma ZoneCreation(db: DnsDb, project: string, data: Document, env: Env)
    ensures var key, out := GlobalKey(project, GetString(data, FName)), Apply(db, CreateZone(project, data, env));
            var asked := key.name != "" && FDnsName in data;
            && (out.result.Ok? <==> asked && key !in db.zones)
            && (out.result.Err? ==> out == Outcome(db, Err(if !asked then BadRequest else AlreadyExists)))
            && (out.result.Ok? ==>
                && out.db == db.(zones := db.zones[key := out.result.value])
                && Says(out.result.value, FName, key.name) && Says(out.result.value, FProject, project)
                && FId in out.result.value
                && out.result.value[FId] == (if FId in data then data[FId] else Str(env.id))
                && Says(out.result.value, FKind, "dns#managedZone") && Says(out.result.value, FCreationTime, env.now)
                && SameElsewhere(out.result.value, data, {FName, FProject, FId, FKind, FCreationTime}))
  {
  }

  lemma ZoneUpdate(db: DnsDb, project: string, name: string, patch: Document)
    ensures var key, out := GlobalKey(project, name), Apply(db, UpdateZone(project, name, patch));
            && (key !in db.zones ==> out == Outcome(db, Err(NotFound)))
            && (key in db.zones ==>
                && out.result.Ok? && out.db == db.(zones := db.zones[key := out.result.value])
                && Says(out.result.value, FName, name) && Says(out.result.value, FProject, project)
                && TakesPatch(db.zones[key], patch, {FName, FProject}, out.result.value))
  {
    var key, stamps := GlobalKey(project, name), GlobalStamps(project, name);
    if key in db.zones {
      StampedMergeApplies(db.zones[key], patch, stamps.Keys, stamps);
      assert stamps.Keys == {FName, FProject};
    }
    hide Merged, TakesPatch;
  }

  /** A zone is deleted exactly when it is there and empty; nothing goes with it. */
  lemma ZoneDeletion(db: DnsDb, project: string, name: string)
    ensures var key, out := GlobalKey(project, name), Apply(db, DeleteZone(project, name));
            var used := exists k :: k in db.rrsets && k.project == project && k.zone == name;
            out == if used then Outcome(db, Err(InUse)) else if key !in db.zones then Outcome(db, Err(NotFound))
                   else Outcome(db.(zones := db.zones - {key}), Ok(map[]))
  {
    var key := GlobalKey(project, name);
    if ZoneEmpty(db, key) {
      assert (map k | k in db.rrsets && ZoneOf(k) != key :: db.rrsets[k]) == db.rrsets;
    } else {
      var k :| k in db.rrsets && ZoneOf(k) == key;
      assert k.project == project && k.zone == name;
    }
  }

  lemma RecordSetCreation(db: DnsDb, project: string, zone: string, data: Document, env: Env)
    ensures var key := RrKey(project, zone, GetString(data, FName), GetString(data, FType));
            var out, known := Apply(db, CreateRecordSet(project, zone, data, env)),
              GlobalKey(project, zone) in db.zones;
            var named := key.name != "" && key.rrtype != "";
            && (out.result.Ok? <==> known && named && key !in db.rrsets)
            && (out.result.Err? ==> out == Outcome(db, Err(if !known then NotFound else if !named then BadRequest
                                                           else AlreadyExists)))
            && (out.result.Ok? ==>
                && out.db == db.(rrsets := db.rrsets[key := out.result.value])
                && Serves(out.result.value, key, data, env.now))
  {
    hide SameElsewhere;
    AddedRowServes(project, zone, data, env.now);
    assert KeyOf(project, zone, Served(data, env.now))
      == RrKey(project, zone, GetString(data, FName), GetString(data, FType));
    hide Served, Serves, RrStamps;
  }

  lemma RecordSetDeletion(db: DnsDb, project: string, zone: string, name: string, rrtype: string)
    ensures var key, out := RrKey(project, zone, name, rrtype), Apply(db, DeleteRecordSet(project, zone, name, rrtype));
            out == if GlobalKey(project, zone) in db.zones && key in db.rrsets
                   then Outcome(db.(rrsets := db.rrsets - {key}), Ok(map[])) else Outcome(db, Err(NotFound))
  {
  }
}
