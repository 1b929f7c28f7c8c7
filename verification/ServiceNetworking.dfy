/** The in-memory Service Networking connections. They are held by reference, and a snapshot copies the
    references only (handlers/servicenetworking.go, handlers/handlers.go). */
module ServiceNetworking {
  import opened Wrappers
  import opened Json
  import opened Text
  import opened References
  import opened Requests

  type Documents = map<string, Document>

  function ConnectionKey(service: string, network: string): string {
    service + "/" + network
  }

  const DEFAULT_PEERING := "servicenetworking-googleapis-com"

  function WithPeering(body: Document): Document {
    if FPeering in body then body else body[FPeering := Str(DEFAULT_PEERING)]
  }

  /** A peering the client names is kept; a new connection without one gets the default. */
  lemma PeeringOf(body: Document)
    ensures var stored := WithPeering(body);
            && FPeering in stored
            && stored[FPeering] == (if FPeering in body then body[FPeering]
               else Str("servicenetworking-googleapis-com"))
            && SameElsewhere(stored, body, {FPeering})
  {
  }

  /** What follows the first slash of a key. */
  function NetworkOf(key: string): string {
    var i := Index(key, "/");
    if i < 0 then "" else key[i + 1..]
  }

  /** A connection repeats the network of its key. */
  predicate RepeatsNetwork(key: string, doc: Document) {
    GetString(doc, FNetwork) == NetworkOf(key)
  }

  /** The network may hold slashes; the service, a path parameter, may not. */
  lemma NetworkOfKey(service: string, network: string)
    requires SlashFree(service)
    ensures NetworkOf(ConnectionKey(service, network)) == network
  {
    IndexAfter(service, "/", network);
    assert ConnectionKey(service, network)[|service| + 1..] == network;
  }

  /** The prefix filter finds exactly one service: keys are as good as (service, network) pairs. */
  lemma PrefixMeansService(service: string, other: string, network: string)
    requires SlashFree(service) && SlashFree(other)
    ensures HasPrefix(ConnectionKey(other, network), service + "/") <==> other == service
  {
    var key := ConnectionKey(other, network);
    IndexAfter(other, "/", network);
    assert key[..|other|] == other && key[..|other| + 1] == other + "/";
    if HasPrefix(key, service + "/") {
      var rest := key[|service| + 1..];
      assert key == service + "/" + rest;
      IndexAfter(service, "/", rest);
      assert key[..|service|] == service;
    }
  }

  /** The prefix test asks whether a key is made up of the service and its own network part. */
  lemma PrefixedKeys(service: string, key: string)
    requires SlashFree(service)
    ensures HasPrefix(key, service + "/") <==> key == ConnectionKey(service, NetworkOf(key))
  {
    if HasPrefix(key, service + "/") {
      var rest := key[|service| + 1..];
      assert key == ConnectionKey(service, rest);
      NetworkOfKey(service, rest);
    } else {
      assert ConnectionKey(service, NetworkOf(key))[..|service| + 1] == service + "/";
    }
  }

  lemma KeyIsInjective(service: string, network: string, service': string, network': string)
    requires SlashFree(service) && SlashFree(service')
    requires ConnectionKey(service, network) == ConnectionKey(service', network')
    ensures service == service' && network == network'
  {
    var key := ConnectionKey(service, network);
    IndexAfter(service, "/", network);
    IndexAfter(service', "/", network');
    assert key[..|service|] == service && key[..|service'|] == service';
    NetworkOfKey(service, network);
    NetworkOfKey(service', network');
  }

  /** What a request body is stored as repeats the network of the key it is stored under. */
  lemma StoredRepeatsNetwork(service: string, body: Document, stored: Document)
    requires SlashFree(service)
    ensures var key := ConnectionKey(service, GetString(body, FNetwork));
            && RepeatsNetwork(key, WithPeering(body))
            && (GetString(body, FNetwork) != "" ==> RepeatsNetwork(key, stored + body))
  {
    NetworkOfKey(service, GetString(body, FNetwork));
    hide NetworkOf;
  }

  /** A stored request body. The ghost key says under which key it was stored, once and for all. */
  class Connection {
    var doc: Document
    ghost const key: string

    constructor (ghost key: string, doc: Document)
      ensures this.doc == doc && this.key == key
    {
      this.doc := doc;
      this.key := key;
    }
  }

  /** The requests between two snapshots: those that write connections, and restores. */
  datatype Request =
    | Create(service: string, body: Document)
    | Patch(service: string, body: Document)
    | Delete(service: string, body: Document)
    | Rewind

  /** The connection a request is about; none when the body names no network. */
  function Keys(request: Request): set<string> {
    if request.Rewind? then {}
    else
      var network := GetString(request.body, if request.Delete? then FConsumerNetwork else FNetwork);
      if network == "" then {} else {ConnectionKey(request.service, network)}
  }

  predicate Routed(request: Request) {
    request.Rewind? || SlashFree(request.service)
  }

  /** What requests write into the snapshot's connection, field by field. A patch counts only while the live
      connection is the snapshot's own: until it is created anew or deleted, and again after a restore. */
  function Written(key: string, shared: bool, requests: seq<Request>): Document
    decreases |requests|
  {
    if requests == [] then map[]
    else
      var request, rest := requests[0], requests[1..];
      if request.Rewind? then Written(key, true, rest)
      else if key !in Keys(request) then Written(key, shared, rest)
      else if request.Patch? then (if shared then request.body else map[]) + Written(key, shared, rest)
      else Written(key, false, rest)
  }

  /** The snapshot after one request: a patch shows through where the connection is shared. */
  function Showing(saved: Documents, shared: set<string>, request: Request): Documents {
    map k | k in saved ::
      if request.Patch? && k in shared && k in Keys(request) then saved[k] + request.body else saved[k]
  }

  lemma ShownThrough(saved: Documents, shared: set<string>, service: string, body: Document)
    requires shared <= saved.Keys
    ensures var key := ConnectionKey(service, GetString(body, FNetwork));
            Showing(saved, shared, Request.Patch(service, body))
            == if GetString(body, FNetwork) != "" && key in shared then saved[key := saved[key] + body] else saved
  {
    hide ConnectionKey;
  }

  /** The keys shared after one request. */
  function StillShared(saved: Documents, shared: set<string>, request: Request): set<string> {
    match request
    case Patch(_, _) => shared
    case Rewind => saved.Keys
    case _ => shared - Keys(request)
  }

  /** Half way through the requests: what `rest` writes into the snapshot as it stands is what all of them
      write into the snapshot as it was taken. */
  ghost predicate HalfWay(taken: Documents, saved: Documents, shared: set<string>, requests: seq<Request>,
                          rest: seq<Request>)
  {
    && saved.Keys == taken.Keys
    && forall k :: k in taken ==> taken[k] + Written(k, true, requests) == saved[k] + Written(k, k in shared, rest)
  }

  lemma FirstRequestWrites(doc: Document, key: string, shared: bool, requests: seq<Request>)
    requires requests != []
    ensures var request, rest := requests[0], requests[1..];
            doc + Written(key, shared, requests)
            == if request.Rewind? then doc + Written(key, true, rest)
               else if !request.Patch? then doc + Written(key, shared && key !in Keys(request), rest)
               else if shared && key in Keys(request) then doc + request.body + Written(key, true, rest)
               else doc + Written(key, shared, rest)
  {
    hide Keys;
    var request, rest := requests[0], requests[1..];
    var later := Written(key, shared, rest);
    assert map[] + later == later;
    if request.Patch? && shared && key in Keys(request) {
      assert Written(key, shared, requests) == request.body + later;
      assert doc + (request.body + later) == doc + request.body + later;
    } else if key in Keys(request) && !request.Patch? && !request.Rewind? {
      assert Written(key, shared, requests) == Written(key, false, rest);
    }
  }

  lemma OneMoreRequest(taken: Documents, saved: Documents, shared: set<string>, requests: seq<Request>,
                       rest: seq<Request>)
    requires rest != [] && HalfWay(taken, saved, shared, requests, rest)
    ensures HalfWay(taken, Showing(saved, shared, rest[0]), StillShared(saved, shared, rest[0]), requests, rest[1..])
  {
    hide Keys, Written;
    var saved', shared' := Showing(saved, shared, rest[0]), StillShared(saved, shared, rest[0]);
    forall k | k in taken
      ensures saved[k] + Written(k, k in shared, rest) == saved'[k] + Written(k, k in shared', rest[1..])
    {
      FirstRequestWrites(saved[k], k, k in shared, rest);
    }
  }

  class ConnectionCache {
    var live: map<string, Connection>
    var snapshot: Option<map<string, Connection>>

    constructor ()
      ensures Valid() && live == map[] && snapshot == None
    {
      live := map[];
      snapshot := None;
    }

    ghost function Saved(): map<string, Connection>
      reads this
    {
      if snapshot.Some? then snapshot.value else map[]
    }

    ghost function Cells(): set<Connection>
      reads this
    {
      CellsOf(live) + CellsOf(Saved())
    }

    static ghost function CellsOf(connections: map<string, Connection>): set<Connection> {
      set k | k in connections :: connections[k]
    }

    static ghost function DocumentsOf(connections: map<string, Connection>): Documents
      reads CellsOf(connections)
    {
      map k | k in connections :: connections[k].doc
    }

    static ghost predicate Fits(connections: map<string, Connection>)
      reads CellsOf(connections)
    {
      forall k :: k in connections ==> connections[k].key == k && RepeatsNetwork(k, connections[k].doc)
    }

    /** Every connection is held under its own key, so the live map and the snapshot share a connection
        under equal keys only. */
    ghost predicate Valid()
      reads this, Cells()
    {
      Fits(live) && Fits(Saved())
    }

    /** The connections a caller can see. */
    ghost function View(): Documents
      reads this, Cells()
    {
      DocumentsOf(live)
    }

    /** The connections a restore would bring back. */
    ghost function SavedView(): Documents
      reads this, Cells()
    {
      DocumentsOf(Saved())
    }

    /** What other objects do is of no concern here. */
    twostate lemma Untouched()
      requires old(Valid()) && unchanged(this) && forall c :: c in old(Cells()) ==> unchanged(c)
      ensures Valid() && View() == old(View()) && SavedView() == old(SavedView())
    {
      hide RepeatsNetwork;
    }

    ghost predicate Shared(key: string)
      reads this
    {
      key in live && key in Saved() && live[key] == Saved()[key]
    }

    /** The keys under which live map and snapshot hold one and the same connection. */
    ghost function SharedKeys(): set<string>
      reads this
    {
      set k | k in live && Shared(k)
    }

    method Create(service: string, body: Document) returns (r: Result<Document>)
      requires Valid() && SlashFree(service)
      modifies this`live
      ensures SharedKeys() == old(SharedKeys()) - Keys(Request.Create(service, body))
      ensures Valid() && fresh(Cells() - old(Cells())) && snapshot == old(snapshot) && SavedView() == old(SavedView())
      ensures var network := GetString(body, FNetwork);
              if network == "" then r == Err(BadRequest) && View() == old(View())
              else
                r == Ok(WithPeering(body)) &&
                View() == old(View())[ConnectionKey(service, network) := WithPeering(body)]
    {
      var network := GetString(body, FNetwork);
      if network == "" {
        return Err(BadRequest);
      }
      StoredRepeatsNetwork(service, body, map[]);
      var stored := if FPeering in body then body else body[FPeering := Str(DEFAULT_PEERING)];
      Put(ConnectionKey(service, network), stored);
      return Ok(stored);
    }

    static lemma OneMore(connections: map<string, Connection>, key: string, cell: Connection)
      requires Fits(connections) && cell.key == key && RepeatsNetwork(key, cell.doc)
      ensures Fits(connections[key := cell])
      ensures DocumentsOf(connections[key := cell]) == DocumentsOf(connections)[key := cell.doc]
      ensures CellsOf(connections[key := cell]) <= CellsOf(connections) + {cell}
    {
      hide RepeatsNetwork;
    }

    method Put(key: string, doc: Document)
      requires Valid() && RepeatsNetwork(key, doc)
      modifies this`live
      ensures Valid() && fresh(Cells() - old(Cells())) && snapshot == old(snapshot) && SavedView() == old(SavedView())
      ensures View() == old(View())[key := doc] && SharedKeys() == old(SharedKeys()) - {key}
    {
      hide RepeatsNetwork, Fits, DocumentsOf;
      var cell := new Connection(key, doc);
      Untouched();
      OneMore(live, key, cell);
      ghost var saved := Saved();
      label before:
      live := live[key := cell];
      assert forall c :: c in CellsOf(saved) ==> unchanged@before(c);
    }

    /** A known connection is merged in place, so a snapshot that shares its cell changes with it. */
    method Patch(service: string, body: Document)
      requires Valid() && SlashFree(service)
      modifies this`live, Cells()
      ensures SharedKeys() == old(SharedKeys())
      ensures Valid() && fresh(Cells() - old(Cells())) && snapshot == old(snapshot)
      ensures var network := GetString(body, FNetwork);
              var key := ConnectionKey(service, network);
              if network == "" then View() == old(View()) && SavedView() == old(SavedView())
              else
                var doc := if key in old(View()) then old(View())[key] + body else WithPeering(body);
                && View() == old(View())[key := doc]
                && SavedView() == (if old(Shared(key)) then old(SavedView())[key := old(SavedView())[key] + body]
                                   else old(SavedView()))
    {
      var network := GetString(body, FNetwork);
      if network == "" {
        return;
      }
      var key := ConnectionKey(service, network);
      if key in live {
        StoredRepeatsNetwork(service, body, live[key].doc);
        MergeAt(key, body);
      } else {
        var _ := Create(service, body);
        assert key !in old(View());
      }
    }

    method MergeAt(key: string, body: Document)
      requires Valid() && key in live && RepeatsNetwork(key, live[key].doc + body)
      modifies Cells()
      ensures Valid() && live == old(live) && snapshot == old(snapshot) && Cells() == old(Cells())
      ensures View() == old(View())[key := old(View())[key] + body] && SharedKeys() == old(SharedKeys())
      ensures SavedView() == (if Shared(key) then old(SavedView())[key := old(SavedView())[key] + body]
                              else old(SavedView()))
    {
      hide RepeatsNetwork;
      MergeInto(live[key], body);
      assert forall k :: k in live && k != key ==> live[k].doc == old(live[k].doc);
      assert forall k :: k in Saved() && Saved()[k] != live[key] ==> Saved()[k].doc == old(Saved()[k].doc);
    }

    static method MergeInto(cell: Connection, body: Document)
      modifies cell
      ensures cell.doc == old(cell.doc) + body
    {
      ghost var before := cell.doc;
      var todo := body.Keys;
      assert body - todo == map[];
      while todo != {}
        invariant todo <= body.Keys
        invariant cell.doc == before + (body - todo)
        decreases todo
      {
        var k :| k in todo;
        todo := todo - {k};
        cell.doc := cell.doc[k := body[k]];
      }
      assert body - {} == body;
    }

    method Delete(service: string, body: Document)
      requires Valid()
      modifies this`live
      ensures SharedKeys() == old(SharedKeys()) - Keys(Request.Delete(service, body))
      ensures Valid() && Cells() <= old(Cells()) && snapshot == old(snapshot) && SavedView() == old(SavedView())
      ensures var network := GetString(body, FConsumerNetwork);
              View() == if network == "" then old(View()) else old(View()) - {ConnectionKey(service, network)}
    {
      hide RepeatsNetwork, ConnectionKey;
      var network := GetString(body, FConsumerNetwork);
      if network != "" {
        live := live - {ConnectionKey(service, network)};
      }
    }

    /** The listed documents are those live under the service, one for each of the networks: of all its
        networks, or of the one that is asked for. */
    static ghost predicate Listed(view: Documents, service: string, filter: string, out: seq<Document>,
                                  networks: seq<string>) {
      && |out| == |networks|
      && (forall i :: 0 <= i < |out| ==> var key := ConnectionKey(service, networks[i]);
         key in view && out[i] == view[key])
      && (forall i, j :: 0 <= i < j < |networks| ==> networks[i] != networks[j])
      && forall n :: n in networks <==> ConnectionKey(service, n) in view && (filter == "" || n == filter)
    }

    /** As the loop sees it: the keys that pass the prefix test and the filter. */
    static ghost predicate ListedUnder(view: Documents, service: string, filter: string, out: seq<Document>,
                                       keys: seq<string>) {
      && |out| == |keys| && (forall i :: 0 <= i < |keys| ==> keys[i] in view && out[i] == view[keys[i]])
      && (forall i, j :: 0 <= i < j < |keys| ==> keys[i] != keys[j])
      && forall k :: k in keys <==> k in view && HasPrefix(k, service + "/") && (filter == "" || NetworkOf(k) == filter)
    }

    static lemma ListedByNetwork(view: Documents, service: string, filter: string, out: seq<Document>,
                                 keys: seq<string>)
      requires SlashFree(service) && ListedUnder(view, service, filter, out, keys)
      ensures exists networks :: Listed(view, service, filter, out, networks)
    {
      hide NetworkOf, HasPrefix, ConnectionKey;
      var networks := seq(|keys|, i requires 0 <= i < |keys| => NetworkOf(keys[i]));
      forall i | 0 <= i < |keys| ensures keys[i] == ConnectionKey(service, networks[i]) {
        assert keys[i] in keys;
        PrefixedKeys(service, keys[i]);
      }
      forall n ensures n in networks <==> ConnectionKey(service, n) in view && (filter == "" || n == filter) {
        var key := ConnectionKey(service, n);
        NetworkOfKey(service, n);
        PrefixedKeys(service, key);
        if key in keys {
          var i :| 0 <= i < |keys| && keys[i] == key;
          assert networks[i] == n;
        }
        if n in networks {
          var i :| 0 <= i < |networks| && networks[i] == n;
          assert keys[i] == key;
        }
      }
      assert Listed(view, service, filter, out, networks);
    }

    /** The connections of one service, in any order, each once; a network narrows the list to its own. */
    method List(service: string, filter: string) returns (out: seq<Document>)
      requires Valid() && SlashFree(service)
      ensures exists networks :: Listed(View(), service, filter, out, networks)
    {
      ghost var keys: seq<string> := [];
      hide NetworkOf, HasPrefix;
      out := [];
      var todo := live.Keys;
      while todo != {}
        invariant todo <= live.Keys
        invariant |out| == |keys| && forall i :: 0 <= i < |keys| ==> keys[i] in live && out[i] == live[keys[i]].doc
        invariant forall i, j :: 0 <= i < j < |keys| ==> keys[i] != keys[j]
        invariant forall k :: k in keys <==>
                  k in live && k !in todo && HasPrefix(k, service + "/")
                       && (filter == "" || NetworkOf(k) == filter)
        decreases todo
      {
        var k :| k in todo;
        todo := todo - {k};
        if !HasPrefix(k, service + "/") {
          continue;
        }
        if filter != "" {
          if GetString(live[k].doc, FNetwork) != filter {
            continue;
          }
        }
        out := out + [live[k].doc];
        keys := keys + [k];
      }
      ListedByNetwork(View(), service, filter, out, keys);
    }

    method Reset()
      modifies this
      ensures Valid() && live == map[] && snapshot == None
    {
      live := map[];
      snapshot := None;
    }

    method Snapshot()
      requires Valid()
      modifies this`snapshot
      ensures Valid() && live == old(live) && snapshot == Some(live) && Cells() <= old(Cells())
      ensures View() == old(View()) && SavedView() == View() && SharedKeys() == View().Keys
    {
      hide RepeatsNetwork;
      var snap := CopyOfReferences(live);
      snapshot := Some(snap);
    }

    method Restore()
      requires Valid()
      modifies this`live
      ensures Valid() && snapshot == old(snapshot) && SavedView() == old(SavedView()) && Cells() <= old(Cells())
      ensures View() == if snapshot.Some? then SavedView() else old(View())
      ensures snapshot.Some? ==> live == snapshot.value
    {
      hide RepeatsNetwork;
      if snapshot.None? {
        return;
      }
      var restored := CopyOfReferences(snapshot.value);
      live := restored;
    }

    static method CopyOfReferences(source: map<string, Connection>) returns (copy: map<string, Connection>)
      ensures copy == source
    {
      copy := map[];
      var todo := source.Keys;
      while todo != {}
        invariant todo <= source.Keys
        invariant copy == source - todo
        decreases todo
      {
        var k :| k in todo;
        copy := copy[k := source[k]];
        todo := todo - {k};
      }
    }

    method Handle(request: Request)
      requires Valid() && snapshot.Some? && Routed(request)
      modifies this`live, Cells()
      ensures Valid() && fresh(Cells() - old(Cells())) && snapshot == old(snapshot)
      ensures SavedView() == Showing(old(SavedView()), old(SharedKeys()), request)
      ensures SharedKeys() == StillShared(old(SavedView()), old(SharedKeys()), request)
    {
      hide ConnectionKey, WithPeering, RepeatsNetwork, Fits;
      assert SharedKeys() <= SavedView().Keys && SavedView().Keys == Saved().Keys;
      hide DocumentsOf;
      match request {
        case Create(service, body) =>
          var _ := Create(service, body);
        case Patch(service, body) =>
          ShownThrough(SavedView(), SharedKeys(), service, body);
          Patch(service, body);
        case Delete(service, body) =>
          Delete(service, body);
        case Rewind =>
          Restore();
      }
    }

    /** What a restore brings back after any requests that follow the snapshot, other restores among them:
        the connections of the snapshot, each with what patches wrote into it. They are those of the snapshot
        exactly when each field so written already had the value that was written last. */
    method SnapshotRequestsRestore(requests: seq<Request>)
      requires Valid() && forall r :: r in requests ==> Routed(r)
      modifies this, Cells()
      ensures View() == map k | k in old(View()) :: old(View())[k] + Written(k, true, requests)
      ensures View() == old(View())
              <==> forall k :: k in old(View()) ==> Holds(old(View())[k], Written(k, true, requests))
    {
      hide RepeatsNetwork, Fits, DocumentsOf, Keys, Showing, StillShared;
      ghost var taken := View();
      Snapshot();
      for i := 0 to |requests|
        invariant Valid() && snapshot.Some? && fresh(Cells() - old(Cells()))
        invariant HalfWay(taken, SavedView(), SharedKeys(), requests, requests[i..])
      {
        OneMoreRequest(taken, SavedView(), SharedKeys(), requests, requests[i..]);
        Handle(requests[i]);
      }
      RewrittenIff(taken, SavedView(), SharedKeys(), requests);
      Restore();
    }
  }

  predicate Holds(doc: Document, written: Document) {
    forall f :: f in written ==> f in doc && doc[f] == written[f]
  }

  lemma RewrittenIff(taken: Documents, back: Documents, shared: set<string>, requests: seq<Request>)
    requires HalfWay(taken, back, shared, requests, [])
    ensures back == map k | k in taken :: taken[k] + Written(k, true, requests)
    ensures back == taken <==> forall k :: k in taken ==> Holds(taken[k], Written(k, true, requests))
  {
    forall k | k in taken ensures back[k] == taken[k] + Written(k, true, requests) {
      assert back[k] + map[] == back[k];
    }
    forall k | k in taken ensures back[k] == taken[k] <==> Holds(taken[k], Written(k, true, requests)) {
      if Holds(taken[k], Written(k, true, requests)) {
        assert taken[k] + Written(k, true, requests) == taken[k];
      }
    }
  }
}
