/** What a request or a row says, read off the document itself: the vocabulary in which results are stated
    where they must not lean on the functions that compute them. */
module Requests {
  import opened Json

  /** The string under a key is what GetString returns; anything else under it counts as none. */
  lemma StringUnder(d: Document, key: Field, s: string)
    requires s != ""
    ensures GetString(d, key) == s <==> key in d && d[key] == Str(s)
  {
  }

  lemma DefaultUnder(d: Document, key: Field, value: string)
    ensures var d' := WithDefault(d, key, value);
            && SameElsewhere(d', d, {key})
            && key in d'
            && d'[key] == if key in d && d[key].Str? && d[key].s != "" then d[key] else Str(value)
  {
  }

  /** The list under a key; a key that is missing or holds something else counts as an empty list. */
  predicate Lists(body: Document, field: Field, items: seq<Json>) {
    if field in body && body[field].Arr? then body[field] == Arr(items) else items == []
  }

  /** The positions below `p` that hold objects. */
  function ObjectsBelow(items: seq<Json>, p: nat): set<nat>
    requires p <= |items|
  {
    set q: nat | q < p && items[q].Obj?
  }

  /** The objects of a list, in order: each stands where as many objects precede it, and there are no more. */
  predicate Objects(items: seq<Json>, docs: seq<Document>) {
    && |docs| == |ObjectsBelow(items, |items|)|
    && forall p: nat :: p < |items| && items[p].Obj? ==> StandsAt(items, p, docs)
  }

  predicate StandsAt(items: seq<Json>, p: nat, docs: seq<Document>)
    requires p < |items|
  {
    var rank := |ObjectsBelow(items, p)|;
    rank < |docs| && items[p] == Obj(docs[rank])
  }

  lemma OneMoreBelow(items: seq<Json>, p: nat)
    requires p < |items|
    ensures ObjectsBelow(items, p + 1) == ObjectsBelow(items, p) + if items[p].Obj? then {p} else {}
    ensures |ObjectsBelow(items, p + 1)| == |ObjectsBelow(items, p)| + if items[p].Obj? then 1 else 0
  {
    assert ObjectsBelow(items, p + 1) == ObjectsBelow(items, p) + if items[p].Obj? then {p} else {};
  }

  lemma {:induction false} RanksGrow(items: seq<Json>, p: nat, q: nat)
    requires p <= q <= |items|
    ensures |ObjectsBelow(items, p)| <= |ObjectsBelow(items, q)|
    decreases q - p
  {
    if p < q {
      OneMoreBelow(items, p);
      RanksGrow(items, p + 1, q);
    }
  }

  lemma BelowInFront(items: seq<Json>, n: nat, p: nat)
    requires p <= n <= |items|
    ensures ObjectsBelow(items[..n], p) == ObjectsBelow(items, p)
  {
  }

  /** The objects of a list but for its last item. */
  lemma ObjectsOfFront(items: seq<Json>, docs: seq<Document>)
    requires items != [] && Objects(items, docs)
    ensures var n := |items| - 1;
            if items[n].Obj? then
              docs != [] && docs[|docs| - 1] == items[n].fields && Objects(items[..n], docs[..|docs| - 1])
            else
              Objects(items[..n], docs)
  {
    hide ObjectsBelow;
    var n := |items| - 1;
    OneMoreBelow(items, n);
    BelowInFront(items, n, n);
    assert items[n].Obj? ==> StandsAt(items, n, docs);
    var front := if items[n].Obj? then docs[..|docs| - 1] else docs;
    forall p: nat | p < n && items[..n][p].Obj? ensures StandsAt(items[..n], p, front) {
      StandsInFront(items, n, p, docs, front);
    }
  }

  lemma StandsInFront(items: seq<Json>, n: nat, p: nat, docs: seq<Document>, front: seq<Document>)
    requires p < n <= |items| && items[p].Obj? && StandsAt(items, p, docs)
    requires front <= docs && |front| == |ObjectsBelow(items, n)|
    ensures StandsAt(items[..n], p, front)
  {
    hide ObjectsBelow;
    BelowInFront(items, n, p);
    OneMoreBelow(items, p);
    RanksGrow(items, p + 1, n);
  }

  /** A list with one more item. */
  lemma ObjectsOfMore(items: seq<Json>, docs: seq<Document>)
    requires items != []
    requires var n := |items| - 1;
             if items[n].Obj? then
               docs != [] && docs[|docs| - 1] == items[n].fields && Objects(items[..n], docs[..|docs| - 1])
             else
               Objects(items[..n], docs)
    ensures Objects(items, docs)
  {
    var n := |items| - 1;
    OneMoreBelow(items, n);
    BelowInFront(items, n, n);
    var front := if items[n].Obj? then docs[..|docs| - 1] else docs;
    forall p: nat | p < |items| && items[p].Obj? ensures StandsAt(items, p, docs) {
      if p < n {
        assert items[..n][p].Obj?;
        assert StandsAt(items[..n], p, front);
        BelowInFront(items, n, p);
      }
    }
  }

  /** A list of objects and nothing else. */
  function Arrayed(docs: seq<Document>): Json {
    Arr(seq(|docs|, i requires 0 <= i < |docs| => Obj(docs[i])))
  }

  lemma {:induction false} ObjectsOfArrayed(docs: seq<Document>)
    ensures Objects(Arrayed(docs).items, docs)
  {
    if docs != [] {
      var n := |docs| - 1;
      ObjectsOfArrayed(docs[..n]);
      assert Arrayed(docs).items[..n] == Arrayed(docs[..n]).items;
      ObjectsOfMore(Arrayed(docs).items, docs);
    }
  }

  /** Two documents agree outside some fields. */
  predicate SameElsewhere(a: Document, b: Document, fields: set<Field>) {
    && (forall f :: f in a && f !in fields ==> f in b && a[f] == b[f])
    && forall f :: f in b && f !in fields ==> f in a
  }

  predicate Says(d: Document, field: Field, s: string) {
    field in d && d[field] == Str(s)
  }

  /** A document written for a request: the given columns, the defaults where the request says nothing, and
      everything else as it came. */
  predicate WrittenFor(result: Document, data: Document, columns: Document, defaults: Document) {
    && (forall f :: f in columns ==> f in result && result[f] == columns[f])
    && (forall f :: f in defaults && f !in columns ==>
          f in result && result[f] == if f in data && data[f].Str? && data[f].s != "" then data[f] else defaults[f])
    && SameElsewhere(result, data, columns.Keys + defaults.Keys)
  }

  /** One default on top of the columns. */
  lemma WrittenWithDefault(data: Document, columns: Document, f: Field, value: string)
    requires f !in columns
    ensures WrittenFor(WithDefault(data + columns, f, value), data, columns, map[f := Str(value)])
  {
    DefaultUnder(data + columns, f, value);
    hide WithDefault;
  }

  /** One more default. */
  lemma WrittenWithMore(result: Document, data: Document, columns: Document, defaults: Document, g: Field,
                        value: string)
    requires WrittenFor(result, data, columns, defaults) && g !in columns && g !in defaults
    ensures WrittenFor(WithDefault(result, g, value), data, columns, defaults[g := Str(value)])
  {
    DefaultUnder(result, g, value);
    hide WithDefault;
    assert g in result <==> g in data;
  }

  /** Two of them. */
  lemma WrittenWithDefaults(data: Document, columns: Document, f: Field, value: string, g: Field, more: string)
    requires f !in columns && g !in columns && f != g
    ensures WrittenFor(WithDefault(WithDefault(data + columns, f, value), g, more), data, columns,
                       map[f := Str(value), g := Str(more)])
  {
    hide WithDefault, WrittenFor;
    WrittenWithDefault(data, columns, f, value);
    WrittenWithMore(WithDefault(data + columns, f, value), data, columns, map[f := Str(value)], g, more);
    assert map[f := Str(value)][g := Str(more)] == map[f := Str(value), g := Str(more)];
  }
}
