/** patchMerge, the two-level merge every Update operation applies (repository/repository.go). */
module Merge {
  import opened Json

  /** The keys of a patch that take effect: neither skipped nor null. */
  function Live(patch: Document, skip: set<Field>): set<Field> {
    set k | k in patch && k !in skip && patch[k] != Null
  }

  /** An object patch over a stored object overlays the non-null fields; anything else replaces. */
  function MergeValue(current: Json, patch: Json): Json {
    if current.Obj? && patch.Obj? then Obj(Overlay(current.fields, patch.fields)) else patch
  }

  function Overlay(base: Document, over: Document): Document {
    map k | k in base.Keys + Live(over, {}) :: if k in Live(over, {}) then over[k] else base[k]
  }

  /** What a merge must produce, key by key. */
  function Merged(current: Document, patch: Document, skip: set<Field>): Document {
    map k | k in current.Keys + Live(patch, skip) ::
      if k !in Live(patch, skip) then current[k]
      else if k in current then MergeValue(current[k], patch[k])
      else patch[k]
  }

  method CopyOf(source: Document) returns (copy: Document)
    ensures copy == source
  {
    copy := map[];
    var todo := source.Keys;
    while todo != {}
      invariant todo <= source.Keys
      invariant copy == map k | k in source && k !in todo :: source[k]
      decreases todo
    {
      var k :| k in todo;
      copy := copy[k := source[k]];
      todo := todo - {k};
    }
  }

  lemma OverlayStep(base: Document, over: Document, k: Field, v: Json)
    requires k !in over
    ensures Overlay(base, over[k := v]) == if v == Null then Overlay(base, over) else Overlay(base, over)[k := v]
  {
  }

  method OverlayOf(base: Document, over: Document) returns (merged: Document)
    ensures merged == Overlay(base, over)
  {
    merged := CopyOf(base);
    assert Overlay(base, over - over.Keys) == base;
    hide Overlay;
    var todo := over.Keys;
    while todo != {}
      invariant todo <= over.Keys
      invariant merged == Overlay(base, over - todo)
      decreases todo
    {
      var k :| k in todo;
      assert over - (todo - {k}) == (over - todo)[k := over[k]];
      OverlayStep(base, over - todo, k, over[k]);
      todo := todo - {k};
      if over[k] != Null {
        merged := merged[k := over[k]];
      }
    }
    assert over - {} == over;
  }

  /** One more patch key changes the merge at that key only. */
  lemma MergedStep(current: Document, patch: Document, skip: set<Field>, k: Field, v: Json)
    requires k !in patch
    ensures var before, after := Merged(current, patch, skip), Merged(current, patch[k := v], skip);
            && (k in before <==> k in current)
            && (k in current ==> before[k] == current[k])
            && after == (if k in skip || v == Null then before
                         else before[k := if k in current then MergeValue(current[k], v) else v])
  {
    hide MergeValue;
    var patch' := patch[k := v];
    var before, after := Merged(current, patch, skip), Merged(current, patch', skip);
    if k in skip || v == Null {
      assert Live(patch', skip) == Live(patch, skip);
      assert after.Keys == before.Keys;
    } else {
      assert Live(patch', skip) == Live(patch, skip) + {k};
      assert after.Keys == before.Keys + {k};
    }
  }

  /** The loops visit the keys of both maps in an order of their own choosing. */
  method PatchMerge(current: Document, patch: Document, skip: set<Field>) returns (out: Document)
    ensures out == Merged(current, patch, skip)
  {
    out := map[];
    var todo := current.Keys;
    while todo != {}
      invariant todo <= current.Keys
      invariant out == current - todo
      decreases todo
    {
      var k :| k in todo;
      todo := todo - {k};
      if current[k].Obj? {
        var c := CopyOf(current[k].fields);
        out := out[k := Obj(c)];
      } else {
        out := out[k := current[k]];
      }
    }

    todo := patch.Keys;
    assert out == Merged(current, patch - todo, skip);
    while todo != {}
      invariant todo <= patch.Keys
      invariant out == Merged(current, patch - todo, skip)
      decreases todo
    {
      var k :| k in todo;
      MergedStep(current, patch - todo, skip, k, patch[k]);
      assert patch - (todo - {k}) == (patch - todo)[k := patch[k]];
      todo := todo - {k};
      if k in skip || patch[k] == Null {
        continue;
      }
      if patch[k].Obj? && k in out && out[k].Obj? {
        var merged := OverlayOf(out[k].fields, patch[k].fields);
        out := out[k := Obj(merged)];
        continue;
      }
      out := out[k := patch[k]];
    }
    assert patch - {} == patch;
  }

  lemma OverlayTwice(base: Document, over: Document)
    ensures Overlay(Overlay(base, over), over) == Overlay(base, over)
  {
  }

  /** Merging the same patch twice equals merging it once. */
  lemma MergeIsIdempotent(current: Document, patch: Document, skip: set<Field>)
    ensures Merged(Merged(current, patch, skip), patch, skip) == Merged(current, patch, skip)
  {
    var once := Merged(current, patch, skip);
    var twice := Merged(once, patch, skip);
    forall k | k in once ensures twice[k] == once[k] {
      if k in Live(patch, skip) && patch[k].Obj? {
        OverlayTwice(if k in current && current[k].Obj? then current[k].fields else map[], patch[k].fields);
        OverlayOnItself(patch[k].fields);
      }
    }
  }

  lemma OverlayOnItself(d: Document)
    ensures Overlay(d, d) == d
  {
  }

  /** No key is ever removed, and skipped, null and absent keys keep the stored value. */
  lemma MergeKeepsTheRest(current: Document, patch: Document, skip: set<Field>)
    ensures current.Keys <= Merged(current, patch, skip).Keys <= current.Keys + patch.Keys
    ensures forall k :: k in current && (k in skip || k !in patch || patch[k] == Null)
              ==> Merged(current, patch, skip)[k] == current[k]
    ensures forall k :: k in skip && k !in current ==> k !in Merged(current, patch, skip)
  {
  }

  /** Stamping the fixed columns over a merge commutes with repeating it: an Update operation that
      succeeded leaves the same document when it is repeated. */
  lemma StampedMergeIsIdempotent(current: Document, patch: Document, skip: set<Field>, stamps: Document)
    requires stamps.Keys <= skip
    ensures var once := Merged(current, patch, skip) + stamps;
            Merged(once, patch, skip) + stamps == once
  {
    var once := Merged(current, patch, skip) + stamps;
    var plain := Merged(current, patch, skip);
    var twice := Merged(once, patch, skip) + stamps;
    MergeIsIdempotent(current, patch, skip);
    forall k | k in once ensures twice[k] == once[k] {
      if k !in stamps {
        assert once[k] == plain[k] && Merged(plain, patch, skip)[k] == plain[k];
      }
    }
    assert twice.Keys == once.Keys;
  }

  /** A skipped key set after the merge survives repeating the merge. */
  lemma MergeAbsorbsSkipped(current: Document, patch: Document, skip: set<Field>, stamps: Document, k: Field, v: Json)
    requires stamps.Keys <= skip && k in skip && k !in stamps
    ensures var once := (Merged(current, patch, skip) + stamps)[k := v];
            Merged(once, patch, skip) + stamps == once
  {
    var once := (Merged(current, patch, skip) + stamps)[k := v];
    var stamps' := stamps[k := v];
    assert once == Merged(current, patch, skip) + stamps';
    StampedMergeIsIdempotent(current, patch, skip, stamps');
    MergeKeepsTheRest(once, patch, skip);
    var again := Merged(once, patch, skip);
    assert again + stamps' == again + stamps by {
      assert again[k] == v;
    }
  }

  // ---------------------------------------------------- what a merge comes to

  /** Two objects merged: the fields of both, a field of the second only when it is not null, and then in
      place of the first's. */
  ghost predicate MergedFields(merged: Document, current: Document, patch: Document) {
    && (forall g :: g in merged <==> g in current || (g in patch && patch[g] != Null))
    && forall g :: g in merged ==> merged[g] == if g in patch && patch[g] != Null then patch[g] else current[g]
  }

  /** A patch says nothing of a field it does not hold or holds as null. Of another field it says the new
      value, which is merged with the stored one when both are objects. */
  ghost predicate PatchedAt(current: Document, patch: Document, result: Document, f: Field) {
    if f !in patch || patch[f] == Null then
      (f in result <==> f in current) && (f in current ==> result[f] == current[f])
    else
      && f in result
      && if f in current && current[f].Obj? && patch[f].Obj? then
           result[f].Obj? && MergedFields(result[f].fields, current[f].fields, patch[f].fields)
         else
           result[f] == patch[f]
  }

  /** The patch took effect outside some fields. */
  ghost predicate TakesPatch(current: Document, patch: Document, kept: set<Field>, result: Document) {
    forall f :: f !in kept ==> PatchedAt(current, patch, result, f)
  }

  ghost predicate Unchanged(current: Document, kept: set<Field>, result: Document) {
    forall f :: f in kept ==> (f in result <==> f in current) && (f in current ==> result[f] == current[f])
  }

  /** The merge in full: every field that is not skipped is patched, two levels deep, and every skipped one
      is kept. */
  lemma MergeIsPointwise(current: Document, patch: Document, skip: set<Field>)
    ensures TakesPatch(current, patch, skip, Merged(current, patch, skip))
    ensures Unchanged(current, skip, Merged(current, patch, skip))
  {
  }

  /** Stamping skipped columns afterwards does not take the patch back. */
  lemma StampedMergeApplies(current: Document, patch: Document, skip: set<Field>, stamps: Document)
    requires stamps.Keys <= skip
    ensures TakesPatch(current, patch, skip, Merged(current, patch, skip) + stamps)
    ensures Unchanged(current, skip - stamps.Keys, Merged(current, patch, skip) + stamps)
  {
    MergeIsPointwise(current, patch, skip);
    hide Merged, MergedFields;
  }
}
