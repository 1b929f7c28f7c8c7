/** References between load-balancer resources, validated when they are written (handlers/loadbalancer.go). */
module LoadBalancer {
  import opened Wrappers
  import opened Json
  import opened Text
  import opened References
  import Dns
  import opened Requests

  /** A reference that is no string, or empty, constrains nothing. */
  predicate Admitted(item: Json, project: string, collection: string, names: set<string>) {
    item.Str? && item.s != "" ==>
      ComputeRefName(item.s, project, collection).Some? && ComputeRefName(item.s, project, collection).value in names
  }

  predicate FirstRefused(items: seq<Json>, i: int, project: string, collection: string, names: set<string>) {
    && 0 <= i < |items| && !Admitted(items[i], project, collection, names)
    && forall j :: 0 <= j < i ==> Admitted(items[j], project, collection, names)
  }

  function RefusalOf(item: Json, project: string, collection: string): Error
    requires item.Str?
  {
    if ComputeRefName(item.s, project, collection).None? then BadRequest else NotFound
  }

  /** `names` are the resources the collection holds. The answer is None, or the error of the first
      reference that is not admitted: a malformed one is a bad request, a dangling one is not found. */
  method ValidateListFK(body: Document, field: Field, project: string, collection: string, names: set<string>)
    returns (error: Option<Error>)
    ensures forall items :: Lists(body, field, items) ==>
              && (error.None? <==> forall item :: item in items ==> Admitted(item, project, collection, names))
              && (error.Some? ==>
                  exists i ::
                    FirstRefused(items, i, project, collection, names) &&
                    error.value == RefusalOf(items[i], project, collection))
  {
    var items := Dns.Items(body, field);
    assert forall list :: Lists(body, field, list) ==> list == items;
    hide ComputeRefName, Dns.Items, Lists;
    for i := 0 to |items|
      invariant forall j :: 0 <= j < i ==> Admitted(items[j], project, collection, names)
    {
      if !items[i].Str? || items[i].s == "" {
        continue;
      }
      assert items[i] in items;
      var target := ComputeRefName(items[i].s, project, collection);
      if target.None? {
        assert FirstRefused(items, i, project, collection, names);
        return Some(BadRequest);
      }
      if target.value !in names {
        assert FirstRefused(items, i, project, collection, names);
        return Some(NotFound);
      }
    }
    return None;
  }

  method ValidateScalarFK(body: Document, field: Field, project: string, collection: string, names: set<string>)
    returns (error: Option<Error>)
    ensures error.None? <==> (field in body ==> Admitted(body[field], project, collection, names))
    ensures error.Some? ==> var target := ComputeRefName(GetString(body, field), project, collection);
              error.value == if target.None? then BadRequest else NotFound
  {
    hide ComputeRefName;
    var ref := GetString(body, field);
    if ref == "" {
      return None;
    }
    var target := ComputeRefName(ref, project, collection);
    if target.None? {
      return Some(BadRequest);
    }
    if target.value !in names {
      return Some(NotFound);
    }
    return None;
  }

  /** The link a resource shows is admitted wherever its collection is referenced, exactly while the
      resource exists, and never from another project. */
  lemma ShownLinksAreAdmittedIff(host: string, owner: string, project: string, collection: string, name: string,
                                 names: set<string>)
    requires SlashFree(host) && Segment(owner) && Segment(project) && Segment(collection) && Segment(name)
    ensures Admitted(Str(Link(host, Segments(GlobalResourcePath(owner, collection, name)))), project, collection, names)
            <==> owner == project && name in names
  {
    hide Link, ComputeRefName, ResolveSameProjectName;
    var path := GlobalResourcePath(owner, collection, name);
    SegmentsKept(path);
    LinkIsNotEmpty(host, path);
    if owner == project {
      GlobalLinkRoundTrip(host, project, collection, name);
    } else {
      var rest := ["global", collection, name];
      assert path == ["compute", "v1", "projects", owner] + rest;
      ForeignLinksAreRejected(host, project, owner, rest, collection);
    }
  }

  lemma LinkIsNotEmpty(host: string, segments: seq<string>)
    ensures Link(host, segments) != ""
  {
  }
}
