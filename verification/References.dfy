/** Resource references: the printers that build links and the parsers that take names and regions
    back out of them (handlers/handlers.go, handlers/loadbalancer.go, repository/repository.go). */
module References {
  import opened Wrappers
  import opened Text

  predicate SlashFree(s: string) {
    '/' !in s
  }

  // ---------------------------------------------------------------- printers

  function TrimSlashes(s: string): string
    decreases |s|
  {
    if s != "" && s[0] == '/' then TrimSlashes(s[1..])
    else if s != "" && s[|s| - 1] == '/' then TrimSlashes(s[..|s| - 1])
    else s
  }

  /** The path segments a link keeps: slashes trimmed off, empty segments dropped. */
  function Segments(pathParts: seq<string>): seq<string> {
    if pathParts == [] then []
    else
      var last := TrimSlashes(pathParts[|pathParts| - 1]);
      Segments(pathParts[..|pathParts| - 1]) + if last == "" then [] else [last]
  }

  function Link(host: string, segments: seq<string>): string {
    "http://" + host + "/" + Join(segments, '/')
  }

  method SelfLink(host: string, pathParts: seq<string>) returns (link: string)
    ensures link == Link(host, Segments(pathParts))
  {
    var parts: seq<string> := [];
    for i := 0 to |pathParts|
      invariant parts == Segments(pathParts[..i])
    {
      var trimmed := TrimSlashes(pathParts[i]);
      assert pathParts[..i + 1][..i] == pathParts[..i];
      if trimmed != "" {
        parts := parts + [trimmed];
      }
    }
    assert pathParts[..|pathParts|] == pathParts;
    if |parts| == 0 {
      return "http://" + host + "/";
    }
    return "http://" + host + "/" + Join(parts, '/');
  }

  function GlobalResourcePath(project: string, collection: string, name: string): seq<string> {
    ["compute", "v1", "projects", project, "global", collection, name]
  }

  function SubnetworkPath(project: string, region: string, name: string): seq<string> {
    ["compute", "v1", "projects", project, "regions", region, "subnetworks", name]
  }

  predicate Slashes(s: string) {
    forall c :: c in s ==> c == '/'
  }

  /** Trimming takes slashes off both ends, and all of them. */
  lemma {:induction false} TrimmedOfSlashes(s: string) returns (front: string, back: string)
    ensures s == front + TrimSlashes(s) + back && Slashes(front) && Slashes(back)
    ensures var t := TrimSlashes(s); t != "" ==> t[0] != '/' && t[|t| - 1] != '/'
    decreases |s|
  {
    if s != "" && s[0] == '/' {
      front, back := TrimmedOfSlashes(s[1..]);
      front := "/" + front;
    } else if s != "" && s[|s| - 1] == '/' {
      front, back := TrimmedOfSlashes(s[..|s| - 1]);
      back := back + "/";
    } else {
      front, back := "", "";
    }
  }

  /** Each part of a path contributes its trimmed text, or nothing when it is made of slashes. */
  lemma {:induction false} SegmentsOfParts(pathParts: seq<string>, more: seq<string>)
    ensures Segments(pathParts + more) == Segments(pathParts) + Segments(more)
  {
    if more == [] {
      assert pathParts + more == pathParts;
    } else {
      var n := |more| - 1;
      SegmentsOfParts(pathParts, more[..n]);
      assert (pathParts + more)[..|pathParts + more| - 1] == pathParts + more[..n];
    }
  }

  /** A link segment that printing leaves as it is. */
  predicate Segment(s: string) {
    s != "" && SlashFree(s)
  }

  lemma {:induction false} SegmentsKept(pathParts: seq<string>)
    requires forall p :: p in pathParts ==> Segment(p)
    ensures Segments(pathParts) == pathParts
  {
    if pathParts != [] {
      var front := pathParts[..|pathParts| - 1];
      SegmentsKept(front);
      assert pathParts[|pathParts| - 1] in pathParts;
      assert pathParts == front + [pathParts[|pathParts| - 1]];
    }
  }

  // ----------------------------------------------------------------- parsers

  /** The path of an absolute link, from its first slash on; any other reference unchanged. */
  function StripHost(ref: string): string {
    var i := Index(ref, "://");
    if i < 0 then ref
    else
      var j := Index(ref[i + 3..], "/");
      if j < 0 then ref else ref[i + 3 + j..]
  }

  const API := "compute/v1/"

  function StrictPath(ref: string): string {
    TrimPrefix(TrimPrefix(StripHost(ref), "/"), API)
  }

  function LenientPath(ref: string): string {
    TrimPrefix(StrictPath(ref), "v1/")
  }

  /** The segment following the first `keyword` at or after position `from`, if there is one. */
  function FirstAfter(parts: seq<string>, from: nat, keyword: string): Option<string>
    decreases |parts| - from
  {
    if from + 1 >= |parts| then None
    else if parts[from] == keyword then Some(parts[from + 1])
    else FirstAfter(parts, from + 1, keyword)
  }

  /** The place from which the segments of a path are searched: behind the project when there is one. */
  function SearchFrom(parts: seq<string>): nat {
    if |parts| >= 2 && parts[0] == "projects" then 2 else 0
  }

  function ResolveParts(project: string, parts: seq<string>, collection: string): Result<string> {
    if SearchFrom(parts) == 2 && parts[1] != project then Err(NotFound)
    else
      match FirstAfter(parts, SearchFrom(parts), collection)
      case Some(name) => Ok(name)
      case None => Err(NotFound)
  }

  function ResolveSameProjectName(project: string, ref: string, collection: string): Result<string> {
    if ref == "" then Ok("")
    else if SlashFree(ref) then Ok(ref)
    else ResolveParts(project, Split(LenientPath(ref), '/'), collection)
  }

  function GlobalName(project: string, parts: seq<string>, collection: string): Option<string> {
    if |parts| == 5 && parts[0] == "projects" && parts[1] == project && parts[2] == "global" && parts[3] == collection
    then Some(parts[4])
    else None
  }

  function ComputeRefName(ref: string, project: string, collection: string): Option<string> {
    if ref == "" then None
    else if SlashFree(ref) then Some(ref)
    else GlobalName(project, Split(StrictPath(ref), '/'), collection)
  }

  function ExtractRegion(subnetworkRef: string): string {
    match FirstAfter(Split(subnetworkRef, '/'), 0, "regions")
    case Some(region) => region
    case None => ""
  }

  function ExtractName(selfLink: string): string {
    var trimmed := TrimSuffix(TrimSpace(selfLink), "/");
    var parts := Split(trimmed, '/');
    if trimmed == "" then "" else parts[|parts| - 1]
  }

  /** The position of the last hyphen, or -1. */
  function LastHyphen(s: string): (i: int)
    ensures -1 <= i < |s|
    ensures i >= 0 ==> s[i] == '-'
    ensures forall k :: i < k < |s| ==> s[k] != '-'
  {
    if s == "" then -1
    else if s[|s| - 1] == '-' then |s| - 1
    else LastHyphen(s[..|s| - 1])
  }

  predicate AllLetters(s: string) {
    forall c :: c in s ==> 'a' <= c <= 'z'
  }

  function RegionFromZone(location: string): string {
    var i := LastHyphen(location);
    if i < 0 then location
    else if location[i + 1..] != "" && AllLetters(location[i + 1..]) then location[..i]
    else location
  }

  // ------------------------------------------------- what the parsers accept

  predicate FollowsAt(parts: seq<string>, i: nat, keyword: string, name: string) {
    i + 1 < |parts| && parts[i] == keyword && parts[i + 1] == name
  }

  /** Both directions: the answer is the successor of the first keyword that has a successor. */
  lemma {:induction false} FirstAfterIsFirst(parts: seq<string>, from: nat, keyword: string, name: string)
    ensures FirstAfter(parts, from, keyword) == Some(name) <==>
            exists i: nat :: i >= from && FollowsAt(parts, i, keyword, name) && keyword !in parts[from..i]
    decreases |parts| - from
  {
    if from + 1 < |parts| {
      if parts[from] == keyword {
        assert keyword !in parts[from..from];
        assert FollowsAt(parts, from, keyword, parts[from + 1]);
        forall i: nat | i > from && i < |parts| ensures keyword in parts[from..i] {
          assert parts[from..i][0] == keyword;
        }
      } else {
        FirstAfterIsFirst(parts, from + 1, keyword, name);
        forall i: nat | i > from && FollowsAt(parts, i, keyword, name)
          ensures keyword !in parts[from..i] <==> keyword !in parts[from + 1..i]
        {
          assert parts[from..i] == [parts[from]] + parts[from + 1..i];
        }
      }
    }
  }

  /** What a reference resolves to: the empty one to the empty name, a bare one to itself, and a path to
      what follows the first segment naming the collection that something follows, behind the project when
      there is one. Only a path into another project, or without such a segment, resolves to nothing. */
  lemma ResolvesIff(project: string, ref: string, collection: string, name: string)
    ensures var parts := Split(LenientPath(ref), '/');
            var within := |parts| >= 2 && parts[0] == "projects";
            var from: nat := if within then 2 else 0;
            ResolveSameProjectName(project, ref, collection) == Ok(name) <==>
              if '/' !in ref then name == ref
              else (within ==> parts[1] == project) &&
                   exists i: nat :: i >= from && FollowsAt(parts, i, collection, name) && collection !in parts[from..i]
  {
    hide LenientPath, Split;
    if '/' in ref {
      var parts := Split(LenientPath(ref), '/');
      FirstAfterIsFirst(parts, SearchFrom(parts), collection, name);
    }
  }

  /** The strict parser accepts a bare name, and the one path of five segments. */
  lemma ComputeRefNameIff(ref: string, project: string, collection: string, name: string)
    ensures ComputeRefName(ref, project, collection) == Some(name) <==>
              if '/' !in ref then ref != "" && name == ref
              else Split(StrictPath(ref), '/') == ["projects", project, "global", collection, name]
  {
    hide StrictPath, Split;
  }

  /** Absolute under any scheme and host, with or without the API prefix: the path is what remains. */
  lemma AbsoluteSpellings(scheme: string, host: string, path: string)
    requires ':' !in scheme && SlashFree(host) && path != "" && path[0] == 'p'
    ensures StrictPath(scheme + "://" + (host + "/" + (API + path))) == path
    ensures StrictPath(scheme + "://" + (host + "/" + path)) == path
  {
    hide StripHost, TrimPrefix, Index;
    StripHostOfLink(scheme, host, API + path);
    StripHostOfLink(scheme, host, path);
    TrimmedApi(path);
    TrimsPrefix("/", path);
    NothingToTrim(path);
  }

  /** Without a scheme: a leading slash and the API prefix go, in that order. */
  lemma RelativeSpellings(path: string)
    requires Index(path, "://") < 0 && path != "" && path[0] == 'p'
    ensures StrictPath(path) == path && StrictPath("/" + path) == path
    ensures StrictPath(API + path) == path && StrictPath("/" + (API + path)) == path
  {
    hide StripHost, TrimPrefix, Index;
    NoScheme("", path);
    NoScheme("/", path);
    NoScheme(API, path);
    NoScheme("/" + API, path);
    assert "" + path == path;
    Regrouped("/", API, path);
    TrimmedApi(path);
    TrimsPrefix("/", path);
    TrimsPrefix(API, path);
    NothingToTrim(path);
    PrefixNeedsItsFirstCharacter(API + path, "/");
  }

  /** The lenient parser also takes off a bare version prefix. */
  lemma LenientSpellings(path: string)
    requires Index(path, "://") < 0 && path != "" && path[0] == 'p'
    ensures LenientPath(path) == path && LenientPath("v1/" + path) == path && LenientPath("/" + ("v1/" + path)) == path
  {
    hide StripHost, TrimPrefix, Index;
    RelativeSpellings(path);
    NoScheme("v1/", path);
    NoScheme("/" + "v1/", path);
    Regrouped("/", "v1/", path);
    TrimsPrefix("v1/", path);
    TrimsPrefix("/", "v1/" + path);
    NothingToTrim(path);
    PrefixNeedsItsFirstCharacter("v1/" + path, "/");
    PrefixNeedsItsFirstCharacter("v1/" + path, API);
  }

  lemma Regrouped(a: string, b: string, c: string)
    ensures (a + b) + c == a + (b + c)
  {
  }

  lemma NothingToTrim(path: string)
    requires path != "" && path[0] == 'p'
    ensures TrimPrefix(path, "/") == path && TrimPrefix(path, API) == path && TrimPrefix(path, "v1/") == path
  {
    PrefixNeedsItsFirstCharacter(path, "/");
    PrefixNeedsItsFirstCharacter(path, API);
    PrefixNeedsItsFirstCharacter(path, "v1/");
  }

  lemma TrimsPrefix(prefix: string, path: string)
    ensures TrimPrefix(prefix + path, prefix) == path
  {
    assert (prefix + path)[..|prefix|] == prefix;
  }

  lemma NoScheme(front: string, path: string)
    requires ':' !in front && Index(path, "://") < 0
    ensures StripHost(front + path) == front + path
  {
    IndexBehind(front, "://", path);
  }

  /** A resolved name is a bare name, so resolving it again changes nothing. */
  lemma ResolvedNamesAreBare(project: string, ref: string, collection: string)
    requires ResolveSameProjectName(project, ref, collection).Ok?
    ensures var name := ResolveSameProjectName(project, ref, collection).value;
            SlashFree(name) && ResolveSameProjectName(project, name, collection) == Ok(name)
  {
    var name := ResolveSameProjectName(project, ref, collection).value;
    if !SlashFree(ref) {
      var parts := Split(LenientPath(ref), '/');
      SplitPiecesAreFree(LenientPath(ref), '/');
      FirstAfterIsFirst(parts, SearchFrom(parts), collection, name);
      assert name in parts;
    }
  }

  lemma UnresolvedIsNotFound(project: string, ref: string, collection: string)
    ensures ResolveSameProjectName(project, ref, collection).Err?
            ==> ResolveSameProjectName(project, ref, collection) == Err(NotFound)
  {
  }

  /** Trimming "v1/" has no effect on a path the strict parser recognises. */
  lemma QualifiedPathKept(ref: string)
    requires Split(StrictPath(ref), '/')[0] == "projects"
    ensures LenientPath(ref) == StrictPath(ref)
  {
    var path := StrictPath(ref);
    assert path != "" && path[0] == "projects"[0];
    assert |path| >= 3 ==> path[..3][0] == path[0];
  }

  /** The strict parser refines the lenient one, except on a collection that is itself called
      "global"; there the two agree exactly on a resource that is called "global" too. */
  lemma StrictRefinesLenient(project: string, ref: string, collection: string)
    requires ComputeRefName(ref, project, collection).Some?
    ensures var name := ComputeRefName(ref, project, collection).value;
            ResolveSameProjectName(project, ref, collection) == Ok(name)
            <==> (SlashFree(ref) || collection != "global" || name == "global")
  {
    if !SlashFree(ref) {
      var parts := Split(StrictPath(ref), '/');
      QualifiedPathKept(ref);
      assert FirstAfter(parts, 2, collection)
          == if collection == "global" then Some("global") else FirstAfter(parts, 3, collection);
    }
  }

  // -------------------------------------------------------- print, then parse

  lemma DroppingTwice(s: string, m: nat, n: nat)
    requires m + n <= |s|
    ensures s[m..][n..] == s[m + n..]
  {
  }

  lemma StripHostAt(ref: string)
    requires Index(ref, "://") >= 0 && Index(ref[Index(ref, "://") + 3..], "/") >= 0
    ensures var tail := ref[Index(ref, "://") + 3..]; StripHost(ref) == tail[Index(tail, "/")..]
  {
    hide Index;
    DroppingTwice(ref, Index(ref, "://") + 3, Index(ref[Index(ref, "://") + 3..], "/"));
  }

  lemma StripHostOfLink(scheme: string, host: string, path: string)
    requires ':' !in scheme && SlashFree(host)
    ensures StripHost(scheme + "://" + (host + "/" + path)) == "/" + path
  {
    hide Index, SlashFree, StripHost;
    SchemeEnds(scheme, host + "/" + path);
    HostEnds(host, path);
    StripHostAt(scheme + "://" + (host + "/" + path));
  }

  lemma SchemeEnds(scheme: string, tail: string)
    requires ':' !in scheme
    ensures var ref := scheme + "://" + tail; Index(ref, "://") == |scheme| && ref[|scheme| + 3..] == tail
  {
    IndexAfter(scheme, "://", tail);
    hide Index;
    var front := scheme + "://";
    assert (front + tail)[|front|..] == tail;
  }

  lemma HostEnds(host: string, path: string)
    requires SlashFree(host)
    ensures var tail := host + "/" + path; Index(tail, "/") == |host| && tail[|host|..] == "/" + path
  {
    IndexAfter(host, "/", path);
    hide Index;
    assert host + "/" + path == host + ("/" + path);
  }

  lemma JoinWithApi(rest: seq<string>)
    requires rest != []
    ensures Join(["compute", "v1"] + rest, '/') == API + Join(rest, '/')
  {
    var segments := ["compute", "v1"] + rest;
    assert segments[1..] == ["v1"] + rest && segments[1..][1..] == rest;
    assert Join(segments, '/') == "compute" + "/" + ("v1" + "/" + Join(rest, '/'));
  }

  lemma LinkText(host: string, segments: seq<string>)
    ensures Link(host, segments) == "http" + "://" + (host + "/" + Join(segments, '/'))
    ensures !SlashFree(Link(host, segments))
  {
    var front := "http://";
    assert Link(host, segments) == front + host + "/" + Join(segments, '/');
    assert Link(host, segments)[5] == front[5];
  }

  lemma TrimmedApi(tail: string)
    ensures TrimPrefix(TrimPrefix("/" + (API + tail), "/"), API) == tail
  {
    assert ("/" + (API + tail))[1..] == API + tail;
    assert (API + tail)[|API|..] == tail;
  }

  /** A printed compute link parses back into the segments after "compute/v1/", under either parser. */
  lemma PathOfLink(host: string, rest: seq<string>)
    requires SlashFree(host) && |rest| >= 2 && rest[0] == "projects"
    requires forall s :: s in rest ==> SlashFree(s)
    ensures var link := Link(host, ["compute", "v1"] + rest);
            !SlashFree(link) && Split(StrictPath(link), '/') == rest && Split(LenientPath(link), '/') == rest
  {
    var segments := ["compute", "v1"] + rest;
    SplitJoin(rest, '/');
    JoinWithApi(rest);
    LinkText(host, segments);
    StripHostOfLink("http", host, Join(segments, '/'));
    TrimmedApi(Join(rest, '/'));
    hide Link, Join, Split, StripHost, TrimPrefix, LenientPath;
    QualifiedPathKept(Link(host, segments));
  }

  /** Printing a global link and parsing it strictly gives the name back; the lenient parser agrees
      exactly when the collection is not called "global" (or the resource is). */
  lemma GlobalLinkRoundTrip(host: string, project: string, collection: string, name: string)
    requires SlashFree(host) && Segment(project) && Segment(collection) && Segment(name)
    ensures var link := Link(host, Segments(GlobalResourcePath(project, collection, name)));
            && ComputeRefName(link, project, collection) == Some(name)
            && (ResolveSameProjectName(project, link, collection) == Ok(name)
               <==> collection != "global" || name == "global")
  {
    var rest := ["projects", project, "global", collection, name];
    hide Link, LenientPath, StrictPath, Split, ResolveParts;
    SegmentsKept(GlobalResourcePath(project, collection, name));
    assert GlobalResourcePath(project, collection, name) == ["compute", "v1"] + rest;
    PathOfLink(host, rest);
    StrictRefinesLenient(project, Link(host, ["compute", "v1"] + rest), collection);
  }

  /** Any reference whose normalised path leads into another project is rejected by both parsers, in
      whatever spelling: absolute under any scheme and host, with or without an API prefix, relative. */
  lemma ForeignRefsAreRejected(project: string, ref: string, other: string, collection: string)
    requires !SlashFree(ref) && other != project
    requires var parts := Split(LenientPath(ref), '/'); |parts| >= 2 && parts[0] == "projects" && parts[1] == other
    ensures ResolveSameProjectName(project, ref, collection) == Err(NotFound)
    ensures ComputeRefName(ref, project, collection) == None
  {
    hide StrictPath, LenientPath, Split;
    if Split(StrictPath(ref), '/')[0] == "projects" {
      QualifiedPathKept(ref);
    }
  }

  lemma ForeignLinksAreRejected(host: string, project: string, other: string, path: seq<string>, collection: string)
    requires SlashFree(host) && other != project && SlashFree(other)
    requires forall s :: s in path ==> SlashFree(s)
    ensures var link := Link(host, ["compute", "v1", "projects", other] + path);
            && ResolveSameProjectName(project, link, collection) == Err(NotFound)
            && ComputeRefName(link, project, collection) == None
  {
    var rest := ["projects", other] + path;
    assert ["compute", "v1", "projects", other] + path == ["compute", "v1"] + rest;
    PathOfLink(host, rest);
  }

  /** A path in which an empty segment follows the keyword where the parser finds it: "networks/",
      "networks//x", but not "networks/vpc/". */
  ghost predicate LeadsToEmptySegment(ref: string, collection: string) {
    var parts := Split(LenientPath(ref), '/');
    exists i: nat :: i >= SearchFrom(parts) && FollowsAt(parts, i, collection, "")
      && collection !in parts[SearchFrom(parts)..i]
  }

  /** What a reference must look like to name something at all. */
  ghost predicate NamesOne(ref: string, collection: string) {
    ref != "" && (SlashFree(ref) || !LeadsToEmptySegment(ref, collection))
  }

  /** A reference that resolves does so to a non-empty name exactly when it names something. */
  lemma ResolvesToANameIff(project: string, ref: string, collection: string)
    requires ResolveSameProjectName(project, ref, collection).Ok?
    ensures ResolveSameProjectName(project, ref, collection) == Ok("") <==> !NamesOne(ref, collection)
  {
    hide Split, LenientPath;
    if !SlashFree(ref) {
      var parts := Split(LenientPath(ref), '/');
      FirstAfterIsFirst(parts, SearchFrom(parts), collection, "");
    }
  }

  /** A subnetwork link gives back its name exactly when its region is not the word "subnetworks" (or
      the name is that word too), and its region exactly when no earlier segment is the word "regions"
      whose successor differs from the region. */
  lemma SubnetworkLinkRoundTrip(host: string, project: string, region: string, name: string)
    requires SlashFree(host) && Segment(project) && Segment(region) && Segment(name)
    ensures var link := Link(host, Segments(SubnetworkPath(project, region, name)));
            && (ResolveSameProjectName(project, link, "subnetworks") == Ok(name)
                <==> region != "subnetworks" || name == "subnetworks")
            && (ExtractRegion(link) == region
                <==> if host == "regions" then region == "compute" else project == "regions" ==> region == "regions")
  {
    hide Link, ExtractRegion, LenientPath, Split, ResolveParts;
    SegmentsKept(SubnetworkPath(project, region, name));
    NameOfSubnetworkLink(host, project, region, name);
    RegionOfSubnetworkLink(host, project, region, name);
  }

  lemma NameOfSubnetworkLink(host: string, project: string, region: string, name: string)
    requires SlashFree(host) && SlashFree(project) && SlashFree(region) && SlashFree(name)
    ensures ResolveSameProjectName(project, Link(host, SubnetworkPath(project, region, name)), "subnetworks")
         == Ok(if region == "subnetworks" then "subnetworks" else name)
  {
    var rest := ["projects", project, "regions", region, "subnetworks", name];
    assert SubnetworkPath(project, region, name) == ["compute", "v1"] + rest;
    PathOfLink(host, rest);
    NameScan(project, region, name);
    hide Link, LenientPath, Split;
  }

  lemma NameScan(project: string, region: string, name: string)
    ensures ResolveParts(project, ["projects", project, "regions", region, "subnetworks", name], "subnetworks")
         == Ok(if region == "subnetworks" then "subnetworks" else name)
  {
    var parts := ["projects", project, "regions", region, "subnetworks", name];
    assert FirstAfter(parts, 4, "subnetworks") == Some(name);
    assert FirstAfter(parts, 2, "subnetworks") == FirstAfter(parts, 3, "subnetworks");
  }

  lemma RegionOfSubnetworkLink(host: string, project: string, region: string, name: string)
    requires SlashFree(host) && SlashFree(project) && SlashFree(region) && SlashFree(name)
    ensures ExtractRegion(Link(host, SubnetworkPath(project, region, name)))
         == if host == "regions" then "compute" else if project == "regions" then "regions" else region
  {
    RawSplitOfLink(host, SubnetworkPath(project, region, name));
    var parts := ["http:", "", host, "compute", "v1", "projects", project, "regions", region, "subnetworks", name];
    assert ["http:", "", host] + SubnetworkPath(project, region, name) == parts;
    assert FirstAfter(parts, 7, "regions") == Some(region);
    assert FirstAfter(parts, 5, "regions") == FirstAfter(parts, 6, "regions");
    assert FirstAfter(parts, 3, "regions") == FirstAfter(parts, 5, "regions");
    assert FirstAfter(parts, 0, "regions") == FirstAfter(parts, 2, "regions");
  }

  lemma RawSplitOfLink(host: string, segments: seq<string>)
    requires SlashFree(host) && segments != []
    requires forall s :: s in segments ==> SlashFree(s)
    ensures Split(Link(host, segments), '/') == ["http:", "", host] + segments
  {
    var path := Join(segments, '/');
    SplitJoin(segments, '/');
    SplitFront(host, path, '/');
    SplitFront("", host + "/" + path, '/');
    SplitFront("http:", "" + "/" + (host + "/" + path), '/');
    assert Link(host, segments) == "http:" + "/" + ("" + "/" + (host + "/" + path));
  }

  /** Bare name, relative path, project path and absolute link are four spellings of one network. */
  lemma NetworkSpellingsAgree(host: string, project: string, name: string)
    requires SlashFree(host) && Segment(project) && Segment(name)
    ensures ResolveSameProjectName(project, name, "networks") == Ok(name)
    ensures ResolveSameProjectName(project, Join(["global", "networks", name], '/'), "networks") == Ok(name)
    ensures ResolveSameProjectName(project, Join(["projects", project, "global", "networks", name], '/'), "networks")
            == Ok(name)
    ensures ResolveSameProjectName(project, Link(host, Segments(GlobalResourcePath(project, "networks", name))),
            "networks") == Ok(name)
  {
    hide Link, Join, LenientPath, Split, ResolveParts, Segments;
    GlobalLinkRoundTrip(host, project, "networks", name);
    RelativeSpelling(project, ["global"], name);
    RelativeSpelling(project, ["projects", project, "global"], name);
    assert ["global"] + ["networks", name] == ["global", "networks", name];
    assert ["projects", project, "global"] + ["networks", name] == ["projects", project, "global", "networks", name];
  }

  lemma RelativeSpelling(project: string, front: seq<string>, name: string)
    requires Segment(project) && Segment(name)
    requires front == ["global"] || front == ["projects", project, "global"]
    ensures ResolveSameProjectName(project, Join(front + ["networks", name], '/'), "networks") == Ok(name)
  {
    hide Split, Join, LenientPath;
    var parts := front + ["networks", name];
    RelativePathKept(parts);
    SplitJoin(parts, '/');
    RelativeScan(project, front, name);
  }

  lemma RelativeScan(project: string, front: seq<string>, name: string)
    requires front == ["global"] || front == ["projects", project, "global"]
    ensures ResolveParts(project, front + ["networks", name], "networks") == Ok(name)
  {
    var parts := front + ["networks", name];
    var from := if |front| == 1 then 0 else 2;
    assert FirstAfter(parts, from + 1, "networks") == Some(name);
    assert FirstAfter(parts, from, "networks") == FirstAfter(parts, from + 1, "networks");
  }

  lemma PrefixNeedsItsFirstCharacter(s: string, prefix: string)
    requires s != "" && prefix != "" && s[0] != prefix[0]
    ensures TrimPrefix(s, prefix) == s
  {
    assert |prefix| <= |s| ==> s[..|prefix|][0] == s[0];
  }

  /** A relative path that starts with neither an API version nor a slash is parsed as it stands. */
  lemma RelativePathKept(parts: seq<string>)
    requires |parts| >= 2 && forall s :: s in parts ==> Segment(s)
    requires parts[0] == "global" || parts[0] == "projects"
    ensures !SlashFree(Join(parts, '/')) && LenientPath(Join(parts, '/')) == Join(parts, '/')
  {
    var path := Join(parts, '/');
    assert path[|parts[0]|] == '/';
    NoDoubleSlash(parts);
    SchemeHasDoubleSlash(path);
    assert path[0] == parts[0][0];
    PrefixNeedsItsFirstCharacter(path, "/");
    PrefixNeedsItsFirstCharacter(path, "compute/v1/");
    PrefixNeedsItsFirstCharacter(path, "v1/");
  }

  lemma SchemeHasDoubleSlash(path: string)
    ensures var i := Index(path, "://"); i >= 0 ==> DoubleSlashAt(path, i + 1)
  {
    var i := Index(path, "://");
    if i >= 0 {
      assert path[i + 1] == path[i..i + 3][1] && path[i + 2] == path[i..i + 3][2];
    }
  }

  predicate DoubleSlashAt(path: string, k: nat) {
    k + 1 < |path| && path[k] == '/' && path[k + 1] == '/'
  }

  lemma {:induction false} NoDoubleSlash(parts: seq<string>)
    requires parts != [] && forall s :: s in parts ==> Segment(s)
    ensures var path := Join(parts, '/');
            path != "" && path[0] != '/' && forall k :: 0 <= k ==> !DoubleSlashAt(path, k)
  {
    assert Segment(parts[0]);
    if |parts| == 1 {
      assert forall k :: 0 <= k < |parts[0]| ==> parts[0][k] != '/';
    } else {
      NoDoubleSlash(parts[1..]);
      var path, rest := Join(parts, '/'), Join(parts[1..], '/');
      assert path[|parts[0]| + 1..] == rest;
      forall k | 0 <= k ensures !DoubleSlashAt(path, k) {
        var n := |parts[0]|;
        assert k < n ==> path[k] == parts[0][k];
        assert k == n ==> path[k + 1] == rest[0];
        assert k > n && k + 1 < |path| ==> path[k] == rest[k - n - 1] && path[k + 1] == rest[k - n];
        assert k > n ==> !DoubleSlashAt(rest, k - n - 1);
      }
    }
  }

  // ------------------------------------------------------------------- zones

  lemma {:induction false} LastHyphenAt(front: string, tail: string)
    requires '-' !in tail
    ensures LastHyphen(front + "-" + tail) == |front|
  {
    var s := front + "-" + tail;
    if tail != "" {
      var shorter := tail[..|tail| - 1];
      LastHyphenAt(front, shorter);
      assert s[..|s| - 1] == front + "-" + shorter;
      assert s[|s| - 1] == tail[|tail| - 1];
    }
  }

  /** Zones are regions with a letter suffix; a location ending in anything else, a hyphen included, or
      without any hyphen is its own region. */
  lemma RegionOfZone(region: string, suffix: string)
    requires '-' !in suffix
    ensures RegionFromZone(region + "-" + suffix) ==
            if suffix != "" && (forall c :: c in suffix ==> 'a' <= c <= 'z') then region else region + "-" + suffix
    ensures RegionFromZone(suffix) == suffix
  {
    var zone := region + "-" + suffix;
    LastHyphenAt(region, suffix);
    assert zone[|region| + 1..] == suffix && zone[..|region|] == region;
  }

  /** The region a reference carries: what follows the first segment "regions" that something follows. */
  ghost predicate NamesRegion(ref: string, region: string) {
    var parts := Split(ref, '/');
    exists i: nat :: FollowsAt(parts, i, "regions", region) && "regions" !in parts[..i]
  }

  lemma ExtractRegionIff(ref: string, region: string)
    requires region != ""
    ensures ExtractRegion(ref) == region <==> NamesRegion(ref, region)
  {
    var parts := Split(ref, '/');
    FirstAfterIsFirst(parts, 0, "regions", region);
    assert forall i: nat :: i <= |parts| ==> parts[0..i] == parts[..i];
    hide Split;
  }

  // ---------------------------------------------------------- resource names

  /** A name the last-segment parser reads back: bare and not ending in white space. */
  predicate ShortName(name: string) {
    Segment(name) && !IsSpace(name[|name| - 1])
  }

  /** A bare name without white space around it is its own last segment. */
  lemma BareNameReadBack(name: string)
    requires ShortName(name) && !IsSpace(name[0])
    ensures ExtractName(name) == name
  {
    assert name[|name| - 1] in name;
    assert TrimSpace(name) == name;
    assert name[|name| - 1..] == [name[|name| - 1]];
    SplitWhole(name, '/');
  }

  /** The last segment of a full resource name is its short name, whatever the path in front. */
  lemma ShortNameReadBack(front: string, name: string)
    requires ShortName(name)
    ensures ExtractName(front + "/" + name) == name
  {
    var front' := TrimLeftKeepsTail(front, '/', name);
    TrimRightKeepsFront(front' + "/", name);
    assert TrimSpace(front + "/" + name) == front' + "/" + name;
    SplitLast(front', name, '/');
  }

  /** Whatever bare text a caller appends to a collection path, the name read out of it is a short
      name: the text without trailing white space or, when it is blank, the collection itself. */
  lemma NameOfAppendedText(front: string, collection: string, text: string)
    requires ShortName(collection) && SlashFree(text)
    ensures ExtractName(front + "/" + collection + "/" + text)
         == if TrimRight(text) == "" then collection else TrimRight(text)
    ensures ShortName(ExtractName(front + "/" + collection + "/" + text))
  {
    var front' := TrimmedPath(front, collection, text);
    var link, tail := front + "/" + collection + "/" + text, TrimRight(text);
    if tail == "" {
      assert front' + "/" + collection + "/" + tail == front' + "/" + collection + "/";
      LastSegmentBeforeSlash(link, front', collection);
    } else {
      assert forall c :: c in tail ==> c in text;
      LastSegment(link, front' + "/" + collection, tail);
    }
  }

  lemma LastSegment(link: string, front: string, tail: string)
    requires TrimSpace(link) == front + "/" + tail && Segment(tail)
    ensures ExtractName(link) == tail
  {
    var trimmed := TrimSpace(link);
    assert trimmed[|trimmed| - 1] == tail[|tail| - 1];
    assert tail[|tail| - 1] in tail;
    assert trimmed[|trimmed| - 1..] == [tail[|tail| - 1]];
    SplitLast(front, tail, '/');
  }

  lemma LastSegmentBeforeSlash(link: string, front: string, tail: string)
    requires TrimSpace(link) == front + "/" + tail + "/" && Segment(tail)
    ensures ExtractName(link) == tail
  {
    var trimmed := TrimSpace(link);
    assert trimmed[|trimmed| - 1..] == "/";
    assert trimmed[..|trimmed| - 1] == front + "/" + tail;
    SplitLast(front, tail, '/');
  }

  lemma TrimmedPath(front: string, collection: string, text: string) returns (front': string)
    ensures TrimSpace(front + "/" + collection + "/" + text) == front' + "/" + collection + "/" + TrimRight(text)
  {
    var inner := collection + "/" + text;
    front' := TrimLeftKeepsTail(front, '/', inner);
    var kept := front' + "/" + collection;
    assert front + "/" + collection + "/" + text == front + "/" + inner;
    assert kept + "/" + text == front' + "/" + inner;
    TrimRightKeepsFront(kept + "/", text);
  }
}
