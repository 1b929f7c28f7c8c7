/** Project policies: one row per (project, role, member), replaced and read back as a whole
    (handlers/iam_bindings.go, repository/repository.go). */
module IamPolicy {
  import opened Wrappers
  import opened Json
  import opened Tables
  import opened Text
  import opened Dns
  import opened Requests
  import Compute

  datatype BindingKey = BindingKey(project: string, role: string, member: string)

  type Bindings = map<BindingKey, Document>

  datatype RoleBinding = RoleBinding(role: string, members: seq<string>)

  function RowData(role: string, member: string): Document {
    map[FRole := Str(role), FMember := Str(member)]
  }

  // --------------------------------------------------------- reading a request

  /** The members the handler passes on: non-empty strings. */
  function Members(raw: seq<Json>): seq<string> {
    if raw == [] then []
    else
      var last := raw[|raw| - 1];
      Members(raw[..|raw| - 1]) + if last.Str? && last.s != "" then [last.s] else []
  }

  /** The bindings the handler acts on: objects with a role. */
  function RoleBindings(items: seq<Json>): seq<RoleBinding> {
    if items == [] then []
    else
      var last := items[|items| - 1];
      RoleBindings(items[..|items| - 1]) +
      if last.Obj? && GetString(last.fields, FRole) != ""
      then [RoleBinding(GetString(last.fields, FRole), Members(Items(last.fields, FMembers)))]
      else []
  }

  predicate HasPolicy(body: Document) {
    FPolicy in body && body[FPolicy].Obj?
  }

  function Requested(body: Document): seq<RoleBinding> {
    if HasPolicy(body) then RoleBindings(Items(body[FPolicy].fields, FBindings)) else []
  }

  // -------------------------------------------------------------- transitions

  /** The members that are stored: blank ones are passed over. */
  function Kept(members: seq<string>): seq<string> {
    if members == [] then []
    else
      var last := members[|members| - 1];
      Kept(members[..|members| - 1]) + if Blank(last) then [] else [last]
  }

  predicate NoRepeats(members: seq<string>) {
    Distinct(Kept(members))
  }

  function WithoutRole(b: Bindings, project: string, role: string): Bindings {
    map k | k in b && !(k.project == project && k.role == role) :: b[k]
  }

  function WithoutProject(b: Bindings, project: string): Bindings {
    map k | k in b && k.project != project :: b[k]
  }

  function RoleRows(project: string, role: string, members: seq<string>): Bindings {
    map m | m in Kept(members) :: BindingKey(project, role, m) := RowData(role, m)
  }

  /** One role is replaced in one transaction: a repeated member rolls it back. */
  function SetRole(b: Bindings, project: string, role: string, members: seq<string>): Outcome<Bindings> {
    if role == "" then Compute.Fail(b, Required)
    else if !NoRepeats(members) then Compute.Fail(b, AlreadyExists)
    else Outcome(WithoutRole(b, project, role) + RoleRows(project, role, members), Ok(map[]))
  }

  /** The bindings of a request are applied one after the other until one fails. */
  function SetRoles(b: Bindings, project: string, bindings: seq<RoleBinding>): Outcome<Bindings> {
    if bindings == [] then Outcome(b, Ok(map[]))
    else
      var before := SetRoles(b, project, bindings[..|bindings| - 1]);
      var last := bindings[|bindings| - 1];
      if before.result.Err? then before else SetRole(before.db, project, last.role, last.members)
  }

  /** The project is cleared first, in transactions of its own. */
  function SetPolicy(b: Bindings, project: string, body: Document): Outcome<Bindings> {
    if !HasPolicy(body) then Compute.Fail(b, BadRequest)
    else SetRoles(WithoutProject(b, project), project, Requested(body))
  }

  // --------------------------------------------------------------- invariants

  ghost predicate Valid(b: Bindings) {
    forall k :: k in b ==> k.role != "" && !Blank(k.member) && b[k] == RowData(k.role, k.member)
  }

  lemma {:induction false} KeptAreMembers(members: seq<string>)
    ensures forall m :: m in Kept(members) <==> m in members && !Blank(m)
  {
    hide Blank;
    if members != [] {
      KeptAreMembers(members[..|members| - 1]);
      assert members == members[..|members| - 1] + [members[|members| - 1]];
    }
  }

  /** What is kept of a prefix is a prefix of what is kept. */
  lemma {:induction false} KeptPrefix(members: seq<string>, n: nat)
    requires n <= |members|
    ensures Kept(members[..n]) <= Kept(members)
  {
    if n < |members| {
      KeptPrefix(members[..|members| - 1], n);
      assert members[..|members| - 1][..n] == members[..n];
    } else {
      assert members[..n] == members;
    }
  }

  lemma RepeatsStay(members: seq<string>, n: nat)
    requires n <= |members|
    ensures !NoRepeats(members[..n]) ==> !NoRepeats(members)
  {
    KeptPrefix(members, n);
  }

  lemma NothingKept(project: string, role: string, members: seq<string>)
    requires members == []
    ensures NoRepeats(members) && RoleRows(project, role, members) == map[]
  {
  }

  lemma KeptOneMore(members: seq<string>, i: nat)
    requires i < |members|
    ensures Kept(members[..i + 1]) == Kept(members[..i]) + if Blank(members[i]) then [] else [members[i]]
  {
    assert members[..i + 1][..i] == members[..i];
  }

  lemma MemberSkipped(project: string, role: string, members: seq<string>, i: nat)
    requires i < |members| && Blank(members[i]) && NoRepeats(members[..i])
    ensures NoRepeats(members[..i + 1])
            && RoleRows(project, role, members[..i + 1]) == RoleRows(project, role, members[..i])
  {
    hide Blank, Kept;
    KeptOneMore(members, i);
  }

  /** Once the role is cleared, a row is there exactly when its member has been kept. */
  lemma RowIsThereIff(b: Bindings, project: string, role: string, members: seq<string>, member: string)
    ensures BindingKey(project, role, member) in WithoutRole(b, project, role) + RoleRows(project, role, members)
            <==> member in Kept(members)
  {
    hide Kept;
  }

  lemma MemberRepeated(members: seq<string>, i: nat)
    requires i < |members| && !Blank(members[i]) && members[i] in Kept(members[..i])
    ensures !NoRepeats(members)
  {
    hide Blank, Kept;
    KeptOneMore(members, i);
    var before, after := Kept(members[..i]), Kept(members[..i + 1]);
    var j :| 0 <= j < |before| && before[j] == members[i];
    assert after[j] == after[|before|];
    RepeatsStay(members, i + 1);
  }

  lemma MemberAdded(project: string, role: string, members: seq<string>, i: nat)
    requires i < |members| && !Blank(members[i]) && members[i] !in Kept(members[..i]) && NoRepeats(members[..i])
    ensures NoRepeats(members[..i + 1])
    ensures RoleRows(project, role, members[..i + 1])
         == RoleRows(project, role, members[..i])[BindingKey(project, role, members[i]) := RowData(role, members[i])]
  {
    hide Blank, Kept;
    KeptOneMore(members, i);
  }

  lemma SetRoleKeepsValid(b: Bindings, project: string, role: string, members: seq<string>)
    requires Valid(b)
    ensures Valid(SetRole(b, project, role, members).db)
  {
    hide Blank, Kept, NoRepeats;
    KeptAreMembers(members);
  }

  lemma {:induction false} SetRolesKeepsValid(b: Bindings, project: string, bindings: seq<RoleBinding>)
    requires Valid(b)
    ensures Valid(SetRoles(b, project, bindings).db)
  {
    hide Blank, SetRole;
    if bindings != [] {
      SetRolesKeepsValid(b, project, bindings[..|bindings| - 1]);
      var last := bindings[|bindings| - 1];
      SetRoleKeepsValid(SetRoles(b, project, bindings[..|bindings| - 1]).db, project, last.role, last.members);
    }
  }

  lemma SetPolicyKeepsValid(b: Bindings, project: string, body: Document)
    requires Valid(b)
    ensures Valid(SetPolicy(b, project, body).db)
  {
    SetRolesKeepsValid(WithoutProject(b, project), project, Requested(body));
    hide SetRoles, Requested, Blank;
  }

  // ------------------------------------------------- what a policy call leaves

  /** The last binding that names a role decides its members. */
  ghost predicate Grants(bindings: seq<RoleBinding>, role: string, member: string) {
    exists i :: DecidesAt(bindings, i, role) && member in bindings[i].members && !Blank(member)
  }

  ghost predicate DecidesAt(bindings: seq<RoleBinding>, i: int, role: string) {
    0 <= i < |bindings| && bindings[i].role == role && forall j :: i < j < |bindings| ==> bindings[j].role != role
  }

  ghost predicate AllGood(bindings: seq<RoleBinding>) {
    forall x :: x in bindings ==> x.role != "" && NoRepeats(x.members)
  }

  /** `after` holds exactly the granted members of the project, and the other projects of `before`. */
  ghost predicate IsPolicy(before: Bindings, after: Bindings, project: string, bindings: seq<RoleBinding>) {
    forall k :: k in after <==> if k.project == project then Grants(bindings, k.role, k.member) else k in before
  }

  lemma GrantsStep(bindings: seq<RoleBinding>, last: RoleBinding, role: string, member: string)
    ensures Grants(bindings + [last], role, member)
            <==> if last.role == role then member in last.members && !Blank(member) else Grants(bindings, role, member)
  {
    hide Blank;
    var all := bindings + [last];
    if last.role == role {
      assert DecidesAt(all, |bindings|, role);
    } else {
      assert forall i :: DecidesAt(all, i, role) ==> DecidesAt(bindings, i, role) by {
        assert forall j :: 0 <= j < |bindings| ==> all[j] == bindings[j];
      }
      assert forall i :: DecidesAt(bindings, i, role) ==> DecidesAt(all, i, role) && all[i] == bindings[i];
    }
  }

  lemma {:induction false} SetRolesIsExact(b: Bindings, project: string, bindings: seq<RoleBinding>)
    requires forall k :: k in b ==> k.project != project
    ensures var out := SetRoles(b, project, bindings);
            && (out.result.Ok? <==> AllGood(bindings))
            && (out.result.Ok? ==> IsPolicy(b, out.db, project, bindings))
  {
    hide Blank, NoRepeats, SetRole, Grants;
    if bindings == [] {
      forall r, m ensures !Grants(bindings, r, m) { NothingGranted(r, m); }
    } else {
      var front, last := bindings[..|bindings| - 1], bindings[|bindings| - 1];
      assert bindings == front + [last];
      SetRolesIsExact(b, project, front);
      var before := SetRoles(b, project, front);
      assert AllGood(bindings) <==> AllGood(front) && last.role != "" && NoRepeats(last.members);
      SetRoleIsExact(before.db, project, last);
      if AllGood(bindings) {
        var out := SetRoles(b, project, bindings);
        forall k ensures k in out.db <==> if k.project == project then Grants(bindings, k.role, k.member) else k in b {
          GrantsStep(front, last, k.role, k.member);
        }
      }
    }
  }

  lemma NothingGranted(role: string, member: string)
    ensures !Grants([], role, member)
  {
  }

  lemma SetRoleIsExact(b: Bindings, project: string, binding: RoleBinding)
    ensures var out := SetRole(b, project, binding.role, binding.members);
            && (out.result.Ok? <==> binding.role != "" && NoRepeats(binding.members))
            && (out.result.Ok? ==> forall k :: k in out.db <==>
                  if k.project == project && k.role == binding.role
                  then k.member in binding.members && !Blank(k.member) else k in b)
  {
    hide Blank, Kept, NoRepeats;
    KeptAreMembers(binding.members);
  }

  lemma {:induction false} RoleBindingsHaveRoles(items: seq<Json>)
    ensures forall x :: x in RoleBindings(items) ==> x.role != ""
  {
    hide Items, Members;
    if items != [] {
      RoleBindingsHaveRoles(items[..|items| - 1]);
    }
  }

  /** A policy call succeeds exactly when no binding repeats a non-blank member; the project then holds,
      for each role, the non-blank members of the last binding naming it, and no other project changes. */
  lemma SetPolicyIsExact(b: Bindings, project: string, body: Document)
    ensures var out, bindings := SetPolicy(b, project, body), Requested(body);
            && (out.result.Ok? <==> HasPolicy(body) && forall x :: x in bindings ==> NoRepeats(x.members))
            && (out.result.Ok? ==> IsPolicy(b, out.db, project, bindings))
  {
    hide NoRepeats, SetRoles, Grants, Items, RoleBindings;
    SetRolesIsExact(WithoutProject(b, project), project, Requested(body));
    if HasPolicy(body) {
      RoleBindingsHaveRoles(Items(body[FPolicy].fields, FBindings));
    }
  }

  ghost predicate FirstBad(bindings: seq<RoleBinding>, bad: nat) {
    bad < |bindings| && AllGood(bindings[..bad]) && !AllGood([bindings[bad]])
  }

  /** A failing call is not atomic: it stops at the first bad binding and leaves the policy of the ones
      before it. So it changes nothing exactly when those already describe the stored policy. */
  lemma {:induction false} FailedPolicyIsItsGoodPrefix(b: Bindings, project: string, bindings: seq<RoleBinding>,
                                                       bad: nat)
    requires forall k :: k in b ==> k.project != project
    requires FirstBad(bindings, bad)
    ensures SetRoles(b, project, bindings).result.Err?
    ensures IsPolicy(b, SetRoles(b, project, bindings).db, project, bindings[..bad])
    decreases |bindings|
  {
    hide Blank, NoRepeats, Grants;
    var front, last := bindings[..|bindings| - 1], bindings[|bindings| - 1];
    assert last in [last];
    SetRolesIsExact(b, project, front);
    if bad < |bindings| - 1 {
      assert front[..bad] == bindings[..bad] && front[bad] == bindings[bad];
      FailedPolicyIsItsGoodPrefix(b, project, front, bad);
    } else {
      assert front == bindings[..bad];
      SetRoleIsExact(SetRoles(b, project, front).db, project, last);
    }
  }

  lemma {:induction false} SomeBindingIsTheFirstBad(bindings: seq<RoleBinding>)
    requires !AllGood(bindings)
    ensures exists bad: nat :: FirstBad(bindings, bad)
  {
    hide NoRepeats;
    var n := |bindings| - 1;
    var front := bindings[..n];
    assert bindings == front + [bindings[n]];
    if AllGood(front) {
      assert FirstBad(bindings, n);
    } else {
      SomeBindingIsTheFirstBad(front);
      var bad: nat :| FirstBad(front, bad);
      assert front[..bad] == bindings[..bad] && front[bad] == bindings[bad];
      assert FirstBad(bindings, bad);
    }
  }

  /** Every failing call has a first bad binding, and leaves the store as it was exactly when the good
      bindings before it already describe the project. */
  lemma FailedPolicyChangesNothingIff(b: Bindings, project: string, body: Document)
    requires Valid(b) && HasPolicy(body) && SetPolicy(b, project, body).result.Err?
    ensures exists bad: nat :: FirstBad(Requested(body), bad)
    ensures forall bad: nat :: FirstBad(Requested(body), bad) ==>
              (SetPolicy(b, project, body).db == b
               <==> forall k: BindingKey :: k.project == project ==>
                    (k in b <==> Grants(Requested(body)[..bad], k.role, k.member)))
  {
    hide Blank, NoRepeats, Grants, SetRoles, Requested, AllGood;
    var bindings, cleared := Requested(body), WithoutProject(b, project);
    SetRolesIsExact(cleared, project, bindings);
    SomeBindingIsTheFirstBad(bindings);
    forall bad: nat | FirstBad(bindings, bad)
      ensures SetPolicy(b, project, body).db == b
              <==> forall k: BindingKey :: k.project == project ==>
                   (k in b <==> Grants(bindings[..bad], k.role, k.member))
    {
      GoodPrefixDescribesIff(b, project, body, bad);
    }
  }

  lemma GoodPrefixDescribesIff(b: Bindings, project: string, body: Document, bad: nat)
    requires Valid(b) && HasPolicy(body) && FirstBad(Requested(body), bad)
    ensures SetPolicy(b, project, body).db == b
            <==> forall k: BindingKey :: k.project == project ==>
                 (k in b <==> Grants(Requested(body)[..bad], k.role, k.member))
  {
    hide Blank, NoRepeats, Grants, SetRoles, Requested, AllGood;
    var bindings, cleared := Requested(body), WithoutProject(b, project);
    FailedPolicyIsItsGoodPrefix(cleared, project, bindings, bad);
    SetPolicyKeepsValid(b, project, body);
    var after := SetPolicy(b, project, body).db;
    assert after.Keys == b.Keys ==> after == b;
    assert forall k :: k in after <==>
      if k.project == project then Grants(bindings[..bad], k.role, k.member) else k in b;
  }

  /** A request whose only binding names one member twice. */
  function RepeatingRequest(role: string, member: string): Document {
    map[FPolicy :=
      Obj(map[FBindings := Arr([Obj(map[FRole := Str(role), FMembers := Arr([Str(member), Str(member)])])])])]
  }

  /** A project with one grant loses it to such a request. */
  lemma FailedPolicyCanLoseGrants(project: string, role: string, member: string, role': string)
    requires role != "" && role' != "" && !Blank(member)
    ensures var b: Bindings := map[BindingKey(project, role, member) := RowData(role, member)];
            var out := SetPolicy(b, project, RepeatingRequest(role', member));
            Valid(b) && out.result == Err(AlreadyExists) && out.db == map[]
  {
    assert Blank("");
    hide Blank;
    RepeatingRequestParsed(role', member);
    RepeatedMember(member);
    var b: Bindings := map[BindingKey(project, role, member) := RowData(role, member)];
    var bindings := [RoleBinding(role', [member, member])];
    hide Requested, NoRepeats, RepeatingRequest, HasPolicy;
    assert WithoutProject(b, project) == map[];
    assert bindings[..0] == [];
    assert SetRoles(map[], project, []) == Outcome(map[], Ok(map[]));
  }

  lemma RepeatedMember(member: string)
    requires !Blank(member)
    ensures !NoRepeats([member, member])
  {
    hide Blank;
    assert [member, member][..1] == [member] && [member][..0] == [];
    assert Kept([member]) == [member];
    assert Kept([member, member]) == [member, member];
  }

  lemma RepeatingRequestParsed(role: string, member: string)
    requires role != "" && member != ""
    ensures HasPolicy(RepeatingRequest(role, member))
    ensures Requested(RepeatingRequest(role, member)) == [RoleBinding(role, [member, member])]
  {
    var raw := [Str(member), Str(member)];
    assert raw[..1] == [Str(member)] && [Str(member)][..0] == [];
    assert Members([Str(member)]) == [member];
    assert Members(raw) == [member, member];
    var item := Obj(map[FRole := Str(role), FMembers := Arr(raw)]);
    assert [item][..0] == [];
    assert RoleBindings([item]) == [RoleBinding(role, [member, member])];
  }

  // ------------------------------------------- a policy, read off the request

  /** The strings of a list but for empty ones, each as often as it is there. */
  lemma {:induction false} MembersAreTheStrings(raw: seq<Json>, s: string)
    ensures multiset(Members(raw))[s] == if s == "" then 0 else multiset(raw)[Str(s)]
  {
    if raw != [] {
      var n := |raw| - 1;
      var front, last := raw[..n], raw[n];
      MembersAreTheStrings(front, s);
      assert raw == front + [last];
      var more := if last.Str? && last.s != "" then [last.s] else [];
      assert Members(raw) == Members(front) + more;
      OneMoreString(last, s);
      hide Members;
    }
  }

  lemma OneMoreString(item: Json, s: string)
    ensures var more := if item.Str? && item.s != "" then [item.s] else [];
            multiset(more)[s] == if s == "" then 0 else multiset([item])[Str(s)]
  {
  }

  lemma {:induction false} KeptOften(members: seq<string>, m: string)
    ensures multiset(Kept(members))[m] == if Blank(m) then 0 else multiset(members)[m]
  {
    hide Blank;
    if members != [] {
      var n := |members| - 1;
      KeptOften(members[..n], m);
      assert members == members[..n] + [members[n]];
      assert multiset(members) == multiset(members[..n]) + multiset{members[n]};
      var more := if Blank(members[n]) then [] else [members[n]];
      assert multiset(Kept(members)) == multiset(Kept(members[..n])) + multiset(more);
    }
  }

  lemma {:induction false} DistinctIff(s: seq<string>)
    ensures Distinct(s) <==> forall x :: multiset(s)[x] <= 1
  {
    if s != [] {
      var n := |s| - 1;
      DistinctIff(s[..n]);
      assert s == s[..n] + [s[n]];
      assert multiset(s) == multiset(s[..n]) + multiset{s[n]};
      if s[n] in s[..n] {
        assert multiset(s[..n])[s[n]] >= 1 && multiset(s)[s[n]] >= 2;
        var i :| 0 <= i < n && s[..n][i] == s[n];
        assert s[i] == s[n];
      } else {
        assert multiset(s[..n])[s[n]] == 0;
        assert forall x :: multiset(s)[x] == multiset(s[..n])[x] + if x == s[n] then 1 else 0;
        assert Distinct(s) <==> Distinct(s[..n]) by {
          assert forall i :: 0 <= i < n ==> s[i] in s[..n];
          assert forall i, j :: 0 <= i < j < n ==> s[..n][i] == s[i] && s[..n][j] == s[j];
        }
      }
    }
  }

  /** A string under the members of a binding. */
  predicate HasMember(binding: Document, member: string) {
    FMembers in binding && binding[FMembers].Arr? && Str(member) in binding[FMembers].items
  }

  function MemberList(binding: Document): multiset<Json> {
    if FMembers in binding && binding[FMembers].Arr? then multiset(binding[FMembers].items) else multiset{}
  }

  /** No member that is more than white space is there twice. */
  ghost predicate NoDoubles(binding: Document) {
    forall m: string :: !Blank(m) ==> MemberList(binding)[Str(m)] <= 1
  }

  lemma NoRepeatsIff(binding: Document)
    ensures NoRepeats(Members(Items(binding, FMembers))) <==> NoDoubles(binding)
  {
    var raw := Items(binding, FMembers);
    var members := Members(raw);
    assert MemberList(binding) == multiset(raw);
    DistinctIff(Kept(members));
    forall m: string ensures multiset(Kept(members))[m] == if Blank(m) then 0 else MemberList(binding)[Str(m)] {
      KeptOften(members, m);
      MembersAreTheStrings(raw, m);
      BlankIff(m);
    }
    hide Blank, Kept, Members, Items, Distinct, MemberList;
  }

  lemma HasMemberIff(binding: Document, member: string)
    requires member != ""
    ensures member in Members(Items(binding, FMembers)) <==> HasMember(binding, member)
  {
    MembersAreTheStrings(Items(binding, FMembers), member);
    hide Members;
  }

  predicate Naming(items: seq<Json>, i: int, role: string) {
    0 <= i < |items| && items[i].Obj? && Says(items[i].fields, FRole, role)
  }

  /** The last object of the list with the role decides: its members are granted, blank ones apart. */
  ghost predicate GrantedBy(items: seq<Json>, role: string, member: string) {
    exists i :: LastNaming(items, i, role) && HasMember(items[i].fields, member) && !Blank(member)
  }

  ghost predicate LastNaming(items: seq<Json>, i: int, role: string) {
    Naming(items, i, role) && forall j :: i < j < |items| ==> !Naming(items, j, role)
  }

  /** Every object of the list that names a role is free of doubles. */
  ghost predicate AllFree(items: seq<Json>) {
    forall i, role :: Naming(items, i, role) && role != "" ==> NoDoubles(items[i].fields)
  }

  lemma GrantedByStep(items: seq<Json>, role: string, member: string)
    requires items != []
    ensures var n := |items| - 1;
            GrantedBy(items, role, member) <==>
              if Naming(items, n, role) then HasMember(items[n].fields, member) && !Blank(member)
              else GrantedBy(items[..n], role, member)
  {
    hide Blank, HasMember;
    var n := |items| - 1;
    assert forall j :: 0 <= j < n ==> (Naming(items, j, role) <==> Naming(items[..n], j, role));
    if Naming(items, n, role) {
      assert LastNaming(items, n, role);
    } else {
      assert forall i :: LastNaming(items, i, role) <==> LastNaming(items[..n], i, role);
    }
  }

  lemma {:induction false} GrantsReadTheRequest(items: seq<Json>, role: string, member: string)
    requires role != ""
    ensures Grants(RoleBindings(items), role, member) <==> GrantedBy(items, role, member)
  {
    hide Blank, Items, Members, HasMember, Grants, GrantedBy;
    if items == [] {
      NothingGranted(role, member);
      assert !GrantedBy(items, role, member) by { NothingGrantedBy(role, member); }
    } else {
      var n := |items| - 1;
      GrantsReadTheRequest(items[..n], role, member);
      GrantedByStep(items, role, member);
      if items[n].Obj? && GetString(items[n].fields, FRole) != "" {
        var binding := items[n].fields;
        var last := RoleBinding(GetString(binding, FRole), Members(Items(binding, FMembers)));
        GrantsStep(RoleBindings(items[..n]), last, role, member);
        if !Blank(member) { NotBlankIsNotEmpty(member); HasMemberIff(binding, member); }
      } else {
        assert RoleBindings(items) == RoleBindings(items[..n]);
      }
    }
  }

  lemma NothingGrantedBy(role: string, member: string)
    ensures !GrantedBy([], role, member)
  {
  }

  lemma NotBlankIsNotEmpty(s: string)
    ensures !Blank(s) ==> s != ""
  {
  }

  lemma {:induction false} AllFreeIff(items: seq<Json>)
    ensures (forall x :: x in RoleBindings(items) ==> NoRepeats(x.members)) <==> AllFree(items)
  {
    hide NoRepeats, NoDoubles, Items, Members;
    if items != [] {
      var n := |items| - 1;
      AllFreeIff(items[..n]);
      assert forall i, role :: 0 <= i < n ==> (Naming(items, i, role) <==> Naming(items[..n], i, role));
      if items[n].Obj? && GetString(items[n].fields, FRole) != "" {
        var binding := items[n].fields;
        NoRepeatsIff(binding);
        assert Naming(items, n, GetString(binding, FRole));
        var last := RoleBinding(GetString(binding, FRole), Members(Items(binding, FMembers)));
        assert RoleBindings(items) == RoleBindings(items[..n]) + [last];
        assert last in RoleBindings(items);
      } else {
        assert RoleBindings(items) == RoleBindings(items[..n]);
      }
    }
  }

  /** The list under `policy.bindings`, when there is a policy. */
  predicate Asks(body: Document, items: seq<Json>) {
    HasPolicy(body) ==> Lists(body[FPolicy].fields, FBindings, items)
  }

  /** A policy call, from what is under `policy.bindings`: without a policy it is a bad request; it succeeds
      when no object that names a role holds a member twice; the project then holds, for each role, the
      members of the last object naming it, and every other project is as it was. */
  lemma SetPolicyReadsTheRequest(b: Bindings, project: string, body: Document, items: seq<Json>)
    requires Asks(body, items)
    ensures var out, given := SetPolicy(b, project, body), FPolicy in body && body[FPolicy].Obj?;
            && (out.result.Ok? <==> given && AllFree(items))
            && (!given ==> out == Outcome(b, Err(BadRequest)))
            && (given && out.result.Err? ==> out.result == Err(AlreadyExists))
            && (out.result.Ok? ==>
                (forall k :: k in out.db <==>
                   if k.project == project then k.role != "" && GrantedBy(items, k.role, k.member) else k in b))
  {
    SetPolicyIsExact(b, project, body);
    if HasPolicy(body) {
      assert Items(body[FPolicy].fields, FBindings) == items;
      AllFreeIff(items);
      RoleBindingsHaveRoles(items);
      RefusedForDoubles(WithoutProject(b, project), project, RoleBindings(items));
      forall k: BindingKey
        ensures Grants(Requested(body), k.role, k.member) <==> k.role != "" && GrantedBy(items, k.role, k.member)
      {
        if k.role != "" {
          GrantsReadTheRequest(items, k.role, k.member);
        } else {
          NothingWithoutRole(RoleBindings(items), k.member);
        }
      }
    }
    hide SetRoles, RoleBindings, Grants, GrantedBy, AllFree, NoRepeats, Lists, Items, WithoutProject;
  }

  lemma {:induction false} RefusedForDoubles(b: Bindings, project: string, bindings: seq<RoleBinding>)
    requires forall x :: x in bindings ==> x.role != ""
    ensures SetRoles(b, project, bindings).result.Err? ==> SetRoles(b, project, bindings).result == Err(AlreadyExists)
  {
    hide NoRepeats, WithoutRole, RoleRows;
    if bindings != [] {
      RefusedForDoubles(b, project, bindings[..|bindings| - 1]);
      assert bindings[|bindings| - 1] in bindings;
    }
  }

  lemma NothingWithoutRole(bindings: seq<RoleBinding>, member: string)
    requires forall x :: x in bindings ==> x.role != ""
    ensures !Grants(bindings, "", member)
  {
    hide Blank;
  }

  /** A stored row says its role and its member, and nothing else. */
  lemma StoredRowsSayTheirs(b: Bindings, k: BindingKey)
    requires Valid(b) && k in b
    ensures b[k] == map[FRole := Str(k.role), FMember := Str(k.member)]
  {
    hide Blank;
  }
}
