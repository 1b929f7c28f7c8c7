/** Reading a project's policy: the binding rows in (role, member) order, grouped by role. */
module PolicyView {
  import opened Dns
  import Json
  import opened IamPolicy

  datatype Pair = Pair(role: string, member: string)

  // ----------------------------------------------------------------- ordering

  predicate TextLess(a: string, b: string) {
    if b == "" then false
    else if a == "" then true
    else if a[0] != b[0] then a[0] < b[0]
    else TextLess(a[1..], b[1..])
  }

  lemma {:induction false} TextLessIsTotal(a: string, b: string)
    ensures !(TextLess(a, b) && TextLess(b, a))
    ensures a == b || TextLess(a, b) || TextLess(b, a)
    decreases |a|
  {
    if a != "" && b != "" && a[0] == b[0] {
      TextLessIsTotal(a[1..], b[1..]);
      assert a == [a[0]] + a[1..] && b == [b[0]] + b[1..];
    }
  }

  lemma {:induction false} TextLessIsTransitive(a: string, b: string, c: string)
    requires TextLess(a, b) && TextLess(b, c)
    ensures TextLess(a, c)
    decreases |a|
  {
    if a != "" && a[0] == b[0] == c[0] {
      TextLessIsTransitive(a[1..], b[1..], c[1..]);
    }
  }

  /** ORDER BY role, member. */
  predicate PairLess(a: Pair, b: Pair) {
    TextLess(a.role, b.role) || (a.role == b.role && TextLess(a.member, b.member))
  }

  lemma PairLessIsTotal(a: Pair, b: Pair)
    ensures a == b || PairLess(a, b) || PairLess(b, a)
    ensures !PairLess(a, a)
  {
    hide TextLess;
    TextLessIsTotal(a.role, b.role);
    TextLessIsTotal(a.member, b.member);
    TextLessIsTotal(a.role, a.role);
    TextLessIsTotal(a.member, a.member);
  }

  lemma PairLessIsTransitive(a: Pair, b: Pair, c: Pair)
    requires PairLess(a, b) && PairLess(b, c)
    ensures PairLess(a, c)
  {
    hide TextLess;
    if TextLess(a.role, b.role) && TextLess(b.role, c.role) { TextLessIsTransitive(a.role, b.role, c.role); }
    if TextLess(a.member, b.member) && TextLess(b.member, c.member) {
      TextLessIsTransitive(a.member, b.member, c.member);
    }
  }

  predicate Sorted(items: seq<Pair>) {
    forall i, j :: 0 <= i < j < |items| ==> PairLess(items[i], items[j])
  }

  ghost predicate ListsProject(items: seq<Pair>, b: Bindings, project: string) {
    Sorted(items) && forall p :: p in items <==> BindingKey(project, p.role, p.member) in b
  }

  method InsertSorted(items: seq<Pair>, x: Pair) returns (out: seq<Pair>)
    requires Sorted(items) && x !in items
    ensures Sorted(out) && forall p :: p in out <==> p in items || p == x
  {
    hide PairLess;
    var i := 0;
    while i < |items| && PairLess(items[i], x)
      invariant 0 <= i <= |items|
      invariant forall k :: 0 <= k < i ==> PairLess(items[k], x)
    {
      i := i + 1;
    }
    out := items[..i] + [x] + items[i..];
    if i < |items| {
      PairLessIsTotal(items[i], x);
      assert items[i] in items;
      forall k | i < k < |items| ensures PairLess(x, items[k]) {
        PairLessIsTransitive(x, items[i], items[k]);
      }
    }
    assert items == items[..i] + items[i..];
  }

  /** The rows of one project in (role, member) order. */
  method ListBindings(b: Bindings, project: string) returns (items: seq<Pair>)
    ensures ListsProject(items, b, project)
  {
    items := [];
    var todo := set k | k in b && k.project == project;
    while todo != {}
      invariant forall k :: k in todo ==> k in b && k.project == project
      invariant Sorted(items)
      invariant forall p :: p in items <==>
                BindingKey(project, p.role, p.member) in b && BindingKey(project, p.role, p.member) !in todo
      decreases todo
    {
      var k :| k in todo;
      todo := todo - {k};
      items := InsertSorted(items, Pair(k.role, k.member));
    }
  }

  // ----------------------------------------------------------------- grouping

  function Pairs(group: RoleBinding): seq<Pair> {
    seq(|group.members|, i requires 0 <= i < |group.members| => Pair(group.role, group.members[i]))
  }

  function Flatten(groups: seq<RoleBinding>): seq<Pair> {
    if groups == [] then []
    else Flatten(groups[..|groups| - 1]) + Pairs(groups[|groups| - 1])
  }

  predicate Grouping(groups: seq<RoleBinding>) {
    && (forall i, j :: 0 <= i < j < |groups| ==> groups[i].role != groups[j].role)
    && (forall g :: g in groups ==> g.members != [])
  }

  lemma {:induction false} FlattenMembers(groups: seq<RoleBinding>, p: Pair)
    ensures p in Flatten(groups) <==> exists g :: g in groups && g.role == p.role && p.member in g.members
  {
    if groups != [] {
      var front, last := groups[..|groups| - 1], groups[|groups| - 1];
      FlattenMembers(front, p);
      assert groups == front + [last];
      assert p in Pairs(last) <==> last.role == p.role && p.member in last.members by {
        if last.role == p.role && p.member in last.members {
          var i :| 0 <= i < |last.members| && last.members[i] == p.member;
          assert Pairs(last)[i] == p;
        }
      }
    }
  }

  /** Setting a policy and reading it back: the groups show exactly what the request granted. */
  lemma PolicyReadsBack(b: Bindings, project: string, body: Json.Document, groups: seq<RoleBinding>, role: string,
                        member: string)
    requires SetPolicy(b, project, body).result.Ok?
    requires Grouping(groups) && ListsProject(Flatten(groups), SetPolicy(b, project, body).db, project)
    ensures Grants(Requested(body), role, member) <==> exists g :: g in groups && g.role == role && member in g.members
  {
    hide SetPolicy, Requested, Grants, Flatten, Sorted;
    SetPolicyIsExact(b, project, body);
    FlattenMembers(groups, Pair(role, member));
    var k := BindingKey(project, role, member);
    assert k in SetPolicy(b, project, body).db <==> Grants(Requested(body), k.role, k.member);
  }

  predicate Shows(groups: seq<RoleBinding>, role: string, member: string) {
    exists g :: g in groups && g.role == role && member in g.members
  }

  /** The groups of a project show its rows and nothing else. */
  lemma GroupsShowTheRows(groups: seq<RoleBinding>, b: Bindings, project: string, role: string, member: string)
    requires ListsProject(Flatten(groups), b, project)
    ensures Shows(groups, role, member) <==> BindingKey(project, role, member) in b
  {
    hide Flatten, Sorted;
    FlattenMembers(groups, Pair(role, member));
    assert Pair(role, member) in Flatten(groups) <==> BindingKey(project, role, member) in b;
  }

  /** A row that is shown is shown in the group of its role. */
  lemma ShownRoleHasGroup(groups: seq<RoleBinding>, p: Pair)
    requires p in Flatten(groups)
    ensures exists g :: g in groups && g.role == p.role
  {
    hide Flatten;
    FlattenMembers(groups, p);
  }

  /** A group stands for at least one row. */
  lemma GroupRoleIsShown(groups: seq<RoleBinding>, g: RoleBinding)
    requires g in groups && Grouping(groups)
    ensures exists m :: Pair(g.role, m) in Flatten(groups)
  {
    hide Flatten;
    assert g.members != [];
    FlattenMembers(groups, Pair(g.role, g.members[0]));
    assert Pair(g.role, g.members[0]) in Flatten(groups);
  }

  /** The groups as the loop holds them: the roles met so far, each with its members so far. */
  function GroupsOf(roles: seq<string>, byRole: map<string, seq<string>>): seq<RoleBinding>
    requires forall r :: r in roles ==> r in byRole
  {
    seq(|roles|, i requires 0 <= i < |roles| => RoleBinding(roles[i], byRole[roles[i]]))
  }

  /** In a sorted list the rows of a role are adjacent: a role met before is the role of the last row. */
  lemma RolesAreAdjacent(items: seq<Pair>, i: int, k: int)
    requires Sorted(items) && 0 <= k < i < |items| && items[k].role == items[i].role
    ensures items[i - 1].role == items[i].role
  {
    hide TextLess;
    if k < i - 1 {
      assert PairLess(items[k], items[i - 1]) && PairLess(items[i - 1], items[i]);
      TextLessIsTotal(items[k].role, items[i - 1].role);
    }
  }

  lemma FlattenGrowsLast(front: seq<RoleBinding>, role: string, members: seq<string>, member: string)
    ensures Flatten(front + [RoleBinding(role, members + [member])])
         == Flatten(front + [RoleBinding(role, members)]) + [Pair(role, member)]
  {
    var short, long := RoleBinding(role, members), RoleBinding(role, members + [member]);
    assert (front + [short])[..|front|] == front && (front + [long])[..|front|] == front;
    assert Pairs(long) == Pairs(short) + [Pair(role, member)];
  }

  lemma FlattenOneMore(front: seq<RoleBinding>, role: string, member: string)
    ensures Flatten(front + [RoleBinding(role, [member])]) == Flatten(front) + [Pair(role, member)]
  {
    assert (front + [RoleBinding(role, [member])])[..|front|] == front;
    assert Pairs(RoleBinding(role, [member])) == [Pair(role, member)];
  }

  lemma NewRoleAppends(roles: seq<string>, byRole: map<string, seq<string>>, role: string, member: string)
    requires role !in byRole && forall r :: r in roles ==> r in byRole
    ensures Flatten(GroupsOf(roles + [role], byRole[role := [member]]))
         == Flatten(GroupsOf(roles, byRole)) + [Pair(role, member)]
  {
    var before, after := GroupsOf(roles, byRole), GroupsOf(roles + [role], byRole[role := [member]]);
    assert after == before + [RoleBinding(role, [member])] by {
      assert forall i :: 0 <= i < |roles| ==> roles[i] in roles;
    }
    FlattenOneMore(before, role, member);
  }

  lemma LastRoleAppends(roles: seq<string>, byRole: map<string, seq<string>>, member: string)
    requires roles != [] && (forall r :: r in roles ==> r in byRole) && Distinct(roles)
    ensures var role := roles[|roles| - 1];
            Flatten(GroupsOf(roles, byRole[role := byRole[role] + [member]]))
              == Flatten(GroupsOf(roles, byRole)) + [Pair(role, member)]
  {
    var n := |roles| - 1;
    var role := roles[n];
    var members := byRole[role];
    var before, after := GroupsOf(roles, byRole), GroupsOf(roles, byRole[role := members + [member]]);
    assert before == before[..n] + [RoleBinding(role, members)];
    assert after == before[..n] + [RoleBinding(role, members + [member])];
    FlattenGrowsLast(before[..n], role, members, member);
  }

  predicate Shown(p: Pair) {
    p.role != "" && p.member != ""
  }

  /** The rows the loop does not pass over. */
  function Visible(items: seq<Pair>): seq<Pair> {
    if items == [] then []
    else
      var last := items[|items| - 1];
      Visible(items[..|items| - 1]) + if Shown(last) then [last] else []
  }

  lemma {:induction false} VisibleIsSorted(items: seq<Pair>)
    requires Sorted(items)
    ensures Sorted(Visible(items)) && forall p :: p in Visible(items) <==> p in items && Shown(p)
  {
    hide PairLess, Shown;
    if items != [] {
      var n := |items| - 1;
      VisibleIsSorted(items[..n]);
      assert items == items[..n] + [items[n]];
      assert forall p :: p in items[..n] ==> PairLess(p, items[n]);
      var front := Visible(items[..n]);
      assert forall i :: 0 <= i < |front| ==> front[i] in front;
    }
  }

  lemma {:induction false} AllAreVisible(items: seq<Pair>)
    requires forall p :: p in items ==> Shown(p)
    ensures Visible(items) == items
  {
    hide Shown;
    if items != [] {
      var n := |items| - 1;
      assert items == items[..n] + [items[n]];
      AllAreVisible(items[..n]);
    }
  }

  predicate HasRole(items: seq<Pair>, role: string) {
    exists k :: 0 <= k < |items| && items[k].role == role
  }

  predicate LastHasRole(items: seq<Pair>, role: string) {
    items != [] && items[|items| - 1].role == role
  }

  lemma RolesGrow(items: seq<Pair>, p: Pair)
    ensures forall r :: HasRole(items, r) ==> HasRole(items + [p], r)
    ensures HasRole(items + [p], p.role) && LastHasRole(items + [p], p.role)
  {
    var more := items + [p];
    assert more[|items|] == p && forall k :: 0 <= k < |items| ==> more[k] == items[k];
  }

  /** The role of a new row, when it was shown before, is the role shown last. */
  lemma LastShownRole(items: seq<Pair>, p: Pair)
    requires Sorted(items + [p]) && HasRole(items, p.role)
    ensures forall r :: LastHasRole(items, r) ==> r == p.role
  {
    var more := items + [p];
    var k :| 0 <= k < |items| && items[k].role == p.role;
    assert more[k] == items[k] && more[|items|] == p && more[|items| - 1] == items[|items| - 1];
    RolesAreAdjacent(more, |items|, k);
  }

  lemma VisibleOneMore(items: seq<Pair>, i: nat)
    requires i < |items|
    ensures Visible(items[..i + 1]) == Visible(items[..i]) + if Shown(items[i]) then [items[i]] else []
    ensures Sorted(items) ==> Sorted(Visible(items[..i + 1]))
  {
    assert items[..i + 1][..i] == items[..i];
    if Sorted(items) { VisibleIsSorted(items[..i + 1]); }
  }

  /** What the loop has built from the rows shown so far. */
  ghost predicate InProgress(roles: seq<string>, byRole: map<string, seq<string>>, shown: seq<Pair>) {
    && (forall r :: r in roles ==> r in byRole)
    && (forall r :: r in byRole ==> r in roles && byRole[r] != [] && HasRole(shown, r))
    && (roles != [] ==> LastHasRole(shown, roles[|roles| - 1]))
    && Flatten(GroupsOf(roles, byRole)) == shown
    && Distinct(roles)
  }

  lemma NewRoleInProgress(roles: seq<string>, byRole: map<string, seq<string>>, shown: seq<Pair>, p: Pair)
    requires InProgress(roles, byRole, shown) && p.role !in byRole
    ensures InProgress(roles + [p.role], byRole[p.role := [p.member]], shown + [p])
  {
    hide Flatten, GroupsOf, HasRole, LastHasRole;
    RolesGrow(shown, p);
    NewRoleAppends(roles, byRole, p.role, p.member);
  }

  lemma LastRoleInProgress(roles: seq<string>, byRole: map<string, seq<string>>, shown: seq<Pair>, p: Pair)
    requires InProgress(roles, byRole, shown) && p.role in byRole && Sorted(shown + [p])
    ensures InProgress(roles, byRole[p.role := byRole[p.role] + [p.member]], shown + [p])
  {
    hide Flatten, GroupsOf, HasRole, LastHasRole, Sorted;
    RolesGrow(shown, p);
    LastShownRole(shown, p);
    LastRoleAppends(roles, byRole, p.member);
  }

  lemma NothingInProgress()
    ensures InProgress([], map[], [])
  {
    EmptyFlattens();
  }

  /** Every role appears once, no group is empty, and the groups in order give the list back, rows without
      a role or a member left out. */
  method GroupByRole(items: seq<Pair>) returns (groups: seq<RoleBinding>)
    requires Sorted(items)
    ensures Grouping(groups) && Flatten(groups) == Visible(items)
  {
    var byRole: map<string, seq<string>> := map[];
    var roles: seq<string> := [];
    NothingInProgress();
    assert Visible(items[..0]) == [];
    hide Flatten, Sorted, Grouping, GroupsOf, InProgress, Visible;
    for i := 0 to |items|
      invariant InProgress(roles, byRole, Visible(items[..i]))
    {
      var role, member := items[i].role, items[i].member;
      ghost var shown := Visible(items[..i]);
      VisibleOneMore(items, i);
      if role == "" || member == "" {
        assert Visible(items[..i + 1]) == shown;
        continue;
      }
      assert Visible(items[..i + 1]) == shown + [Pair(role, member)];
      if role !in byRole {
        NewRoleInProgress(roles, byRole, shown, Pair(role, member));
        roles := roles + [role];
        byRole := byRole[role := [member]];
      } else {
        LastRoleInProgress(roles, byRole, shown, Pair(role, member));
        byRole := byRole[role := byRole[role] + [member]];
      }
    }
    assert items[..|items|] == items;
    ProgressIsGrouped(roles, byRole, Visible(items));
    groups := ListGroups(roles, byRole);
  }

  lemma ProgressIsGrouped(roles: seq<string>, byRole: map<string, seq<string>>, shown: seq<Pair>)
    requires InProgress(roles, byRole, shown)
    ensures forall r :: r in roles ==> r in byRole
    ensures Grouping(GroupsOf(roles, byRole)) && Flatten(GroupsOf(roles, byRole)) == shown
  {
    GroupsAreGrouped(roles, byRole);
  }

  lemma GroupsAreGrouped(roles: seq<string>, byRole: map<string, seq<string>>)
    requires Distinct(roles) && (forall r :: r in roles ==> r in byRole) && forall r :: r in byRole ==> byRole[r] != []
    ensures Grouping(GroupsOf(roles, byRole))
  {
    assert forall i :: 0 <= i < |roles| ==> roles[i] in roles;
  }

  method ListGroups(roles: seq<string>, byRole: map<string, seq<string>>) returns (groups: seq<RoleBinding>)
    requires forall r :: r in roles ==> r in byRole
    ensures groups == GroupsOf(roles, byRole)
  {
    groups := [];
    for i := 0 to |roles|
      invariant groups == GroupsOf(roles, byRole)[..i]
    {
      groups := groups + [RoleBinding(roles[i], byRole[roles[i]])];
    }
  }

  lemma EmptyFlattens()
    ensures Flatten(GroupsOf([], map[])) == []
  {
  }

  /** The contract of GroupByRole leaves no choice: a list has at most one grouping. */
  lemma {:induction false} GroupingIsUnique(a: seq<RoleBinding>, b: seq<RoleBinding>)
    requires Grouping(a) && Grouping(b) && Flatten(a) == Flatten(b)
    ensures a == b
    decreases |Flatten(a)|
  {
    if a == [] || b == [] {
      if a != [] { LastOfFlatten(a); }
      if b != [] { LastOfFlatten(b); }
    } else {
      LastOfFlatten(a);
      LastOfFlatten(b);
      GroupingIsUnique(Stripped(a), Stripped(b));
      StrippedPutsBack(a, b);
    }
  }

  function Stripped(groups: seq<RoleBinding>): seq<RoleBinding>
    requires groups != [] && groups[|groups| - 1].members != []
  {
    var last := groups[|groups| - 1];
    groups[..|groups| - 1]
      + if |last.members| == 1 then [] else [RoleBinding(last.role, last.members[..|last.members| - 1])]
  }

  lemma LastOfFlatten(groups: seq<RoleBinding>)
    requires groups != [] && Grouping(groups)
    ensures groups[|groups| - 1].members != []
    ensures var last, flat := groups[|groups| - 1], Flatten(groups);
            && flat != [] && flat[|flat| - 1] == Pair(last.role, last.members[|last.members| - 1])
            && Grouping(Stripped(groups)) && Flatten(Stripped(groups)) == flat[..|flat| - 1]
  {
    hide Flatten;
    var last, front := groups[|groups| - 1], groups[..|groups| - 1];
    assert last in groups;
    assert forall g :: g in front ==> g in groups;
    var n := |last.members| - 1;
    assert last.members == last.members[..n] + [last.members[n]];
    assert groups == front + [last];
    if n == 0 {
      assert last == RoleBinding(last.role, [last.members[0]]);
      assert Stripped(groups) == front;
      FlattenOneMore(front, last.role, last.members[0]);
    } else {
      assert Stripped(groups) == front + [RoleBinding(last.role, last.members[..n])];
      FlattenGrowsLast(front, last.role, last.members[..n], last.members[n]);
    }
  }

  /** The last group of a stripped grouping has another role exactly when the stripped group is used up. */
  lemma StrippedPutsBack(a: seq<RoleBinding>, b: seq<RoleBinding>)
    requires a != [] && b != [] && Grouping(a) && Grouping(b)
    requires a[|a| - 1].members != [] && b[|b| - 1].members != []
    requires Stripped(a) == Stripped(b)
    requires var x, y := a[|a| - 1], b[|b| - 1];
             x.role == y.role && x.members[|x.members| - 1] == y.members[|y.members| - 1]
    ensures a == b
  {
    var role := a[|a| - 1].role;
    StrippedEndsInRoleIff(a);
    StrippedEndsInRoleIff(b);
    RebuiltFromStripped(a);
    RebuiltFromStripped(b);
  }

  predicate EndsInRole(groups: seq<RoleBinding>, role: string) {
    groups != [] && groups[|groups| - 1].role == role
  }

  lemma StrippedEndsInRoleIff(groups: seq<RoleBinding>)
    requires groups != [] && Grouping(groups) && groups[|groups| - 1].members != []
    ensures EndsInRole(Stripped(groups), groups[|groups| - 1].role) <==> |groups[|groups| - 1].members| > 1
  {
  }

  function Rebuilt(stripped: seq<RoleBinding>, role: string, member: string): seq<RoleBinding> {
    if EndsInRole(stripped, role)
    then stripped[..|stripped| - 1] + [RoleBinding(role, stripped[|stripped| - 1].members + [member])]
    else stripped + [RoleBinding(role, [member])]
  }

  lemma RebuiltFromStripped(groups: seq<RoleBinding>)
    requires groups != [] && Grouping(groups) && groups[|groups| - 1].members != []
    ensures var last := groups[|groups| - 1];
            groups == Rebuilt(Stripped(groups), last.role, last.members[|last.members| - 1])
  {
    StrippedEndsInRoleIff(groups);
    var last, front := groups[|groups| - 1], groups[..|groups| - 1];
    var n := |last.members| - 1;
    assert last.members == last.members[..n] + [last.members[n]];
    assert groups == front + [last];
    if n > 0 {
      var shorter := RoleBinding(last.role, last.members[..n]);
      assert Stripped(groups) == front + [shorter];
      assert (front + [shorter])[..|front|] == front;
    } else {
      assert Stripped(groups) == front;
      assert last == RoleBinding(last.role, [last.members[0]]);
    }
  }
}
