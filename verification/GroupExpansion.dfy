/** Nested group expansion over a group graph that may contain cycles. */
module GroupExpansion {
  import opened Wrappers
  import opened Graphs
  import Text

  datatype Member = Member(value: Option<string>, kind: Option<string>)

  datatype Group = Group(id: string, realmId: string, displayName: string, members: seq<Member>)

  datatype Expanded = Expanded(groupId: string, userIds: set<string>, nestedGroupIds: set<string>)

  predicate IsGroupMember(m: Member) {
    m.kind.Some? && Text.EqIgnoreAsciiCase(m.kind.value, "Group")
  }

  predicate Names(m: Member, g: Group) {
    m.value == Some(g.id) || (IsGroupMember(m) && m.value == Some(g.displayName))
  }

  /** The first group a member names, in list order. */
  function Target(groups: seq<Group>, m: Member): (r: Option<Group>)
    ensures r.Some? ==> r.value in groups && Names(m, r.value)
    ensures r.None? ==> forall g | g in groups :: !Names(m, g)
  {
    if groups == [] then None
    else if Names(m, groups[0]) then Some(groups[0])
    else Target(groups[1..], m)
  }

  predicate UniqueIds(groups: seq<Group>) {
    forall i, j | 0 <= i < j < |groups| :: groups[i].id != groups[j].id
  }

  function Ids(groups: seq<Group>): set<string> {
    set g | g in groups :: g.id
  }

  function ById(groups: seq<Group>, id: string): (g: Group)
    requires id in Ids(groups)
    ensures g in groups && g.id == id
  {
    if groups[0].id == id then groups[0] else ById(groups[1..], id)
  }

  /** The ids of the groups a group's members name. */
  function ChildIds(groups: seq<Group>, g: Group): set<string> {
    set m | m in g.members && m.value.Some? && Target(groups, m).Some? :: Target(groups, m).value.id
  }

  /** The member values of a group that are users: they name no group and are
      not marked as one. */
  function UserValues(groups: seq<Group>, g: Group): set<string> {
    set m | m in g.members && m.value.Some? && Target(groups, m).None? && !IsGroupMember(m) :: m.value.value
  }

  function Edges(groups: seq<Group>): map<string, set<string>> {
    map id | id in Ids(groups) :: ChildIds(groups, ById(groups, id))
  }

  lemma ByIdIsUnique(groups: seq<Group>, g: Group)
    requires UniqueIds(groups) && g in groups
    ensures ById(groups, g.id) == g
    ensures Edges(groups)[g.id] == ChildIds(groups, g)
  {
  }

  // ----- What a member stands for ---------------------------------------

  /** The member's type is `group`, in any ASCII case. */
  predicate MarkedGroup(m: Member) {
    m.kind.Some? && Text.AsciiLower(m.kind.value) == "group"
  }

  /** By id, or by display name for a member marked as a group. */
  predicate Denotes(m: Member, g: Group) {
    m.value.Some? && (g.id == m.value.value || (g.displayName == m.value.value && MarkedGroup(m)))
  }

  lemma MarkedIff(m: Member)
    ensures IsGroupMember(m) <==> MarkedGroup(m)
  {
    assert Text.AsciiLower("Group") == "group";
  }

  lemma {:induction false} TargetIsFirst(groups: seq<Group>, m: Member, i: nat)
    requires i < |groups| && Denotes(m, groups[i]) && forall j | 0 <= j < i :: !Denotes(m, groups[j])
    ensures Target(groups, m) == Some(groups[i])
  {
    MarkedIff(m);
    if i > 0 {
      assert !Denotes(m, groups[0]);
      forall j | 0 <= j < i - 1
        ensures !Denotes(m, groups[1..][j])
      {
        assert !Denotes(m, groups[j + 1]);
      }
      TargetIsFirst(groups[1..], m, i - 1);
    }
  }

  lemma {:induction false} FirstDenoted(groups: seq<Group>, m: Member) returns (i: nat)
    requires exists g :: g in groups && Denotes(m, g)
    ensures i < |groups| && Denotes(m, groups[i]) && forall j | 0 <= j < i :: !Denotes(m, groups[j])
  {
    i := 0;
    if !Denotes(m, groups[0]) {
      var g :| g in groups && Denotes(m, g);
      assert g in groups[1..];
      var k := FirstDenoted(groups[1..], m);
      i := k + 1;
      assert forall j | 1 <= j < i :: groups[j] == groups[1..][j - 1];
    }
  }

  /** A group's children are the first groups its members denote. */
  lemma ChildIdsIff(groups: seq<Group>, g: Group, id: string)
    ensures id in ChildIds(groups, g) <==>
            exists m, i :: m in g.members && 0 <= i < |groups| && groups[i].id == id && Denotes(m, groups[i])
                           && forall j | 0 <= j < i :: !Denotes(m, groups[j])
  {
    if id in ChildIds(groups, g) {
      var m :| m in g.members && m.value.Some? && Target(groups, m).Some? && Target(groups, m).value.id == id;
      MarkedIff(m);
      assert Denotes(m, Target(groups, m).value);
      var i := FirstDenoted(groups, m);
      TargetIsFirst(groups, m, i);
    }
    if m, i :| m in g.members && 0 <= i < |groups| && groups[i].id == id && Denotes(m, groups[i])
               && forall j | 0 <= j < i :: !Denotes(m, groups[j]) {
      TargetIsFirst(groups, m, i);
    }
  }

  /** A group's users are the values that are no group's id, of members not
      marked as groups. */
  lemma UserValuesIff(groups: seq<Group>, g: Group, v: string)
    ensures v in UserValues(groups, g) <==>
            (exists m :: m in g.members && m.value == Some(v) && !MarkedGroup(m)) && v !in Ids(groups)
  {
    forall m
      ensures IsGroupMember(m) <==> MarkedGroup(m)
    {
      MarkedIff(m);
    }
  }

  /** The three sets an expansion fills. */
  datatype Progress = Progress(visited: set<string>, nested: set<string>, users: set<string>)

  predicate Extends(p: Progress, q: Progress) {
    p.visited <= q.visited && p.nested <= q.nested && p.users <= q.users
  }

  /** All that one member contributes is recorded. */
  predicate MemberDone(groups: seq<Group>, p: Progress, m: Member) {
    m.value.Some? ==>
      match Target(groups, m)
      case Some(child) => child.id in p.visited && child.id in p.nested
      case None => IsGroupMember(m) || m.value.value in p.users
  }

  predicate MembersDone(groups: seq<Group>, p: Progress, members: seq<Member>) {
    forall m | m in members :: MemberDone(groups, p, m)
  }

  /** Every group in `ids` is fully recorded. */
  predicate AllDone(groups: seq<Group>, p: Progress, ids: set<string>) {
    forall x | x in ids && x in Ids(groups) :: MembersDone(groups, p, ById(groups, x).members)
  }

  lemma DoneStaysDone(groups: seq<Group>, p: Progress, q: Progress, members: seq<Member>, ids: set<string>)
    requires Extends(p, q)
    ensures MembersDone(groups, p, members) ==> MembersDone(groups, q, members)
    ensures AllDone(groups, p, ids) ==> AllDone(groups, q, ids)
  {
  }

  ghost predicate UserOfSome(groups: seq<Group>, ids: set<string>, u: string) {
    exists x :: x in ids && x in Ids(groups) && u in UserValues(groups, ById(groups, x))
  }

  /** What an expansion from `root` may add to `p`. */
  ghost predicate Grown(groups: seq<Group>, root: string, p: Progress, q: Progress) {
    && Extends(p, q) && q.visited <= Ids(groups)
    && (forall x | x in q.visited - p.visited :: Reaches(Edges(groups), root, x))
    && (forall n | n in q.nested - p.nested :: n in q.visited && Reaches(Edges(groups), root, n))
    && (forall u | u in q.users - p.users :: UserOfSome(groups, q.visited - p.visited, u))
  }

  lemma GrownThroughChild(groups: seq<Group>, root: string, child: string, p: Progress, q: Progress, r: Progress)
    requires Grown(groups, root, p, q) && child in r.visited
    requires Reaches(Edges(groups), root, child)
    requires Grown(groups, child, q.(nested := q.nested + {child}), r)
    ensures Grown(groups, root, p, r)
  {
    var E := Edges(groups);
    forall x | x in r.visited - p.visited ensures Reaches(E, root, x) {
      if x !in q.visited {
        ReachesTransitive(E, root, child, x);
      }
    }
    forall n | n in r.nested - p.nested ensures n in r.visited && Reaches(E, root, n) {
      if n !in q.nested && n != child {
        ReachesTransitive(E, root, child, n);
      }
    }
    forall u | u in r.users - p.users ensures UserOfSome(groups, r.visited - p.visited, u) {
      var added := if u in q.users then q.visited - p.visited else r.visited - q.visited;
      assert UserOfSome(groups, added, u);
    }
  }

  class Expansion {
    const groups: seq<Group>
    var visited: set<string>
    var nested: set<string>
    var users: set<string>

    constructor (groups: seq<Group>)
      ensures this.groups == groups && Now() == Progress({}, {}, {})
    {
      this.groups := groups;
      visited, nested, users := {}, {}, {};
    }

    function Now(): Progress
      reads this
    {
      Progress(visited, nested, users)
    }

    method ExpandGroup(group: Group)
      requires UniqueIds(groups) && group in groups && visited <= Ids(groups)
      modifies this
      ensures Grown(groups, group.id, old(Now()), Now())
      ensures group.id in visited
      ensures AllDone(groups, Now(), visited - old(visited))
      decreases Ids(groups) - visited, 0
    {
      if group.id in visited {
        return;
      }
      ghost var before := Now();
      visited := visited + {group.id};
      ReachesSelf(Edges(groups), group.id);
      ByIdIsUnique(groups, group);
      for i := 0 to |group.members|
        invariant group.id in visited
        invariant Grown(groups, group.id, before, Now())
        invariant MembersDone(groups, Now(), group.members[..i])
        invariant AllDone(groups, Now(), visited - before.visited - {group.id})
      {
        ghost var p := Now();
        assert group.members[..i + 1] == group.members[..i] + [group.members[i]];
        ExpandMember(group, group.members[i], before);
        DoneStaysDone(groups, p, Now(), group.members[..i], {});
      }
      assert group.members[..|group.members|] == group.members;
    }

    /** One member of a group being expanded since `before`. */
    method ExpandMember(ghost group: Group, m: Member, ghost before: Progress)
      requires UniqueIds(groups) && group in groups && m in group.members
      requires group.id in visited && group.id !in before.visited
      requires Grown(groups, group.id, before, Now())
      requires AllDone(groups, Now(), visited - before.visited - {group.id})
      modifies this
      ensures Extends(old(Now()), Now()) && MemberDone(groups, Now(), m)
      ensures Grown(groups, group.id, before, Now())
      ensures AllDone(groups, Now(), visited - before.visited - {group.id})
      decreases Ids(groups) - visited, 1
    {
      ghost var p := Now();
      ghost var added := visited - before.visited - {group.id};
      ByIdIsUnique(groups, group);
      if m.value.Some? {
        var target := Target(groups, m);
        if target.Some? {
          nested := nested + {target.value.id};
          assert target.value.id in Edges(groups)[group.id];
          ReachesSelf(Edges(groups), group.id);
          ReachesNext(Edges(groups), group.id, group.id, target.value.id);
          ExpandGroup(target.value);
          GrownThroughChild(groups, group.id, target.value.id, before, p, Now());
        } else if !IsGroupMember(m) {
          users := users + {m.value.value};
          assert m.value.value in UserValues(groups, group);
          assert UserOfSome(groups, visited - before.visited, m.value.value);
        }
      }
      DoneStaysDone(groups, p, Now(), [], added);
    }
  }

  /** The groups a root reaches, itself included. */
  ghost predicate ReachableGroup(groups: seq<Group>, root: string, id: string) {
    id in Ids(groups) && Reaches(Edges(groups), root, id)
  }

  ghost predicate ReachableUser(groups: seq<Group>, root: string, user: string) {
    exists id :: ReachableGroup(groups, root, id) && user in UserValues(groups, ById(groups, id))
  }

  function InRealm(groups: seq<Group>, realm: string): (r: seq<Group>)
    ensures forall g :: g in r <==> g in groups && g.realmId == realm
    ensures UniqueIds(groups) ==> UniqueIds(r)
  {
    if groups == [] then []
    else
      var rest := InRealm(groups[1..], realm);
      if groups[0].realmId == realm then
        assert UniqueIds(groups) ==> forall i | 0 <= i < |rest| :: rest[i] in groups[1..];
        [groups[0]] + rest
      else rest
  }

  /** `expand_nested_group_members`: exactly the users of every group the root
      reaches, and exactly the groups it reaches other than itself. */
  method ExpandNestedGroupMembers(all: seq<Group>, groupId: string) returns (r: Option<Expanded>)
    requires UniqueIds(all)
    ensures r.None? <==> groupId !in Ids(all)
    ensures r.Some? ==>
              var groups := InRealm(all, ById(all, groupId).realmId);
              && r.value.groupId == groupId
              && (forall u :: u in r.value.userIds <==> ReachableUser(groups, groupId, u))
              && (forall g :: g in r.value.nestedGroupIds <==> g != groupId && ReachableGroup(groups, groupId, g))
  {
    if groupId !in Ids(all) {
      return None;
    }
    var root := ById(all, groupId);
    var groups := InRealm(all, root.realmId);
    var e := new Expansion(groups);
    e.ExpandGroup(root);
    ClosureIsExact(groups, e.Now(), groupId);
    return Some(Expanded(groupId, e.users, e.nested - {groupId}));
  }

  lemma ClosureIsExact(groups: seq<Group>, p: Progress, root: string)
    requires UniqueIds(groups) && root in p.visited
    requires Grown(groups, root, Progress({}, {}, {}), p)
    requires AllDone(groups, p, p.visited)
    ensures forall u :: u in p.users <==> ReachableUser(groups, root, u)
    ensures forall g :: g in p.nested - {root} <==> g != root && ReachableGroup(groups, root, g)
  {
    var E := Edges(groups);
    var none := Progress({}, {}, {});
    assert p.visited - none.visited == p.visited && p.nested - none.nested == p.nested;
    assert p.users - none.users == p.users;
    forall x | x in p.visited && x in E ensures E[x] <= p.visited && E[x] <= p.nested {
      forall c | c in E[x] ensures c in p.visited && c in p.nested {
        var m :| m in ById(groups, x).members && m.value.Some? && Target(groups, m).Some?
                 && Target(groups, m).value.id == c;
        assert MemberDone(groups, p, m);
      }
    }
    forall g | Reaches(E, root, g) ensures g in p.visited && (g != root ==> g in p.nested) {
      ClosedHoldsReachable(E, p.visited, root, g);
      ClosedHoldsReachable(E, p.nested * p.visited + {root}, root, g);
    }
    forall u | ReachableUser(groups, root, u) ensures u in p.users {
      var id :| ReachableGroup(groups, root, id) && u in UserValues(groups, ById(groups, id));
      var m :| m in ById(groups, id).members && m.value == Some(u) && Target(groups, m).None? && !IsGroupMember(m);
      assert MemberDone(groups, p, m);
    }
    forall u | u in p.users ensures ReachableUser(groups, root, u) {
      assert UserOfSome(groups, p.visited, u);
      var x :| x in p.visited && x in Ids(groups) && u in UserValues(groups, ById(groups, x));
      assert ReachableGroup(groups, root, x);
    }
  }
}
