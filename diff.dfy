/** The diff: from the desired snapshot and the live snapshot to the ordered
    actions that converge the live state to the desired one. Three phases:
    create missing groups, update instance membership, then per desired group
    remove the live rules that are not desired and add the desired rules that
    are not live. Groups are never deleted. */
module Diff {
  import opened Wrappers
  import opened Records
  import opened Collections
  import opened Rules
  import opened Actions

  /** Description given to a created group whose record has none. */
  const DefaultDescription: string := "Automatically created by HotCIDR"

  function Description(g: GroupRecord): string {
    g.description.GetOr(DefaultDescription)
  }

  /** What makes the diff raise: a group name missing from the live group table
      (a failed lookup `aws_groups[g]`), or a live instance record without a
      `groups` key. */
  datatype DiffError = UnknownGroup(name: string) | LiveInstanceWithoutGroups(instance: string)

  // ---------------------------------------------------------------- phase 1

  /** One `CreateSecurityGroup` per desired group name (in `names` order) that
      the live table lacks. */
  function CreatePhase(names: seq<string>, desired: map<string, GroupRecord>,
                       live: map<string, GroupRecord>): (acts: seq<Action>)
    requires forall n :: n in names ==> n in desired
    ensures forall a :: a in acts ==>
      a.CreateSecurityGroup? && a.name in names && a.name !in live &&
      a.desc == Description(desired[a.name])
    ensures forall n :: n in names && n !in live ==>
      CreateSecurityGroup(n, Description(desired[n])) in acts
    ensures Distinct(names) ==> Distinct(acts)
  {
    if names == [] then []
    else
      var rest := CreatePhase(names[1..], desired, live);
      if names[0] !in live then [CreateSecurityGroup(names[0], Description(desired[names[0]]))] + rest
      else rest
  }

  // ---------------------------------------------------------------- phase 2

  /** The live ids of the named groups that have one. */
  ghost function LiveIds(names: seq<string>, live: map<string, GroupRecord>): set<string> {
    set n | n in names && n in live && live[n].id.Some? :: live[n].id.value
  }

  /** Resolves group names to live group ids, skipping groups without an id;
      the first name missing from the live table is an error. */
  function ResolveIds(names: seq<string>, live: map<string, GroupRecord>): (r: Result<set<string>, DiffError>)
    ensures r.Ok? <==> forall n :: n in names ==> n in live
    ensures r.Err? ==> r.error.UnknownGroup? && r.error.name in names && r.error.name !in live
    ensures r.Ok? ==> r.value == LiveIds(names, live)
  {
    if names == [] then Ok({})
    else if names[0] !in live then Err(UnknownGroup(names[0]))
    else
      var rest :- ResolveIds(names[1..], live);
      var own: set<string> := if live[names[0]].id.Some? then {live[names[0]].id.value} else {};
      assert LiveIds(names, live) == own + LiveIds(names[1..], live) by {
        assert forall n :: n in names <==> n == names[0] || n in names[1..];
      }
      Ok(own + rest)
  }

  /** The desired state declares a group list for instance `id`. */
  predicate Declared(id: string, desired: map<string, InstanceRecord>) {
    id in desired && desired[id].groups.Some?
  }

  /** Live instance `id` is declared and its declared group set differs from its
      live group set: the diff updates it. */
  predicate Stale(id: string, desired: map<string, InstanceRecord>, liveInst: map<string, InstanceRecord>)
    requires id in liveInst
  {
    Declared(id, desired) && liveInst[id].groups.Some? &&
    Elems(desired[id].groups.value) != Elems(liveInst[id].groups.value)
  }

  /** Live instance `id` makes the membership phase raise: it is declared and
      either its live record has no group list, or the group sets differ and a
      declared group name is missing from the live group table. */
  predicate Trips(id: string, desired: map<string, InstanceRecord>,
                  liveInst: map<string, InstanceRecord>, liveGroups: map<string, GroupRecord>)
    requires id in liveInst
  {
    Declared(id, desired) &&
    (liveInst[id].groups.None? ||
     (Stale(id, desired, liveInst) &&
      exists n :: n in desired[id].groups.value && n !in liveGroups))
  }

  /** The membership phase over the live instances `ids`, in order. */
  function MembershipPhase(ids: seq<string>, desired: map<string, InstanceRecord>,
                           liveInst: map<string, InstanceRecord>,
                           liveGroups: map<string, GroupRecord>): (r: Result<seq<Action>, DiffError>)
    requires forall id :: id in ids ==> id in liveInst
    ensures r.Ok? <==> forall id :: id in ids ==> !Trips(id, desired, liveInst, liveGroups)
    ensures r.Ok? ==> forall a :: a in r.value ==>
      a.ModifyInstanceAttribute? && a.instance in ids && Stale(a.instance, desired, liveInst) &&
      a.attr == "groupSet" && a.value == LiveIds(desired[a.instance].groups.value, liveGroups)
    ensures r.Ok? ==> forall id :: id in ids && Stale(id, desired, liveInst) ==>
      ModifyInstanceAttribute(id, "groupSet", LiveIds(desired[id].groups.value, liveGroups)) in r.value
    ensures r.Ok? && Distinct(ids) ==> Distinct(r.value)
  {
    if ids == [] then Ok([])
    else
      var id := ids[0];
      assert forall x :: x in ids <==> x == id || x in ids[1..];
      if id in desired && desired[id].groups.Some? then
        var want := desired[id].groups.value;
        match liveInst[id].groups
        case None =>
          assert Trips(id, desired, liveInst, liveGroups);
          Err(LiveInstanceWithoutGroups(id))
        case Some(have) =>
          if Elems(want) != Elems(have) then
            match ResolveIds(want, liveGroups)
            case Err(e) =>
              assert e.name in want && e.name !in liveGroups;
              assert Trips(id, desired, liveInst, liveGroups);
              Err(e)
            case Ok(gids) =>
              var rest :- MembershipPhase(ids[1..], desired, liveInst, liveGroups);
              Ok([ModifyInstanceAttribute(id, "groupSet", gids)] + rest)
          else
            MembershipPhase(ids[1..], desired, liveInst, liveGroups)
      else
        MembershipPhase(ids[1..], desired, liveInst, liveGroups)
  }

  // ---------------------------------------------------------------- phase 3

  /** The live rules of group `g`, none when the group is not live. */
  function LiveRules(g: string, live: map<string, GroupRecord>): seq<Rule> {
    if g in live then GroupRules(live[g]) else []
  }

  function LiveRuleSet(g: string, live: map<string, GroupRecord>): set<Rule> {
    Elems(LiveRules(g, live))
  }

  /** `a` and `b` are rule actions on the same group. */
  predicate SameRuleGroup(a: Action, b: Action) {
    (a.AddRule? || a.RemoveRule?) && (b.AddRule? || b.RemoveRule?) && a.group == b.group
  }

  /** Every `RemoveRule` of a group comes before every `AddRule` of that group. */
  ghost predicate RemovesFirst(acts: seq<Action>) {
    forall i, j ::
      0 <= i < |acts| && 0 <= j < |acts| && acts[i].AddRule? && acts[j].RemoveRule? &&
      SameRuleGroup(acts[i], acts[j])
      ==> j < i
  }

  /** Two action lists that share no action and no rule group can be joined
      without creating a duplicate or an addition before a removal. */
  lemma JoinOrdered(x: seq<Action>, y: seq<Action>)
    requires Distinct(x) && Distinct(y) && RemovesFirst(x) && RemovesFirst(y)
    requires forall a, b :: a in x && b in y ==> a != b && !SameRuleGroup(a, b)
    ensures Distinct(x + y) && RemovesFirst(x + y)
  {
    var xy := x + y;
    forall i, j | 0 <= i < j < |xy|
      ensures xy[i] != xy[j]
    {
      if i < |x| && j >= |x| {
        assert xy[i] == x[i] && xy[j] == y[j - |x|];
        assert x[i] in x && y[j - |x|] in y;
      } else if i >= |x| {
        assert xy[i] == y[i - |x|] && xy[j] == y[j - |x|];
      }
    }
    forall i, j | 0 <= i < |xy| && 0 <= j < |xy| && xy[i].AddRule? && xy[j].RemoveRule? &&
                  SameRuleGroup(xy[i], xy[j])
      ensures j < i
    {
      if i < |x| && j < |x| {
        assert xy[i] == x[i] && xy[j] == x[j];
      } else if i >= |x| && j >= |x| {
        assert xy[i] == y[i - |x|] && xy[j] == y[j - |x|];
      }
    }
  }

  /** `RemoveRule(g, r)` (when `remove`) or `AddRule(g, r)` for each `r` of `rs`. */
  function Tag(g: string, rs: seq<Rule>, remove: bool): (acts: seq<Action>)
    ensures |acts| == |rs|
    ensures forall i :: 0 <= i < |rs| ==>
      acts[i] == if remove then RemoveRule(g, rs[i]) else AddRule(g, rs[i])
    ensures forall r :: remove ==> (RemoveRule(g, r) in acts <==> r in rs)
    ensures forall r :: !remove ==> (AddRule(g, r) in acts <==> r in rs)
  {
    if rs == [] then []
    else
      var a := if remove then RemoveRule(g, rs[0]) else AddRule(g, rs[0]);
      [a] + Tag(g, rs[1..], remove)
  }

  /** The rule actions of one desired group `g`: removals of live rules that are
      not desired, then additions of desired rules that are not live. */
  function GroupRuleActions(g: string, want: GroupRecord, live: map<string, GroupRecord>): (acts: seq<Action>)
    ensures forall a :: a in acts ==> (a.RemoveRule? || a.AddRule?) && a.group == g
    ensures forall r :: RemoveRule(g, r) in acts <==> r in LiveRuleSet(g, live) - RuleSet(want)
    ensures forall r :: AddRule(g, r) in acts <==> r in RuleSet(want) - LiveRuleSet(g, live)
  {
    var wantSet := RuleSet(want);
    var haveSet := LiveRuleSet(g, live);
    if wantSet != haveSet then
      Tag(g, Minus(LiveRules(g, live), wantSet), true) + Tag(g, Minus(GroupRules(want), haveSet), false)
    else
      []
  }

  lemma TagDistinct(g: string, rs: seq<Rule>, remove: bool)
    requires Distinct(rs)
    ensures Distinct(Tag(g, rs, remove))
  {
    var acts := Tag(g, rs, remove);
    forall i, j | 0 <= i < j < |acts|
      ensures acts[i] != acts[j]
    {
      assert rs[i] != rs[j];
    }
  }

  /** Removals followed by additions: no duplicate, removals first. */
  lemma RemovalsThenAdditions(x: seq<Action>, y: seq<Action>)
    requires forall a :: a in x ==> a.RemoveRule?
    requires forall a :: a in y ==> a.AddRule?
    requires Distinct(x) && Distinct(y)
    ensures Distinct(x + y) && RemovesFirst(x + y)
  {
    var xy := x + y;
    forall i, j | 0 <= i < j < |xy|
      ensures xy[i] != xy[j]
    {
      if i < |x| && j >= |x| {
        assert xy[i] == x[i] && xy[j] == y[j - |x|];
        assert x[i] in x && y[j - |x|] in y;
      } else if i >= |x| {
        assert xy[i] == y[i - |x|] && xy[j] == y[j - |x|];
      }
    }
    assert forall k :: 0 <= k < |x| ==> xy[k] == x[k] && x[k] in x;
    assert forall k :: |x| <= k < |xy| ==> xy[k] == y[k - |x|] && y[k - |x|] in y;
  }

  /** One group's rule actions have no duplicate, and its removals come first. */
  lemma GroupRuleActionsOrdered(g: string, want: GroupRecord, live: map<string, GroupRecord>)
    ensures Distinct(GroupRuleActions(g, want, live))
    ensures RemovesFirst(GroupRuleActions(g, want, live))
  {
    var wantSet := RuleSet(want);
    var haveSet := LiveRuleSet(g, live);
    if wantSet != haveSet {
      var gone := Minus(LiveRules(g, live), wantSet);
      var added := Minus(GroupRules(want), haveSet);
      TagDistinct(g, gone, true);
      TagDistinct(g, added, false);
      RemovalsThenAdditions(Tag(g, gone, true), Tag(g, added, false));
    }
  }

  /** The rule phase over the desired group names `names`, in order. */
  function RulePhase(names: seq<string>, desired: map<string, GroupRecord>,
                     live: map<string, GroupRecord>): (acts: seq<Action>)
    requires forall n :: n in names ==> n in desired
    ensures forall a :: a in acts ==> (a.RemoveRule? || a.AddRule?) && a.group in names
    ensures forall g, r :: g in names ==>
      (RemoveRule(g, r) in acts <==> r in LiveRuleSet(g, live) - RuleSet(desired[g]))
    ensures forall g, r :: g in names ==>
      (AddRule(g, r) in acts <==> r in RuleSet(desired[g]) - LiveRuleSet(g, live))
  {
    if names == [] then []
    else
      var first := GroupRuleActions(names[0], desired[names[0]], live);
      var rest := RulePhase(names[1..], desired, live);
      assert forall x :: x in names <==> x == names[0] || x in names[1..];
      first + rest
  }

  /** With distinct group names the rule phase has no duplicate action, and in it
      every removal of a group precedes every addition to that group. */
  lemma {:induction false} RulePhaseOrdered(names: seq<string>, desired: map<string, GroupRecord>,
                                            live: map<string, GroupRecord>)
    requires forall n :: n in names ==> n in desired
    requires Distinct(names)
    ensures Distinct(RulePhase(names, desired, live))
    ensures RemovesFirst(RulePhase(names, desired, live))
  {
    if names != [] {
      var first := GroupRuleActions(names[0], desired[names[0]], live);
      var rest := RulePhase(names[1..], desired, live);
      RulePhaseOrdered(names[1..], desired, live);
      GroupRuleActionsOrdered(names[0], desired[names[0]], live);
      assert names[0] !in names[1..];
      JoinOrdered(first, rest);
    }
  }

  // ---------------------------------------------------------------- the diff

  /** `get_actions`: the three phases concatenated. It fails exactly when some
      live instance trips the membership phase. */
  function GetActions(desired: Snapshot, live: Snapshot): (r: Result<seq<Action>, DiffError>)
    requires desired.Valid() && live.Valid()
    ensures r.Ok? <==> forall id :: id in live.instances.entries ==>
      !Trips(id, desired.instances.entries, live.instances.entries, live.groups.entries)
  {
    var created := CreatePhase(desired.groups.order, desired.groups.entries, live.groups.entries);
    var updated :- MembershipPhase(live.instances.order, desired.instances.entries,
                                   live.instances.entries, live.groups.entries);
    Ok(created + updated + RulePhase(desired.groups.order, desired.groups.entries, live.groups.entries))
  }
}
