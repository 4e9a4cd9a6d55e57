/** What the diff promises: phase order, one creation per missing group, the
    exact membership updates, the exact rule differences, the convergence law,
    and that a diff of an in-sync state is empty. */
module DiffLaws {
  import opened Wrappers
  import opened Records
  import opened Collections
  import opened Rules
  import opened Actions
  import opened Diff

  /** The phase that emits an action: 0 creation, 1 membership, 2 rules. */
  function Phase(a: Action): nat {
    match a
    case CreateSecurityGroup(_, _) => 0
    case ModifyInstanceAttribute(_, _, _) => 1
    case AddRule(_, _) => 2
    case RemoveRule(_, _) => 2
  }

  /** A successful diff is the concatenation of its three phases. */
  lemma Unfold(d: Snapshot, l: Snapshot)
    requires d.Valid() && l.Valid() && GetActions(d, l).Ok?
    ensures MembershipPhase(l.instances.order, d.instances.entries, l.instances.entries, l.groups.entries).Ok?
    ensures GetActions(d, l).value ==
      CreatePhase(d.groups.order, d.groups.entries, l.groups.entries) +
      MembershipPhase(l.instances.order, d.instances.entries, l.instances.entries, l.groups.entries).value +
      RulePhase(d.groups.order, d.groups.entries, l.groups.entries)
    ensures GetActions(d, l).value ==
      CreatePhase(d.groups.order, d.groups.entries, l.groups.entries) +
      (MembershipPhase(l.instances.order, d.instances.entries, l.instances.entries, l.groups.entries).value +
       RulePhase(d.groups.order, d.groups.entries, l.groups.entries))
  {
    var c := CreatePhase(d.groups.order, d.groups.entries, l.groups.entries);
    var m := MembershipPhase(l.instances.order, d.instances.entries, l.instances.entries, l.groups.entries).value;
    var r := RulePhase(d.groups.order, d.groups.entries, l.groups.entries);
    ConcatAssoc(c, m, r);
  }

  /** Three blocks of phases 0, 1 and 2, concatenated, are in phase order. */
  lemma ConcatInPhaseOrder(c: seq<Action>, m: seq<Action>, r: seq<Action>)
    requires forall a :: a in c ==> Phase(a) == 0
    requires forall a :: a in m ==> Phase(a) == 1
    requires forall a :: a in r ==> Phase(a) == 2
    ensures forall i, j :: 0 <= i < j < |c + m + r| ==> Phase((c + m + r)[i]) <= Phase((c + m + r)[j])
  {
    var acts := c + m + r;
    assert forall k :: 0 <= k < |c| ==> acts[k] == c[k] && c[k] in c;
    assert forall k :: |c| <= k < |c| + |m| ==> acts[k] == m[k - |c|] && m[k - |c|] in m;
    assert forall k :: |c| + |m| <= k < |acts| ==> acts[k] == r[k - |c| - |m|] && r[k - |c| - |m|] in r;
  }

  /** In `x + y`, where `y` has no action of kind `P`, two `P` actions sit in `x`. */
  lemma KindOnlyInFront(x: seq<Action>, y: seq<Action>, create: bool)
    requires forall a :: a in y ==> if create then !a.CreateSecurityGroup? else !a.ModifyInstanceAttribute?
    ensures forall k :: 0 <= k < |x + y| && (if create then (x + y)[k].CreateSecurityGroup? else (x + y)[k].ModifyInstanceAttribute?) ==>
      k < |x| && (x + y)[k] == x[k]
  {
    assert forall k :: |x| <= k < |x + y| ==> (x + y)[k] == y[k - |x|] && y[k - |x|] in y;
  }

  /** All creations come first, then all membership updates, then all rule actions. */
  lemma PhasesInOrder(d: Snapshot, l: Snapshot)
    requires d.Valid() && l.Valid() && GetActions(d, l).Ok?
    ensures var acts := GetActions(d, l).value;
      forall i, j :: 0 <= i < j < |acts| ==> Phase(acts[i]) <= Phase(acts[j])
  {
    Unfold(d, l);
    ConcatInPhaseOrder(CreatePhase(d.groups.order, d.groups.entries, l.groups.entries),
                       MembershipPhase(l.instances.order, d.instances.entries, l.instances.entries, l.groups.entries).value,
                       RulePhase(d.groups.order, d.groups.entries, l.groups.entries));
  }

  /** Each desired group missing from the live state is created, with its
      description or the default one. */
  lemma CreatesEveryMissingGroup(d: Snapshot, l: Snapshot)
    requires d.Valid() && l.Valid() && GetActions(d, l).Ok?
    ensures forall n :: n in d.groups.entries && n !in l.groups.entries ==>
      CreateSecurityGroup(n, Description(d.groups.entries[n])) in GetActions(d, l).value
  {
    Unfold(d, l);
  }

  /** Only desired groups missing from the live state are created. */
  lemma CreatesOnlyMissingGroups(d: Snapshot, l: Snapshot)
    requires d.Valid() && l.Valid() && GetActions(d, l).Ok?
    ensures forall a :: a in GetActions(d, l).value && a.CreateSecurityGroup? ==>
      a.name in d.groups.entries && a.name !in l.groups.entries &&
      a.desc == Description(d.groups.entries[a.name])
  {
    Unfold(d, l);
  }

  /** In `x + y`, with every creation in `x`, no two creations in `x` sharing a
      name unless equal, and `x` duplicate-free: no two creations share a name. */
  lemma CreationNamesUnique(x: seq<Action>, y: seq<Action>)
    requires Distinct(x)
    requires forall a, b ::
      a in x && b in x && a.CreateSecurityGroup? && b.CreateSecurityGroup? && a.name == b.name
      ==> a == b
    requires forall a :: a in y ==> !a.CreateSecurityGroup?
    ensures forall i, j :: 0 <= i < j < |x + y| && (x + y)[i].CreateSecurityGroup? && (x + y)[j].CreateSecurityGroup? ==>
      (x + y)[i].name != (x + y)[j].name
  {
    KindOnlyInFront(x, y, true);
    forall i, j | 0 <= i < j < |x + y| && (x + y)[i].CreateSecurityGroup? && (x + y)[j].CreateSecurityGroup?
      ensures (x + y)[i].name != (x + y)[j].name
    {
      assert x[i] in x && x[j] in x && x[i] != x[j];
    }
  }

  /** No group is created twice. */
  lemma CreatesEachGroupOnce(d: Snapshot, l: Snapshot)
    requires d.Valid() && l.Valid() && GetActions(d, l).Ok?
    ensures var acts := GetActions(d, l).value;
      forall i, j :: 0 <= i < j < |acts| && acts[i].CreateSecurityGroup? && acts[j].CreateSecurityGroup? ==>
        acts[i].name != acts[j].name
  {
    Unfold(d, l);
    var c := CreatePhase(d.groups.order, d.groups.entries, l.groups.entries);
    var rest := MembershipPhase(l.instances.order, d.instances.entries, l.instances.entries, l.groups.entries).value +
                RulePhase(d.groups.order, d.groups.entries, l.groups.entries);
    assert GetActions(d, l).value == c + rest;
    assert Distinct(d.groups.order);
    CreationNamesUnique(c, rest);
  }

  /** In `c + (m + r)`, with every update in `m`, no two updates in `m` sharing
      an instance unless equal, and `m` duplicate-free: no instance is updated twice. */
  lemma UpdatedInstancesUnique(c: seq<Action>, m: seq<Action>, r: seq<Action>)
    requires Distinct(m)
    requires forall a, b ::
      a in m && b in m && a.ModifyInstanceAttribute? && b.ModifyInstanceAttribute? && a.instance == b.instance
      ==> a == b
    requires forall a :: a in c ==> !a.ModifyInstanceAttribute?
    requires forall a :: a in r ==> !a.ModifyInstanceAttribute?
    ensures var acts := c + (m + r);
      forall i, j :: 0 <= i < j < |acts| && acts[i].ModifyInstanceAttribute? && acts[j].ModifyInstanceAttribute? ==>
        acts[i].instance != acts[j].instance
  {
    KindOnlyInFront(m, r, false);
    var acts := c + (m + r);
    assert forall k :: 0 <= k < |c| ==> acts[k] == c[k] && c[k] in c;
    assert forall k :: |c| <= k < |acts| ==> acts[k] == (m + r)[k - |c|];
    forall i, j | 0 <= i < j < |acts| && acts[i].ModifyInstanceAttribute? && acts[j].ModifyInstanceAttribute?
      ensures acts[i].instance != acts[j].instance
    {
      var i', j' := i - |c|, j - |c|;
      assert m[i'] in m && m[j'] in m && m[i'] != m[j'];
    }
  }

  /** Membership updates are exactly: one `ModifyInstanceAttribute(id,
      "groupSet", ids)` per live instance whose declared group set differs from
      its live group set, where `ids` are the live ids of its declared groups.
      Instances that are only desired are never updated. */
  lemma MembershipUpdatesExact(d: Snapshot, l: Snapshot)
    requires d.Valid() && l.Valid() && GetActions(d, l).Ok?
    ensures forall id, attr, v :: ModifyInstanceAttribute(id, attr, v) in GetActions(d, l).value <==>
      id in l.instances.entries && Stale(id, d.instances.entries, l.instances.entries) &&
      attr == "groupSet" && v == LiveIds(d.instances.entries[id].groups.value, l.groups.entries)
  {
    Unfold(d, l);
  }

  /** No instance is updated twice. */
  lemma UpdatesEachInstanceOnce(d: Snapshot, l: Snapshot)
    requires d.Valid() && l.Valid() && GetActions(d, l).Ok?
    ensures var acts := GetActions(d, l).value;
      forall i, j :: 0 <= i < j < |acts| && acts[i].ModifyInstanceAttribute? && acts[j].ModifyInstanceAttribute? ==>
        acts[i].instance != acts[j].instance
  {
    Unfold(d, l);
    var c := CreatePhase(d.groups.order, d.groups.entries, l.groups.entries);
    var m := MembershipPhase(l.instances.order, d.instances.entries, l.instances.entries, l.groups.entries).value;
    var r := RulePhase(d.groups.order, d.groups.entries, l.groups.entries);
    assert GetActions(d, l).value == c + (m + r);
    assert Distinct(l.instances.order);
    UpdatedInstancesUnique(c, m, r);
  }

  /** A rule action of a desired group is in the rule phase's output. */
  lemma RuleActionsAreRulePhase(d: Snapshot, l: Snapshot)
    requires d.Valid() && l.Valid() && GetActions(d, l).Ok?
    ensures forall a :: a in GetActions(d, l).value && (a.AddRule? || a.RemoveRule?) ==>
      a in RulePhase(d.groups.order, d.groups.entries, l.groups.entries)
    ensures forall a :: a in RulePhase(d.groups.order, d.groups.entries, l.groups.entries) ==>
      a in GetActions(d, l).value
  {
    Unfold(d, l);
  }

  /** For every desired group, the rules removed are exactly the live rules that
      are not desired (none when the group is not live). */
  lemma RemovesExactlyUndesired(d: Snapshot, l: Snapshot)
    requires d.Valid() && l.Valid() && GetActions(d, l).Ok?
    ensures forall g, r :: g in d.groups.entries ==>
      (RemoveRule(g, r) in GetActions(d, l).value <==>
       r in LiveRuleSet(g, l.groups.entries) - RuleSet(d.groups.entries[g]))
  {
    RuleActionsAreRulePhase(d, l);
  }

  /** For every desired group, the rules added are exactly the desired rules that
      are not live (all of them when the group is not live). */
  lemma AddsExactlyMissing(d: Snapshot, l: Snapshot)
    requires d.Valid() && l.Valid() && GetActions(d, l).Ok?
    ensures forall g, r :: g in d.groups.entries ==>
      (AddRule(g, r) in GetActions(d, l).value <==>
       r in RuleSet(d.groups.entries[g]) - LiveRuleSet(g, l.groups.entries))
  {
    RuleActionsAreRulePhase(d, l);
  }

  /** Rule actions only ever name desired groups: groups that exist only in the
      live state are left alone (nothing is deleted). */
  lemma RulesOnlyForDesiredGroups(d: Snapshot, l: Snapshot)
    requires d.Valid() && l.Valid() && GetActions(d, l).Ok?
    ensures forall a :: a in GetActions(d, l).value && (a.AddRule? || a.RemoveRule?) ==>
      a.group in d.groups.entries
  {
    RuleActionsAreRulePhase(d, l);
  }

  /** Prefixing actions that are not rule actions keeps removals first. */
  lemma RemovesFirstAfterPrefix(p: seq<Action>, r: seq<Action>)
    requires forall a :: a in p ==> !a.AddRule? && !a.RemoveRule?
    requires RemovesFirst(r)
    ensures RemovesFirst(p + r)
  {
    var acts := p + r;
    assert forall k :: 0 <= k < |p| ==> acts[k] == p[k] && p[k] in p;
    assert forall k :: |p| <= k < |acts| ==> acts[k] == r[k - |p|];
  }

  /** Within each group every removal precedes every addition. */
  lemma RemovesBeforeAdds(d: Snapshot, l: Snapshot)
    requires d.Valid() && l.Valid() && GetActions(d, l).Ok?
    ensures RemovesFirst(GetActions(d, l).value)
  {
    Unfold(d, l);
    var c := CreatePhase(d.groups.order, d.groups.entries, l.groups.entries);
    var m := MembershipPhase(l.instances.order, d.instances.entries, l.instances.entries, l.groups.entries).value;
    var r := RulePhase(d.groups.order, d.groups.entries, l.groups.entries);
    assert Distinct(d.groups.order);
    RulePhaseOrdered(d.groups.order, d.groups.entries, l.groups.entries);
    RemovesFirstAfterPrefix(c + m, r);
  }

  /** The diff never emits the same action twice. */
  lemma NoDuplicateActions(d: Snapshot, l: Snapshot)
    requires d.Valid() && l.Valid() && GetActions(d, l).Ok?
    ensures Distinct(GetActions(d, l).value)
  {
    Unfold(d, l);
    var c := CreatePhase(d.groups.order, d.groups.entries, l.groups.entries);
    var m := MembershipPhase(l.instances.order, d.instances.entries, l.instances.entries, l.groups.entries).value;
    var r := RulePhase(d.groups.order, d.groups.entries, l.groups.entries);
    assert Distinct(d.groups.order) && Distinct(l.instances.order);
    RulePhaseOrdered(d.groups.order, d.groups.entries, l.groups.entries);
    DistinctJoin(m, r);
    DistinctJoin(c, m + r);
  }

  /** The rules the actions remove from group `g`. */
  ghost function Removed(acts: seq<Action>, g: string): set<Rule> {
    set a | a in acts && a.RemoveRule? && a.group == g :: a.rule
  }

  /** The rules the actions add to group `g`. */
  ghost function Added(acts: seq<Action>, g: string): set<Rule> {
    set a | a in acts && a.AddRule? && a.group == g :: a.rule
  }

  /** The convergence law: for every desired group, the actions remove only
      rules that are live, add only rules that are not, and removing then adding
      them turns the live rule set into the desired one. */
  lemma {:induction false} Convergence(d: Snapshot, l: Snapshot, g: string)
    requires d.Valid() && l.Valid() && GetActions(d, l).Ok?
    requires g in d.groups.entries
    ensures var acts := GetActions(d, l).value;
      var have := LiveRuleSet(g, l.groups.entries);
      Removed(acts, g) <= have && Added(acts, g) !! have &&
      (have - Removed(acts, g)) + Added(acts, g) == RuleSet(d.groups.entries[g])
  {
    var acts := GetActions(d, l).value;
    var have := LiveRuleSet(g, l.groups.entries);
    var want := RuleSet(d.groups.entries[g]);
    RemovesExactlyUndesired(d, l);
    AddsExactlyMissing(d, l);
    assert Removed(acts, g) == have - want by {
      forall r ensures r in Removed(acts, g) <==> r in have - want {
        assert r in Removed(acts, g) <==> RemoveRule(g, r) in acts;
      }
    }
    assert Added(acts, g) == want - have by {
      forall r ensures r in Added(acts, g) <==> r in want - have {
        assert r in Added(acts, g) <==> AddRule(g, r) in acts;
      }
    }
  }

  /** The live state already matches the desired one: every desired group is
      live with the desired rule set, and every live instance that declares a
      group list has that group set live. */
  ghost predicate InSync(d: Snapshot, l: Snapshot) {
    (forall g :: g in d.groups.entries ==>
       g in l.groups.entries && RuleSet(l.groups.entries[g]) == RuleSet(d.groups.entries[g])) &&
    (forall id :: id in l.instances.entries && Declared(id, d.instances.entries) ==>
       l.instances.entries[id].groups.Some? &&
       Elems(l.instances.entries[id].groups.value) == Elems(d.instances.entries[id].groups.value))
  }

  /** No group is created when every desired group is live. */
  lemma {:induction false} CreatePhaseInSync(names: seq<string>, desired: map<string, GroupRecord>,
                                             live: map<string, GroupRecord>)
    requires forall n :: n in names ==> n in desired && n in live
    ensures CreatePhase(names, desired, live) == []
  {
    if names != [] {
      assert forall n :: n in names[1..] ==> n in names;
      CreatePhaseInSync(names[1..], desired, live);
    }
  }

  /** No instance is updated when every declared group set is the live one. */
  lemma {:induction false} MembershipPhaseInSync(ids: seq<string>, desired: map<string, InstanceRecord>,
                                                 liveInst: map<string, InstanceRecord>,
                                                 liveGroups: map<string, GroupRecord>)
    requires forall id :: id in ids ==> id in liveInst
    requires forall id :: id in ids && Declared(id, desired) ==>
      liveInst[id].groups.Some? && Elems(liveInst[id].groups.value) == Elems(desired[id].groups.value)
    ensures MembershipPhase(ids, desired, liveInst, liveGroups) == Ok([])
  {
    if ids != [] {
      assert forall id :: id in ids[1..] ==> id in ids;
      MembershipPhaseInSync(ids[1..], desired, liveInst, liveGroups);
    }
  }

  /** No rule action is emitted when every desired group has its desired rule set live. */
  lemma {:induction false} RulePhaseInSync(names: seq<string>, desired: map<string, GroupRecord>,
                                           live: map<string, GroupRecord>)
    requires forall n :: n in names ==> n in desired && LiveRuleSet(n, live) == RuleSet(desired[n])
    ensures RulePhase(names, desired, live) == []
  {
    if names != [] {
      assert forall n :: n in names[1..] ==> n in names;
      RulePhaseInSync(names[1..], desired, live);
    }
  }

  /** Diffing an in-sync state succeeds and yields no action. */
  lemma InSyncDiffIsEmpty(d: Snapshot, l: Snapshot)
    requires d.Valid() && l.Valid() && InSync(d, l)
    ensures GetActions(d, l) == Ok([])
  {
    CreatePhaseInSync(d.groups.order, d.groups.entries, l.groups.entries);
    MembershipPhaseInSync(l.instances.order, d.instances.entries, l.instances.entries, l.groups.entries);
    RulePhaseInSync(d.groups.order, d.groups.entries, l.groups.entries);
    var none: seq<Action> := [];
    assert none + none + none == none;
  }

  /** The group names the provider reports for an instance whose group set was
      reset to the ids `v`: the live groups whose id is in `v`. */
  ghost function NamesOf(v: set<string>, live: map<string, GroupRecord>): set<string> {
    set n | n in live && live[n].id.Some? && live[n].id.value in v
  }

  /** Reading names back from resolved ids gives the names again when each of
      them is a live group with an id and no two live groups share an id. */
  lemma NamesOfLiveIds(names: seq<string>, live: map<string, GroupRecord>)
    requires forall n :: n in names ==> n in live && live[n].id.Some?
    requires IdsDistinct(live)
    ensures NamesOf(LiveIds(names, live), live) == Elems(names)
  {
    forall n | n in NamesOf(LiveIds(names, live), live)
      ensures n in names
    {
      var m :| m in names && m in live && live[m].id.Some? && live[m].id.value == live[n].id.value;
    }
    forall n | n in names
      ensures n in NamesOf(LiveIds(names, live), live)
    {
      assert live[n].id.value in LiveIds(names, live);
    }
  }

  /** No two live groups share an id. */
  ghost predicate IdsDistinct(live: map<string, GroupRecord>) {
    forall m, n :: m in live && n in live && live[m].id.Some? && live[m].id == live[n].id ==> m == n
  }

  /** Every group declared for a stale instance is live with an id. */
  ghost predicate StaleGroupsHaveIds(d: Snapshot, l: Snapshot) {
    forall id, n :: id in l.instances.entries && Stale(id, d.instances.entries, l.instances.entries) &&
                    n in d.instances.entries[id].groups.value ==>
                    n in l.groups.entries && l.groups.entries[n].id.Some?
  }

  /** Instance `id` is named by a membership update in `acts`. */
  predicate Updated(id: string, acts: seq<Action>) {
    exists a :: a in acts && a.ModifyInstanceAttribute? && a.instance == id
  }

  /** The instances of `after` are those of `l` once the updates in `acts` took
      effect: an updated instance is in the live groups whose id the update
      carries, and every other instance is as it was. */
  ghost predicate MembershipApplied(acts: seq<Action>, l: Snapshot, after: Snapshot) {
    (forall id :: id in after.instances.entries <==> id in l.instances.entries) &&
    (forall a :: a in acts && a.ModifyInstanceAttribute? ==>
       a.instance in after.instances.entries && after.instances.entries[a.instance].groups.Some? &&
       Elems(after.instances.entries[a.instance].groups.value) == NamesOf(a.value, l.groups.entries)) &&
    (forall id :: id in l.instances.entries && !Updated(id, acts) ==>
       after.instances.entries[id] == l.instances.entries[id])
  }

  /** After the actions take effect, a fresh diff is empty. The new live state
      has every desired group with the rule set the convergence law gives, and
      the instances as the updates leave them. This needs the live group ids to
      be distinct and every declared group of a stale instance to be live with
      an id: a group without an id is left out of the update, and the next diff
      emits the same update again (`DiffExamples.IdlessGroupNeverJoined`). */
  lemma ReDiffAfterApplyIsEmpty(d: Snapshot, l: Snapshot, after: Snapshot)
    requires d.Valid() && l.Valid() && after.Valid() && GetActions(d, l).Ok?
    requires IdsDistinct(l.groups.entries) && StaleGroupsHaveIds(d, l)
    requires forall g :: g in d.groups.entries ==>
      g in after.groups.entries &&
      RuleSet(after.groups.entries[g]) ==
        (LiveRuleSet(g, l.groups.entries) - Removed(GetActions(d, l).value, g)) + Added(GetActions(d, l).value, g)
    requires MembershipApplied(GetActions(d, l).value, l, after)
    ensures GetActions(d, after) == Ok([])
  {
    forall g | g in d.groups.entries
      ensures RuleSet(after.groups.entries[g]) == RuleSet(d.groups.entries[g])
    {
      Convergence(d, l, g);
    }
    MembershipUpdatesExact(d, l);
    MembershipInSyncAfter(d, l, after);
    InSyncDiffIsEmpty(d, after);
  }

  /** The instance half of `ReDiffAfterApplyIsEmpty`: every declared instance
      ends up with its declared group set. */
  lemma MembershipInSyncAfter(d: Snapshot, l: Snapshot, after: Snapshot)
    requires d.Valid() && l.Valid() && GetActions(d, l).Ok?
    requires IdsDistinct(l.groups.entries) && StaleGroupsHaveIds(d, l)
    requires MembershipApplied(GetActions(d, l).value, l, after)
    requires forall id, attr, v :: ModifyInstanceAttribute(id, attr, v) in GetActions(d, l).value <==>
      id in l.instances.entries && Stale(id, d.instances.entries, l.instances.entries) &&
      attr == "groupSet" && v == LiveIds(d.instances.entries[id].groups.value, l.groups.entries)
    ensures forall id :: id in after.instances.entries && Declared(id, d.instances.entries) ==>
      after.instances.entries[id].groups.Some? &&
      Elems(after.instances.entries[id].groups.value) == Elems(d.instances.entries[id].groups.value)
  {
    var acts := GetActions(d, l).value;
    var di, li, lg := d.instances.entries, l.instances.entries, l.groups.entries;
    Unfold(d, l);
    forall id | id in after.instances.entries && Declared(id, di)
      ensures after.instances.entries[id].groups.Some? &&
        Elems(after.instances.entries[id].groups.value) == Elems(di[id].groups.value)
    {
      assert id in l.instances.order;
      assert !Trips(id, di, li, lg);
      if Stale(id, di, li) {
        var a := ModifyInstanceAttribute(id, "groupSet", LiveIds(di[id].groups.value, lg));
        assert a in acts;
        NamesOfLiveIds(di[id].groups.value, lg);
      } else {
        assert !Updated(id, acts);
      }
    }
  }

  /** The membership phase reads the desired instance table only at the live
      instance ids it walks. */
  lemma {:induction false} MembershipReadsOnlyLiveIds(ids: seq<string>, des1: map<string, InstanceRecord>,
                                                     des2: map<string, InstanceRecord>,
                                                     liveInst: map<string, InstanceRecord>,
                                                     liveGroups: map<string, GroupRecord>)
    requires forall id :: id in ids ==> id in liveInst
    requires forall id :: id in ids ==> (id in des1 <==> id in des2) && (id in des1 ==> des1[id] == des2[id])
    ensures MembershipPhase(ids, des1, liveInst, liveGroups) == MembershipPhase(ids, des2, liveInst, liveGroups)
  {
    if ids != [] {
      assert forall id :: id in ids[1..] ==> id in ids;
      MembershipReadsOnlyLiveIds(ids[1..], des1, des2, liveInst, liveGroups);
    }
  }

  /** Instances that are only in the desired state are never looked at: two
      desired states that agree on their groups and on the live instance ids
      give the same diff. */
  lemma OnlyLiveInstancesMatter(d1: Snapshot, d2: Snapshot, l: Snapshot)
    requires d1.Valid() && d2.Valid() && l.Valid()
    requires d1.groups == d2.groups
    requires forall id :: id in l.instances.entries ==>
      (id in d1.instances.entries <==> id in d2.instances.entries) &&
      (id in d1.instances.entries ==> d1.instances.entries[id] == d2.instances.entries[id])
    ensures GetActions(d1, l) == GetActions(d2, l)
  {
    MembershipReadsOnlyLiveIds(l.instances.order, d1.instances.entries, d2.instances.entries,
                               l.instances.entries, l.groups.entries);
  }
}
