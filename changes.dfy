/** The change summary: four counters over a list of actions, one per kind,
    rendered as the non-zero counts in a fixed order, or "No changes". */
module Summary {
  import opened Actions

  /** The four counters. */
  datatype Counts = Counts(created: nat, updated: nat, added: nat, removed: nat)

  /** The kind of an action, as the counters classify it. */
  datatype Kind = Created | Updated | Added | Removed

  function KindOf(a: Action): Kind {
    match a
    case CreateSecurityGroup(_, _) => Created
    case ModifyInstanceAttribute(_, _, _) => Updated
    case AddRule(_, _) => Added
    case RemoveRule(_, _) => Removed
  }

  /** The kinds of a list of actions, in order. */
  function Kinds(acts: seq<Action>): (ks: seq<Kind>)
    ensures |ks| == |acts| && forall i :: 0 <= i < |acts| ==> ks[i] == KindOf(acts[i])
  {
    seq(|acts|, i requires 0 <= i < |acts| => KindOf(acts[i]))
  }

  /** Counting one action increments exactly the counter of its kind. */
  function Bump(c: Counts, a: Action): (r: Counts)
    ensures r.created + r.updated + r.added + r.removed == c.created + c.updated + c.added + c.removed + 1
  {
    match a
    case CreateSecurityGroup(_, _) => c.(created := c.created + 1)
    case ModifyInstanceAttribute(_, _, _) => c.(updated := c.updated + 1)
    case AddRule(_, _) => c.(added := c.added + 1)
    case RemoveRule(_, _) => c.(removed := c.removed + 1)
  }

  /** The counters after counting `acts` in order from zero: every action is
      counted exactly once. */
  function Tally(acts: seq<Action>): (c: Counts)
    ensures c.created + c.updated + c.added + c.removed == |acts|
  {
    if acts == [] then Counts(0, 0, 0, 0) else Bump(Tally(acts[..|acts| - 1]), acts[|acts| - 1])
  }

  /** Each counter holds the number of actions of its kind. */
  lemma {:induction false} TallyCountsKinds(acts: seq<Action>)
    ensures var m := multiset(Kinds(acts));
      Tally(acts) == Counts(m[Created], m[Updated], m[Added], m[Removed])
  {
    if acts != [] {
      var init, last := acts[..|acts| - 1], acts[|acts| - 1];
      TallyCountsKinds(init);
      assert Kinds(acts) == Kinds(init) + [KindOf(last)];
    }
  }

  /** Counting is additive over concatenation. */
  lemma {:induction false} TallyAppend(xs: seq<Action>, ys: seq<Action>)
    ensures var a, b, c := Tally(xs), Tally(ys), Tally(xs + ys);
      c == Counts(a.created + b.created, a.updated + b.updated, a.added + b.added, a.removed + b.removed)
    decreases |ys|
  {
    if ys == [] {
      assert xs + ys == xs;
    } else {
      var init := ys[..|ys| - 1];
      assert (xs + ys)[..|xs + ys| - 1] == xs + init;
      TallyAppend(xs, init);
    }
  }

  /** The digit character for 0..9. */
  function Digit(d: nat): (ch: char)
    requires d < 10
    ensures '0' <= ch <= '9'
  {
    ('0' as int + d) as char
  }

  /** The value of a digit character. */
  function DigitValue(ch: char): nat
    requires '0' <= ch <= '9'
  {
    (ch as int - '0' as int) as nat
  }

  /** The value of a string of digits. */
  function DecimalValue(s: string): nat
    requires forall i :: 0 <= i < |s| ==> '0' <= s[i] <= '9'
  {
    if s == [] then 0 else 10 * DecimalValue(s[..|s| - 1]) + DigitValue(s[|s| - 1])
  }

  /** `%d` of a counter: digits only, no leading zero, and reading it back gives
      the number. */
  function DecimalString(n: nat): (s: string)
    ensures |s| >= 1 && (forall i :: 0 <= i < |s| ==> '0' <= s[i] <= '9')
    ensures n > 0 ==> s[0] != '0'
    ensures DecimalValue(s) == n
  {
    if n < 10 then [Digit(n)]
    else
      var init := DecimalString(n / 10);
      var s := init + [Digit(n % 10)];
      assert s[..|s| - 1] == init && s[0] == init[0];
      s
  }

  /** Parts joined by a separator. */
  function Join(parts: seq<string>, sep: string): (s: string)
    ensures parts != [] && parts[0] != [] ==> s != [] && s[0] == parts[0][0]
  {
    if parts == [] then ""
    else if |parts| == 1 then parts[0]
    else parts[0] + sep + Join(parts[1..], sep)
  }

  /** Every part is a count: non-empty, starting with a non-zero digit. */
  predicate Numbered(ps: seq<string>) {
    forall i :: 0 <= i < |ps| ==> ps[i] != [] && '1' <= ps[i][0] <= '9'
  }

  lemma NumberedJoin(a: seq<string>, b: seq<string>)
    requires Numbered(a) && Numbered(b)
    ensures Numbered(a + b)
  {
    assert forall i :: |a| <= i < |a + b| ==> (a + b)[i] == b[i - |a|];
  }

  /** The counter of one kind. */
  function CountOf(c: Counts, k: Kind): nat {
    match k
    case Created => c.created
    case Updated => c.updated
    case Added => c.added
    case Removed => c.removed
  }

  /** The text that follows the count of one kind. */
  function Suffix(k: Kind): string {
    match k
    case Created => " group(s) created"
    case Updated => " instance(s) updated"
    case Added => " rule(s) added"
    case Removed => " rule(s) removed"
  }

  /** The position of a kind in the summary's fixed order. */
  function Rank(k: Kind): nat {
    match k
    case Created => 0
    case Updated => 1
    case Added => 2
    case Removed => 3
  }

  /** The kinds the summary shows: those with a non-zero counter, in the fixed
      order. */
  function Shown(c: Counts): (ks: seq<Kind>)
    ensures forall k :: k in ks <==> CountOf(c, k) > 0
    ensures forall i, j :: 0 <= i < j < |ks| ==> Rank(ks[i]) < Rank(ks[j])
  {
    Shows(c, Created) + Shows(c, Updated) + Shows(c, Added) + Shows(c, Removed)
  }

  /** `[k]` when the counter of `k` is non-zero, else nothing. */
  function Shows(c: Counts, k: Kind): seq<Kind> {
    if CountOf(c, k) > 0 then [k] else []
  }

  /** Part `p` reports kind `k`: it is a decimal count followed by the kind's
      suffix, and the count reads back to the counter of `k`. */
  predicate Reports(p: string, k: Kind, c: Counts) {
    var n := |p| - |Suffix(k)|;
    n >= 1 && p[n..] == Suffix(k) &&
    (forall i :: 0 <= i < n ==> '0' <= p[i] <= '9') &&
    DecimalValue(p[..n]) == CountOf(c, k)
  }

  /** The part for one counter: "<n><suffix>" when it is non-zero, nothing
      when it is zero. */
  function Part(n: nat, suffix: string): (ps: seq<string>)
    ensures |ps| == (if n > 0 then 1 else 0)
    ensures Numbered(ps)
  {
    if n > 0 then [DecimalString(n) + suffix] else []
  }

  /** One part per non-zero counter, in the order groups created, instances
      updated, rules added, rules removed. */
  function Parts(c: Counts): (ps: seq<string>)
    ensures |ps| == (if c.created > 0 then 1 else 0) + (if c.updated > 0 then 1 else 0) +
                    (if c.added > 0 then 1 else 0) + (if c.removed > 0 then 1 else 0)
    ensures Numbered(ps)
  {
    var a, b := Part(CountOf(c, Created), Suffix(Created)), Part(CountOf(c, Updated), Suffix(Updated));
    var d, e := Part(CountOf(c, Added), Suffix(Added)), Part(CountOf(c, Removed), Suffix(Removed));
    NumberedJoin(a, b);
    NumberedJoin(a + b, d);
    NumberedJoin(a + b + d, e);
    a + b + d + e
  }

  /** The rendered summary: "No changes" exactly when every counter is zero;
      otherwise it opens with the first non-zero count. */
  function Render(c: Counts): (s: string)
    ensures s == "No changes" <==> c == Counts(0, 0, 0, 0)
    ensures s != "No changes" ==> s != [] && '1' <= s[0] <= '9'
  {
    var ps := Parts(c);
    if ps == [] then "No changes" else Join(ps, ", ")
  }

  /** Each part reports the kind shown at its position: the parts follow the
      fixed order created, updated, added, removed, skip the zero counters,
      and carry each counter's own value and suffix. */
  lemma PartsInOrder(c: Counts)
    ensures |Parts(c)| == |Shown(c)|
    ensures forall i :: 0 <= i < |Parts(c)| ==> Reports(Parts(c)[i], Shown(c)[i], c)
  {
    var a, b := Part(CountOf(c, Created), Suffix(Created)), Part(CountOf(c, Updated), Suffix(Updated));
    var d, e := Part(CountOf(c, Added), Suffix(Added)), Part(CountOf(c, Removed), Suffix(Removed));
    var empty: seq<string>, none: seq<Kind> := [], [];
    PartsStep(empty, none, c, Created);
    assert empty + a == a && none + Shows(c, Created) == Shows(c, Created);
    PartsStep(a, Shows(c, Created), c, Updated);
    PartsStep(a + b, Shows(c, Created) + Shows(c, Updated), c, Added);
    PartsStep(a + b + d, Shows(c, Created) + Shows(c, Updated) + Shows(c, Added), c, Removed);
  }

  /** Appending the part of one more kind keeps parts and shown kinds in step. */
  lemma PartsStep(ps: seq<string>, ks: seq<Kind>, c: Counts, k: Kind)
    requires |ps| == |ks| && forall i :: 0 <= i < |ps| ==> Reports(ps[i], ks[i], c)
    ensures var ps', ks' := ps + Part(CountOf(c, k), Suffix(k)), ks + Shows(c, k);
      |ps'| == |ks'| && forall i :: 0 <= i < |ps'| ==> Reports(ps'[i], ks'[i], c)
  {
    if CountOf(c, k) > 0 {
      var p := DecimalString(CountOf(c, k)) + Suffix(k);
      assert p[|p| - |Suffix(k)|..] == Suffix(k);
      assert p[..|p| - |Suffix(k)|] == DecimalString(CountOf(c, k));
      assert Reports(p, k, c);
    }
  }

  /** "No changes" is rendered exactly when there are no actions. */
  lemma NoChangesIffNoActions(acts: seq<Action>)
    ensures Render(Tally(acts)) == "No changes" <==> acts == []
  {
  }

  /** A create, two additions and a removal are counted as such. */
  lemma TallyExample(create: Action, add1: Action, add2: Action, remove: Action)
    requires create.CreateSecurityGroup? && add1.AddRule? && add2.AddRule? && remove.RemoveRule?
    ensures Tally([create, add1, add2, remove]) == Counts(1, 0, 2, 1)
  {
    var acts := [create, add1, add2, remove];
    assert acts[..3] == [create, add1, add2] && acts[..3][..2] == [create, add1];
    assert acts[..3][..2][..1] == [create] && acts[..3][..2][..1][..0] == [];
    assert Tally([create]) == Counts(1, 0, 0, 0);
    assert Tally([create, add1]) == Counts(1, 0, 1, 0);
    assert Tally([create, add1, add2]) == Counts(1, 0, 2, 0);
  }

  /** The parts for one group created, two rules added and one removed. */
  lemma PartsExample()
    ensures Parts(Counts(1, 0, 2, 1)) == ["1 group(s) created", "2 rule(s) added", "1 rule(s) removed"]
  {
    PartExample(1, " group(s) created", "1 group(s) created");
    PartExample(2, " rule(s) added", "2 rule(s) added");
    PartExample(1, " rule(s) removed", "1 rule(s) removed");
  }

  /** A one-digit count gives the part "<digit><suffix>". */
  lemma PartExample(n: nat, suffix: string, part: string)
    requires 0 < n < 10 && part == [Digit(n)] + suffix
    ensures Part(n, suffix) == [part]
  {
  }

  /** Three parts joined. */
  lemma JoinThree(a: string, b: string, c: string, sep: string)
    ensures Join([a, b, c], sep) == a + sep + (b + sep + c)
  {
    assert [a, b, c][1..] == [b, c] && [b, c][1..] == [c];
    assert Join([b, c], sep) == b + sep + c;
  }

  /** The literal text of the example summary. */
  lemma SummaryText()
    ensures "1 group(s) created" + ", " + ("2 rule(s) added" + ", " + "1 rule(s) removed")
         == "1 group(s) created, 2 rule(s) added, 1 rule(s) removed"
  {
  }

  /** The summary of a create, two additions and a removal. */
  lemma SummaryExample(create: Action, add1: Action, add2: Action, remove: Action)
    requires create.CreateSecurityGroup? && add1.AddRule? && add2.AddRule? && remove.RemoveRule?
    ensures Render(Tally([create, add1, add2, remove])) == "1 group(s) created, 2 rule(s) added, 1 rule(s) removed"
  {
    TallyExample(create, add1, add2, remove);
    PartsExample();
    JoinThree("1 group(s) created", "2 rule(s) added", "1 rule(s) removed", ", ");
    SummaryText();
  }

  /** An empty list of actions is summarised as "No changes". */
  lemma EmptySummary()
    ensures Render(Tally([])) == "No changes"
  {
    NoChangesIffNoActions([]);
  }

  /** The counters kept in place while actions are counted. */
  class Changes {
    var createdSecurityGroups: nat
    var modifiedInstanceAttributes: nat
    var addedRules: nat
    var removedRules: nat

    function Current(): Counts
      reads this
    {
      Counts(createdSecurityGroups, modifiedInstanceAttributes, addedRules, removedRules)
    }

    /** The counters over `acts`, counted one by one. */
    constructor (acts: seq<Action>)
      ensures Current() == Tally(acts)
    {
      createdSecurityGroups, modifiedInstanceAttributes, addedRules, removedRules := 0, 0, 0, 0;
      new;
      var i := 0;
      while i < |acts|
        invariant 0 <= i <= |acts|
        invariant Current() == Tally(acts[..i])
      {
        assert acts[..i + 1][..i] == acts[..i];
        Count(acts[i]);
        i := i + 1;
      }
      assert acts[..i] == acts;
    }

    /** Counts one action: the counter of its kind goes up by one, the others
        stay. */
    method Count(a: Action)
      modifies this
      ensures Current() == Bump(old(Current()), a)
    {
      match a
      case CreateSecurityGroup(_, _) => createdSecurityGroups := createdSecurityGroups + 1;
      case ModifyInstanceAttribute(_, _, _) => modifiedInstanceAttributes := modifiedInstanceAttributes + 1;
      case AddRule(_, _) => addedRules := addedRules + 1;
      case RemoveRule(_, _) => removedRules := removedRules + 1;
    }

    /** The rendered summary, built part by part. */
    method Repr() returns (s: string)
      ensures s == Render(Current())
    {
      var r: seq<string> := [];
      if createdSecurityGroups > 0 {
        r := r + [DecimalString(createdSecurityGroups) + " group(s) created"];
      }
      ghost var a := r;
      if modifiedInstanceAttributes > 0 {
        r := r + [DecimalString(modifiedInstanceAttributes) + " instance(s) updated"];
      }
      ghost var b := r;
      if addedRules > 0 {
        r := r + [DecimalString(addedRules) + " rule(s) added"];
      }
      ghost var d := r;
      if removedRules > 0 {
        r := r + [DecimalString(removedRules) + " rule(s) removed"];
      }
      assert a == Part(createdSecurityGroups, " group(s) created");
      assert b == a + Part(modifiedInstanceAttributes, " instance(s) updated");
      assert d == b + Part(addedRules, " rule(s) added");
      assert r == d + Part(removedRules, " rule(s) removed");
      assert r == Parts(Current());
      if r == [] {
        return "No changes";
      }
      return Join(r, ", ");
    }
  }
}
