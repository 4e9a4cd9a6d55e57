# HotCIDR apply — a Dafny model

HotCIDR keeps AWS EC2 security groups in line with a firewall configuration
kept in a git repository. Its `apply` step works in two parts.

- **The diff** (`get_actions`). It compares the desired snapshot, loaded from
  the repository, with the live snapshot, fetched from the provider. It
  produces an ordered list of actions in three phases:
  1. create each desired group that is not live;
  2. reset the group membership of each live instance whose declared groups
     differ from its live ones;
  3. for each desired group, remove the live rules that are not desired, then
     add the desired rules that are not live.

  Groups are never deleted. A rule is identified by its four fields
  `(direction, location, protocol, ports)`. An absent field counts as null.
- **The executor** (`main`'s loop and the action classes). It announces each
  action with its position, runs it against the provider connection unless
  this is a dry run, and prints a summary of the action counts.

  Running a rule action works in three steps:
  1. choose authorize or revoke, on ingress or egress, from the direction;
  2. resolve the wildcards: protocol `all` becomes -1, location `all` becomes
     `0.0.0.0/0`, and absent ports become -1..-1;
  3. fan out one call per id of the target group. When the location is not a
     CIDR, the intended fan-out is one call per pair of target id and source
     group id; the code as written serves the target ids after the first with
     fewer source ids (see Findings). A source-group call is retried once under
     the provider's alternative keyword.

The model is split into these modules:

| file | module | contents |
|---|---|---|
| `wrappers.dfy` | `Wrappers` | the Option and Result datatypes |
| `collections.dfy` | `Collections` | distinctness, element sets, enumerated set difference |
| `records.dfy` | `Records` | the loaded record shapes and the dictionaries with their iteration order |
| `rules.dfy` | `Rules` | rule identity |
| `actions.dfy` | `Actions` | the action datatype |
| `diff.dfy`, `diff_laws.dfy`, `diff_examples.dfy` | `Diff`, `DiffLaws`, `DiffExamples` | the diff, its laws, and worked examples |
| `connection.dfy` | `Connection` | the calls, a `Connector` class that records every call it is sent, and the run-until-failure semantics |
| `execution.dfy` | `Execution` | wildcard resolution, direction dispatch, fan-out and retry, as functions and as methods on the connector |
| `changes.dfy` | `Summary` | the `Changes` counters and their rendering |
| `executor.dfy` | `Executor` | the executor loop |

Three behaviours of the code that the model keeps:

- **The diff can fail.** `get_actions` reads `aws_inst['groups']`
  (apply.py:153) and `aws_groups[g]` (apply.py:154-155), which raise
  `KeyError` when the key is missing. The model returns
  `LiveInstanceWithoutGroups` or `UnknownGroup`.
  `DiffExamples.JoiningNewGroupFails` shows the common case: an instance asked
  to join a group that the same diff creates.
- **No summary after a failed action.** An exception raised by `action(conn)`
  (apply.py:228) leaves `main` before `print(Changes(actions))`
  (apply.py:230). `Executor.Execute` returns the summary only when no action
  failed.
- **The retry follows any failure.** The bare `except:` (apply.py:84-89)
  reissues a `src_group_id` call under `src_security_group_group_id` whatever
  the failure was.

## Model

| member | source | states |
|---|---|---|
| Rules.GroupRules | HotCIDR/hotcidr/apply.py:125-131 | a group without a `rules` key yields no rule; otherwise one rule per rule record |
| Rules.RuleOf | HotCIDR/hotcidr/apply.py:128-131 | a rule is its record cut down to direction, location, protocol and ports, each absent one filled in with null |
| Rules.SameRuleIff | HotCIDR/hotcidr/apply.py:123-131 | two rule records have the same identity iff they agree on direction, location, protocol and ports, an absent key reading as null |
| Rules.NullSameAsAbsent | HotCIDR/hotcidr/apply.py:128-130 | an identity key that is absent gives the same rule as one that is present with value null |
| Rules.OtherKeysIgnored | HotCIDR/hotcidr/apply.py:128 | keys other than the four identity attributes do not change the rule |
| Rules.RecordRoundTrip | HotCIDR/hotcidr/apply.py:123-131 | a record built from a rule canonicalises back to that rule |
| Rules.InRuleSetIff | HotCIDR/hotcidr/apply.py:125-131 | a rule is in a group's rule set iff some record of the group has it as its identity |
| Rules.AllLocationIsItsOwnValue | HotCIDR/hotcidr/apply.py:123-131 | the sentinel location `all` is kept as written; it is a different rule from `0.0.0.0/0` |
| Collections.Minus | HotCIDR/hotcidr/apply.py:172-175 | the enumerated set difference has exactly the elements of the first set not in the second, each once |
| Diff.CreatePhase | HotCIDR/hotcidr/apply.py:141-147 | every create names a desired group that is not live, with its description or "Automatically created by HotCIDR"; every such group gets one; no duplicates |
| Diff.ResolveIds | HotCIDR/hotcidr/apply.py:154-155 | succeeds iff every name is a live group; the result is the set of ids of those that have one; otherwise the error names a missing group |
| Diff.MembershipPhase | HotCIDR/hotcidr/apply.py:150-158 | fails iff some live instance trips a missing key; otherwise exactly one `groupSet` update per live, declared instance whose group set differs, carrying the live ids of its declared groups |
| Diff.Tag | HotCIDR/hotcidr/apply.py:172-175 | one removal (or addition) per rule, in order, and nothing else |
| Diff.GroupRuleActions | HotCIDR/hotcidr/apply.py:163-175 | for one desired group: removals are exactly live minus desired, additions exactly desired minus live, a group not live having no live rules |
| Diff.TagDistinct | HotCIDR/hotcidr/apply.py:172-175 | distinct rules give distinct actions |
| Diff.RemovalsThenAdditions | HotCIDR/hotcidr/apply.py:171-175 | removals followed by additions have no duplicate and put every removal first |
| Diff.GroupRuleActionsOrdered | HotCIDR/hotcidr/apply.py:171-175 | one group's rule actions have no duplicate, and removals come before additions |
| Diff.JoinOrdered | HotCIDR/hotcidr/apply.py:163-175 | joining the actions of two different groups keeps both properties |
| Diff.RulePhase | HotCIDR/hotcidr/apply.py:163-175 | over every desired group: removals are exactly its live-but-undesired rules, additions exactly its desired-but-not-live rules; no rule action names another group |
| Diff.RulePhaseOrdered | HotCIDR/hotcidr/apply.py:163-175 | the rule phase has no duplicate, and in each group every removal precedes every addition |
| Diff.GetActions | HotCIDR/hotcidr/apply.py:133-175 | the diff fails iff some live instance trips a missing key in the membership phase |
| DiffLaws.Unfold | HotCIDR/hotcidr/apply.py:133-175 | a successful diff is the creation phase, then the membership phase, then the rule phase |
| DiffLaws.ConcatInPhaseOrder | HotCIDR/hotcidr/apply.py:140-175 | three blocks of phases 0, 1 and 2, concatenated, are in phase order |
| DiffLaws.PhasesInOrder | HotCIDR/hotcidr/apply.py:140-175 | every creation precedes every membership update, which precedes every rule action |
| DiffLaws.KindOnlyInFront | HotCIDR/hotcidr/apply.py:140-175 | an action kind absent from the tail of a list sits in its head |
| DiffLaws.CreatesEveryMissingGroup | HotCIDR/hotcidr/apply.py:141-147 | each desired group that is not live is created with its description |
| DiffLaws.CreatesOnlyMissingGroups | HotCIDR/hotcidr/apply.py:141-147 | only desired groups that are not live are created |
| DiffLaws.CreationNamesUnique | HotCIDR/hotcidr/apply.py:141-147 | creations of distinct groups in the head of a list never share a name |
| DiffLaws.CreatesEachGroupOnce | HotCIDR/hotcidr/apply.py:141-147 | no group is created twice |
| DiffLaws.UpdatedInstancesUnique | HotCIDR/hotcidr/apply.py:150-156 | updates of distinct instances in the middle block never share an instance |
| DiffLaws.MembershipUpdatesExact | HotCIDR/hotcidr/apply.py:150-158 | `ModifyInstanceAttribute(id, attr, v)` is emitted iff `id` is live, declared and stale, `attr` is `groupSet` and `v` is the live ids of its declared groups |
| DiffLaws.UpdatesEachInstanceOnce | HotCIDR/hotcidr/apply.py:150-156 | no instance is updated twice |
| DiffLaws.RuleActionsAreRulePhase | HotCIDR/hotcidr/apply.py:163-175 | the rule actions of the diff are exactly those of the rule phase |
| DiffLaws.RemovesExactlyUndesired | HotCIDR/hotcidr/apply.py:166-173 | for each desired group, a rule is removed iff it is live and not desired |
| DiffLaws.AddsExactlyMissing | HotCIDR/hotcidr/apply.py:166-175 | for each desired group, a rule is added iff it is desired and not live |
| DiffLaws.RulesOnlyForDesiredGroups | HotCIDR/hotcidr/apply.py:160-163 | rule actions name only desired groups; groups that are only live are left alone, and nothing is deleted |
| DiffLaws.RemovesFirstAfterPrefix | HotCIDR/hotcidr/apply.py:140-175 | putting non-rule actions in front keeps removals before additions |
| DiffLaws.RemovesBeforeAdds | HotCIDR/hotcidr/apply.py:171-175 | in the whole diff, every removal from a group precedes every addition to it |
| DiffLaws.NoDuplicateActions | HotCIDR/hotcidr/apply.py:133-175 | the diff never emits the same action twice |
| DiffLaws.Convergence | HotCIDR/hotcidr/apply.py:163-175 | per desired group: only live rules are removed, only non-live rules are added, and live minus removed plus added is the desired rule set |
| DiffLaws.CreatePhaseInSync | HotCIDR/hotcidr/apply.py:141-147 | no creation when every desired group is live |
| DiffLaws.MembershipPhaseInSync | HotCIDR/hotcidr/apply.py:150-158 | no update when every declared group set is the live one |
| DiffLaws.RulePhaseInSync | HotCIDR/hotcidr/apply.py:163-175 | no rule action when every desired group has its rule set live |
| DiffLaws.InSyncDiffIsEmpty | HotCIDR/hotcidr/apply.py:133-175 | diffing an in-sync state succeeds with no action |
| DiffLaws.ReDiffAfterApplyIsEmpty | HotCIDR/hotcidr/apply.py:133-175 | when live group ids are distinct and every group declared for a stale instance is live with an id: after the rule actions take effect and each updated instance is put in the live groups whose ids its update carries, a fresh diff is empty |
| DiffLaws.NamesOfLiveIds | HotCIDR/hotcidr/apply.py:154-155 | the names read back from the resolved ids are the declared names, when each is a live group with an id and live ids are distinct |
| DiffLaws.MembershipInSyncAfter | HotCIDR/hotcidr/apply.py:150-156 | once the updates take effect under those conditions, every declared live instance has its declared group set |
| DiffLaws.MembershipReadsOnlyLiveIds | HotCIDR/hotcidr/apply.py:150-151 | the membership phase reads the desired instances only at live instance ids |
| DiffLaws.OnlyLiveInstancesMatter | HotCIDR/hotcidr/apply.py:150-158 | desired instances that are not live never affect the diff |
| DiffExamples.WebPortSwap | HotCIDR/hotcidr/apply.py:163-175 | a group that should allow port 80 and allows port 22 gets the port-22 removal, then the port-80 addition |
| DiffExamples.WebRuleActions | HotCIDR/hotcidr/apply.py:171-175 | in that example, the group's rule actions are the port-22 removal, then the port-80 addition |
| DiffExamples.InstanceLeavesGroup | HotCIDR/hotcidr/apply.py:150-156 | an instance in web and db that should be in web only gets one update to the id of web |
| DiffExamples.JoiningNewGroupFails | HotCIDR/hotcidr/apply.py:154 | an instance asked to join a group that is only being created makes the diff fail on that group |
| DiffExamples.IdlessGroupNeverJoined | HotCIDR/hotcidr/apply.py:150-156 | an instance declared in `web` and in a live group without an id gets an update to the id of `web` only; the groups that update puts it in are `web` alone, so the live state is unchanged and the next diff emits it again |
| DiffExamples.IdlessGroupUpdate | HotCIDR/hotcidr/apply.py:150-156 | the membership phase of that example is the one update to the id of `web` |
| DiffExamples.IdlessGroupRules | HotCIDR/hotcidr/apply.py:141-175 | the creation and rule phases of that example are empty |
| Connection.StepsStopAtFailure | HotCIDR/hotcidr/apply.py:224-228 | once a prefix has failed, nothing after it runs |
| Connection.Steps | HotCIDR/hotcidr/apply.py:224-228 | a run that does not fail ran every step without failure |
| Connection.StepsSnoc | HotCIDR/hotcidr/apply.py:224-228 | running one more element runs the list, then the element |
| Connection.ThenOne | HotCIDR/hotcidr/apply.py:224-228 | an empty success before a run changes nothing |
| Connection.ThenAssoc | HotCIDR/hotcidr/apply.py:224-228 | sequencing runs is associative |
| Connection.StepsAppend | HotCIDR/hotcidr/apply.py:64-89 | running a concatenation runs the first part, then the second |
| Connection.Attempt | HotCIDR/hotcidr/apply.py:75-89 | a call is issued; it is reissued under the alternative keyword iff it was rejected and has one; it fails iff the last call issued was rejected |
| Connection.PerformExtend | HotCIDR/hotcidr/apply.py:64-89 | after a successful prefix, a batch adds its calls and decides the outcome; a failed batch ends the run |
| Connection.PerformOne | HotCIDR/hotcidr/apply.py:24-25 | issuing one call is one attempt |
| Connection.PerformAccepted | HotCIDR/hotcidr/apply.py:64-89 | when the provider accepts every call, exactly the planned calls are issued and nothing fails |
| Connection.Connector.Send | HotCIDR/hotcidr/apply.py:24-25 | every call is recorded in the trace, accepted or not; the result is whether the provider accepted it |
| Execution.OpFor | HotCIDR/hotcidr/apply.py:92-98 | inbound gives ingress and outbound gives egress; revoke for removals, authorize for additions; any other direction is an `InvalidDirection` error |
| Execution.WireProtocol | HotCIDR/hotcidr/apply.py:48-50 | protocol `all` is never sent; any other protocol is sent as it is |
| Execution.WireLocation | HotCIDR/hotcidr/apply.py:51-53 | location `all` is never sent; any other location is sent as it is |
| Execution.WirePorts | HotCIDR/hotcidr/apply.py:55-61 | absent (false) ports give -1..-1; a range gives its own from-port and to-port; set ports that are not a range are an error |
| Execution.Resolve | HotCIDR/hotcidr/apply.py:107-114 | an invalid direction is reported before the ports are looked at |
| Execution.CallsFor | HotCIDR/hotcidr/apply.py:65-83 | every call for one target id carries the resolved operation, protocol and ports to that id |
| Execution.FanOut | HotCIDR/hotcidr/apply.py:63-83 | as intended: every call carries the resolved operation, protocol and ports to one of the target ids |
| Execution.CallsForCalls | HotCIDR/hotcidr/apply.py:65-83 | a target id gets the single CIDR call when the location is a CIDR, else one call per source id |
| Execution.FanOutCalls | HotCIDR/hotcidr/apply.py:63-83 | the fan-out is exactly the batches of the target ids |
| Execution.FanOutLength | HotCIDR/hotcidr/apply.py:63-83 | the fan-out has one batch per target id, each of one call or of one call per source id |
| Execution.FanOutGrows | HotCIDR/hotcidr/apply.py:63-64 | more target ids only extend the fan-out |
| Execution.FanOutSnoc | HotCIDR/hotcidr/apply.py:63-64 | one more target id appends its batch |
| Execution.FanOutCons | HotCIDR/hotcidr/apply.py:63-64 | the first target id's batch comes first |
| Execution.FanOutAsWritten | HotCIDR/hotcidr/apply.py:63-89 | as written: every call still carries the resolved operation, protocol and ports to one of the target ids; only the sources differ |
| Execution.AsWrittenAgreesOnCidr | HotCIDR/hotcidr/apply.py:64-70 | as written and as intended agree when the location is a CIDR |
| Execution.AsWrittenAgreesOnOneGroupId | HotCIDR/hotcidr/apply.py:63-74 | as written and as intended agree for a group with one id |
| Execution.AsWrittenSecondTarget | HotCIDR/hotcidr/apply.py:63-89 | as written, for every `get_sgid`: with a non-CIDR location naming at least one source id, the second target id is served with the location rebound to the last source id, and gets the calls for whatever that id looks up to |
| Execution.AsWrittenDropsSourceIds | HotCIDR/hotcidr/apply.py:72-89 | as written, when `get_sgid` maps a group id to itself: for a two-id source group, the second target id is opened only to the last source id (3 calls instead of 4) |
| Execution.PlanRule | HotCIDR/hotcidr/apply.py:47-121 | planning fails iff the direction is invalid or the ports are set but not a range, the direction being checked first; otherwise every call goes to an id of the rule's group under the direction's operation |
| Execution.RuleWireFormat | HotCIDR/hotcidr/apply.py:47-89 | an invalid direction is rejected before any call; every planned call targets an id of the rule's group under the direction's operation; `all` is never sent as a protocol; absent ports are sent as -1..-1 and a range as its own bounds; location `all` is sent as the CIDR 0.0.0.0/0 (when `is_cidr` accepts it) |
| Execution.Plan | HotCIDR/hotcidr/apply.py:24-116 | only rule actions can fail before a call; a create plans exactly `create_security_group(name, desc)` and an update exactly `modify_instance_attribute(inst_id, attr, value)`, one call each; a removal plans only revoke calls and an addition only authorize calls, all on ids of the rule's group |
| Execution.CreateOrUpdateOutcome | HotCIDR/hotcidr/apply.py:24-37 | a create or an update issues its one call with no retry, and fails exactly when the provider rejects that call |
| Execution.TryCall | HotCIDR/hotcidr/apply.py:77-89 | the trace and the error are those of one attempt with its retry |
| Execution.SourceCallsSnoc | HotCIDR/hotcidr/apply.py:74 | one more source id appends its call |
| Execution.SendToSources | HotCIDR/hotcidr/apply.py:73-89 | the inner loop issues the source calls with their retries until one fails |
| Execution.SendFor | HotCIDR/hotcidr/apply.py:65-89 | one target id: the CIDR call, or the source calls |
| Execution.FanOutStep | HotCIDR/hotcidr/apply.py:64-89 | one turn of the outer loop either extends the successful run by one target id or ends the whole fan-out with that batch's failure |
| Execution.ApplyRule | HotCIDR/hotcidr/apply.py:47-121 | `AddRule` and `RemoveRule` issue exactly the planned calls of the corrected fan-out (see Findings), in order, until one fails; an unresolvable rule issues none |
| Execution.SendFanOut | HotCIDR/hotcidr/apply.py:63-89 | the outer loop issues every target id's calls of the corrected fan-out (see Findings) until one fails |
| Execution.Apply | HotCIDR/hotcidr/apply.py:24-40 | every action issues exactly its planned calls (corrected fan-out, see Findings) until one fails, and reports that failure |
| Summary.Bump | HotCIDR/hotcidr/apply.py:188-197 | counting one action raises the total by exactly one |
| Summary.Tally | HotCIDR/hotcidr/apply.py:178-197 | every action is counted exactly once: the counters sum to the number of actions |
| Summary.TallyCountsKinds | HotCIDR/hotcidr/apply.py:178-197 | each counter is the number of actions of its kind |
| Summary.TallyAppend | HotCIDR/hotcidr/apply.py:184-186 | counting is additive over concatenation |
| Summary.Digit | HotCIDR/hotcidr/apply.py:202 | a digit is a character from 0 to 9 |
| Summary.DecimalString | HotCIDR/hotcidr/apply.py:202 | `%d` gives digits only, starting with a non-zero digit for a non-zero number, and reading it back gives the number |
| Summary.Join | HotCIDR/hotcidr/apply.py:211 | a join starts with its first part |
| Summary.Part | HotCIDR/hotcidr/apply.py:201-208 | a zero counter contributes nothing; a non-zero one contributes one part, which starts with a non-zero digit |
| Summary.Parts | HotCIDR/hotcidr/apply.py:199-208 | one part per non-zero counter, each starting with a non-zero digit |
| Summary.Shown | HotCIDR/hotcidr/apply.py:199-208 | the kinds shown are exactly those with a non-zero counter, in the fixed order created, updated, added, removed |
| Summary.PartsInOrder | HotCIDR/hotcidr/apply.py:199-208 | part `i` is the decimal count of the `i`-th shown kind, reading back to that counter, followed by that kind's suffix |
| Summary.PartsStep | HotCIDR/hotcidr/apply.py:201-208 | appending the part of one more kind keeps parts and shown kinds in step |
| Summary.Render | HotCIDR/hotcidr/apply.py:199-211 | "No changes" iff every counter is zero; otherwise the text opens with a non-zero digit |
| Summary.NoChangesIffNoActions | HotCIDR/hotcidr/apply.py:178-211 | "No changes" is rendered iff there are no actions |
| Summary.TallyExample | HotCIDR/hotcidr/apply.py:188-197 | a create, two additions and a removal count as 1, 0, 2, 1 |
| Summary.PartsExample | HotCIDR/hotcidr/apply.py:199-208 | those counts give three parts, in the fixed order |
| Summary.PartExample | HotCIDR/hotcidr/apply.py:201-208 | a one-digit non-zero count gives the single part "<digit><suffix>" |
| Summary.SummaryExample | HotCIDR/hotcidr/apply.py:177-211 | they render as "1 group(s) created, 2 rule(s) added, 1 rule(s) removed" |
| Summary.EmptySummary | HotCIDR/hotcidr/apply.py:209-210 | no actions render as "No changes" |
| Summary.Changes.constructor | HotCIDR/hotcidr/apply.py:178-186 | the counters are those of the whole action list |
| Summary.Changes.Count | HotCIDR/hotcidr/apply.py:188-197 | exactly the counter of the action's kind goes up by one |
| Summary.Changes.Repr | HotCIDR/hotcidr/apply.py:199-211 | the rendering of the current counters |
| Executor.AnnouncedSnoc | HotCIDR/hotcidr/apply.py:224-225 | one more action appends its line |
| Executor.RunActions | HotCIDR/hotcidr/apply.py:224-228 | a run of the actions that does not fail resolved every action |
| Executor.AbortsAtInvalidAction | HotCIDR/hotcidr/apply.py:224-228 | an action whose rule cannot be resolved ends the run with its error; the calls of earlier actions stay issued, and no call of a later action is issued |
| Executor.RunAllAccepted | HotCIDR/hotcidr/apply.py:224-228 | when the provider accepts everything and every action resolves, exactly the planned calls of all actions are issued, in order, and the run does not fail |
| Executor.RunActionsSnoc | HotCIDR/hotcidr/apply.py:224-228 | after successful actions, the next adds its calls; if it fails, nothing after it runs |
| Executor.Execute | HotCIDR/hotcidr/apply.py:222-230 | a dry run issues no call and returns the summary. Otherwise the trace grows by exactly the run's calls (corrected fan-out, see Findings), and the summary is returned iff no action failed. Every action up to and including the failing one is announced, and that action is the first to fail |
| Executor.Summarise | HotCIDR/hotcidr/apply.py:230 | the summary of every action, whether or not it was run |

## Left out

- Loading and fetching the snapshots is not part of this model: `util.load_boxes`, `util.load_groups`, `fetch.vpc` and `util.repo` (apply.py:134-138, 214-215). Snapshots are inputs, and a dictionary's iteration order is part of its input.
- The iteration order of a Python set difference (apply.py:172-175) follows hashing. The model enumerates it in first-occurrence order. Every law about rule actions is stated over sets and holds for any order.
- Opening the provider connection (apply.py:218-220) is left out. The connection is a `Connector` whose answers come from its fixed `rejects` predicate, so a provider's answer depends only on the call: two identical calls always get the same answer, and a provider that accepts a call once and rejects the same call later as a duplicate is not modelled. A dry run opens the connection as well; the model does not.
- `util.get_sgid` and `util.is_cidr` are not part of this model. The first is the connector's `groupIds` lookup; the second is a parameter. Both are uninterpreted. Because `groupIds` is a constant of the connector, its answers are fixed for the whole run: the lookup cannot fail, and it cannot see a group created earlier in the same run. For action lists produced by the diff this is harmless, since all creations come first and a failed creation stops the run.
- Printing is left out: the "Adding group" and "Skipping instance" messages (apply.py:143, 158), `sys.stdout.flush`, and the `__repr__` texts of actions (apply.py:27-28, 39-40, 102-105, 118-121). Progress lines are returned as `Progress` values instead.
- `Action.__eq__` and `__hash__` (apply.py:13-17) compare instance dictionaries. An `AddRule` and a `RemoveRule` with the same group and rule are therefore equal in Python. The diff never puts both in one list (`DiffLaws.Convergence`: removed rules are live and added ones are not), so the model uses structural equality of distinct variants.
- `Changes.count`'s `assert isinstance(action, Action)` (apply.py:189) cannot fail on the closed `Action` datatype.
- Exceptions other than those modelled are left out: a provider failure during `create_security_group` or `modify_instance_attribute` is modelled as a rejected call, and an unhashable rule value is not modelled.
- Execution.FanOut: the fan-out the rest of the model uses is the corrected one (see Findings). It looks up the source ids once per rule, from the resolved location, and serves every target id with all of them. The as-written behaviour is modelled separately as `Execution.FanOutAsWritten`.
- DiffLaws.ReDiffAfterApplyIsEmpty: holds only when live group ids are distinct and every group declared for a stale instance is live with an id. A live group without an id is dropped from the update (apply.py:154-155), so the instance never joins it and every later diff emits the same update again (`DiffExamples.IdlessGroupNeverJoined`).

## Findings

| source | as written | input that shows it | evidently intended | confidence | as-written member | corrected member |
|---|---|---|---|---|---|---|
| HotCIDR/hotcidr/apply.py:63-89 | the inner `for loc in locs` reuses `loc`, the variable holding the resolved location, so every target id after the first is served with the last source id as its location | a rule on a group with ids sg-a and sg-b whose location is group `web` with ids sg-w1 and sg-w2, when `get_sgid` maps a group id to itself: sg-a is opened to both, sg-b only to sg-w2 (3 calls instead of 4); for any `get_sgid`, sg-b gets the calls for what sg-w2 looks up to (`Execution.AsWrittenSecondTarget`) | every target id is opened to every source id of the location | medium, not executed | Execution.AsWrittenDropsSourceIds | Execution.FanOutCalls |
