/**
 Which VMs a run deletes, or in dry-run mode names, and in which order:
 exactly the INACTIVE, not-yet-deleting VMs of the listing, in API order,
 that the operator confirms in turn, cut short where the run stops.
 */
module RunIntents {
  import opened Text
  import opened Types
  import opened Trace
  import opened Guard
  import opened Paths
  import opened DebugOutput
  import opened Report
  import opened Scan
  import opened RunProperties

  /** A VM together with the group it is listed under. */
  datatype Target = Target(groupId: int, vm: Vm)

  function Targets(groupId: int, vms: seq<Vm>): seq<Target>
    decreases |vms|
  {
    if vms == [] then [] else [Target(groupId, vms[0])] + Targets(groupId, vms[1..])
  }

  lemma TargetsCons(groupId: int, vms: seq<Vm>, more: seq<Target>)
    requires vms != []
    ensures Targets(groupId, vms) + more == [Target(groupId, vms[0])] + (Targets(groupId, vms[1..]) + more)
  {
  }

  /** Every VM of the listing, in API order. */
  function Flatten(groups: seq<Group>): seq<Target>
    decreases |groups|
  {
    if groups == [] then [] else Targets(groups[0].id, groups[0].vms) + Flatten(groups[1..])
  }

  function TargetPath(t: Target): string {
    DeletePath(t.groupId, t.vm.id)
  }

  /** What one target contributes to the expected paths: the paths named,
      the operator answers left, and whether a rejected delete call ends
      the run there. */
  datatype Step = Step(named: seq<string>, rest: seq<string>, last: bool)

  /** An eligible target is named outright in dry-run mode, and in live
      mode when its answer is affirmative; a rejected delete call is the
      last one. */
  function ExpectedStep(dryRun: bool, t: Target, responses: seq<string>, deleteFails: string -> bool): Step {
    if Classify(t.vm) != Eligible then Step([], responses, false)
    else if dryRun then Step([TargetPath(t)], responses, false)
    else
      var (answer, more) := NextResponse(responses);
      if !Affirmative(answer) then Step([], more, false)
      else Step([TargetPath(t)], more, deleteFails(TargetPath(t)))
  }

  /** The delete paths a run names for the targets `ts`, reading operator
      answers from `responses`. */
  function ExpectedIntents(dryRun: bool, ts: seq<Target>, responses: seq<string>,
                           deleteFails: string -> bool): seq<string>
    decreases |ts|
  {
    if ts == [] then []
    else
      var s := ExpectedStep(dryRun, ts[0], responses, deleteFails);
      if s.last then s.named else s.named + ExpectedIntents(dryRun, ts[1..], s.rest, deleteFails)
  }

  /** The first step of `ExpectedIntents` on a list with a known head. */
  lemma ExpectedIntentsCons(dryRun: bool, t: Target, more: seq<Target>, responses: seq<string>,
                            deleteFails: string -> bool)
    ensures var s := ExpectedStep(dryRun, t, responses, deleteFails);
            ExpectedIntents(dryRun, [t] + more, responses, deleteFails) ==
              if s.last then s.named else s.named + ExpectedIntents(dryRun, more, s.rest, deleteFails)
  {
    assert ([t] + more)[0] == t && ([t] + more)[1..] == more;
  }

  /** The paths a VM step names: its own, exactly when it reaches the
      protocol and is either in dry-run mode or confirmed. */
  lemma VmDigestIntents(env: Env, groupId: int, vm: Vm, st: ScanState)
    ensures var answer := NextResponse(st.responses).0;
            VmDigest(env, groupId, vm, st).intents ==
              if ReachesGuard(env, vm, st) && (env.dryRun || Affirmative(answer))
              then [DeletePath(groupId, vm.id)] else []
  {
    if |vm.instances| > 0 && Classify(vm) != Inert {
      var call := JsonOutputPath(st.output, JsonPathPrefix(env.cwd), env.clock);
      if !((call.wrote && env.writeFails) || Classify(vm) == InDeletion) {
        var answer := NextResponse(st.responses).0;
        var g := GuardDigest(env.dryRun, DeletePath(groupId, vm.id), answer, Affirmative(answer));
        assert NotedDigest(vm, call).Plus(g).intents == g.intents;
      }
    }
  }

  /** One VM step against the expected step of its target. */
  lemma VmIntents(env: Env, groupId: int, vm: Vm, st: ScanState)
    ensures var r := VisitVm(env, groupId, vm, st);
            var got := DigestOf(r.events).intents;
            var s := ExpectedStep(env.dryRun, Target(groupId, vm), st.responses, env.deleteFails);
            && (r.Proceed? ==> got == s.named && r.next.responses == s.rest && !s.last)
            && (r.Stop? ==> got <= s.named)
  {
    VisitVmDigest(env, groupId, vm, st);
    VmDigestIntents(env, groupId, vm, st);
    VisitVmStops(env, groupId, vm, st);
    VisitVmNext(env, groupId, vm, st);
  }

  /** The paths named by `t` are a prefix of `e`, and all of it when `t`
      does not stop. */
  predicate IntendsWithin(t: seq<Action>, e: seq<string>) {
    DigestOf(t).intents <= e && (NoTerminal(t) ==> DigestOf(t).intents == e)
  }

  lemma IntendsConcat(a: seq<Action>, b: seq<Action>, x: seq<string>, e: seq<string>)
    requires NoTerminal(a) && DigestOf(a).intents == x && IntendsWithin(b, e)
    ensures IntendsWithin(a + b, x + e)
  {
    DigestConcat(a, b);
    NoTerminalConcat(a, b);
    PrefixPrepend(x, DigestOf(b).intents, e);
  }

  /** One VM step followed, when it carries on, by the rest of the run. */
  lemma VmStepIntends(env: Env, groupId: int, vm: Vm, st: ScanState, more: seq<Target>, tail: seq<Action>)
    requires var r := VisitVm(env, groupId, vm, st);
             r.Proceed? ==> IntendsWithin(tail, ExpectedIntents(env.dryRun, more, r.next.responses, env.deleteFails))
    ensures var r := VisitVm(env, groupId, vm, st);
            IntendsWithin(if r.Proceed? then r.events + tail else r.events,
                          ExpectedIntents(env.dryRun, [Target(groupId, vm)] + more, st.responses, env.deleteFails))
  {
    var r := VisitVm(env, groupId, vm, st);
    var s := ExpectedStep(env.dryRun, Target(groupId, vm), st.responses, env.deleteFails);
    var e := ExpectedIntents(env.dryRun, [Target(groupId, vm)] + more, st.responses, env.deleteFails);
    VmIntents(env, groupId, vm, st);
    VisitVmEnds(env, groupId, vm, st);
    ExpectedIntentsCons(env.dryRun, Target(groupId, vm), more, st.responses, env.deleteFails);
    if r.Proceed? {
      IntendsConcat(r.events, tail, s.named, ExpectedIntents(env.dryRun, more, s.rest, env.deleteFails));
    } else {
      PrefixWithin(DigestOf(r.events).intents, s.named, e);
    }
  }

  lemma PrefixWithin(a: seq<string>, b: seq<string>, c: seq<string>)
    requires a <= b && (c == b || b <= c)
    ensures a <= c
  {
    assert c[..|b|] == b;
    assert c[..|a|] == b[..|a|];
  }

  lemma {:induction false} VisitVmsIntends(env: Env, groupId: int, vms: seq<Vm>, rest: seq<Group>, st: ScanState)
    ensures IntendsWithin(VisitVms(env, groupId, vms, rest, st),
                          ExpectedIntents(env.dryRun, Targets(groupId, vms) + Flatten(rest), st.responses, env.deleteFails))
    decreases |rest|, |vms| + 1
  {
    if vms == [] {
      VisitGroupsIntends(env, rest, st);
      QuietIntends(GroupEnd, VisitGroups(env, rest, st),
                   ExpectedIntents(env.dryRun, Flatten(rest), st.responses, env.deleteFails));
      assert Targets(groupId, vms) + Flatten(rest) == Flatten(rest);
    } else {
      var r := VisitVm(env, groupId, vms[0], st);
      var more := Targets(groupId, vms[1..]) + Flatten(rest);
      TargetsCons(groupId, vms, Flatten(rest));
      if r.Proceed? {
        VisitVmsIntends(env, groupId, vms[1..], rest, r.next);
        VmStepIntends(env, groupId, vms[0], st, more, VisitVms(env, groupId, vms[1..], rest, r.next));
      } else {
        VmStepIntends(env, groupId, vms[0], st, more, []);
      }
    }
  }

  lemma {:induction false} VisitGroupsIntends(env: Env, groups: seq<Group>, st: ScanState)
    ensures IntendsWithin(VisitGroups(env, groups, st),
                          ExpectedIntents(env.dryRun, Flatten(groups), st.responses, env.deleteFails))
    decreases |groups|, 0
  {
    if groups != [] {
      var g := groups[0];
      if |g.vms| == 0 {
        VisitGroupsIntends(env, groups[1..], st);
        FlattenSkipsEmpty(groups);
        QuietIntends(Header(g), VisitGroups(env, groups[1..], st),
                     ExpectedIntents(env.dryRun, Flatten(groups[1..]), st.responses, env.deleteFails));
      } else {
        VisitVmsIntends(env, g.id, g.vms, groups[1..], st);
        QuietIntends(Header(g), VisitVms(env, g.id, g.vms, groups[1..], st),
                     ExpectedIntents(env.dryRun, Flatten(groups), st.responses, env.deleteFails));
      }
    }
  }

  lemma FlattenSkipsEmpty(groups: seq<Group>)
    requires groups != [] && groups[0].vms == []
    ensures Flatten(groups) == Flatten(groups[1..])
  {
    assert Targets(groups[0].id, groups[0].vms) == [];
  }

  /** A header or closing line names no path. */
  lemma QuietIntends(a: Action, tail: seq<Action>, e: seq<string>)
    requires a.GroupHeader? || a.GroupCount? || a == GroupEnd
    requires IntendsWithin(tail, e)
    ensures IntendsWithin([a] + tail, e)
  {
    if a.GroupHeader? {
      DigestHeader(a);
    } else {
      DigestQuiet(a);
    }
    IntendsConcat([a], tail, [], e);
    assert [] + e == e;
  }

  /** The paths a run deletes (or logs in dry-run mode) are the expected
      ones for the listing in API order, cut short where the run stops, and
      all of them when it does not stop. */
  lemma RunIntends(env: Env, groups: seq<Group>, responses: seq<string>)
    ensures var t := Run(env, groups, responses);
            var e := ExpectedIntents(env.dryRun, Flatten(groups), responses, env.deleteFails);
            DigestOf(t).intents <= e && (NoTerminal(t) ==> DigestOf(t).intents == e)
  {
    var st := ScanState(responses, Unset);
    var e := ExpectedIntents(env.dryRun, Flatten(groups), responses, env.deleteFails);
    VisitGroupsIntends(env, groups, st);
    QuietIntends(GroupCount(|groups|), VisitGroups(env, groups, st), e);
  }

  /** With the VM reportable and the file writable, a step stops only at a
      confirmed delete call the API rejects: it names its path, and the
      reference ends there too. */
  lemma VmStopIntents(env: Env, groupId: int, vm: Vm, st: ScanState)
    requires |vm.instances| > 0 && !env.writeFails
    ensures var r := VisitVm(env, groupId, vm, st);
            var s := ExpectedStep(env.dryRun, Target(groupId, vm), st.responses, env.deleteFails);
            r.Stop? ==> DigestOf(r.events).intents == s.named && s.last
  {
    VisitVmDigest(env, groupId, vm, st);
    VmDigestIntents(env, groupId, vm, st);
    VisitVmStops(env, groupId, vm, st);
  }

  /** The paths named by `t` are exactly `e`. */
  predicate IntendsAll(t: seq<Action>, e: seq<string>) {
    DigestOf(t).intents == e
  }

  lemma IntendsAllConcat(a: seq<Action>, b: seq<Action>, x: seq<string>, e: seq<string>)
    requires DigestOf(a).intents == x && IntendsAll(b, e)
    ensures IntendsAll(a + b, x + e)
  {
    DigestConcat(a, b);
  }

  /** A header or closing line names no path. */
  lemma QuietIntendsAll(a: Action, tail: seq<Action>, e: seq<string>)
    requires a.GroupHeader? || a.GroupCount? || a == GroupEnd
    requires IntendsAll(tail, e)
    ensures IntendsAll([a] + tail, e)
  {
    if a.GroupHeader? {
      DigestHeader(a);
    } else {
      DigestQuiet(a);
    }
    IntendsAllConcat([a], tail, [], e);
    assert [] + e == e;
  }

  /** One reportable VM step followed, when it carries on, by the rest of
      the run, against the reference. */
  lemma VmStepIntendsAll(env: Env, groupId: int, vm: Vm, st: ScanState, more: seq<Target>, tail: seq<Action>)
    requires |vm.instances| > 0 && !env.writeFails
    requires var r := VisitVm(env, groupId, vm, st);
             r.Proceed? ==> IntendsAll(tail, ExpectedIntents(env.dryRun, more, r.next.responses, env.deleteFails))
    ensures var r := VisitVm(env, groupId, vm, st);
            IntendsAll(if r.Proceed? then r.events + tail else r.events,
                       ExpectedIntents(env.dryRun, [Target(groupId, vm)] + more, st.responses, env.deleteFails))
  {
    var r := VisitVm(env, groupId, vm, st);
    var s := ExpectedStep(env.dryRun, Target(groupId, vm), st.responses, env.deleteFails);
    VmIntents(env, groupId, vm, st);
    VmStopIntents(env, groupId, vm, st);
    ExpectedIntentsCons(env.dryRun, Target(groupId, vm), more, st.responses, env.deleteFails);
    if r.Proceed? {
      IntendsAllConcat(r.events, tail, s.named, ExpectedIntents(env.dryRun, more, s.rest, env.deleteFails));
    }
  }

  lemma {:induction false} VisitVmsIntendsAll(env: Env, groupId: int, vms: seq<Vm>, rest: seq<Group>, st: ScanState)
    requires !env.writeFails && AllReported(rest)
    requires forall j | 0 <= j < |vms| :: |vms[j].instances| > 0
    ensures IntendsAll(VisitVms(env, groupId, vms, rest, st),
                       ExpectedIntents(env.dryRun, Targets(groupId, vms) + Flatten(rest), st.responses, env.deleteFails))
    decreases |rest|, |vms| + 1
  {
    if vms == [] {
      VisitGroupsIntendsAll(env, rest, st);
      QuietIntendsAll(GroupEnd, VisitGroups(env, rest, st),
                      ExpectedIntents(env.dryRun, Flatten(rest), st.responses, env.deleteFails));
      assert Targets(groupId, vms) + Flatten(rest) == Flatten(rest);
    } else {
      var r := VisitVm(env, groupId, vms[0], st);
      var more := Targets(groupId, vms[1..]) + Flatten(rest);
      TargetsCons(groupId, vms, Flatten(rest));
      if r.Proceed? {
        VisitVmsIntendsAll(env, groupId, vms[1..], rest, r.next);
        VmStepIntendsAll(env, groupId, vms[0], st, more, VisitVms(env, groupId, vms[1..], rest, r.next));
      } else {
        VmStepIntendsAll(env, groupId, vms[0], st, more, []);
      }
    }
  }

  lemma {:induction false} VisitGroupsIntendsAll(env: Env, groups: seq<Group>, st: ScanState)
    requires !env.writeFails && AllReported(groups)
    ensures IntendsAll(VisitGroups(env, groups, st),
                       ExpectedIntents(env.dryRun, Flatten(groups), st.responses, env.deleteFails))
    decreases |groups|, 0
  {
    if groups != [] {
      var g := groups[0];
      AllReportedSplit(groups);
      if |g.vms| == 0 {
        VisitGroupsIntendsAll(env, groups[1..], st);
        FlattenSkipsEmpty(groups);
        QuietIntendsAll(Header(g), VisitGroups(env, groups[1..], st),
                        ExpectedIntents(env.dryRun, Flatten(groups[1..]), st.responses, env.deleteFails));
      } else {
        VisitVmsIntendsAll(env, g.id, g.vms, groups[1..], st);
        QuietIntendsAll(Header(g), VisitVms(env, g.id, g.vms, groups[1..], st),
                        ExpectedIntents(env.dryRun, Flatten(groups), st.responses, env.deleteFails));
      }
    }
  }

  /** When every VM is reportable and the raw JSON file can be written, the
      paths a run names are exactly the expected ones, including the path
      of a rejected delete call that ends the run. */
  lemma RunIntendsAll(env: Env, groups: seq<Group>, responses: seq<string>)
    requires AllReported(groups) && !env.writeFails
    ensures DigestOf(Run(env, groups, responses)).intents ==
              ExpectedIntents(env.dryRun, Flatten(groups), responses, env.deleteFails)
  {
    var st := ScanState(responses, Unset);
    VisitGroupsIntendsAll(env, groups, st);
    QuietIntendsAll(GroupCount(|groups|), VisitGroups(env, groups, st),
                    ExpectedIntents(env.dryRun, Flatten(groups), responses, env.deleteFails));
  }

  /** The delete paths of the eligible targets, in order. */
  function EligiblePaths(ts: seq<Target>): seq<string>
    decreases |ts|
  {
    if ts == [] then []
    else (if Classify(ts[0].vm) == Eligible then [TargetPath(ts[0])] else []) + EligiblePaths(ts[1..])
  }

  /** In dry-run mode the expected paths are those of all eligible targets,
      whatever the operator would have answered. */
  lemma {:induction false} ExpectedIntentsDryRun(ts: seq<Target>, responses: seq<string>, deleteFails: string -> bool)
    ensures ExpectedIntents(true, ts, responses, deleteFails) == EligiblePaths(ts)
    decreases |ts|
  {
    if ts != [] {
      ExpectedIntentsDryRun(ts[1..], responses, deleteFails);
      if Classify(ts[0].vm) != Eligible {
        assert [] + EligiblePaths(ts[1..]) == EligiblePaths(ts[1..]);
      }
    }
  }

  /** Without an affirmative answer, live mode names no path. */
  lemma {:induction false} ExpectedIntentsUnconfirmed(ts: seq<Target>, responses: seq<string>, deleteFails: string -> bool)
    requires forall i | 0 <= i < |responses| :: !Affirmative(responses[i])
    ensures ExpectedIntents(false, ts, responses, deleteFails) == []
    decreases |ts|
  {
    if ts != [] {
      var (answer, more) := NextResponse(responses);
      assert !Affirmative(answer) by {
        if responses == [] {
          assert TrimSpace("") == "" by { LeadingSpacesSpec(""); }
          assert ToLower("") == "";
        } else {
          assert answer == responses[0];
        }
      }
      if Classify(ts[0].vm) == Eligible {
        assert forall i | 0 <= i < |more| :: more[i] == responses[i + 1];
        ExpectedIntentsUnconfirmed(ts[1..], more, deleteFails);
      } else {
        ExpectedIntentsUnconfirmed(ts[1..], responses, deleteFails);
      }
    }
  }

  /** `p` is the delete path of an eligible target of `ts`. */
  predicate EligibleIn(ts: seq<Target>, p: string) {
    exists k | 0 <= k < |ts| :: Classify(ts[k].vm) == Eligible && p == TargetPath(ts[k])
  }

  /** Every expected path belongs to an eligible target. */
  lemma {:induction false} ExpectedIntentsEligible(dryRun: bool, ts: seq<Target>, responses: seq<string>,
                                                   deleteFails: string -> bool, p: string)
    requires p in ExpectedIntents(dryRun, ts, responses, deleteFails)
    ensures EligibleIn(ts, p)
    decreases |ts|
  {
    var e := ExpectedIntents(dryRun, ts, responses, deleteFails);
    if !(Classify(ts[0].vm) == Eligible && p == TargetPath(ts[0])) {
      var more := if Classify(ts[0].vm) == Eligible && !dryRun then NextResponse(responses).1 else responses;
      assert p in ExpectedIntents(dryRun, ts[1..], more, deleteFails);
      ExpectedIntentsEligible(dryRun, ts[1..], more, deleteFails, p);
      var k :| 0 <= k < |ts[1..]| && Classify(ts[1..][k].vm) == Eligible && p == TargetPath(ts[1..][k]);
      assert ts[1..][k] == ts[k + 1];
    }
  }

  /** `t` is a VM of one of the groups, under that group's id. */
  predicate ListedIn(groups: seq<Group>, t: Target) {
    exists i, j | 0 <= i < |groups| && 0 <= j < |groups[i].vms| :: t == Target(groups[i].id, groups[i].vms[j])
  }

  lemma {:induction false} TargetsMembers(groupId: int, vms: seq<Vm>, k: nat)
    requires k < |Targets(groupId, vms)|
    ensures |Targets(groupId, vms)| == |vms| && Targets(groupId, vms)[k] == Target(groupId, vms[k])
    decreases |vms|
  {
    if k > 0 {
      TargetsMembers(groupId, vms[1..], k - 1);
    }
    TargetsLength(groupId, vms);
  }

  lemma {:induction false} TargetsLength(groupId: int, vms: seq<Vm>)
    ensures |Targets(groupId, vms)| == |vms|
    decreases |vms|
  {
    if vms != [] {
      TargetsLength(groupId, vms[1..]);
    }
  }

  /** Every entry of the flattened listing is a listed VM. */
  lemma {:induction false} FlattenListed(groups: seq<Group>, k: nat)
    requires k < |Flatten(groups)|
    ensures ListedIn(groups, Flatten(groups)[k])
    decreases |groups|
  {
    var g := groups[0];
    var head := Targets(g.id, g.vms);
    TargetsLength(g.id, g.vms);
    if k < |head| {
      TargetsMembers(g.id, g.vms, k);
      assert Flatten(groups)[k] == Target(groups[0].id, groups[0].vms[k]);
    } else {
      assert Flatten(groups)[k] == Flatten(groups[1..])[k - |head|];
      FlattenListed(groups[1..], k - |head|);
      var i, j :| 0 <= i < |groups[1..]| && 0 <= j < |groups[1..][i].vms|
                  && Flatten(groups)[k] == Target(groups[1..][i].id, groups[1..][i].vms[j]);
      assert groups[1..][i] == groups[i + 1];
    }
  }

  /** A run deletes, or in dry-run mode names, only INACTIVE VMs that are not
      already being deleted, each under the group it is listed in. */
  lemma RunDeletesOnlyEligible(env: Env, groups: seq<Group>, responses: seq<string>, p: string)
    requires p in DigestOf(Run(env, groups, responses)).intents
    ensures exists i, j | 0 <= i < |groups| && 0 <= j < |groups[i].vms| ::
              Classify(groups[i].vms[j]) == Eligible && p == DeletePath(groups[i].id, groups[i].vms[j].id)
  {
    var ts := Flatten(groups);
    var e := ExpectedIntents(env.dryRun, ts, responses, env.deleteFails);
    RunIntends(env, groups, responses);
    var got := DigestOf(Run(env, groups, responses)).intents;
    assert got == e[..|got|];
    assert p in e;
    ExpectedIntentsEligible(env.dryRun, ts, responses, env.deleteFails, p);
    var k :| 0 <= k < |ts| && Classify(ts[k].vm) == Eligible && p == TargetPath(ts[k]);
    FlattenListed(groups, k);
    var i, j :| 0 <= i < |groups| && 0 <= j < |groups[i].vms| && ts[k] == Target(groups[i].id, groups[i].vms[j]);
    assert Classify(groups[i].vms[j]) == Eligible && p == DeletePath(groups[i].id, groups[i].vms[j].id);
  }

  /** In dry-run mode the run logs the paths of the eligible VMs in API
      order, cut short where it stops, and all of them when every VM is
      reportable and the raw JSON file can be written. */
  lemma RunDryRun(env: Env, groups: seq<Group>, responses: seq<string>)
    requires env.dryRun
    ensures var d := DigestOf(Run(env, groups, responses));
            && d.dryRuns <= EligiblePaths(Flatten(groups))
            && d.deletes == [] && d.live == []
            && (AllReported(groups) && !env.writeFails ==> d.dryRuns == EligiblePaths(Flatten(groups)))
  {
    RunIntends(env, groups, responses);
    RunModeViews(env, groups, responses);
    ExpectedIntentsDryRun(Flatten(groups), responses, env.deleteFails);
    if AllReported(groups) && !env.writeFails {
      RunCompletes(env, groups, responses);
    }
  }

  /** In live mode the run calls delete on the confirmed eligible VMs in API
      order, cut short where it stops. When every VM is reportable and the
      file can be written, those are all of them, up to and including the
      first rejected call. */
  lemma RunLiveDeletes(env: Env, groups: seq<Group>, responses: seq<string>)
    requires !env.dryRun
    ensures var d := DigestOf(Run(env, groups, responses));
            var e := ExpectedIntents(false, Flatten(groups), responses, env.deleteFails);
            && d.deletes <= e && d.dryRuns == []
            && (AllReported(groups) && !env.writeFails ==> d.deletes == e)
  {
    RunIntends(env, groups, responses);
    RunModeViews(env, groups, responses);
    if AllReported(groups) && !env.writeFails {
      RunIntendsAll(env, groups, responses);
    }
  }

  /** Without an affirmative answer among the operator's responses, a live
      run calls delete on nothing. */
  lemma RunUnconfirmedDeletesNothing(env: Env, groups: seq<Group>, responses: seq<string>)
    requires !env.dryRun
    requires forall i | 0 <= i < |responses| :: !Affirmative(responses[i])
    ensures DigestOf(Run(env, groups, responses)).deletes == []
  {
    RunLiveDeletes(env, groups, responses);
    ExpectedIntentsUnconfirmed(Flatten(groups), responses, env.deleteFails);
  }
}
