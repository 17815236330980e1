/**
 Properties of a whole cleanup run: what it may delete and in which order,
 that dry-run mode touches nothing, that every delete call is confirmed and
 cooled down, that the raw JSON file is written at most once, and that the
 report follows the API order.
 */
module RunProperties {
  import opened Wrappers
  import opened Types
  import opened Trace
  import opened Guard
  import opened Paths
  import opened DebugOutput
  import opened Report
  import opened Scan

  /** Dry-run mode reads no answer, confirms, deletes and sleeps nothing, and
      logs what live mode would call; live mode logs no dry-run line. */
  predicate ModeViews(dryRun: bool, d: Digest) {
    && (dryRun ==> d.live == [] && d.deletes == [] && d.dryRuns == d.intents)
    && (!dryRun ==> d.dryRuns == [] && d.deletes == d.intents)
  }

  lemma ModeViewsPlus(dryRun: bool, a: Digest, b: Digest)
    requires ModeViews(dryRun, a) && ModeViews(dryRun, b)
    ensures ModeViews(dryRun, a.Plus(b))
  {
  }

  lemma VisitVmModeViews(env: Env, groupId: int, vm: Vm, st: ScanState)
    ensures ModeViews(env.dryRun, DigestOf(VisitVm(env, groupId, vm, st).events))
  {
    VisitVmDigest(env, groupId, vm, st);
    VmDigestModeViews(env, groupId, vm, st);
  }

  lemma VmDigestModeViews(env: Env, groupId: int, vm: Vm, st: ScanState)
    ensures ModeViews(env.dryRun, VmDigest(env, groupId, vm, st))
  {
    if |vm.instances| > 0 && Classify(vm) != Inert {
      var call := JsonOutputPath(st.output, JsonPathPrefix(env.cwd), env.clock);
      var answer := NextResponse(st.responses).0;
      var g := GuardDigest(env.dryRun, DeletePath(groupId, vm.id), answer, Affirmative(answer));
      assert ModeViews(env.dryRun, g);
      ModeViewsPlus(env.dryRun, NotedDigest(vm, call), g);
    }
  }

  lemma {:induction false} VisitVmsModeViews(env: Env, groupId: int, vms: seq<Vm>, rest: seq<Group>, st: ScanState)
    ensures ModeViews(env.dryRun, DigestOf(VisitVms(env, groupId, vms, rest, st)))
    decreases |rest|, |vms| + 1
  {
    if vms == [] {
      VisitGroupsModeViews(env, rest, st);
      DigestConcat([GroupEnd], VisitGroups(env, rest, st));
      DigestQuiet(GroupEnd);
    } else {
      var r := VisitVm(env, groupId, vms[0], st);
      VisitVmModeViews(env, groupId, vms[0], st);
      if r.Proceed? {
        VisitVmsModeViews(env, groupId, vms[1..], rest, r.next);
        DigestConcat(r.events, VisitVms(env, groupId, vms[1..], rest, r.next));
        ModeViewsPlus(env.dryRun, DigestOf(r.events), DigestOf(VisitVms(env, groupId, vms[1..], rest, r.next)));
      }
    }
  }

  lemma {:induction false} VisitGroupsModeViews(env: Env, groups: seq<Group>, st: ScanState)
    ensures ModeViews(env.dryRun, DigestOf(VisitGroups(env, groups, st)))
    decreases |groups|, 0
  {
    if groups != [] {
      var g := groups[0];
      var tail := if |g.vms| == 0 then VisitGroups(env, groups[1..], st)
                  else VisitVms(env, g.id, g.vms, groups[1..], st);
      if |g.vms| == 0 {
        VisitGroupsModeViews(env, groups[1..], st);
      } else {
        VisitVmsModeViews(env, g.id, g.vms, groups[1..], st);
      }
      DigestConcat([Header(g)], tail);
      DigestHeader(Header(g));
    }
  }

  /** In dry-run mode the run reads no operator answer and makes no delete
      call or cooldown; every path it names is a dry-run log. In live mode
      every path it names is a delete call. */
  lemma RunModeViews(env: Env, groups: seq<Group>, responses: seq<string>)
    ensures ModeViews(env.dryRun, DigestOf(Run(env, groups, responses)))
  {
    var st := ScanState(responses, Unset);
    VisitGroupsModeViews(env, groups, st);
    DigestConcat([GroupCount(|groups|)], VisitGroups(env, groups, st));
    DigestQuiet(GroupCount(|groups|));
  }

  /** The operator-facing actions of one VM step follow the protocol. */
  lemma VmDigestLive(env: Env, groupId: int, vm: Vm, st: ScanState)
    ensures LiveProtocol(VmDigest(env, groupId, vm, st).live)
  {
    if |vm.instances| > 0 && Classify(vm) != Inert {
      var call := JsonOutputPath(st.output, JsonPathPrefix(env.cwd), env.clock);
      var answer := NextResponse(st.responses).0;
      var g := GuardDigest(env.dryRun, DeletePath(groupId, vm.id), answer, Affirmative(answer));
      LiveBlockProtocol(answer, DeletePath(groupId, vm.id));
      assert NotedDigest(vm, call).Plus(g).live == g.live;
    }
  }

  /** The operator-facing view of `t` follows the protocol. */
  predicate LiveOk(t: seq<Action>) {
    LiveProtocol(DigestOf(t).live)
  }

  lemma LiveOkConcat(a: seq<Action>, b: seq<Action>)
    requires LiveOk(a) && LiveOk(b)
    ensures LiveOk(a + b)
  {
    DigestConcat(a, b);
    LiveProtocolConcat(DigestOf(a).live, DigestOf(b).live);
  }

  lemma LiveOkVm(env: Env, groupId: int, vm: Vm, st: ScanState)
    ensures LiveOk(VisitVm(env, groupId, vm, st).events)
  {
    VisitVmDigest(env, groupId, vm, st);
    VmDigestLive(env, groupId, vm, st);
  }

  lemma {:induction false} VisitVmsLive(env: Env, groupId: int, vms: seq<Vm>, rest: seq<Group>, st: ScanState)
    ensures LiveOk(VisitVms(env, groupId, vms, rest, st))
    decreases |rest|, |vms| + 1
  {
    if vms == [] {
      VisitGroupsLive(env, rest, st);
      DigestQuiet(GroupEnd);
      LiveOkConcat([GroupEnd], VisitGroups(env, rest, st));
    } else {
      var r := VisitVm(env, groupId, vms[0], st);
      LiveOkVm(env, groupId, vms[0], st);
      if r.Proceed? {
        VisitVmsLive(env, groupId, vms[1..], rest, r.next);
        LiveOkConcat(r.events, VisitVms(env, groupId, vms[1..], rest, r.next));
      }
    }
  }

  lemma {:induction false} VisitGroupsLive(env: Env, groups: seq<Group>, st: ScanState)
    ensures LiveOk(VisitGroups(env, groups, st))
    decreases |groups|, 0
  {
    if groups != [] {
      var g := groups[0];
      DigestHeader(Header(g));
      if |g.vms| == 0 {
        VisitGroupsLive(env, groups[1..], st);
        LiveOkConcat([Header(g)], VisitGroups(env, groups[1..], st));
      } else {
        VisitVmsLive(env, g.id, g.vms, groups[1..], st);
        LiveOkConcat([Header(g)], VisitVms(env, g.id, g.vms, groups[1..], st));
      }
    }
  }

  /** Every operator answer the run reads is followed by its cancellation,
      or by its confirmation, one delete call and the 30-second cooldown;
      so every delete call is confirmed by an affirmative answer and cooled
      down, and every cooldown follows a delete call. */
  lemma RunLiveProtocol(env: Env, groups: seq<Group>, responses: seq<string>)
    ensures LiveProtocol(DigestOf(Run(env, groups, responses)).live)
    ensures DeletesGuarded(DigestOf(Run(env, groups, responses)).live)
  {
    var st := ScanState(responses, Unset);
    VisitGroupsLive(env, groups, st);
    DigestQuiet(GroupCount(|groups|));
    LiveOkConcat([GroupCount(|groups|)], VisitGroups(env, groups, st));
    LiveProtocolGuarded(DigestOf(Run(env, groups, responses)).live);
  }

  lemma {:induction false} VisitVmsEnds(env: Env, groupId: int, vms: seq<Vm>, rest: seq<Group>, st: ScanState)
    ensures TerminalOnlyLast(VisitVms(env, groupId, vms, rest, st))
    decreases |rest|, |vms| + 1
  {
    if vms == [] {
      VisitGroupsEnds(env, rest, st);
      TerminalOnlyLastConcat([GroupEnd], VisitGroups(env, rest, st));
    } else {
      var r := VisitVm(env, groupId, vms[0], st);
      VisitVmEnds(env, groupId, vms[0], st);
      if r.Proceed? {
        VisitVmsEnds(env, groupId, vms[1..], rest, r.next);
        TerminalOnlyLastConcat(r.events, VisitVms(env, groupId, vms[1..], rest, r.next));
      }
    }
  }

  lemma {:induction false} VisitGroupsEnds(env: Env, groups: seq<Group>, st: ScanState)
    ensures TerminalOnlyLast(VisitGroups(env, groups, st))
    decreases |groups|, 0
  {
    if groups != [] {
      var g := groups[0];
      if |g.vms| == 0 {
        VisitGroupsEnds(env, groups[1..], st);
        TerminalOnlyLastConcat([Header(g)], VisitGroups(env, groups[1..], st));
      } else {
        VisitVmsEnds(env, g.id, g.vms, groups[1..], st);
        TerminalOnlyLastConcat([Header(g)], VisitVms(env, g.id, g.vms, groups[1..], st));
      }
    }
  }

  /** The run stops at its first panic, fatal write or failed delete call:
      nothing follows it. */
  lemma RunEnds(env: Env, groups: seq<Group>, responses: seq<string>)
    ensures TerminalOnlyLast(Run(env, groups, responses))
  {
    var st := ScanState(responses, Unset);
    VisitGroupsEnds(env, groups, st);
    TerminalOnlyLastConcat([GroupCount(|groups|)], VisitGroups(env, groups, st));
  }

  /** Every VM of every group has a network instance to report. */
  predicate AllReported(groups: seq<Group>) {
    forall i, j | 0 <= i < |groups| && 0 <= j < |groups[i].vms| :: |groups[i].vms[j].instances| > 0
  }

  /** No stop condition arises: every VM has a network instance, the raw
      JSON file can be written and, in live mode, the API accepts every
      delete call. */
  ghost predicate Smooth(env: Env) {
    !env.writeFails && (env.dryRun || forall p :: !env.deleteFails(p))
  }

  lemma {:induction false} VisitVmsCompletes(env: Env, groupId: int, vms: seq<Vm>, rest: seq<Group>, st: ScanState)
    requires Smooth(env) && AllReported(rest)
    requires forall j | 0 <= j < |vms| :: |vms[j].instances| > 0
    ensures NoTerminal(VisitVms(env, groupId, vms, rest, st))
    decreases |rest|, |vms| + 1
  {
    if vms == [] {
      VisitGroupsCompletes(env, rest, st);
      NoTerminalConcat([GroupEnd], VisitGroups(env, rest, st));
    } else {
      var r := VisitVm(env, groupId, vms[0], st);
      VisitVmStops(env, groupId, vms[0], st);
      VisitVmEnds(env, groupId, vms[0], st);
      VisitVmsCompletes(env, groupId, vms[1..], rest, r.next);
      NoTerminalConcat(r.events, VisitVms(env, groupId, vms[1..], rest, r.next));
    }
  }

  lemma {:induction false} VisitGroupsCompletes(env: Env, groups: seq<Group>, st: ScanState)
    requires Smooth(env) && AllReported(groups)
    ensures NoTerminal(VisitGroups(env, groups, st))
    decreases |groups|, 0
  {
    if groups != [] {
      var g := groups[0];
      AllReportedSplit(groups);
      if |g.vms| == 0 {
        VisitGroupsCompletes(env, groups[1..], st);
        NoTerminalConcat([Header(g)], VisitGroups(env, groups[1..], st));
      } else {
        VisitVmsCompletes(env, g.id, g.vms, groups[1..], st);
        NoTerminalConcat([Header(g)], VisitVms(env, g.id, g.vms, groups[1..], st));
      }
    }
  }

  /** The first group's VMs are all reportable, and so are the later groups'. */
  lemma AllReportedSplit(groups: seq<Group>)
    requires groups != [] && AllReported(groups)
    ensures forall j | 0 <= j < |groups[0].vms| :: |groups[0].vms[j].instances| > 0
    ensures AllReported(groups[1..])
  {
    assert forall j | 0 <= j < |groups[0].vms| :: |groups[0].vms[j].instances| > 0 by {
      forall j | 0 <= j < |groups[0].vms| ensures |groups[0].vms[j].instances| > 0 {
        assert |groups[0].vms[j].instances| > 0;
      }
    }
    forall i, j | 0 <= i < |groups[1..]| && 0 <= j < |groups[1..][i].vms|
      ensures |groups[1..][i].vms[j].instances| > 0
    {
      assert groups[1..][i] == groups[i + 1];
    }
  }

  /** Without a stop condition the run holds no terminal action. */
  lemma RunCompletes(env: Env, groups: seq<Group>, responses: seq<string>)
    requires Smooth(env) && AllReported(groups)
    ensures NoTerminal(Run(env, groups, responses))
  {
    var st := ScanState(responses, Unset);
    VisitGroupsCompletes(env, groups, st);
    NoTerminalConcat([GroupCount(|groups|)], VisitGroups(env, groups, st));
  }

  /** `b` extended at the end still has `a` as a prefix once `a <= b`, and
      a common first part keeps a prefix a prefix. */
  lemma PrefixPrepend<T>(a: seq<T>, b: seq<T>, c: seq<T>)
    requires b <= c
    ensures a + b <= a + c
  {
    assert (a + c)[..|a + b|] == a + c[..|b|];
  }

  /** The report lines of a VM list, in order. */
  function VmVisits(vms: seq<Vm>): seq<Visit>
    decreases |vms|
  {
    if vms == [] then [] else [VmVisit(vms[0].id)] + VmVisits(vms[1..])
  }

  /** The full report of the fetched groups: each group's header followed by
      its VMs' lines, in API order. */
  function ExpectedVisits(groups: seq<Group>): seq<Visit>
    decreases |groups|
  {
    if groups == [] then []
    else [GroupVisit(groups[0].id, |groups[0].vms|)] + VmVisits(groups[0].vms) + ExpectedVisits(groups[1..])
  }

  lemma VmDigestVisits(env: Env, groupId: int, vm: Vm, st: ScanState)
    ensures VmDigest(env, groupId, vm, st).visits == if |vm.instances| == 0 then [] else [VmVisit(vm.id)]
  {
  }

  /** The report lines a VM step shows: its own, unless it panics, and a
      step that carries on does not panic. */
  lemma VisitVmVisits(env: Env, groupId: int, vm: Vm, st: ScanState)
    ensures var r := VisitVm(env, groupId, vm, st);
            && DigestOf(r.events).visits == (if |vm.instances| == 0 then [] else [VmVisit(vm.id)])
            && (r.Proceed? ==> |vm.instances| > 0)
  {
    VisitVmDigest(env, groupId, vm, st);
    VmDigestVisits(env, groupId, vm, st);
  }

  lemma VmVisitsCons(vms: seq<Vm>, e: seq<Visit>)
    requires vms != []
    ensures VmVisits(vms) + e == [VmVisit(vms[0].id)] + (VmVisits(vms[1..]) + e)
  {
  }

  /** The report lines of `t` are a prefix of `e`, and all of it when `t`
      does not stop. */
  predicate ReportsWithin(t: seq<Action>, e: seq<Visit>) {
    DigestOf(t).visits <= e && (NoTerminal(t) ==> DigestOf(t).visits == e)
  }

  lemma ReportsConcat(a: seq<Action>, b: seq<Action>, x: seq<Visit>, e: seq<Visit>)
    requires NoTerminal(a) && DigestOf(a).visits == x && ReportsWithin(b, e)
    ensures ReportsWithin(a + b, x + e)
  {
    DigestConcat(a, b);
    NoTerminalConcat(a, b);
    PrefixPrepend(x, DigestOf(b).visits, e);
  }

  lemma ReportsStop(a: seq<Action>, x: seq<Visit>, e: seq<Visit>)
    requires !NoTerminal(a) && DigestOf(a).visits <= x
    ensures ReportsWithin(a, x + e)
  {
    assert x <= x + e;
  }

  /** One VM step followed, when it carries on, by the rest of the run. */
  lemma VmStepReports(env: Env, groupId: int, vm: Vm, st: ScanState, tail: seq<Action>, e: seq<Visit>)
    requires VisitVm(env, groupId, vm, st).Proceed? ==> ReportsWithin(tail, e)
    ensures var r := VisitVm(env, groupId, vm, st);
            ReportsWithin(if r.Proceed? then r.events + tail else r.events, [VmVisit(vm.id)] + e)
  {
    var r := VisitVm(env, groupId, vm, st);
    VisitVmVisits(env, groupId, vm, st);
    VisitVmEnds(env, groupId, vm, st);
    if r.Proceed? {
      ReportsConcat(r.events, tail, [VmVisit(vm.id)], e);
    } else {
      ReportsStop(r.events, [VmVisit(vm.id)], e);
    }
  }

  lemma {:induction false} VisitVmsVisits(env: Env, groupId: int, vms: seq<Vm>, rest: seq<Group>, st: ScanState)
    ensures ReportsWithin(VisitVms(env, groupId, vms, rest, st), VmVisits(vms) + ExpectedVisits(rest))
    decreases |rest|, |vms| + 1
  {
    if vms == [] {
      VisitGroupsVisits(env, rest, st);
      DigestQuiet(GroupEnd);
      ReportsConcat([GroupEnd], VisitGroups(env, rest, st), [], ExpectedVisits(rest));
      assert VmVisits(vms) + ExpectedVisits(rest) == [] + ExpectedVisits(rest);
    } else {
      var r := VisitVm(env, groupId, vms[0], st);
      var e' := VmVisits(vms[1..]) + ExpectedVisits(rest);
      VmVisitsCons(vms, ExpectedVisits(rest));
      if r.Proceed? {
        var tail := VisitVms(env, groupId, vms[1..], rest, r.next);
        VisitVmsVisits(env, groupId, vms[1..], rest, r.next);
        VmStepReports(env, groupId, vms[0], st, tail, e');
      } else {
        VmStepReports(env, groupId, vms[0], st, [], e');
      }
    }
  }

  lemma {:induction false} VisitGroupsVisits(env: Env, groups: seq<Group>, st: ScanState)
    ensures ReportsWithin(VisitGroups(env, groups, st), ExpectedVisits(groups))
    decreases |groups|, 0
  {
    if groups != [] {
      var g := groups[0];
      var e' := VmVisits(g.vms) + ExpectedVisits(groups[1..]);
      assert ExpectedVisits(groups) == [GroupVisit(g.id, |g.vms|)] + e';
      DigestHeader(Header(g));
      if |g.vms| == 0 {
        VisitGroupsVisits(env, groups[1..], st);
        assert e' == ExpectedVisits(groups[1..]);
        ReportsConcat([Header(g)], VisitGroups(env, groups[1..], st), [GroupVisit(g.id, |g.vms|)], e');
      } else {
        VisitVmsVisits(env, g.id, g.vms, groups[1..], st);
        ReportsConcat([Header(g)], VisitVms(env, g.id, g.vms, groups[1..], st), [GroupVisit(g.id, |g.vms|)], e');
      }
    }
  }

  /** The report lines of a run are the full report of the fetched groups,
      in API order, cut short where the run stops; without a stop they are
      the whole report. */
  lemma RunVisits(env: Env, groups: seq<Group>, responses: seq<string>)
    ensures var t := Run(env, groups, responses);
            DigestOf(t).visits <= ExpectedVisits(groups)
            && (NoTerminal(t) ==> DigestOf(t).visits == ExpectedVisits(groups))
  {
    var st := ScanState(responses, Unset);
    VisitGroupsVisits(env, groups, st);
    DigestQuiet(GroupCount(|groups|));
    ReportsConcat([GroupCount(|groups|)], VisitGroups(env, groups, st), [], ExpectedVisits(groups));
    assert [] + ExpectedVisits(groups) == ExpectedVisits(groups);
  }

  /** With every VM reportable, the file written and every delete accepted,
      the run reports every group and VM. */
  lemma RunReportsAll(env: Env, groups: seq<Group>, responses: seq<string>)
    requires Smooth(env) && AllReported(groups)
    ensures DigestOf(Run(env, groups, responses)).visits == ExpectedVisits(groups)
  {
    RunCompletes(env, groups, responses);
    RunVisits(env, groups, responses);
  }

  /** The debug-output state of a run: consistent, and once set, set to the
      run's raw JSON file. */
  predicate OutputFixed(env: Env, out: OutputState) {
    Consistent(out) && (out.path.Some? ==> out.path.value == RawJsonFile(env))
  }

  /** Writes still possible from a debug-output state. */
  function Budget(out: OutputState): nat {
    if out.path.None? then 1 else 0
  }

  /** `t` writes at most `budget` times, and every file it writes or names
      is the run's raw JSON file. */
  predicate WritesWithin(env: Env, t: seq<Action>, budget: nat) {
    && |DigestOf(t).writes| <= budget
    && (forall w | w in DigestOf(t).writes :: w == RawJsonFile(env))
    && (forall f | f in DigestOf(t).files :: f == RawJsonFile(env))
  }

  lemma WritesConcat(env: Env, a: seq<Action>, b: seq<Action>, k: nat, m: nat)
    requires WritesWithin(env, a, k) && WritesWithin(env, b, m)
    ensures WritesWithin(env, a + b, k + m)
  {
    DigestConcat(a, b);
  }

  lemma WritesQuiet(env: Env, a: Action)
    requires !a.GroupHeader? && !a.VmLine? && !a.WriteRawJson? && !a.WriteFatal? && !a.RawJsonAt?
    requires !a.DryRunLog? && !IsLive(a)
    ensures WritesWithin(env, [a], 0)
  {
    DigestQuiet(a);
  }

  lemma WritesHeader(env: Env, g: Group)
    ensures WritesWithin(env, [Header(g)], 0)
  {
    DigestHeader(Header(g));
  }

  lemma VmDigestWrites(env: Env, groupId: int, vm: Vm, st: ScanState)
    requires OutputFixed(env, st.output)
    ensures var d := VmDigest(env, groupId, vm, st);
            var call := JsonOutputPath(st.output, JsonPathPrefix(env.cwd), env.clock);
            && (forall w | w in d.writes :: w == RawJsonFile(env))
            && (forall f | f in d.files :: f == RawJsonFile(env))
            && |d.writes| == (if |vm.instances| > 0 && Classify(vm) != Inert then Budget(st.output) else 0)
            && OutputFixed(env, call.next)
  {
    var call := JsonOutputPath(st.output, JsonPathPrefix(env.cwd), env.clock);
    assert call.path == RawJsonFile(env);
    if |vm.instances| > 0 && Classify(vm) != Inert {
      var noted := NotedDigest(vm, call);
      if !((call.wrote && env.writeFails) || Classify(vm) == InDeletion) {
        var answer := NextResponse(st.responses).0;
        var g := GuardDigest(env.dryRun, DeletePath(groupId, vm.id), answer, Affirmative(answer));
        assert g.writes == [] && g.files == [];
        assert noted.Plus(g).writes == noted.writes && noted.Plus(g).files == noted.files;
      }
    }
  }

  /** A VM step writes the raw JSON file at most once over what is left of
      the budget, and only to the run's file. */
  lemma VmWrites(env: Env, groupId: int, vm: Vm, st: ScanState)
    requires OutputFixed(env, st.output)
    ensures var r := VisitVm(env, groupId, vm, st);
            && (r.Proceed? ==>
                  && OutputFixed(env, r.next.output)
                  && Budget(r.next.output) <= Budget(st.output)
                  && WritesWithin(env, r.events, Budget(st.output) - Budget(r.next.output)))
            && (r.Stop? ==> WritesWithin(env, r.events, Budget(st.output)))
  {
    VisitVmDigest(env, groupId, vm, st);
    VmDigestWrites(env, groupId, vm, st);
    VisitVmNext(env, groupId, vm, st);
  }

  lemma {:induction false} VisitVmsWrites(env: Env, groupId: int, vms: seq<Vm>, rest: seq<Group>, st: ScanState)
    requires OutputFixed(env, st.output)
    ensures WritesWithin(env, VisitVms(env, groupId, vms, rest, st), Budget(st.output))
    decreases |rest|, |vms| + 1
  {
    if vms == [] {
      VisitGroupsWrites(env, rest, st);
      WritesQuiet(env, GroupEnd);
      WritesConcat(env, [GroupEnd], VisitGroups(env, rest, st), 0, Budget(st.output));
    } else {
      var r := VisitVm(env, groupId, vms[0], st);
      VmWrites(env, groupId, vms[0], st);
      if r.Proceed? {
        VisitVmsWrites(env, groupId, vms[1..], rest, r.next);
        WritesConcat(env, r.events, VisitVms(env, groupId, vms[1..], rest, r.next),
                     Budget(st.output) - Budget(r.next.output), Budget(r.next.output));
      }
    }
  }

  lemma {:induction false} VisitGroupsWrites(env: Env, groups: seq<Group>, st: ScanState)
    requires OutputFixed(env, st.output)
    ensures WritesWithin(env, VisitGroups(env, groups, st), Budget(st.output))
    decreases |groups|, 0
  {
    if groups != [] {
      var g := groups[0];
      WritesHeader(env, g);
      if |g.vms| == 0 {
        VisitGroupsWrites(env, groups[1..], st);
        WritesConcat(env, [Header(g)], VisitGroups(env, groups[1..], st), 0, Budget(st.output));
      } else {
        VisitVmsWrites(env, g.id, g.vms, groups[1..], st);
        WritesConcat(env, [Header(g)], VisitVms(env, g.id, g.vms, groups[1..], st), 0, Budget(st.output));
      }
    }
  }

  /** A run writes the raw JSON payload at most once, and every write and
      every file notice is about the one file named by the clock reading of
      the first call. */
  lemma RunWritesOnce(env: Env, groups: seq<Group>, responses: seq<string>)
    ensures var d := DigestOf(Run(env, groups, responses));
            && (d.writes == [] || d.writes == [RawJsonFile(env)])
            && (forall f | f in d.files :: f == RawJsonFile(env))
  {
    var st := ScanState(responses, Unset);
    VisitGroupsWrites(env, groups, st);
    WritesQuiet(env, GroupCount(|groups|));
    WritesConcat(env, [GroupCount(|groups|)], VisitGroups(env, groups, st), 0, 1);
    var d := DigestOf(Run(env, groups, responses));
    if d.writes != [] {
      assert d.writes[0] in d.writes;
    }
  }
}
