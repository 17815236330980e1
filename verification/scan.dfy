/**
 One cleanup run: the report and deletion walk over all groups and their VMs,
 in API order, with the clock, the file system, the operator and the delete
 call supplied as oracles.
 */
module Scan {
  import opened Wrappers
  import opened Types
  import opened Trace
  import opened Report
  import opened Guard
  import opened Paths
  import opened DebugOutput

  /** The run's configuration and its oracles. */
  datatype Env = Env(
    dryRun: bool,                    // DRY_RUN, true when unset (main.go:26)
    cwd: string,                     // working directory holding the JSON folder
    clock: int,                      // Unix time read by the first getJsonOutputPath call
    writeFails: bool,                // whether writing the raw JSON file fails
    deleteFails: string -> bool,     // whether the API rejects a delete of this path
    formatTime: int -> string)       // local rendering of a non-zero epoch time

  /** Operator answers not yet read, and the debug-output state. */
  datatype ScanState = ScanState(responses: seq<string>, output: OutputState)

  /** After one VM: carry on with the next state, or stop the whole run. */
  datatype VmOutcome = Proceed(events: seq<Action>, next: ScanState) | Stop(events: seq<Action>)

  /** The raw JSON file of this run. */
  function RawJsonFile(env: Env): string {
    OutputFile(JsonPathPrefix(env.cwd), env.clock)
  }

  /** The file a path call writes: its path on first use, nothing afterwards.
      This is what `FirstWrite` shows in the writes view (`AnnounceDigest`). */
  function WrittenBy(call: PathCall): seq<string> {
    if call.wrote then [call.path] else []
  }

  /** The report line, the queued notice and, on first use, the write of
      the raw JSON file. */
  function Announce(env: Env, vm: Vm, call: PathCall): seq<Action>
    requires |vm.instances| > 0
  {
    [Line(vm, env.formatTime), Queued(vm.name)] + FirstWrite(call)
  }

  /** The write of the raw JSON file, done by the call that chose its path. */
  function FirstWrite(call: PathCall): seq<Action> {
    if call.wrote then [WriteRawJson(call.path)] else []
  }

  /** A candidate is reported once, and the file is written when this call
      chose its path. */
  lemma AnnounceDigest(env: Env, vm: Vm, call: PathCall)
    requires |vm.instances| > 0
    ensures DigestOf(Announce(env, vm, call)) == Digest([], [], [], [], [VmVisit(vm.id)], WrittenBy(call), WrittenBy(call))
  {
    var w := FirstWrite(call);
    assert Announce(env, vm, call) == [Line(vm, env.formatTime)] + [Queued(vm.name)] + w;
    DigestConcat3([Line(vm, env.formatTime)], [Queued(vm.name)], w);
    DigestLine(Line(vm, env.formatTime));
    DigestQuiet(Queued(vm.name));
    if call.wrote {
      DigestWrite(call.path);
    }
  }

  lemma AnnounceEnds(env: Env, vm: Vm, call: PathCall)
    requires |vm.instances| > 0
    ensures NoTerminal(Announce(env, vm, call))
  {
  }

  /** An INACTIVE VM: the queued notice, the raw JSON file (written on first
      use), then the already-deleting log or the delete protocol. */
  function VisitCandidate(env: Env, groupId: int, vm: Vm, st: ScanState): VmOutcome
    requires |vm.instances| > 0 && Classify(vm) != Inert
  {
    var call := JsonOutputPath(st.output, JsonPathPrefix(env.cwd), env.clock);
    if call.wrote && env.writeFails then Stop(Announce(env, vm, call) + [WriteFatal(call.path)])
    else
      var shown := Announce(env, vm, call) + [RawJsonAt(call.path)];
      var st1 := st.(output := call.next);
      if Classify(vm) == InDeletion then Proceed(shown + [AlreadyDeleting(vm.name)], st1)
      else
        var attempt := ConfirmDelete(env.dryRun, groupId, vm, st.responses, env.deleteFails);
        if attempt.failed then Stop(shown + attempt.events + [DeleteFailed(vm.name)])
        else Proceed(shown + attempt.events, st1.(responses := attempt.rest))
  }

  /** One VM of group `groupId`: its report line (reading the first network
      instance, which panics on an empty list), then the candidate handling. */
  function VisitVm(env: Env, groupId: int, vm: Vm, st: ScanState): VmOutcome {
    if |vm.instances| == 0 then Stop([IndexPanic(vm.name)])
    else
      if Classify(vm) == Inert then Proceed([Line(vm, env.formatTime)], st)
      else VisitCandidate(env, groupId, vm, st)
  }

  /** The remaining VMs of the current group, then the remaining groups. */
  function VisitVms(env: Env, groupId: int, vms: seq<Vm>, rest: seq<Group>, st: ScanState): seq<Action>
    decreases |rest|, |vms| + 1
  {
    if vms == [] then [GroupEnd] + VisitGroups(env, rest, st)
    else
      match VisitVm(env, groupId, vms[0], st)
      case Stop(events) => events
      case Proceed(events, next) => events + VisitVms(env, groupId, vms[1..], rest, next)
  }

  /** The remaining groups: a header each; a group without VMs ends there. */
  function VisitGroups(env: Env, groups: seq<Group>, st: ScanState): seq<Action>
    decreases |groups|, 0
  {
    if groups == [] then []
    else
      var g := groups[0];
      [Header(g)] +
      (if |g.vms| == 0 then VisitGroups(env, groups[1..], st)
       else VisitVms(env, g.id, g.vms, groups[1..], st))
  }

  /** The whole run over the fetched groups. */
  function Run(env: Env, groups: seq<Group>, responses: seq<string>): seq<Action> {
    [GroupCount(|groups|)] + VisitGroups(env, groups, ScanState(responses, Unset))
  }

  /** The VM reaches the delete protocol: it is reported, it is a candidate
      not yet being deleted, and the raw JSON file did not fail to write. */
  predicate ReachesGuard(env: Env, vm: Vm, st: ScanState) {
    && |vm.instances| > 0
    && Classify(vm) == Eligible
    && !(st.output.path.None? && env.writeFails)
  }

  /** When a VM step stops the run: only on the panic of a VM without a
      network instance, on the failed first write of the raw JSON file, or on
      a failed delete call. */
  lemma VisitVmStops(env: Env, groupId: int, vm: Vm, st: ScanState)
    ensures var r := VisitVm(env, groupId, vm, st);
            var answer := NextResponse(st.responses).0;
            r.Stop? <==>
              || |vm.instances| == 0
              || (Classify(vm) != Inert && st.output.path.None? && env.writeFails)
              || (ReachesGuard(env, vm, st) && !env.dryRun && Affirmative(answer)
                  && env.deleteFails(DeletePath(groupId, vm.id)))
  {
    if |vm.instances| > 0 && Classify(vm) == Eligible {
      ConfirmDeleteResult(env.dryRun, groupId, vm, st.responses, env.deleteFails);
    }
  }

  /** A step that carries on holds no terminal action; a step that stops
      ends with its one terminal action. */
  lemma VisitVmEnds(env: Env, groupId: int, vm: Vm, st: ScanState)
    ensures var r := VisitVm(env, groupId, vm, st);
            && (r.Proceed? ==> NoTerminal(r.events))
            && (r.Stop? ==> TerminalOnlyLast(r.events) && !NoTerminal(r.events))
  {
    if |vm.instances| == 0 {
      assert IsTerminal([IndexPanic(vm.name)][0]);
    } else if Classify(vm) != Inert {
      var call := JsonOutputPath(st.output, JsonPathPrefix(env.cwd), env.clock);
      if call.wrote && env.writeFails {
        var a := Announce(env, vm, call);
        AnnounceEnds(env, vm, call);
        TerminalOnlyLastConcat(a, [WriteFatal(call.path)]);
        assert IsTerminal([WriteFatal(call.path)][0]);
        NoTerminalConcat(a, [WriteFatal(call.path)]);
      } else {
        CandidateEnds(env, groupId, vm, st);
      }
    }
  }

  lemma CandidateEnds(env: Env, groupId: int, vm: Vm, st: ScanState)
    requires |vm.instances| > 0 && Classify(vm) != Inert
    requires !(JsonOutputPath(st.output, JsonPathPrefix(env.cwd), env.clock).wrote && env.writeFails)
    ensures var r := VisitCandidate(env, groupId, vm, st);
            && (r.Proceed? ==> NoTerminal(r.events))
            && (r.Stop? ==> TerminalOnlyLast(r.events) && !NoTerminal(r.events))
  {
    var call := JsonOutputPath(st.output, JsonPathPrefix(env.cwd), env.clock);
    var a := Announce(env, vm, call);
    AnnounceEnds(env, vm, call);
    CandidateEvents(env, groupId, vm, st);
    if Classify(vm) == InDeletion {
      StepEnds(a, call.path, [], [AlreadyDeleting(vm.name)]);
    } else {
      var attempt := ConfirmDelete(env.dryRun, groupId, vm, st.responses, env.deleteFails);
      ConfirmDeleteEnds(env.dryRun, groupId, vm, st.responses, env.deleteFails);
      if attempt.failed {
        StepEnds(a, call.path, attempt.events, [DeleteFailed(vm.name)]);
      } else {
        StepEnds(a, call.path, attempt.events, []);
      }
    }
  }

  /** The notices, the raw JSON notice and the step's own actions, closed
      by actions without a terminal one or by one terminal action. */
  lemma StepEnds(a: seq<Action>, file: string, b: seq<Action>, tail: seq<Action>)
    requires NoTerminal(a) && NoTerminal(b)
    requires NoTerminal(tail) || (|tail| == 1 && IsTerminal(tail[0]))
    ensures NoTerminal(tail) ==> NoTerminal(a + [RawJsonAt(file)] + b + tail)
    ensures !NoTerminal(tail) ==> TerminalOnlyLast(a + [RawJsonAt(file)] + b + tail)
    ensures |tail| == 1 && IsTerminal(tail[0]) ==> !NoTerminal(a + [RawJsonAt(file)] + b + tail)
  {
    NoTerminalConcat(a, [RawJsonAt(file)]);
    NoTerminalConcat(a + [RawJsonAt(file)], b);
    NoTerminalConcat(a + [RawJsonAt(file)] + b, tail);
    if !NoTerminal(tail) {
      TerminalOnlyLastConcat(a + [RawJsonAt(file)] + b, tail);
    }
  }

  /** The state after a VM step: one answer is consumed exactly when the VM
      reaches the protocol in live mode, and the debug output moves on exactly
      when the VM is a candidate. */
  lemma VisitVmNext(env: Env, groupId: int, vm: Vm, st: ScanState)
    ensures var r := VisitVm(env, groupId, vm, st);
            && (r.Proceed? ==>
                  r.next.responses == (if ReachesGuard(env, vm, st) && !env.dryRun
                                       then NextResponse(st.responses).1 else st.responses))
            && (r.Proceed? ==>
                  r.next.output == (if Classify(vm) == Inert then st.output
                                    else JsonOutputPath(st.output, JsonPathPrefix(env.cwd), env.clock).next))
  {
    if |vm.instances| > 0 && Classify(vm) == Eligible {
      ConfirmDeleteResult(env.dryRun, groupId, vm, st.responses, env.deleteFails);
    }
  }

  /** What a VM step contributes to every projection: its report line
      unless it panics; for a candidate, the raw JSON file (written on first
      use) and, once past the write, the guard's digest when it is eligible. */
  function VmDigest(env: Env, groupId: int, vm: Vm, st: ScanState): Digest {
    if |vm.instances| == 0 then EmptyDigest
    else if Classify(vm) == Inert then EmptyDigest.(visits := [VmVisit(vm.id)])
    else
      var call := JsonOutputPath(st.output, JsonPathPrefix(env.cwd), env.clock);
      var noted := NotedDigest(vm, call);
      if (call.wrote && env.writeFails) || Classify(vm) == InDeletion then noted
      else
        var answer := NextResponse(st.responses).0;
        noted.Plus(GuardDigest(env.dryRun, DeletePath(groupId, vm.id), answer, Affirmative(answer)))
  }

  lemma VisitVmDigest(env: Env, groupId: int, vm: Vm, st: ScanState)
    ensures DigestOf(VisitVm(env, groupId, vm, st).events) == VmDigest(env, groupId, vm, st)
  {
    if |vm.instances| == 0 {
      DigestQuiet(IndexPanic(vm.name));
    } else if Classify(vm) == Inert {
      DigestLine(Line(vm, env.formatTime));
    } else {
      var call := JsonOutputPath(st.output, JsonPathPrefix(env.cwd), env.clock);
      if call.wrote && env.writeFails {
        FatalDigest(env, groupId, vm, st);
      } else if Classify(vm) == InDeletion {
        DeletingDigest(env, groupId, vm, st);
      } else {
        GuardedDigest(env, groupId, vm, st);
      }
    }
  }

  /** The digest of a candidate step up to the raw JSON notice. */
  function NotedDigest(vm: Vm, call: PathCall): Digest {
    EmptyDigest.(visits := [VmVisit(vm.id)], writes := WrittenBy(call), files := WrittenBy(call) + [call.path])
  }

  lemma FatalDigest(env: Env, groupId: int, vm: Vm, st: ScanState)
    requires |vm.instances| > 0 && Classify(vm) != Inert
    requires JsonOutputPath(st.output, JsonPathPrefix(env.cwd), env.clock).wrote && env.writeFails
    ensures var call := JsonOutputPath(st.output, JsonPathPrefix(env.cwd), env.clock);
            DigestOf(VisitCandidate(env, groupId, vm, st).events) == NotedDigest(vm, call)
  {
    var call := JsonOutputPath(st.output, JsonPathPrefix(env.cwd), env.clock);
    AnnounceDigest(env, vm, call);
    DigestConcat(Announce(env, vm, call), [WriteFatal(call.path)]);
    DigestFile(WriteFatal(call.path));
    NoticeAlgebra(vm, call, DigestOf(Announce(env, vm, call)), EmptyDigest);
  }

  /** The digest of the notices, the raw JSON notice, the step's own
      actions, and a closing line that no view shows. */
  lemma NoticeDigest(a: seq<Action>, file: string, b: seq<Action>, tail: seq<Action>)
    requires DigestOf(tail) == EmptyDigest
    ensures DigestOf(a + [RawJsonAt(file)] + b + tail) ==
              DigestOf(a).Plus(EmptyDigest.(files := [file])).Plus(DigestOf(b)).Plus(EmptyDigest)
  {
    DigestConcat3(a, [RawJsonAt(file)], b);
    DigestConcat(a + [RawJsonAt(file)] + b, tail);
    DigestFile(RawJsonAt(file));
  }

  /** The announcement's digest followed by the raw JSON notice is the noted
      digest. */
  lemma NoticeAlgebra(vm: Vm, call: PathCall, d: Digest, g: Digest)
    requires d == Digest([], [], [], [], [VmVisit(vm.id)], WrittenBy(call), WrittenBy(call))
    ensures d.Plus(EmptyDigest.(files := [call.path])).Plus(g).Plus(EmptyDigest) == NotedDigest(vm, call).Plus(g)
    ensures d.Plus(EmptyDigest.(files := [call.path])).Plus(EmptyDigest).Plus(EmptyDigest) == NotedDigest(vm, call)
    ensures d.Plus(Digest([], [], [], [], [], [], [call.path])) == NotedDigest(vm, call)
  {
  }

  /** The actions of a candidate step once the raw JSON file is in place. */
  lemma CandidateEvents(env: Env, groupId: int, vm: Vm, st: ScanState)
    requires |vm.instances| > 0 && Classify(vm) != Inert
    requires !(JsonOutputPath(st.output, JsonPathPrefix(env.cwd), env.clock).wrote && env.writeFails)
    ensures var call := JsonOutputPath(st.output, JsonPathPrefix(env.cwd), env.clock);
            var a := ConfirmDelete(env.dryRun, groupId, vm, st.responses, env.deleteFails);
            var shown := Announce(env, vm, call) + [RawJsonAt(call.path)];
            VisitCandidate(env, groupId, vm, st).events ==
              if Classify(vm) == InDeletion then shown + [] + [AlreadyDeleting(vm.name)]
              else shown + a.events + (if a.failed then [DeleteFailed(vm.name)] else [])
  {
    var call := JsonOutputPath(st.output, JsonPathPrefix(env.cwd), env.clock);
    var shown := Announce(env, vm, call) + [RawJsonAt(call.path)];
    if Classify(vm) == InDeletion {
      assert shown + [] == shown;
    } else {
      var a := ConfirmDelete(env.dryRun, groupId, vm, st.responses, env.deleteFails);
      if !a.failed {
        assert shown + a.events + [] == shown + a.events;
      }
    }
  }

  lemma DeletingDigest(env: Env, groupId: int, vm: Vm, st: ScanState)
    requires |vm.instances| > 0 && Classify(vm) == InDeletion
    requires !(JsonOutputPath(st.output, JsonPathPrefix(env.cwd), env.clock).wrote && env.writeFails)
    ensures var call := JsonOutputPath(st.output, JsonPathPrefix(env.cwd), env.clock);
            DigestOf(VisitCandidate(env, groupId, vm, st).events) == NotedDigest(vm, call)
  {
    var call := JsonOutputPath(st.output, JsonPathPrefix(env.cwd), env.clock);
    CandidateEvents(env, groupId, vm, st);
    DigestQuiet(AlreadyDeleting(vm.name));
    AnnounceDigest(env, vm, call);
    NoticeDigest(Announce(env, vm, call), call.path, [], [AlreadyDeleting(vm.name)]);
    NoticeAlgebra(vm, call, DigestOf(Announce(env, vm, call)), EmptyDigest);
  }

  /** The digest of a candidate step that runs the delete protocol. */
  lemma GuardedDigest(env: Env, groupId: int, vm: Vm, st: ScanState)
    requires |vm.instances| > 0 && Classify(vm) == Eligible
    requires !(JsonOutputPath(st.output, JsonPathPrefix(env.cwd), env.clock).wrote && env.writeFails)
    ensures var call := JsonOutputPath(st.output, JsonPathPrefix(env.cwd), env.clock);
            var answer := NextResponse(st.responses).0;
            DigestOf(VisitCandidate(env, groupId, vm, st).events) ==
              NotedDigest(vm, call).Plus(GuardDigest(env.dryRun, DeletePath(groupId, vm.id), answer, Affirmative(answer)))
  {
    var call := JsonOutputPath(st.output, JsonPathPrefix(env.cwd), env.clock);
    var a := ConfirmDelete(env.dryRun, groupId, vm, st.responses, env.deleteFails);
    CandidateEvents(env, groupId, vm, st);
    ConfirmDeleteDigest(env.dryRun, groupId, vm, st.responses, env.deleteFails);
    var tail: seq<Action> := if a.failed then [DeleteFailed(vm.name)] else [];
    DigestQuiet(DeleteFailed(vm.name));
    AnnounceDigest(env, vm, call);
    NoticeDigest(Announce(env, vm, call), call.path, a.events, tail);
    NoticeAlgebra(vm, call, DigestOf(Announce(env, vm, call)), DigestOf(a.events));
  }
}
