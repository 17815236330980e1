/**
 The observable behaviour of one cleanup run, as a sequence of actions:
 report lines, debug-file writes, operator prompts and answers, API delete
 calls and cooldown sleeps.
 */
module Trace {
  import opened Wrappers

  datatype Action =
    | GroupCount(groups: nat)                      // "EC Groups: n"
    | GroupHeader(icon: string, platform: string, groupId: int,
                  groupName: string, region: string, vmCount: nat)
    | VmLine(vmId: int, suffix: string, opStatus: string,
             lastUpgrade: string, status: seq<string>, ip: string)
    | GroupEnd                                     // blank line after a non-empty group
    | IndexPanic(vmName: string)                   // runtime panic: VM without network instances
    | Queued(vmName: string)                       // "queued for deletion" notice
    | WriteRawJson(file: string)                   // the one write of the raw JSON payload
    | WriteFatal(file: string)                     // that write failed: the process exits
    | RawJsonAt(file: string)                      // the notice naming the raw JSON file
    | AlreadyDeleting(vmName: string)
    | Prompt(vmName: string, groupId: int)         // "CONFIRM DELETION" question
    | DryRunLog(path: string)
    | Read(response: string)                       // one operator answer consumed
    | Cancelled
    | Confirmed
    | Delete(path: string)                         // API delete call
    | Sleep(seconds: nat)                          // post-delete cooldown
    | DeleteFailed(vmName: string)                 // delete error: the scan returns

  /** Actions after which nothing else happens in the run. */
  predicate IsTerminal(a: Action) {
    a.IndexPanic? || a.WriteFatal? || a.DeleteFailed?
  }

  /** Actions that only a live (not dry-run) deletion attempt produces. */
  predicate IsLive(a: Action) {
    a.Read? || a.Cancelled? || a.Confirmed? || a.Delete? || a.Sleep?
  }

  /** The entity a report line is about. */
  datatype Visit = GroupVisit(groupId: int, vmCount: nat) | VmVisit(vmId: int)

  predicate NoTerminal(t: seq<Action>) {
    forall i | 0 <= i < |t| :: !IsTerminal(t[i])
  }

  lemma NoTerminalConcat(a: seq<Action>, b: seq<Action>)
    ensures NoTerminal(a + b) <==> NoTerminal(a) && NoTerminal(b)
  {
    if NoTerminal(a) && NoTerminal(b) {
      forall i | 0 <= i < |a + b|
        ensures !IsTerminal((a + b)[i])
      {
        if i >= |a| {
          assert (a + b)[i] == b[i - |a|];
        }
      }
    }
    if NoTerminal(a + b) {
      forall i | 0 <= i < |a|
        ensures !IsTerminal(a[i])
      {
        assert (a + b)[i] == a[i];
      }
      forall i | 0 <= i < |b|
        ensures !IsTerminal(b[i])
      {
        assert (a + b)[|a| + i] == b[i];
      }
    }
  }

  /** A terminal action, if any, is the last action. */
  predicate TerminalOnlyLast(t: seq<Action>) {
    forall i | 0 <= i < |t| && IsTerminal(t[i]) :: i == |t| - 1
  }

  lemma TerminalOnlyLastConcat(a: seq<Action>, b: seq<Action>)
    requires NoTerminal(a) && TerminalOnlyLast(b)
    ensures TerminalOnlyLast(a + b)
  {
    forall i | 0 <= i < |a + b| && IsTerminal((a + b)[i])
      ensures i == |a + b| - 1
    {
      if i >= |a| {
        assert (a + b)[i] == b[i - |a|];
      }
    }
  }

  /** The views of a trace the properties of a run speak about, each in
      trace order. */
  datatype Digest = Digest(
    deletes: seq<string>,    // delete calls
    dryRuns: seq<string>,    // dry-run logs
    intents: seq<string>,    // delete calls and dry-run logs
    live: seq<Action>,       // operator answers, cancellations, confirmations, deletes, sleeps
    visits: seq<Visit>,      // report lines of groups and VMs
    writes: seq<string>,     // raw JSON file writes
    files: seq<string>)      // raw JSON file names mentioned
  {
    function Plus(o: Digest): Digest {
      Digest(deletes + o.deletes, dryRuns + o.dryRuns, intents + o.intents, live + o.live,
             visits + o.visits, writes + o.writes, files + o.files)
    }
  }

  const EmptyDigest: Digest := Digest([], [], [], [], [], [], [])

  /** What one action shows in each view. */
  function Contribution(a: Action): Digest {
    match a
    case GroupHeader(_, _, id, _, _, n) => EmptyDigest.(visits := [GroupVisit(id, n)])
    case VmLine(id, _, _, _, _, _) => EmptyDigest.(visits := [VmVisit(id)])
    case WriteRawJson(f) => EmptyDigest.(writes := [f], files := [f])
    case WriteFatal(f) => EmptyDigest.(files := [f])
    case RawJsonAt(f) => EmptyDigest.(files := [f])
    case DryRunLog(p) => EmptyDigest.(dryRuns := [p], intents := [p])
    case Delete(p) => EmptyDigest.(deletes := [p], intents := [p], live := [a])
    case Read(_) => EmptyDigest.(live := [a])
    case Cancelled => EmptyDigest.(live := [a])
    case Confirmed => EmptyDigest.(live := [a])
    case Sleep(_) => EmptyDigest.(live := [a])
    case _ => EmptyDigest
  }

  function DigestOf(t: seq<Action>): Digest
    decreases |t|
  {
    if t == [] then EmptyDigest else Contribution(t[0]).Plus(DigestOf(t[1..]))
  }

  lemma {:induction false} DigestConcat(a: seq<Action>, b: seq<Action>)
    ensures DigestOf(a + b) == DigestOf(a).Plus(DigestOf(b))
    decreases |a|
  {
    if a == [] {
      assert a + b == b;
    } else {
      assert (a + b)[0] == a[0] && (a + b)[1..] == a[1..] + b;
      DigestConcat(a[1..], b);
      PlusAssoc(Contribution(a[0]), DigestOf(a[1..]), DigestOf(b));
    }
  }

  lemma PlusAssoc(x: Digest, y: Digest, z: Digest)
    ensures x.Plus(y.Plus(z)) == x.Plus(y).Plus(z)
  {
  }

  /** The digest of `a + b + c`. */
  lemma DigestConcat3(a: seq<Action>, b: seq<Action>, c: seq<Action>)
    ensures DigestOf(a + b + c) == DigestOf(a).Plus(DigestOf(b)).Plus(DigestOf(c))
  {
    DigestConcat(a + b, c);
    DigestConcat(a, b);
  }

  lemma DigestOne(a: Action)
    ensures DigestOf([a]) == Contribution(a)
  {
    assert [a][1..] == [];
  }

  /** The digest of a one-action trace, by kind of action. */
  lemma DigestQuiet(a: Action)
    requires !a.GroupHeader? && !a.VmLine? && !a.WriteRawJson? && !a.WriteFatal? && !a.RawJsonAt?
    requires !a.DryRunLog? && !IsLive(a)
    ensures DigestOf([a]) == Digest([], [], [], [], [], [], [])
  {
    DigestOne(a);
  }

  lemma DigestLive(a: Action)
    requires IsLive(a) && !a.Delete?
    ensures DigestOf([a]) == Digest([], [], [], [a], [], [], [])
  {
    DigestOne(a);
  }

  lemma DigestDelete(p: string)
    ensures DigestOf([Delete(p)]) == Digest([p], [], [p], [Delete(p)], [], [], [])
  {
    DigestOne(Delete(p));
  }

  lemma DigestDryRun(p: string)
    ensures DigestOf([DryRunLog(p)]) == Digest([], [p], [p], [], [], [], [])
  {
    DigestOne(DryRunLog(p));
  }

  lemma DigestHeader(a: Action)
    requires a.GroupHeader?
    ensures DigestOf([a]) == Digest([], [], [], [], [GroupVisit(a.groupId, a.vmCount)], [], [])
  {
    DigestOne(a);
  }

  lemma DigestLine(a: Action)
    requires a.VmLine?
    ensures DigestOf([a]) == Digest([], [], [], [], [VmVisit(a.vmId)], [], [])
  {
    DigestOne(a);
  }

  lemma DigestWrite(f: string)
    ensures DigestOf([WriteRawJson(f)]) == Digest([], [], [], [], [], [f], [f])
  {
    DigestOne(WriteRawJson(f));
  }

  /** A notice naming the raw JSON file, or the failure to write it. */
  lemma DigestFile(a: Action)
    requires a.RawJsonAt? || a.WriteFatal?
    ensures DigestOf([a]) == Digest([], [], [], [], [], [], [a.file])
  {
    DigestOne(a);
  }
}
