/**
 The deletion guard: which VMs are candidates, and the dry-run, confirmation,
 delete and cooldown protocol applied to each candidate (`EcVMDelete`).
 */
module Guard {
  import opened Wrappers
  import opened Text
  import opened Types
  import opened Trace
  import opened Paths

  /** The only operational status that makes a VM a deletion candidate. */
  const Inactive: string := "INACTIVE"

  /** The status tag of a VM whose deletion is already under way. */
  const DeletingTag: string := "DELETING"

  /** Seconds slept after every confirmed delete call. */
  const CooldownSeconds: nat := 30

  datatype Disposition =
    | Inert        // not INACTIVE: reported only
    | InDeletion   // INACTIVE and already tagged DELETING: logged only
    | Eligible     // INACTIVE and not DELETING: enters the delete protocol

  function Classify(vm: Vm): (d: Disposition)
    ensures d == Inert <==> vm.opStatus != Inactive
    ensures d == InDeletion <==> vm.opStatus == Inactive && DeletingTag in vm.status
    ensures d == Eligible <==> vm.opStatus == Inactive && DeletingTag !in vm.status
  {
    if vm.opStatus != Inactive then Inert
    else if DeletingTag in vm.status then InDeletion
    else Eligible
  }

  /** The scan over a VM's status tags that sets `isInDeletingState`. */
  method HasDeletingTag(status: seq<string>) returns (found: bool)
    ensures found <==> DeletingTag in status
  {
    found := false;
    var i := 0;
    while i < |status|
      invariant 0 <= i <= |status|
      invariant found <==> DeletingTag in status[..i]
    {
      assert status[..i + 1] == status[..i] + [status[i]];
      if status[i] == DeletingTag {
        found := true;
      }
      i := i + 1;
    }
    assert status[..i] == status;
  }

  /** The answer read from the operator: the next response, or the empty
      string once input is exhausted. */
  function NextResponse(responses: seq<string>): (string, seq<string>) {
    if responses == [] then ("", []) else (responses[0], responses[1..])
  }

  /** The trimmed, lower-cased answer is "y" or "yes". */
  predicate Affirmative(response: string) {
    var w := ToLower(TrimSpace(response));
    w == "y" || w == "yes"
  }

  /** "y" or "yes" in any mix of cases. */
  predicate IsYesWord(w: string) {
    || (|w| == 1 && w[0] in {'y', 'Y'})
    || (|w| == 3 && w[0] in {'y', 'Y'} && w[1] in {'e', 'E'} && w[2] in {'s', 'S'})
  }

  /** `s[i..j]` is a yes-word and everything around it is white space. */
  predicate YesBetween(s: string, i: nat, j: nat) {
    && i <= j <= |s|
    && AllSpace(s[..i])
    && AllSpace(s[j..])
    && IsYesWord(s[i..j])
  }

  /** The characters that lower-case to a given ASCII lower-case letter. */
  lemma LowerCharTo(c: char, x: char)
    requires 'a' <= x <= 'z'
    ensures LowerChar(c) == x <==> c == x || c == (x as int - 32) as char
  {
  }

  /** A lower-cased word is "y" or "yes" exactly when the word is a yes-word. */
  lemma ToLowerYes(w: string)
    ensures (ToLower(w) == "y" || ToLower(w) == "yes") <==> IsYesWord(w)
  {
    var l := ToLower(w);
    if |w| == 1 {
      LowerCharTo(w[0], 'y');
      assert l == [LowerChar(w[0])];
    } else if |w| == 3 {
      LowerCharTo(w[0], 'y');
      LowerCharTo(w[1], 'e');
      LowerCharTo(w[2], 's');
      assert l == [LowerChar(w[0]), LowerChar(w[1]), LowerChar(w[2])];
    }
  }

  lemma AffirmativeIsPaddedYes(s: string)
    requires Affirmative(s)
    ensures YesBetween(s, LeadingSpaces(s), LeadingSpaces(s) + |TrimSpace(s)|)
  {
    TrimSpaceSpec(s);
    ToLowerYes(TrimSpace(s));
  }

  lemma PaddedYesIsAffirmative(s: string, i: nat, j: nat)
    requires YesBetween(s, i, j)
    ensures Affirmative(s)
  {
    var w := s[i..j];
    assert s == s[..i] + w + s[j..];
    TrimSpaceOfPadded(s[..i], w, s[j..]);
    ToLowerYes(w);
  }

  /** An answer confirms deletion exactly when it is a case variant of "y" or
      "yes" with optional surrounding white space. */
  lemma AffirmativeIff(s: string)
    ensures Affirmative(s) <==> exists i: nat, j: nat :: YesBetween(s, i, j)
  {
    if Affirmative(s) {
      AffirmativeIsPaddedYes(s);
    }
    if exists i: nat, j: nat :: YesBetween(s, i, j) {
      var i: nat, j: nat :| YesBetween(s, i, j);
      PaddedYesIsAffirmative(s, i, j);
    }
  }

  /** The result of `EcVMDelete`: what it did, the operator answers it left
      unread, and whether it returned an error. */
  datatype Attempt = Attempt(events: seq<Action>, rest: seq<string>, failed: bool)

  /** The delete call at `i` comes right after an affirmative answer and its
      confirmation, and is followed by the cooldown. */
  predicate DeleteGuardedAt(t: seq<Action>, i: int)
    requires 0 <= i < |t|
  {
    && 2 <= i < |t| - 1
    && t[i - 2].Read? && Affirmative(t[i - 2].response)
    && t[i - 1] == Confirmed
    && t[i + 1] == Sleep(CooldownSeconds)
  }

  /** The cooldown at `i` follows a delete call. */
  predicate SleepGuardedAt(t: seq<Action>, i: int)
    requires 0 <= i < |t|
  {
    0 < i && t[i - 1].Delete?
  }

  /** Every delete call is confirmed and cooled down; every cooldown follows
      a delete call. */
  predicate DeletesGuarded(t: seq<Action>) {
    && (forall i | 0 <= i < |t| && t[i].Delete? :: DeleteGuardedAt(t, i))
    && (forall i | 0 <= i < |t| && t[i].Sleep? :: SleepGuardedAt(t, i))
  }

  lemma DeletesGuardedConcat(a: seq<Action>, b: seq<Action>)
    requires DeletesGuarded(a) && DeletesGuarded(b)
    ensures DeletesGuarded(a + b)
  {
    var t := a + b;
    forall i | 0 <= i < |t| && t[i].Delete?
      ensures DeleteGuardedAt(t, i)
    {
      if i < |a| {
        assert t[i] == a[i] && t[i - 2] == a[i - 2] && t[i - 1] == a[i - 1] && t[i + 1] == a[i + 1];
      } else {
        var k := i - |a|;
        assert t[i] == b[k] && t[i - 2] == b[k - 2] && t[i - 1] == b[k - 1] && t[i + 1] == b[k + 1];
      }
    }
    forall i | 0 <= i < |t| && t[i].Sleep?
      ensures SleepGuardedAt(t, i)
    {
      if i < |a| {
        assert t[i] == a[i] && t[i - 1] == a[i - 1];
      } else {
        var k := i - |a|;
        assert t[i] == b[k] && t[i - 1] == b[k - 1];
      }
    }
  }

  /** The operator-facing actions of one live attempt: the answer, then
      either its cancellation, or its confirmation, the delete call and the
      cooldown. */
  function LiveBlock(answer: string, path: string, confirmed: bool): seq<Action> {
    if confirmed then [Read(answer), Confirmed, Delete(path), Sleep(CooldownSeconds)]
    else [Read(answer), Cancelled]
  }

  /** Live attempts one after another, each confirmed exactly when its
      answer is affirmative. */
  predicate LiveProtocol(live: seq<Action>)
    decreases |live|
  {
    if live == [] then true
    else if |live| >= 2 && live[0].Read? && !Affirmative(live[0].response) && live[1] == Cancelled
    then LiveProtocol(live[2..])
    else
      && |live| >= 4 && live[0].Read? && Affirmative(live[0].response)
      && live[1] == Confirmed && live[2].Delete? && live[3] == Sleep(CooldownSeconds)
      && LiveProtocol(live[4..])
  }

  lemma LiveBlockProtocol(answer: string, path: string)
    ensures LiveProtocol(LiveBlock(answer, path, Affirmative(answer)))
  {
    var b := LiveBlock(answer, path, Affirmative(answer));
    if Affirmative(answer) {
      assert b[4..] == [];
    } else {
      assert b[2..] == [];
    }
  }

  lemma {:induction false} LiveProtocolConcat(a: seq<Action>, b: seq<Action>)
    requires LiveProtocol(a) && LiveProtocol(b)
    ensures LiveProtocol(a + b)
    decreases |a|
  {
    if a == [] {
      assert a + b == b;
    } else {
      var k := if |a| >= 2 && a[0].Read? && !Affirmative(a[0].response) && a[1] == Cancelled then 2 else 4;
      LiveProtocolConcat(a[k..], b);
      ConcatAfter(a, b, k);
    }
  }

  /** The first `k` actions of `a + b` are those of `a`, and the rest is
      what follows them in `a`, then `b`. */
  lemma ConcatAfter(a: seq<Action>, b: seq<Action>, k: nat)
    requires k <= |a|
    ensures forall i | 0 <= i < k :: (a + b)[i] == a[i]
    ensures (a + b)[k..] == a[k..] + b
  {
  }

  /** In a protocol sequence every delete call follows an affirmative answer
      and its confirmation and is followed by the cooldown, and every
      cooldown follows a delete call. */
  lemma {:induction false} LiveProtocolGuarded(live: seq<Action>)
    requires LiveProtocol(live)
    ensures DeletesGuarded(live)
    decreases |live|
  {
    if live != [] {
      var k := if |live| >= 2 && live[0].Read? && !Affirmative(live[0].response) && live[1] == Cancelled
               then 2 else 4;
      var block, rest := live[..k], live[k..];
      assert live == block + rest;
      LiveProtocolGuarded(rest);
      if k == 4 {
        assert DeleteGuardedAt(block, 2);
        assert SleepGuardedAt(block, 3);
      }
      DeletesGuardedConcat(block, rest);
    }
  }

  /** The digest of the guard's actions for one VM: in dry-run mode the log
      of the path; in live mode the operator-facing block, with the delete
      call when the answer confirmed it. */
  function GuardDigest(dryRun: bool, path: string, answer: string, confirmed: bool): Digest {
    if dryRun then EmptyDigest.(dryRuns := [path], intents := [path])
    else
      var called := if confirmed then [path] else [];
      EmptyDigest.(deletes := called, intents := called, live := LiveBlock(answer, path, confirmed))
  }

  /** The dry-run outcome: the prompt and the path that would be deleted. */
  function DryRunEvents(prompt: Action, path: string): seq<Action> {
    [prompt] + [DryRunLog(path)]
  }

  /** The operator declined: nothing is deleted and there is no cooldown. */
  function CancelEvents(prompt: Action, answer: string): seq<Action> {
    [prompt] + [Read(answer)] + [Cancelled]
  }

  /** The operator confirmed: one delete call, then the cooldown. */
  function DeleteEvents(prompt: Action, answer: string, path: string): seq<Action> {
    ([prompt] + [Read(answer)] + [Confirmed]) + ([Delete(path)] + [Sleep(CooldownSeconds)])
  }

  lemma DryRunDigest(prompt: Action, path: string)
    requires prompt.Prompt?
    ensures DigestOf(DryRunEvents(prompt, path)) == Digest([], [path], [path], [], [], [], [])
  {
    DigestConcat([prompt], [DryRunLog(path)]);
    DigestQuiet(prompt);
    DigestDryRun(path);
  }

  lemma CancelDigest(prompt: Action, answer: string)
    requires prompt.Prompt?
    ensures DigestOf(CancelEvents(prompt, answer)) == Digest([], [], [], [Read(answer), Cancelled], [], [], [])
  {
    DigestConcat3([prompt], [Read(answer)], [Cancelled]);
    DigestQuiet(prompt);
    DigestLive(Read(answer));
    DigestLive(Cancelled);
  }

  lemma DeleteDigest(prompt: Action, answer: string, path: string)
    requires prompt.Prompt?
    ensures DigestOf(DeleteEvents(prompt, answer, path)) ==
              Digest([path], [], [path], [Read(answer), Confirmed, Delete(path), Sleep(CooldownSeconds)], [], [], [])
  {
    var answered := [prompt] + [Read(answer)] + [Confirmed];
    var call := [Delete(path)] + [Sleep(CooldownSeconds)];
    DigestConcat3([prompt], [Read(answer)], [Confirmed]);
    DigestQuiet(prompt);
    DigestLive(Read(answer));
    DigestLive(Confirmed);
    CallDigest(path);
    DigestConcat(answered, call);
  }

  lemma CallDigest(path: string)
    ensures DigestOf([Delete(path)] + [Sleep(CooldownSeconds)]) ==
              Digest([path], [], [path], [Delete(path), Sleep(CooldownSeconds)], [], [], [])
  {
    DigestConcat([Delete(path)], [Sleep(CooldownSeconds)]);
    DigestDelete(path);
    DigestLive(Sleep(CooldownSeconds));
  }

  /** `EcVMDelete` for the VM `vm` of group `groupId`. The prompt is printed
      first in both modes; in dry-run mode only the would-be path is logged. */
  function ConfirmDelete(dryRun: bool, groupId: int, vm: Vm, responses: seq<string>,
                         deleteFails: string -> bool): Attempt
  {
    var path := DeletePath(groupId, vm.id);
    var prompt := Prompt(vm.name, groupId);
    var (answer, rest) := NextResponse(responses);
    if dryRun then Attempt(DryRunEvents(prompt, path), responses, false)
    else if !Affirmative(answer) then Attempt(CancelEvents(prompt, answer), rest, false)
    else Attempt(DeleteEvents(prompt, answer, path), rest, deleteFails(path))
  }

  /** What `EcVMDelete` does: dry-run mode logs the path; live mode reads an
      answer and, only when it is affirmative, confirms, issues the delete
      call and sleeps. */
  lemma ConfirmDeleteOutcome(dryRun: bool, groupId: int, vm: Vm, responses: seq<string>,
                             deleteFails: string -> bool)
    ensures var r := ConfirmDelete(dryRun, groupId, vm, responses, deleteFails);
            var answer := NextResponse(responses).0;
            var path := DeletePath(groupId, vm.id);
            var prompt := Prompt(vm.name, groupId);
            && (dryRun ==> r.events == [prompt, DryRunLog(path)])
            && (!dryRun && !Affirmative(answer) ==> r.events == [prompt, Read(answer), Cancelled])
            && (!dryRun && Affirmative(answer) ==>
                  r.events == [prompt, Read(answer), Confirmed, Delete(path), Sleep(CooldownSeconds)])
  {
    var path := DeletePath(groupId, vm.id);
    var prompt := Prompt(vm.name, groupId);
    var answer := NextResponse(responses).0;
    if dryRun {
      assert DryRunEvents(prompt, path) == [prompt, DryRunLog(path)];
    } else if !Affirmative(answer) {
      assert CancelEvents(prompt, answer) == [prompt, Read(answer), Cancelled];
    } else {
      assert DeleteEvents(prompt, answer, path) == [prompt, Read(answer), Confirmed, Delete(path), Sleep(CooldownSeconds)];
    }
  }

  /** Dry-run mode consumes no answer and cannot fail; live mode consumes
      one answer and fails exactly when a confirmed delete call fails. */
  lemma ConfirmDeleteResult(dryRun: bool, groupId: int, vm: Vm, responses: seq<string>,
                            deleteFails: string -> bool)
    ensures var r := ConfirmDelete(dryRun, groupId, vm, responses, deleteFails);
            var (answer, rest) := NextResponse(responses);
            && r.rest == (if dryRun then responses else rest)
            && (r.failed <==> !dryRun && Affirmative(answer) && deleteFails(DeletePath(groupId, vm.id)))
  {
  }

  /** The digest of `EcVMDelete`. */
  lemma ConfirmDeleteDigest(dryRun: bool, groupId: int, vm: Vm, responses: seq<string>,
                            deleteFails: string -> bool)
    ensures var r := ConfirmDelete(dryRun, groupId, vm, responses, deleteFails);
            var answer := NextResponse(responses).0;
            DigestOf(r.events) == GuardDigest(dryRun, DeletePath(groupId, vm.id), answer, Affirmative(answer))
  {
    var path := DeletePath(groupId, vm.id);
    var prompt := Prompt(vm.name, groupId);
    var answer := NextResponse(responses).0;
    if dryRun {
      DryRunDigest(prompt, path);
    } else if !Affirmative(answer) {
      CancelDigest(prompt, answer);
    } else {
      DeleteDigest(prompt, answer, path);
    }
  }

  /** `EcVMDelete` itself never ends the run; a failed delete call is
      reported by its caller. */
  lemma ConfirmDeleteEnds(dryRun: bool, groupId: int, vm: Vm, responses: seq<string>,
                          deleteFails: string -> bool)
    ensures NoTerminal(ConfirmDelete(dryRun, groupId, vm, responses, deleteFails).events)
  {
  }

  /** Within `EcVMDelete` the delete call is confirmed and cooled down. */
  lemma ConfirmDeleteGuarded(dryRun: bool, groupId: int, vm: Vm, responses: seq<string>,
                             deleteFails: string -> bool)
    ensures DeletesGuarded(ConfirmDelete(dryRun, groupId, vm, responses, deleteFails).events)
  {
    ConfirmDeleteOutcome(dryRun, groupId, vm, responses, deleteFails);
    var answer := NextResponse(responses).0;
    if !dryRun && Affirmative(answer) {
      ConfirmedBlockGuarded(Prompt(vm.name, groupId), answer, DeletePath(groupId, vm.id));
    }
  }

  lemma ConfirmedBlockGuarded(prompt: Action, answer: string, path: string)
    requires prompt.Prompt? && Affirmative(answer)
    ensures DeletesGuarded([prompt, Read(answer), Confirmed, Delete(path), Sleep(CooldownSeconds)])
  {
    var t := [prompt, Read(answer), Confirmed, Delete(path), Sleep(CooldownSeconds)];
    assert DeleteGuardedAt(t, 3);
    assert SleepGuardedAt(t, 4);
  }
}
