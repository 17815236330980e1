/** The API path of a VM delete call, and its inverse. */
module Paths {
  import opened Wrappers
  import opened Text
  import opened Decimal

  /** The collection resource of Edge Connector groups. */
  const GroupEndpoint: string := "/ecgroup"

  /** `"/ecgroup/{groupId}/vm/{vmId}"`: the path both logged in dry-run mode
      and passed to the delete call. */
  function DeletePath(groupId: int, vmId: int): string {
    GroupEndpoint + "/" + IntDecimal(groupId) + "/vm/" + IntDecimal(vmId)
  }

  /** Recovers the two identifiers from a delete path. */
  function ParseDeletePath(p: string): Option<(int, int)> {
    var head := GroupEndpoint + "/";
    if |p| < |head| || p[..|head|] != head then None
    else
      var rest := p[|head|..];
      var k := IndexOf(rest, '/');
      if k < 0 then None
      else
        var tail := rest[k..];
        if |tail| < 4 || tail[..4] != "/vm/" then None
        else
          match (ParseInt(rest[..k]), ParseInt(tail[4..]))
          case (Some(g), Some(v)) => Some((g, v))
          case _ => None
  }

  lemma DeletePathRoundTrip(groupId: int, vmId: int)
    ensures ParseDeletePath(DeletePath(groupId, vmId)) == Some((groupId, vmId))
  {
    var g := IntDecimal(groupId);
    ParseJoined(g, IntDecimal(vmId));
    IntDecimalRoundTrip(groupId);
    IntDecimalRoundTrip(vmId);
  }

  /** Parsing a path joined from a group part without a slash and a VM
      part parses the two parts. */
  lemma ParseJoined(g: string, v: string)
    requires forall j | 0 <= j < |g| :: g[j] != '/'
    ensures var p := GroupEndpoint + "/" + g + "/vm/" + v;
            ParseDeletePath(p) ==
              match (ParseInt(g), ParseInt(v))
              case (Some(x), Some(y)) => Some((x, y))
              case _ => None
  {
    var p := GroupEndpoint + "/" + g + "/vm/" + v;
    var head := GroupEndpoint + "/";
    assert p == head + (g + "/vm/" + v);
    assert p[..|head|] == head;
    var rest := p[|head|..];
    assert rest == g + "/vm/" + v;
    var k := IndexOf(rest, '/');
    assert rest[|g|] == '/';
    assert k == |g| by {
      assert forall j | 0 <= j < |g| :: rest[j] == g[j];
    }
    assert rest[..k] == g;
    assert rest[k..] == "/vm/" + v;
    assert rest[k..][4..] == v;
  }

  /** Different VMs are never sent to the same path. */
  lemma DeletePathInjective(g1: int, v1: int, g2: int, v2: int)
    ensures DeletePath(g1, v1) == DeletePath(g2, v2) ==> g1 == g2 && v1 == v2
  {
    DeletePathRoundTrip(g1, v1);
    DeletePathRoundTrip(g2, v2);
  }
}

/**
 The raw-JSON debug file: its path is chosen on first use from one clock
 reading, the raw bytes are written once, and every later call reuses it.
 */
module DebugOutput {
  import opened Wrappers
  import opened Decimal

  /** The directory created under the working directory at start-up. */
  const JsonPathFolder: string := "zscc-json-output"

  function JsonPathPrefix(cwd: string): string {
    cwd + "/" + JsonPathFolder
  }

  /** The file name built from the Unix time of the first call. */
  function OutputFile(prefix: string, unixTime: int): string {
    prefix + "/ecgroups_" + IntDecimal(unixTime) + ".json"
  }

  /** The lazily set output path and the number of file writes done so far. */
  datatype OutputState = OutputState(path: Option<string>, writes: nat)

  const Unset: OutputState := OutputState(None, 0)

  /** Before the first call nothing is written; afterwards exactly one write
      has happened, to the remembered path. */
  predicate Consistent(s: OutputState) {
    (s.path.None? && s.writes == 0) || (s.path.Some? && s.writes == 1)
  }

  datatype PathCall = PathCall(path: string, next: OutputState, wrote: bool)

  /** `getJsonOutputPath`, with the clock reading it would take passed in. */
  function JsonOutputPath(s: OutputState, prefix: string, unixTime: int): (r: PathCall)
    ensures r.next.path == Some(r.path)
    ensures r.wrote <==> s.path.None?
    ensures !r.wrote ==> r.next == s
    ensures r.next.writes == s.writes + (if r.wrote then 1 else 0)
    ensures r.wrote ==> r.path == OutputFile(prefix, unixTime)
    ensures Consistent(s) ==> Consistent(r.next)
  {
    match s.path
    case Some(p) => PathCall(p, s, false)
    case None =>
      var p := OutputFile(prefix, unixTime);
      PathCall(p, OutputState(Some(p), s.writes + 1), true)
  }

  /** A second call, whatever the clock then says, returns the same path and
      changes nothing. */
  lemma JsonOutputPathIdempotent(s: OutputState, prefix: string, t1: int, t2: int)
    ensures var first := JsonOutputPath(s, prefix, t1);
            var second := JsonOutputPath(first.next, prefix, t2);
            second.path == first.path && second.next == first.next && !second.wrote
  {
  }

  /** Paths returned by a series of calls, one clock reading per call, and
      the final state. */
  function CallMany(s: OutputState, prefix: string, clocks: seq<int>): (seq<string>, OutputState)
    decreases |clocks|
  {
    if clocks == [] then ([], s)
    else
      var c := JsonOutputPath(s, prefix, clocks[0]);
      var rest := CallMany(c.next, prefix, clocks[1..]);
      ([c.path] + rest.0, rest.1)
  }

  /** Starting unset, any number of calls write at most once, and every call
      returns the path fixed by the first call's clock reading. */
  lemma {:induction false} CallManyWritesOnce(s: OutputState, prefix: string, clocks: seq<int>)
    requires Consistent(s)
    ensures var (paths, last) := CallMany(s, prefix, clocks);
            && |paths| == |clocks|
            && Consistent(last)
            && (clocks != [] ==> last.path.Some?)
            && (s.path.Some? ==> last == s && forall i | 0 <= i < |paths| :: paths[i] == s.path.value)
            && (s.path.None? && clocks != [] ==>
                  forall i | 0 <= i < |paths| :: paths[i] == OutputFile(prefix, clocks[0]))
    decreases |clocks|
  {
    if clocks != [] {
      var c := JsonOutputPath(s, prefix, clocks[0]);
      CallManyWritesOnce(c.next, prefix, clocks[1..]);
    }
  }
}
