/** `check_dependencies` and `run_sublist3r`: the dependency check, the
    early return when something is missing, and the filter that turns the
    tool's captured output into subdomains. Looking up the interpreter,
    testing files for existence and running the tool are inputs. */
module Runner {
  import opened Wrappers
  import opened PyStrings

  const PythonMissing := "Python is not found in system PATH."
  const ToolMissing := "Sublist3r is not installed or not found."
  const Banner := "Enumerating subdomains"

  /** The process environment the runner consults: whether `python` is on
      the search path, the script path found at start-up (None when it was
      not found), and the set of paths that exist on disk. */
  datatype Dependencies = Dependencies(pythonOnPath: bool, scriptPath: Option<string>, existing: set<string>)

  /** How one run of the tool ended: it exited with status zero and this
      standard output, it exited non-zero (CalledProcessError, described by
      `detail`), the executable was not found (FileNotFoundError), or any
      other exception was raised (described by its traceback). */
  datatype ToolRun = Exited(stdout: string) | NonZeroExit(detail: string) | LaunchFailed | Raised(traceback: string)

  /** The runner's triple: subdomains, error (None on success), logs. */
  datatype RunResult = RunResult(subdomains: seq<string>, error: Option<string>, logs: string)

  /** `SUBLIST3R_PATH` is truthy and names an existing file. */
  predicate ScriptPresent(deps: Dependencies) {
    deps.scriptPath.Some? && deps.scriptPath.value != [] && deps.scriptPath.value in deps.existing
  }

  /** The messages `check_dependencies` collects, in the order it checks. */
  function MissingDependencies(deps: Dependencies): (missing: seq<string>)
    ensures missing == [] <==> deps.pythonOnPath && ScriptPresent(deps)
    ensures PythonMissing in missing <==> !deps.pythonOnPath
    ensures ToolMissing in missing <==> !ScriptPresent(deps)
    ensures |missing| == 2 ==> missing[0] == PythonMissing && missing[1] == ToolMissing
    ensures |missing| <= 2 && (|missing| == 1 ==> missing[0] in {PythonMissing, ToolMissing})
  {
    (if deps.pythonOnPath then [] else [PythonMissing])
    + (if ScriptPresent(deps) then [] else [ToolMissing])
  }

  /** `check_dependencies`, appending one message per missing dependency. */
  method CheckDependencies(deps: Dependencies) returns (missing: seq<string>)
    ensures missing == MissingDependencies(deps)
  {
    missing := [];
    if !deps.pythonOnPath {
      missing := missing + [PythonMissing];
    }
    if deps.scriptPath.None? || deps.scriptPath.value == [] || deps.scriptPath.value !in deps.existing {
      missing := missing + [ToolMissing];
    }
  }

  /** A line of output is kept when it contains the requested domain and is
      not the tool's banner. */
  predicate Kept(line: string, domain: string) {
    Contains(line, domain) && !Contains(line, Banner)
  }

  /** The list comprehension over the output lines: each kept line,
      stripped, in order. */
  function KeepLines(lines: seq<string>, domain: string): (r: seq<string>)
    ensures |r| <= |lines|
    ensures forall k :: 0 <= k < |r| ==> IsStripped(r[k])
  {
    if lines == [] then []
    else (if Kept(lines[0], domain) then [Strip(lines[0])] else []) + KeepLines(lines[1..], domain)
  }

  /** The subdomains `run_sublist3r` extracts from the tool's output. */
  function FilterLines(output: string, domain: string): seq<string> {
    KeepLines(Split(output, "\n"), domain)
  }

  /** Every index moved up by one. */
  function Shifted(idx: seq<nat>): (r: seq<nat>)
    ensures |r| == |idx| && forall k :: 0 <= k < |idx| ==> r[k] == idx[k] + 1
  {
    if idx == [] then [] else [idx[0] + 1] + Shifted(idx[1..])
  }

  /** The positions of the true entries of `m`, in increasing order. */
  function TruePositions(m: seq<bool>): (idx: seq<nat>)
    ensures forall k :: 0 <= k < |idx| ==> idx[k] < |m| && m[idx[k]]
  {
    if m == [] then []
    else
      var rest := TruePositions(m[1..]);
      var shifted := Shifted(rest);
      assert forall k :: 0 <= k < |rest| ==> m[shifted[k]] == m[1..][rest[k]];
      (if m[0] then [0] else []) + shifted
  }

  /** Strictly increasing. */
  predicate Increasing(idx: seq<nat>) {
    forall k, l :: 0 <= k < l < |idx| ==> idx[k] < idx[l]
  }

  lemma {:induction false} TruePositionsIncreasing(m: seq<bool>)
    ensures Increasing(TruePositions(m))
  {
    if m != [] {
      TruePositionsIncreasing(m[1..]);
      var shifted := Shifted(TruePositions(m[1..]));
      assert Increasing(shifted);
      if m[0] {
        var idx := [0] + shifted;
        assert forall k :: 1 <= k < |idx| ==> idx[k] == shifted[k - 1];
      }
    }
  }

  lemma ShiftedHas(idx: seq<nat>, x: nat)
    requires x in idx
    ensures x + 1 in Shifted(idx)
  {
    var k :| 0 <= k < |idx| && idx[k] == x;
    assert Shifted(idx)[k] == x + 1;
  }

  /** Every true entry's position is listed. */
  lemma {:induction false} TruePositionsComplete(m: seq<bool>, i: nat)
    requires i < |m| && m[i]
    ensures i in TruePositions(m)
  {
    if i > 0 {
      assert m[1..][i - 1] == m[i];
      TruePositionsComplete(m[1..], i - 1);
      ShiftedHas(TruePositions(m[1..]), i - 1);
    }
  }

  /** Which lines are kept. */
  function Marks(lines: seq<string>, domain: string): (m: seq<bool>)
    ensures |m| == |lines| && forall k :: 0 <= k < |lines| ==> m[k] == Kept(lines[k], domain)
  {
    if lines == [] then [] else [Kept(lines[0], domain)] + Marks(lines[1..], domain)
  }

  /** The indices of the kept lines, in increasing order. */
  function KeptPositions(lines: seq<string>, domain: string): (idx: seq<nat>)
    ensures forall k :: 0 <= k < |idx| ==> idx[k] < |lines| && Kept(lines[idx[k]], domain)
  {
    TruePositions(Marks(lines, domain))
  }

  /** The kept positions list the kept lines in their original order. */
  lemma KeptPositionsIncreasing(lines: seq<string>, domain: string)
    ensures Increasing(KeptPositions(lines, domain))
  {
    TruePositionsIncreasing(Marks(lines, domain));
  }

  /** Every kept line's index is among the kept positions. */
  lemma KeptPositionsComplete(lines: seq<string>, domain: string, i: nat)
    requires i < |lines| && Kept(lines[i], domain)
    ensures i in KeptPositions(lines, domain)
  {
    TruePositionsComplete(Marks(lines, domain), i);
  }

  lemma KeptPositionsCons(lines: seq<string>, domain: string)
    requires lines != []
    ensures KeptPositions(lines, domain) ==
              (if Kept(lines[0], domain) then [0] else []) + Shifted(KeptPositions(lines[1..], domain))
  {
    var m := Marks(lines, domain);
    assert m[0] == Kept(lines[0], domain) && m[1..] == Marks(lines[1..], domain);
  }

  /** The filtered list is, in the original order, exactly the stripped
      kept lines: entry `k` is the `k`-th kept line, stripped. */
  lemma {:induction false} KeepLinesAt(lines: seq<string>, domain: string)
    ensures |KeepLines(lines, domain)| == |KeptPositions(lines, domain)|
    ensures forall k :: 0 <= k < |KeptPositions(lines, domain)| ==>
              KeepLines(lines, domain)[k] == Strip(lines[KeptPositions(lines, domain)[k]])
  {
    if lines != [] {
      var tail := lines[1..];
      KeepLinesAt(tail, domain);
      var rt, pt := KeepLines(tail, domain), KeptPositions(tail, domain);
      var skip := if Kept(lines[0], domain) then 1 else 0;
      var r, p := KeepLines(lines, domain), KeptPositions(lines, domain);
      KeptPositionsCons(lines, domain);
      assert r[skip..] == rt && p[skip..] == Shifted(pt);
      forall k | skip <= k < |p|
        ensures r[k] == Strip(lines[p[k]])
      {
        assert r[k] == rt[k - skip] && p[k] == pt[k - skip] + 1;
        assert lines[p[k]] == tail[pt[k - skip]];
      }
    }
  }

  /** No entry of the filtered list comes from a banner line, and, when the
      domain is non-empty, none comes from an empty line (such as the one
      after a final newline). */
  lemma KeptEntries(lines: seq<string>, domain: string, k: nat)
    requires k < |KeepLines(lines, domain)|
    ensures exists i :: 0 <= i < |lines| && !Contains(lines[i], Banner) && Contains(lines[i], domain)
                        && (domain != [] ==> lines[i] != []) && KeepLines(lines, domain)[k] == Strip(lines[i])
  {
    KeepLinesAt(lines, domain);
    var i := KeptPositions(lines, domain)[k];
    assert Kept(lines[i], domain);
  }

  /** When the domain is non-empty and has no whitespace at either end,
      every entry of the filtered list still contains it. */
  lemma {:induction false} KeepLinesContainDomain(lines: seq<string>, domain: string)
    requires domain != [] && IsStripped(domain)
    ensures forall k :: 0 <= k < |KeepLines(lines, domain)| ==> Contains(KeepLines(lines, domain)[k], domain)
  {
    if lines != [] {
      KeepLinesContainDomain(lines[1..], domain);
      if Kept(lines[0], domain) {
        StripKeepsInnerOccurrence(lines[0], domain);
      }
    }
  }

  /** Filtering distributes over concatenation of line lists. */
  lemma {:induction false} KeepLinesAppend(a: seq<string>, b: seq<string>, domain: string)
    ensures KeepLines(a + b, domain) == KeepLines(a, domain) + KeepLines(b, domain)
  {
    if a != [] {
      assert (a + b)[1..] == a[1..] + b;
      KeepLinesAppend(a[1..], b, domain);
    } else {
      assert a + b == b;
    }
  }

  /** A final newline in the output adds nothing to the filtered list when
      the domain is non-empty. */
  lemma TrailingNewlineAddsNothing(output: string, domain: string)
    requires domain != []
    ensures FilterLines(output + "\n", domain) == FilterLines(output, domain)
  {
    SplitTrailingSeparator(output, "\n");
    KeepLinesAppend(Split(output, "\n"), [[]], domain);
    assert !Contains([], domain);
  }

  /** The subdomains come from the output's lines: pieces free of newlines
      that rejoin to the whole output. Entry `k` is the `k`-th kept line,
      stripped. */
  lemma FilterLinesAt(output: string, domain: string)
    ensures var lines := Split(output, "\n");
            && Join(lines, "\n") == output
            && (forall i :: 0 <= i < |lines| ==> '\n' !in lines[i])
            && |FilterLines(output, domain)| == |KeptPositions(lines, domain)|
            && forall k :: 0 <= k < |KeptPositions(lines, domain)| ==>
                 FilterLines(output, domain)[k] == Strip(lines[KeptPositions(lines, domain)[k]])
  {
    JoinSplit(output, "\n");
    SplitPiecesFree(output, '\n');
    KeepLinesAt(Split(output, "\n"), domain);
  }

  /** The error text for a non-empty list of missing dependencies:
      `"; ".join(missing)`. */
  function MissingMessage(deps: Dependencies): string {
    Join(MissingDependencies(deps), "; ")
  }

  /** The message names each missing dependency once, the interpreter
      first, separated by `"; "`, and is empty only when nothing is missing. */
  lemma MissingMessageCases(deps: Dependencies)
    ensures MissingMessage(deps) ==
              if !deps.pythonOnPath && !ScriptPresent(deps) then PythonMissing + "; " + ToolMissing
              else if !deps.pythonOnPath then PythonMissing
              else if !ScriptPresent(deps) then ToolMissing
              else []
  {
    var missing := MissingDependencies(deps);
    if |missing| == 2 {
      assert missing == [PythonMissing, ToolMissing];
      assert missing[1..] == [ToolMissing];
      assert Join(missing, "; ") == PythonMissing + "; " + Join([ToolMissing], "; ");
    }
  }

  /** `run_sublist3r(domain)`. `tool(path, domain)` stands for running the
      script at `path` with `-d domain` under the current interpreter; it is
      consulted only once every dependency is present. */
  function RunSublist3r(domain: string, deps: Dependencies, tool: (string, string) -> ToolRun): (r: RunResult)
    ensures r.error.Some? ==> r.error.value != [] && r.subdomains == [] && r.logs == []
    ensures r.error.None? ==> r.subdomains == FilterLines(r.logs, domain)
  {
    var missing := MissingDependencies(deps);
    if missing != [] then
      RunResult([], Some(MissingMessage(deps)), [])
    else
      var path := deps.scriptPath.value;
      // Cannot fire: the dependency check above already found `path` on disk.
      if path !in deps.existing then
        RunResult([], Some("Sublist3r script not found at: " + path), [])
      else
        match tool(path, domain)
        case Exited(out) => RunResult(FilterLines(out, domain), None, out)
        case NonZeroExit(detail) => RunResult([], Some("Sublist3r error: " + detail), [])
        case LaunchFailed => RunResult([], Some("Sublist3r file not found."), [])
        case Raised(trace) => RunResult([], Some("Unexpected error running Sublist3r: " + trace), [])
  }

  /** With a dependency missing the tool is never consulted: the result is
      the same whatever the tool would do, an empty list, empty logs and the
      messages joined by `"; "`, the interpreter's first. */
  lemma RunWithMissingDependencies(domain: string, deps: Dependencies, tool: (string, string) -> ToolRun, other: (string, string) -> ToolRun)
    requires !deps.pythonOnPath || !ScriptPresent(deps)
    ensures RunSublist3r(domain, deps, tool) == RunSublist3r(domain, deps, other)
    ensures RunSublist3r(domain, deps, tool) == RunResult([], Some(MissingMessage(deps)), [])
    ensures MissingMessage(deps) ==
              if !deps.pythonOnPath && !ScriptPresent(deps) then PythonMissing + "; " + ToolMissing
              else if !deps.pythonOnPath then PythonMissing
              else ToolMissing
  {
    MissingMessageCases(deps);
  }

  /** With every dependency present the run fails exactly when the tool does
      not exit normally; on a normal exit the logs are the whole output and
      the subdomains are its filtered lines. */
  lemma RunWithDependencies(domain: string, deps: Dependencies, tool: (string, string) -> ToolRun)
    requires deps.pythonOnPath && ScriptPresent(deps)
    ensures var run := tool(deps.scriptPath.value, domain);
            var r := RunSublist3r(domain, deps, tool);
            && (r.error.None? <==> run.Exited?)
            && (run.Exited? ==> r.logs == run.stdout && r.subdomains == FilterLines(run.stdout, domain))
  {
  }

  /** Splitting `a + "\n" + b` where `a` holds no newline. */
  lemma SplitLine(a: string, b: string)
    requires '\n' !in a
    ensures Split(a + "\n" + b, "\n") == [a] + Split(b, "\n")
  {
    forall i: nat | i < |a|
      ensures !OccursAt(a + "\n" + b, "\n", i)
    {
      assert (a + "\n" + b)[i] == a[i];
    }
    SplitAfter(a, "\n", b);
  }

  lemma KeepLinesCons(x: string, xs: seq<string>, d: string)
    ensures KeepLines([x] + xs, d) == (if Kept(x, d) then [Strip(x)] else []) + KeepLines(xs, d)
  {
    assert ([x] + xs)[1..] == xs;
  }

  /** Four lines, the first and third kept and already stripped, filter to
      those two. */
  lemma KeepFirstAndThird(a: string, b: string, c: string, e: string, d: string)
    requires Kept(a, d) && !Kept(b, d) && Kept(c, d) && !Kept(e, d)
    requires IsStripped(a) && IsStripped(c)
    ensures KeepLines([a, b, c, e], d) == [a, c]
  {
    StripOfStripped(a);
    StripOfStripped(c);
    KeepLinesCons(e, [], d);
    assert [e] == [e] + [];
    KeepLinesCons(c, [e], d);
    KeepLinesCons(b, [c, e], d);
    KeepLinesCons(a, [b, c, e], d);
  }

  /** Three newline-free lines, each followed by a newline, split into
      those lines and one empty piece. */
  lemma ThreeLines(l1: string, l2: string, l3: string)
    requires '\n' !in l1 && '\n' !in l2 && '\n' !in l3
    ensures Split(l1 + "\n" + l2 + "\n" + l3 + "\n", "\n") == [l1, l2, l3, []]
  {
    SplitLine(l3, []);
    SplitLine(l2, l3 + "\n");
    SplitLine(l1, l2 + "\n" + l3 + "\n");
    assert l1 + "\n" + l2 + "\n" + l3 + "\n" == l1 + "\n" + (l2 + "\n" + l3 + "\n");
    assert l2 + "\n" + l3 + "\n" == l2 + "\n" + (l3 + "\n");
    assert l3 + "\n" == l3 + "\n" + [];
    assert Split([], "\n") == [[]];
  }

  /** The lines of the worked example: the first and third name the
      domain, the second is the banner. */
  predicate ExampleLines(l1: string, l2: string, l3: string) {
    l1 == "example.com - 1.2.3.4" && l2 == "Enumerating subdomains now" && l3 == "sub.example.com"
  }

  lemma ExampleFirstLine(l1: string, l2: string, l3: string)
    requires ExampleLines(l1, l2, l3)
    ensures Kept(l1, "example.com") && IsStripped(l1) && '\n' !in l1
  {
    assert OccursAt(l1, "example.com", 0);
  }

  lemma ExampleBannerLine(l1: string, l2: string, l3: string)
    requires ExampleLines(l1, l2, l3)
    ensures !Kept(l2, "example.com") && '\n' !in l2
  {
    assert OccursAt(l2, Banner, 0);
  }

  lemma ExampleThirdLine(l1: string, l2: string, l3: string)
    requires ExampleLines(l1, l2, l3)
    ensures Kept(l3, "example.com") && IsStripped(l3) && '\n' !in l3
  {
    assert OccursAt(l3, "example.com", 4);
  }

  /** The tool's output with a banner line between two matching lines and a
      final newline yields the two matching lines, in order. */
  lemma BannerExample(l1: string, l2: string, l3: string)
    requires ExampleLines(l1, l2, l3)
    ensures FilterLines(l1 + "\n" + l2 + "\n" + l3 + "\n", "example.com") == [l1, l3]
  {
    ExampleFirstLine(l1, l2, l3);
    ExampleBannerLine(l1, l2, l3);
    ExampleThirdLine(l1, l2, l3);
    ThreeLines(l1, l2, l3);
    KeepFirstAndThird(l1, l2, l3, [], "example.com");
  }
}
