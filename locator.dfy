/** `find_sublist3r`: finds the tool's entry script from the output of
    `pip show sublist3r`. Running `pip` is not modelled; its outcome is an
    input. */
module Locator {
  import opened PyStrings

  const LocationField := "Location:"
  const ScriptName := "sublist3r.py"

  /** What running `pip show sublist3r` produced: a non-zero exit status
      (raised as CalledProcessError) or the captured standard output. */
  datatype PipShow = PipFailed | PipSucceeded(stdout: string)

  /** The outcome of the search: the script path, no path (the function
      returns None), or the IndexError raised by a `Location:` line that
      has no `": "` in it. */
  datatype Located = Found(path: string) | NotFound | IndexError

  /** `os.path.join(dir, name)` on POSIX. */
  function PathJoin(dir: string, name: string): (r: string)
    ensures EndsWith(r, name)
    ensures StartsWith(name, "/") ==> r == name
    ensures !StartsWith(name, "/") ==> r == dir + name || r == dir + "/" + name
    ensures !StartsWith(name, "/") && dir == [] ==> r == name
    ensures !StartsWith(name, "/") && dir != [] ==> StartsWith(r, dir) && r[|r| - |name| - 1] == '/'
    ensures !StartsWith(name, "/") && dir != [] && dir[|dir| - 1] == '/' ==> r == dir + name
    ensures !StartsWith(name, "/") && dir != [] && dir[|dir| - 1] != '/' ==> r == dir + "/" + name
  {
    if StartsWith(name, "/") then name
    else if dir == [] || dir[|dir| - 1] == '/' then dir + name
    else dir + "/" + name
  }

  predicate IsLocationLine(line: string) {
    StartsWith(line, LocationField)
  }

  /** The path named by one `Location:` line: the text between its first
      `": "` and the next one (or the end), stripped of whitespace and
      joined with the script name. */
  function LocationValue(line: string): (r: Located)
    ensures r.IndexError? <==> !Contains(line, ": ")
    ensures r.Found? ==> EndsWith(r.path, ScriptName)
  {
    SplitPieces(line, ": ");
    var parts := Split(line, ": ");
    if |parts| < 2 then IndexError else Found(PathJoin(Strip(parts[1]), ScriptName))
  }

  /** The result of scanning `lines` in order: the first `Location:` line
      decides. */
  function LocationIn(lines: seq<string>): Located
  {
    if lines == [] then NotFound
    else if IsLocationLine(lines[0]) then LocationValue(lines[0])
    else LocationIn(lines[1..])
  }

  /** What `find_sublist3r` returns for a given outcome of `pip show`. */
  function Locate(pip: PipShow): Located {
    match pip
    case PipFailed => NotFound
    case PipSucceeded(out) => LocationIn(Split(out, "\n"))
  }

  /** The loop of `find_sublist3r`, returning as soon as it meets a
      `Location:` line. */
  method FindSublist3r(pip: PipShow) returns (r: Located)
    ensures r == Locate(pip)
  {
    if pip.PipFailed? {
      return NotFound;
    }
    var lines := Split(pip.stdout, "\n");
    var i := 0;
    while i < |lines|
      invariant 0 <= i <= |lines|
      invariant LocationIn(lines[i..]) == LocationIn(lines)
    {
      if IsLocationLine(lines[i]) {
        return LocationValue(lines[i]);
      }
      assert lines[i..][1..] == lines[i + 1..];
      i := i + 1;
    }
    return NotFound;
  }

  /** The first `Location:` line alone decides the result. */
  lemma {:induction false} LocationInFirst(lines: seq<string>, i: nat)
    requires i < |lines| && IsLocationLine(lines[i])
    requires forall j :: 0 <= j < i ==> !IsLocationLine(lines[j])
    ensures LocationIn(lines) == LocationValue(lines[i])
  {
    if i > 0 {
      LocationInFirst(lines[1..], i - 1);
    }
  }

  /** Nothing is found exactly when no line starts with `Location:`. */
  lemma {:induction false} LocationInNone(lines: seq<string>)
    ensures LocationIn(lines) == NotFound <==> forall j :: 0 <= j < |lines| ==> !IsLocationLine(lines[j])
  {
    if lines != [] && !IsLocationLine(lines[0]) {
      LocationInNone(lines[1..]);
      assert forall j :: 1 <= j < |lines| ==> lines[j] == lines[1..][j - 1];
    }
  }

  /** Lines after the first `Location:` line are never looked at. */
  lemma {:induction false} LaterLinesIgnored(lines: seq<string>, more: seq<string>)
    requires exists j :: 0 <= j < |lines| && IsLocationLine(lines[j])
    ensures LocationIn(lines + more) == LocationIn(lines)
  {
    assert (lines + more)[0] == lines[0];
    if !IsLocationLine(lines[0]) {
      var j :| 0 <= j < |lines| && IsLocationLine(lines[j]);
      assert lines[1..][j - 1] == lines[j];
      assert (lines + more)[1..] == lines[1..] + more;
      LaterLinesIgnored(lines[1..], more);
    }
  }

  /** No line starts with `Location:`. */
  predicate NoLocationLine(lines: seq<string>) {
    forall j :: 0 <= j < |lines| ==> !IsLocationLine(lines[j])
  }

  /** `find_sublist3r` returns None exactly when `pip show` fails or no
      output line starts with `Location:`. */
  lemma LocateNone(pip: PipShow)
    ensures Locate(pip) == NotFound <==> pip.PipFailed? || NoLocationLine(Split(pip.stdout, "\n"))
  {
    if pip.PipSucceeded? {
      LocationInNone(Split(pip.stdout, "\n"));
    }
  }

  /** Otherwise the first output line starting with `Location:` decides. */
  lemma LocateFirst(out: string, i: nat)
    requires var lines := Split(out, "\n");
             && i < |lines| && IsLocationLine(lines[i])
             && forall j :: 0 <= j < i ==> !IsLocationLine(lines[j])
    ensures Locate(PipSucceeded(out)) == LocationValue(Split(out, "\n")[i])
  {
    LocationInFirst(Split(out, "\n"), i);
  }

  /** A line `Location: <v>`, possibly followed by `": "` and more text,
      names the stripped `v` as the directory of the script. */
  lemma LocationLineValue(v: string, tail: string)
    requires !Contains(v, ": ")
    requires tail == [] || StartsWith(tail, ": ")
    ensures LocationValue(LocationField + " " + v + tail) == Found(PathJoin(Strip(v), ScriptName))
  {
    var line := LocationField + " " + v + tail;
    var key := "Location";
    assert line == key + ": " + (v + tail);
    forall i: nat | i < |key|
      ensures !OccursAt(key + ": " + (v + tail), ": ", i)
    {
      assert (key + ": " + (v + tail))[i] == key[i] != ':';
    }
    SplitAfter(key, ": ", v + tail);
    if tail == [] {
      SplitPieces(v, ": ");
      assert v + tail == v;
    } else {
      var w := tail[2..];
      assert tail == ": " + w;
      assert v + tail == v + ": " + w;
      NoSeparatorBefore(v, w);
      SplitAfter(v, ": ", w);
    }
    assert Split(line, ": ")[1] == v;
  }

  /** Appending `": "` to a value without one creates no occurrence that
      starts inside the value. */
  lemma NoSeparatorBefore(v: string, w: string)
    requires !Contains(v, ": ")
    ensures forall i: nat :: i < |v| ==> !OccursAt(v + ": " + w, ": ", i)
  {
    var s := v + ": " + w;
    forall i: nat | i < |v|
      ensures !OccursAt(s, ": ", i)
    {
      assert s[i] == v[i] && s[i + 1] == (v + ":")[i + 1];
      if i + 1 < |v| {
        assert !OccursAt(v, ": ", i);
        assert v[i..i + 2] == [v[i], v[i + 1]];
      }
      assert s[i..i + 2] == [s[i], s[i + 1]];
    }
  }

  /** A `Location:` line with no `": "` in it raises IndexError. */
  lemma BareLocationLineRaises(v: string)
    requires ' ' !in v
    ensures LocationValue(LocationField + v) == IndexError
  {
    var line := LocationField + v;
    assert ' ' !in line;
    forall p: nat | p + 2 <= |line|
      ensures !OccursAt(line, ": ", p)
    {
      assert line[p..p + 2][1] == line[p + 1];
    }
  }
}
