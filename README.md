# Subdomain finder backend, modelled in Dafny

The backend is a small HTTP service with one route, `POST /find-subdomains`.
The route takes a domain and runs the external enumeration tool Sublist3r on it.
It keeps the lines of the tool's output that name the domain and are not the tool's banner.
It resolves each kept line with a DNS lookup and answers with the records and the raw output.
Four parts of `backend.py` are modelled:

- `find_sublist3r` (module `Locator`, `locator.dfy`). It reads the output of
  `pip show sublist3r`. The first line starting with `Location:` is split at
  `": "`. The second piece is stripped and joined with `sublist3r.py`. The
  loop with its early return is a `method` proved against the recursive
  specification function `LocationIn`.
- `check_dependencies` and `run_sublist3r` (module `Runner`, `runner.dfy`).
  - `check_dependencies` collects messages for a missing interpreter and a
    missing script, in that order. It is a `method` that appends to a list,
    proved equal to the function `MissingDependencies`.
  - `run_sublist3r` returns early with the joined messages. Otherwise it
    distinguishes the four ways running the tool can end. On a normal exit
    it filters the output lines.
- `get_subdomain_info` and the route `find_subdomains` (module `Handler`,
  `handler.dfy`). These cover the 400 answer for a missing or empty domain,
  the 500 answer carrying the runner's error and logs, the mapping of every
  subdomain to a record, and the generic 500 answer.
- The Python string built-ins these parts rely on (module `PyStrings`,
  `py_strings.dfy`): `str.isspace`, `strip`, `split` with a separator,
  `join`, `startswith` and `sub in s`. `Wrappers` holds `Option`.

The outside world is passed in as values:
- the outcome of `pip show` is a `PipShow`;
- `shutil.which("python")`, the script path found at start-up and the set
  of existing files form a `Dependencies`;
- running the tool is a function from (script path, domain) to a `ToolRun`;
- DNS resolution is a function from a name to a `Lookup`;
- the runner the route calls is a function from a domain to a `RunResult`.

`Handler.MissingToolAnswered` and `Handler.EndToEndExample` wire the route
to `Runner.RunSublist3r`.

Where the description of the service and the code disagree, the model follows the code:

- Only `socket.gaierror` becomes the IP `Unknown`. Any other exception
  raised by the lookup escapes `get_subdomain_info`. The route's catch-all
  then answers 500 `Internal Server Error`, which is `Lookup.LookupRaised`
  in the model.
- A `Location:` line without `": "` makes `find_sublist3r` raise
  IndexError; nothing catches it, so it is not a silent "not found". This
  is `Located.IndexError`.
- The route's `if error:` tests Python truthiness, so an empty error string
  would count as success. `Handler.RunnerErrorsAreTruthy` shows the runner
  never produces one.

## Model

| member | source | states |
|---|---|---|
| PyStrings.Strip | backend.py:67 | `strip` removes whitespace from both ends only: the result starts and ends with a non-space character, and it is a slice of the input with only whitespace before and after it |
| PyStrings.StripUnique | backend.py:67 | stripping whitespace + stripped core + whitespace gives exactly the core |
| PyStrings.StripIdempotent | backend.py:67 | stripping twice is stripping once |
| PyStrings.StripKeepsInnerOccurrence | backend.py:67-68 | a non-empty substring with no whitespace at either end that occurs in a line still occurs after stripping |
| PyStrings.JoinSplit | backend.py:18 | `Join` undoes `Split`: joining the pieces of `split(sep)` with `sep` gives back the original string |
| PyStrings.SplitPieces | backend.py:20 | `Split`, Python's `str.split(sep)`, has at least two pieces exactly when `sep` occurs in the string, and otherwise is the string alone |
| PyStrings.SplitAfter | backend.py:20 | when `sep` first occurs right after `a`, the split of `a + sep + b` is `a` followed by the split of `b` |
| PyStrings.SplitPiecesFree | backend.py:18 | no piece of a split at a one-character separator contains that character |
| PyStrings.SplitTrailingSeparator | backend.py:67 | a final one-character separator adds exactly one empty last piece |
| Locator.PathJoin | backend.py:20 | POSIX `os.path.join(dir, name)`: an absolute `name` replaces `dir`; otherwise the result is `name` for an empty `dir`, and for a non-empty `dir` it is `dir` followed by `name`, with a `/` right before `name` (added only when `dir` does not already end in one) |
| Locator.LocationValue | backend.py:20 | the line raises IndexError exactly when it has no `": "`; otherwise the path found ends in `sublist3r.py` |
| Locator.FindSublist3r | backend.py:14-25 | the loop returns what `LocationIn` gives for the output lines, and not-found when `pip show` failed |
| Locator.LocationInFirst | backend.py:18-22 | for `LocationIn`, the scan of the lines: the first line starting with `Location:` alone decides the result |
| Locator.LocationInNone | backend.py:18-25 | for `LocationIn`: nothing is found exactly when no line starts with `Location:` |
| Locator.LocateNone | backend.py:14-25 | `Locate`, the function form of `find_sublist3r`, gives None exactly when `pip show` fails or no output line starts with `Location:` |
| Locator.LocateFirst | backend.py:18-22 | when `pip show` succeeds, `Locate` gives the value of the first output line starting with `Location:` |
| Locator.LaterLinesIgnored | backend.py:18-22 | lines after the first `Location:` line do not change the result |
| Locator.LocationLineValue | backend.py:19-20 | `Location: <v>`, alone or followed by `": "` and more text, gives `os.path.join(v.strip(), "sublist3r.py")` |
| Locator.BareLocationLineRaises | backend.py:20 | a `Location:` line with no space in it raises IndexError |
| Runner.MissingDependencies | backend.py:31-44 | the list is empty exactly when both dependencies are present; each message appears exactly when its check fails; the interpreter's message comes first; at most two messages |
| Runner.CheckDependencies | backend.py:31-44 | the appending method yields exactly `MissingDependencies` |
| Runner.KeepLines | backend.py:66-69 | at most one entry per line, and every entry has no whitespace at either end |
| Runner.KeptPositions | backend.py:66-69 | lists only the positions of lines that name the domain and are not the banner |
| Runner.KeptPositionsComplete | backend.py:66-69 | every kept line's position is listed |
| Runner.KeptPositionsIncreasing | backend.py:66-69 | the positions are strictly increasing, so the original order is kept |
| Runner.KeepLinesAt | backend.py:66-69 | entry `k` of the filtered list is the `k`-th kept line, stripped, and there are as many entries as kept lines |
| Runner.KeptEntries | backend.py:66-69 | every entry comes from a line that names the domain, is not the banner, and is non-empty when the domain is |
| Runner.KeepLinesContainDomain | backend.py:66-69 | for a non-empty domain with no whitespace at either end, every entry still contains the domain |
| Runner.KeepLinesAppend | backend.py:66-69 | filtering distributes over concatenation of line lists |
| Runner.FilterLinesAt | backend.py:66-69 | `FilterLines`: the output is split into newline-free lines that rejoin to the whole output, and entry `k` of the result is the `k`-th kept line, stripped |
| Runner.TrailingNewlineAddsNothing | backend.py:66-69 | a final newline in the output does not change the subdomains when the domain is non-empty |
| Runner.RunSublist3r | backend.py:47-77 | every error is a non-empty text, and on error there are no subdomains and no logs; on success the subdomains are the filtered lines of the logs |
| Runner.MissingMessageCases | backend.py:51 | `MissingMessage`, the `"; ".join` of the missing list: both messages separated by `"; "` with the interpreter's first, the one missing message alone, or empty when nothing is missing |
| Runner.RunWithMissingDependencies | backend.py:49-51 | with a dependency missing the tool is never consulted, and the error is the missing messages joined by `"; "` |
| Runner.RunWithDependencies | backend.py:53-77 | with every dependency present the run fails exactly when the tool does not exit normally; on a normal exit the logs are the whole output and the subdomains its filtered lines |
| Runner.BannerExample | backend.py:66-69 | the output `example.com - 1.2.3.4`, banner, `sub.example.com`, each followed by a newline, yields the first and third lines |
| Handler.GetSubdomainInfo | backend.py:80-87 | the record names the subdomain; its IP is the resolved address, or `Unknown` on `gaierror`; any other exception escapes |
| Handler.ResolveAllSpec | backend.py:108 | `ResolveAll`, the comprehension over the subdomains: the mapping succeeds exactly when no lookup raises; it then has one record per subdomain, in order, duplicates kept |
| Handler.FindSubdomains | backend.py:91-113 | the status is 200, 400 or 500, and it is 200 exactly when the body lists subdomains |
| Handler.MissingDomainRejected | backend.py:96-97 | the answer is 400 exactly for a missing or empty domain, with `Domain is required`, independent of runner and resolver |
| Handler.RunnerErrorReported | backend.py:102-106 | a runner error is answered 500 with that error and the runner's logs, independent of the resolver |
| Handler.SuccessMapsEverySubdomain | backend.py:102-109 | on success the answer is 200 with the logs and one record per subdomain, in order, with the resolved IP or `Unknown` |
| Handler.RaisingLookupIsInternalError | backend.py:108-113 | a lookup raising anything but `gaierror` leads to 500 `Internal Server Error` |
| Handler.RunnerErrorsAreTruthy | backend.py:47-77 | the runner reports an error exactly when its error is truthy |
| Handler.MissingToolAnswered | backend.py:49-51 | with the script missing, the route answers 500 with the joined messages and empty logs |
| Handler.EndToEndExample | backend.py:91-109 | the worked example answers 200 with the two matching lines in order, the unresolvable first one marked `Unknown`, and the raw output as logs |

## Left out

- Running `pip`, the tool and the interpreter: their outcomes are inputs (`PipShow`, `ToolRun`).
- `pip` itself missing when `find_sublist3r` runs: the FileNotFoundError at start-up is not modelled.
- `shutil.which`, `os.path.exists` and the start-up assignment of `SUBLIST3R_PATH`: these are the fields of `Dependencies`.
- DNS: the resolver is a function, so a name resolves the same way every time it is looked up; round-robin answers or a transient `gaierror` on one of two duplicate lookups are not modelled, nor are blocking and timing.
- Flask routing, JSON parsing and encoding, CORS and the debug server: the route takes the already parsed `domain` field.
- A request body that is not a JSON object, or a `domain` that is not a string, is not modelled.
- The diagnostic `print` calls and the text of tracebacks: the `Raised` case carries the traceback as an opaque string.
- The text of a CalledProcessError is an opaque `detail` string.
- The second existence check in `run_sublist3r` is kept as a branch. It cannot fire in the model, which reads the file system once; in the program a file deleted between the two `os.path.exists` calls reaches it.
- Runner.RunSublist3r: no timeout is modelled, as the code sets none.
- Locator.PathJoin: POSIX joining only; Windows drive letters and backslashes are not modelled.
- Strings are sequences of Unicode scalar values; `isspace` covers the characters Python treats as whitespace, and no other Unicode property is modelled.
