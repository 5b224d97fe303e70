/** `get_subdomain_info` and the `/find-subdomains` route. The runner and the
    DNS resolver are inputs; Flask, JSON and CORS are not modelled. */
module Handler {
  import opened Wrappers
  import opened Runner

  const UnknownIp := "Unknown"
  const DomainRequired := "Domain is required"
  const InternalError := "Internal Server Error"

  /** One call of `socket.gethostbyname`: an address, a `gaierror`, or any
      other exception (which `get_subdomain_info` does not catch). */
  datatype Lookup = Address(ip: string) | NameError | LookupRaised

  /** The `{"subdomain": ..., "ip": ...}` record. */
  datatype SubdomainInfo = SubdomainInfo(subdomain: string, ip: string)

  /** The JSON bodies the route returns. */
  datatype Body =
    | ErrorBody(error: string)
    | ErrorWithLogs(error: string, logs: string)
    | SubdomainsBody(subdomains: seq<SubdomainInfo>, logs: string)

  datatype Response = Response(status: int, body: Body)

  /** `get_subdomain_info(subdomain)`; None when the lookup raised an
      exception other than `gaierror`, which escapes to the caller. */
  function GetSubdomainInfo(subdomain: string, resolve: string -> Lookup): (r: Option<SubdomainInfo>)
    ensures r.None? <==> resolve(subdomain).LookupRaised?
    ensures r.Some? ==> r.value.subdomain == subdomain
    ensures resolve(subdomain).Address? ==> r == Some(SubdomainInfo(subdomain, resolve(subdomain).ip))
    ensures resolve(subdomain).NameError? ==> r == Some(SubdomainInfo(subdomain, UnknownIp))
  {
    match resolve(subdomain)
    case Address(ip) => Some(SubdomainInfo(subdomain, ip))
    case NameError => Some(SubdomainInfo(subdomain, UnknownIp))
    case LookupRaised => None
  }

  /** The list comprehension over the runner's subdomains; None when one of
      the lookups raised. */
  function ResolveAll(subdomains: seq<string>, resolve: string -> Lookup): Option<seq<SubdomainInfo>> {
    if subdomains == [] then Some([])
    else
      match GetSubdomainInfo(subdomains[0], resolve)
      case None => None
      case Some(info) =>
        match ResolveAll(subdomains[1..], resolve)
        case None => None
        case Some(rest) => Some([info] + rest)
  }

  /** Python's truth value of the runner's `error`: set and non-empty. */
  predicate Truthy(error: Option<string>) {
    error.Some? && error.value != []
  }

  /** The `/find-subdomains` route for a request whose `domain` field is
      `domain` (None when it is absent). */
  function FindSubdomains(domain: Option<string>, runner: string -> RunResult, resolve: string -> Lookup): (r: Response)
    ensures r.status in {200, 400, 500}
    ensures r.status == 200 <==> r.body.SubdomainsBody?
  {
    if domain.None? || domain.value == [] then
      Response(400, ErrorBody(DomainRequired))
    else
      var run := runner(domain.value);
      if Truthy(run.error) then
        Response(500, ErrorWithLogs(run.error.value, run.logs))
      else
        match ResolveAll(run.subdomains, resolve)
        case None => Response(500, ErrorBody(InternalError))
        case Some(details) => Response(200, SubdomainsBody(details, run.logs))
  }

  /** One record per subdomain, in order and with duplicates kept, unless
      some lookup raised; a failed name resolution is never such a case. */
  lemma {:induction false} ResolveAllSpec(subdomains: seq<string>, resolve: string -> Lookup)
    ensures ResolveAll(subdomains, resolve).Some? <==> forall i :: 0 <= i < |subdomains| ==> !resolve(subdomains[i]).LookupRaised?
    ensures ResolveAll(subdomains, resolve).Some? ==>
              && |ResolveAll(subdomains, resolve).value| == |subdomains|
              && forall i :: 0 <= i < |subdomains| ==>
                   Some(ResolveAll(subdomains, resolve).value[i]) == GetSubdomainInfo(subdomains[i], resolve)
  {
    if subdomains != [] {
      var tail := subdomains[1..];
      ResolveAllSpec(tail, resolve);
      assert forall i :: 1 <= i < |subdomains| ==> subdomains[i] == tail[i - 1];
      var r := ResolveAll(subdomains, resolve);
      if r.Some? {
        var rest := ResolveAll(tail, resolve).value;
        assert r.value == [GetSubdomainInfo(subdomains[0], resolve).value] + rest;
      }
    }
  }

  /** A missing or empty domain is answered with 400 before the runner or
      the resolver is consulted. */
  lemma MissingDomainRejected(domain: Option<string>, runner: string -> RunResult, resolve: string -> Lookup,
                              otherRunner: string -> RunResult, otherResolve: string -> Lookup)
    ensures FindSubdomains(domain, runner, resolve).status == 400 <==> domain.None? || domain.value == []
    ensures domain.None? || domain.value == [] ==>
              && FindSubdomains(domain, runner, resolve) == Response(400, ErrorBody(DomainRequired))
              && FindSubdomains(domain, runner, resolve) == FindSubdomains(domain, otherRunner, otherResolve)
  {
  }

  /** A runner error is answered with 500, the error and the runner's logs,
      and no subdomains, whatever the resolver would say. */
  lemma RunnerErrorReported(d: string, runner: string -> RunResult, resolve: string -> Lookup, otherResolve: string -> Lookup)
    requires d != [] && Truthy(runner(d).error)
    ensures FindSubdomains(Some(d), runner, resolve) == Response(500, ErrorWithLogs(runner(d).error.value, runner(d).logs))
    ensures FindSubdomains(Some(d), runner, resolve) == FindSubdomains(Some(d), runner, otherResolve)
  {
  }

  /** On success, entry `i` of the response is the record for the runner's
      subdomain `i`, and the logs are passed through. */
  lemma SuccessMapsEverySubdomain(d: string, runner: string -> RunResult, resolve: string -> Lookup)
    requires d != [] && !Truthy(runner(d).error)
    requires forall i :: 0 <= i < |runner(d).subdomains| ==> !resolve(runner(d).subdomains[i]).LookupRaised?
    ensures var r := FindSubdomains(Some(d), runner, resolve);
            var subs := runner(d).subdomains;
            && r.status == 200
            && r.body.logs == runner(d).logs
            && |r.body.subdomains| == |subs|
            && forall i :: 0 <= i < |subs| ==>
                 r.body.subdomains[i].subdomain == subs[i]
                 && r.body.subdomains[i].ip == (if resolve(subs[i]).Address? then resolve(subs[i]).ip else UnknownIp)
  {
    ResolveAllSpec(runner(d).subdomains, resolve);
  }

  /** A lookup that raises anything but `gaierror` ends in the generic 500. */
  lemma RaisingLookupIsInternalError(d: string, runner: string -> RunResult, resolve: string -> Lookup, i: nat)
    requires d != [] && !Truthy(runner(d).error)
    requires i < |runner(d).subdomains| && resolve(runner(d).subdomains[i]).LookupRaised?
    ensures FindSubdomains(Some(d), runner, resolve) == Response(500, ErrorBody(InternalError))
  {
    ResolveAllSpec(runner(d).subdomains, resolve);
  }

  /** The route wired to the real runner: the runner never reports an empty
      error, so a failed run is always answered with 500 and a successful
      one never is for that reason. */
  lemma RunnerErrorsAreTruthy(d: string, deps: Dependencies, tool: (string, string) -> ToolRun)
    ensures Truthy(RunSublist3r(d, deps, tool).error) <==> RunSublist3r(d, deps, tool).error.Some?
  {
  }

  /** With the tool unavailable, the route answers 500 with the joined
      dependency messages and empty logs. */
  lemma MissingToolAnswered(d: string, deps: Dependencies, tool: (string, string) -> ToolRun, resolve: string -> Lookup)
    requires d != [] && !ScriptPresent(deps)
    ensures FindSubdomains(Some(d), x => RunSublist3r(x, deps, tool), resolve)
            == Response(500, ErrorWithLogs(MissingMessage(deps), []))
  {
    RunWithMissingDependencies(d, deps, tool, tool);
  }

  /** The worked example end to end: the tool prints a match, the banner
      and another match; the route answers 200 with one record per match,
      in order, the unresolvable one marked `Unknown`, and the raw output
      as logs. */
  lemma EndToEndExample(l1: string, l2: string, l3: string, deps: Dependencies, tool: (string, string) -> ToolRun,
                        resolve: string -> Lookup)
    requires ExampleLines(l1, l2, l3)
    requires deps.pythonOnPath && ScriptPresent(deps)
    requires tool(deps.scriptPath.value, "example.com") == Exited(l1 + "\n" + l2 + "\n" + l3 + "\n")
    requires resolve(l1).NameError? && !resolve(l3).LookupRaised?
    ensures FindSubdomains(Some("example.com"), x => RunSublist3r(x, deps, tool), resolve)
            == Response(200, SubdomainsBody([SubdomainInfo(l1, UnknownIp),
                                              SubdomainInfo(l3, if resolve(l3).Address? then resolve(l3).ip else UnknownIp)],
                                             l1 + "\n" + l2 + "\n" + l3 + "\n"))
  {
    var out := l1 + "\n" + l2 + "\n" + l3 + "\n";
    BannerExample(l1, l2, l3);
    RunWithDependencies("example.com", deps, tool);
    var runner := x => RunSublist3r(x, deps, tool);
    assert runner("example.com") == RunResult([l1, l3], None, out);
    var info3 := SubdomainInfo(l3, if resolve(l3).Address? then resolve(l3).ip else UnknownIp);
    assert GetSubdomainInfo(l3, resolve) == Some(info3);
    assert GetSubdomainInfo(l1, resolve) == Some(SubdomainInfo(l1, UnknownIp));
    ResolveAllSpec([l1, l3], resolve);
    assert [l1, l3][0] == l1 && [l1, l3][1] == l3;
    var details := ResolveAll([l1, l3], resolve).value;
    assert details[0] == SubdomainInfo(l1, UnknownIp) && details[1] == info3;
    assert |details| == 2;
    assert details == [SubdomainInfo(l1, UnknownIp), info3];
    assert ResolveAll([l1, l3], resolve) == Some([SubdomainInfo(l1, UnknownIp), info3]);
  }
}
