/**
 * The update cycle of the tracker (`update_whitelist`): a version gate over the
 * one piece of state it keeps, then extraction, the two file writes and the reload.
 * The network answers, the file-system faults and the parser for IP ranges are inputs;
 * the result is a trace of the steps that ran.
 */
module EndpointTracker {
  import opened Wrappers
  import opened EndpointFilter
  import opened AllowListFile
  import opened SquidReload

  /** Where writing the two files stops, if it does. */
  datatype WriteFault = NoFault | UrlsFileFails | IpsFileFails

  /** The externally visible steps of one cycle. */
  datatype Step =
    | FetchVersion
    | FetchEndpoints
    | Extract(reported: seq<string>)
    | WriteUrlsFile(content: string)
    | WriteIpsFile(content: string)
    | WriteFailed
    | Reload(command: Option<seq<string>>)

  /** How a cycle ended. */
  datatype Outcome = VersionUnavailable | UpToDate | NoEndpoints | Applied

  datatype CycleResult = CycleResult(outcome: Outcome, trace: seq<Step>, lastVersion: Option<string>)

  /**
   * The steps of `write_whitelist_files`: the URL file is written before the IP file,
   * and a failure is only reported, so a failure on the IP file leaves the new URL
   * file in place.
   */
  ghost function WriteSteps(urls: set<string>, ips: set<string>, fault: WriteFault): seq<Step> {
    match fault
    case UrlsFileFails => [WriteFailed]
    case IpsFileFails => [WriteUrlsFile(Rendered(urls)), WriteFailed]
    case NoFault => [WriteUrlsFile(Rendered(urls)), WriteIpsFile(Rendered(ips))]
  }

  /** One update cycle, from the last applied version and the cycle's inputs. */
  ghost function Cycle(
    filter: FilterConfig, env: ReloadEnv, last: Option<string>,
    version: Option<string>, endpoints: seq<Endpoint>,
    parseNetwork: string -> Option<string>, fault: WriteFault): CycleResult
  {
    if version.None? then CycleResult(VersionUnavailable, [FetchVersion], last)
    else if last == version then CycleResult(UpToDate, [FetchVersion], last)
    else if endpoints == [] then CycleResult(NoEndpoints, [FetchVersion, FetchEndpoints], last)
    else
      var urls := UrlSet(filter, endpoints);
      var ips := IpSet(filter, endpoints, parseNetwork);
      var reported := InvalidIps(filter, endpoints, parseNetwork);
      CycleResult(Applied,
        [FetchVersion, FetchEndpoints, Extract(reported)] + WriteSteps(urls, ips, fault) + [Reload(ReloadCommand(env))],
        version)
  }

  /** Writes the URL file, then the IP file; the first failure ends the writing. */
  method WriteWhitelistFiles(urls: set<string>, ips: set<string>, fault: WriteFault) returns (steps: seq<Step>)
    ensures steps == WriteSteps(urls, ips, fault)
  {
    if fault == UrlsFileFails {
      return [WriteFailed];
    }
    var urlsContent := Render(urls);
    steps := [WriteUrlsFile(urlsContent)];
    if fault == IpsFileFails {
      return steps + [WriteFailed];
    }
    var ipsContent := Render(ips);
    steps := steps + [WriteIpsFile(ipsContent)];
  }

  class Tracker {
    /** The filter loaded once at start-up. */
    const filter: FilterConfig
    /** The last manifest version applied; only in memory, so empty after every start. */
    var lastVersion: Option<string>

    constructor ()
      ensures filter == DefaultFilter && lastVersion == None
    {
      filter := DefaultFilter;
      lastVersion := None;
    }

    /**
     * One cycle. `version` is the answer of the version request (`None` when it failed),
     * `endpoints` the answer of the endpoints request (empty when it failed), `env` the
     * reload environment at this moment and `fault` where writing the files fails.
     */
    method UpdateWhitelist(
      version: Option<string>, endpoints: seq<Endpoint>,
      parseNetwork: string -> Option<string>, fault: WriteFault, env: ReloadEnv)
      returns (outcome: Outcome, trace: seq<Step>)
      modifies this`lastVersion
      ensures CycleResult(outcome, trace, lastVersion)
        == Cycle(filter, env, old(lastVersion), version, endpoints, parseNetwork, fault)
    {
      trace := [FetchVersion];
      if version.None? {
        return VersionUnavailable, trace;
      }
      if lastVersion == version {
        return UpToDate, trace;
      }
      if |endpoints| == 0 {
        return NoEndpoints, trace + [FetchEndpoints];
      }
      var urls, ips, invalid := ExtractUrlsAndIps(filter, endpoints, parseNetwork);
      var written := WriteWhitelistFiles(urls, ips, fault);
      var command := ReloadCommand(env);
      trace := [FetchVersion, FetchEndpoints, Extract(invalid)] + written + [Reload(command)];
      lastVersion := version;
      outcome := Applied;
    }
  }

  /** A failed version request, or a version already applied, ends the cycle before
      anything is fetched, written or reloaded, and keeps the watermark. */
  lemma VersionGate(
    filter: FilterConfig, env: ReloadEnv, last: Option<string>, version: Option<string>,
    endpoints: seq<Endpoint>, parseNetwork: string -> Option<string>, fault: WriteFault)
    requires version.None? || version == last
    ensures Cycle(filter, env, last, version, endpoints, parseNetwork, fault)
      == CycleResult(if version.None? then VersionUnavailable else UpToDate, [FetchVersion], last)
  {
  }

  /** An empty endpoint list ends the cycle before anything is written or reloaded,
      and keeps the watermark. */
  lemma EmptyEndpointsAbort(
    filter: FilterConfig, env: ReloadEnv, last: Option<string>, version: Option<string>,
    parseNetwork: string -> Option<string>, fault: WriteFault)
    requires version.Some? && version != last
    ensures Cycle(filter, env, last, version, [], parseNetwork, fault)
      == CycleResult(NoEndpoints, [FetchVersion, FetchEndpoints], last)
  {
  }

  /**
   * A new version with endpoints is applied whatever happens to the writes: extraction,
   * then the writes, then the reload, and the watermark moves to the new version.
   */
  lemma NewVersionIsApplied(
    filter: FilterConfig, env: ReloadEnv, last: Option<string>, version: Option<string>,
    endpoints: seq<Endpoint>, parseNetwork: string -> Option<string>, fault: WriteFault)
    requires version.Some? && version != last && endpoints != []
    ensures var r := Cycle(filter, env, last, version, endpoints, parseNetwork, fault);
      && r.outcome == Applied
      && r.lastVersion == version
      && r.trace[..3] == [FetchVersion, FetchEndpoints, Extract(InvalidIps(filter, endpoints, parseNetwork))]
      && r.trace[|r.trace| - 1] == Reload(ReloadCommand(env))
      && (WriteFailed in r.trace <==> fault != NoFault)
  {
    var head := [FetchVersion, FetchEndpoints, Extract(InvalidIps(filter, endpoints, parseNetwork))];
    var writes := WriteSteps(UrlSet(filter, endpoints), IpSet(filter, endpoints, parseNetwork), fault);
    var trace := head + writes + [Reload(ReloadCommand(env))];
    assert Cycle(filter, env, last, version, endpoints, parseNetwork, fault).trace == trace;
    assert trace[..3] == head;
    assert WriteFailed in trace <==> WriteFailed in writes;
  }

  /** Without a write fault the two files receive the rendered allow-lists of the kept records. */
  lemma AppliedContents(
    filter: FilterConfig, env: ReloadEnv, last: Option<string>, version: Option<string>,
    endpoints: seq<Endpoint>, parseNetwork: string -> Option<string>)
    requires version.Some? && version != last && endpoints != []
    ensures Cycle(filter, env, last, version, endpoints, parseNetwork, NoFault).trace
      == [FetchVersion, FetchEndpoints, Extract(InvalidIps(filter, endpoints, parseNetwork)),
          WriteUrlsFile(Rendered(UrlSet(filter, endpoints))),
          WriteIpsFile(Rendered(IpSet(filter, endpoints, parseNetwork))),
          Reload(ReloadCommand(env))]
  {
  }

  /** The watermark only ever moves to the version just fetched, and only on an applied cycle;
      files are written and the proxy reloaded on exactly those cycles. */
  lemma WatermarkMovesOnlyOnApply(
    filter: FilterConfig, env: ReloadEnv, last: Option<string>, version: Option<string>,
    endpoints: seq<Endpoint>, parseNetwork: string -> Option<string>, fault: WriteFault)
    ensures var r := Cycle(filter, env, last, version, endpoints, parseNetwork, fault);
      && (r.lastVersion == last || r.lastVersion == version)
      && (r.outcome == Applied <==> version.Some? && version != last && endpoints != [])
      && (r.outcome == Applied ==> r.lastVersion == version)
      && (r.outcome != Applied ==> r.lastVersion == last && |r.trace| <= 2)
  {
  }

  /** After any cycle that ends with the watermark at `v`, a further cycle that sees `v`
      again does nothing beyond asking for the version. */
  lemma RepeatedVersionIsNoOp(
    filter: FilterConfig, env1: ReloadEnv, env2: ReloadEnv, last: Option<string>, v: string,
    endpoints1: seq<Endpoint>, endpoints2: seq<Endpoint>,
    parseNetwork: string -> Option<string>, fault1: WriteFault, fault2: WriteFault)
    requires Cycle(filter, env1, last, Some(v), endpoints1, parseNetwork, fault1).outcome in {Applied, UpToDate}
    ensures var r1 := Cycle(filter, env1, last, Some(v), endpoints1, parseNetwork, fault1);
      var r2 := Cycle(filter, env2, r1.lastVersion, Some(v), endpoints2, parseNetwork, fault2);
      r2 == CycleResult(UpToDate, [FetchVersion], Some(v))
  {
  }

  /**
   * A tracker that has just started applies the first version it fetches with a non-empty
   * endpoint list, and a second cycle that sees the same version stops after the version request.
   */
  method StartThenRepeat(
    version: string, endpoints: seq<Endpoint>,
    parseNetwork: string -> Option<string>, fault: WriteFault, env: ReloadEnv)
    returns (first: Outcome, second: Outcome, secondTrace: seq<Step>)
    requires endpoints != []
    ensures first == Applied
    ensures second == UpToDate && secondTrace == [FetchVersion]
  {
    var tracker := new Tracker();
    var firstTrace;
    first, firstTrace := tracker.UpdateWhitelist(Some(version), endpoints, parseNetwork, fault, env);
    second, secondTrace := tracker.UpdateWhitelist(Some(version), endpoints, parseNetwork, fault, env);
  }

  /** A stand-in for the range parser in the example below: one entry parses, with host bits set. */
  function ExampleParse(s: string): Option<string> {
    if s == "10.0.0.1/24" then Some("10.0.0.0/24") else None
  }

  /** Kept, with a plain domain, a wildcard and a range with host bits set. */
  const ExampleOptimize := Endpoint(Some("Optimize"), Some(true), Some(["a.com", "*.b.com"]), Some(["10.0.0.1/24"]))
  /** Kept, with only an unparsable range. */
  const ExampleAllow := Endpoint(Some("Allow"), Some(true), None, Some(["not-an-ip"]))
  /** Dropped, because it is not required. */
  const ExampleDefault := Endpoint(Some("Default"), Some(false), Some(["c.com"]), None)

  const ExampleRecords: seq<Endpoint> := [ExampleOptimize, ExampleAllow, ExampleDefault]

  lemma ExampleDomains()
    ensures Domains(["a.com", "*.b.com"]) == {"a.com", ".b.com"}
  {
    var list: seq<string> := ["a.com", "*.b.com"];
    assert !IsWildcard(list[0]) by {
      assert list[0][..2][0] == 'a';
    }
    assert NormalizeDomain(list[1]) == ".b.com";
    assert list[..1][..0] == [] && list[..1] == [list[0]];
  }

  lemma ExampleRanges()
    ensures Ranges(["10.0.0.1/24"], ExampleParse) == {"10.0.0.0/24"}
    ensures Ranges(["not-an-ip"], ExampleParse) == {}
    ensures Invalid(["10.0.0.1/24"], ExampleParse) == []
    ensures Invalid(["not-an-ip"], ExampleParse) == ["not-an-ip"]
  {
    assert ["10.0.0.1/24"][..0] == [];
    assert ["not-an-ip"][..0] == [];
  }

  lemma ExampleContributions()
    ensures RecordUrls(DefaultFilter, ExampleOptimize) == {"a.com", ".b.com"}
    ensures RecordRanges(DefaultFilter, ExampleOptimize, ExampleParse) == {"10.0.0.0/24"}
    ensures RecordUrls(DefaultFilter, ExampleAllow) == {}
    ensures RecordRanges(DefaultFilter, ExampleAllow, ExampleParse) == {}
    ensures RecordInvalid(DefaultFilter, ExampleOptimize, ExampleParse) == []
    ensures RecordInvalid(DefaultFilter, ExampleAllow, ExampleParse) == ["not-an-ip"]
    ensures !Kept(DefaultFilter, ExampleDefault)
  {
    ExampleDomains();
    ExampleRanges();
  }

  lemma ExampleFirstRecord()
    ensures UrlSet(DefaultFilter, [ExampleOptimize]) == {"a.com", ".b.com"}
    ensures IpSet(DefaultFilter, [ExampleOptimize], ExampleParse) == {"10.0.0.0/24"}
    ensures InvalidIps(DefaultFilter, [ExampleOptimize], ExampleParse) == []
  {
    ExampleContributions();
    AppendRecord(DefaultFilter, [], ExampleOptimize, ExampleParse);
    assert [] + [ExampleOptimize] == [ExampleOptimize];
  }

  lemma ExampleTwoRecords()
    ensures UrlSet(DefaultFilter, [ExampleOptimize, ExampleAllow]) == {"a.com", ".b.com"}
    ensures IpSet(DefaultFilter, [ExampleOptimize, ExampleAllow], ExampleParse) == {"10.0.0.0/24"}
    ensures InvalidIps(DefaultFilter, [ExampleOptimize, ExampleAllow], ExampleParse) == ["not-an-ip"]
  {
    ExampleContributions();
    ExampleFirstRecord();
    AppendRecord(DefaultFilter, [ExampleOptimize], ExampleAllow, ExampleParse);
    assert [ExampleOptimize] + [ExampleAllow] == [ExampleOptimize, ExampleAllow];
  }

  /** The example gives the URL set {a.com, .b.com}, the IP set {10.0.0.0/24} and one report, "not-an-ip". */
  lemma ExampleLists()
    ensures UrlSet(DefaultFilter, ExampleRecords) == {"a.com", ".b.com"}
    ensures IpSet(DefaultFilter, ExampleRecords, ExampleParse) == {"10.0.0.0/24"}
    ensures InvalidIps(DefaultFilter, ExampleRecords, ExampleParse) == ["not-an-ip"]
  {
    ExampleContributions();
    ExampleTwoRecords();
    AppendRecord(DefaultFilter, [ExampleOptimize, ExampleAllow], ExampleDefault, ExampleParse);
    assert [ExampleOptimize, ExampleAllow] + [ExampleDefault] == ExampleRecords;
  }

  /**
   * Version "1" to "2" with the three example records: the files hold the two domains
   * and the one canonical range, sorted, and the watermark becomes "2".
   */
  lemma EndToEndExample()
    ensures Cycle(DefaultFilter, ReloadEnv(None, None, None), Some("1"), Some("2"), ExampleRecords, ExampleParse, NoFault)
      == CycleResult(Applied,
           [FetchVersion, FetchEndpoints, Extract(["not-an-ip"]),
            WriteUrlsFile(".b.com\na.com\n"), WriteIpsFile("10.0.0.0/24\n"),
            Reload(Some(["squid", "-k", "reconfigure"]))],
           Some("2"))
  {
    var env := ReloadEnv(None, None, None);
    assert !ExternalSquid(env) by {
      assert Lower("false")[0] == 'f';
    }
    assert ExampleRecords != [];
    NewVersionIsApplied(DefaultFilter, env, Some("1"), Some("2"), ExampleRecords, ExampleParse, NoFault);
    AppliedContents(DefaultFilter, env, Some("1"), Some("2"), ExampleRecords, ExampleParse);
    ExampleLists();
    RenderTwoDomains();
    RenderOneRange();
  }
}
