/**
 * Filtering of manifest records and normalisation of their domains and IP ranges
 * into the two allow-list sets (`extract_urls_and_ips`).
 */
module EndpointFilter {
  import opened Wrappers

  /**
   * One record of the endpoint manifest. Every field may be absent from the JSON
   * object; `None` stands for a missing key.
   */
  datatype Endpoint = Endpoint(
    category: Option<string>,
    required: Option<bool>,
    urls: Option<seq<string>>,
    ips: Option<seq<string>>)

  /** Which records are in scope: `include_categories` and `include_required_only`. */
  datatype FilterConfig = FilterConfig(includeCategories: seq<string>, requiredOnly: bool)

  /** The configuration the tracker loads at start-up. */
  const DefaultFilter := FilterConfig(["Optimize", "Allow", "Default"], true)

  /** The record's category; the empty string when the key is missing. */
  function Category(e: Endpoint): string { e.category.GetOr("") }

  /** The record's required flag; false when the key is missing. */
  function Required(e: Endpoint): bool { e.required.GetOr(false) }

  /** The record's URLs; none when the key is missing. */
  function Urls(e: Endpoint): seq<string> { e.urls.GetOr([]) }

  /** The record's IP ranges; none when the key is missing. */
  function Ips(e: Endpoint): seq<string> { e.ips.GetOr([]) }

  /** The record passes both the required-flag test and the category test. */
  predicate Kept(cfg: FilterConfig, e: Endpoint) {
    (!cfg.requiredOnly || Required(e)) && Category(e) in cfg.includeCategories
  }

  /** Under the start-up configuration a record is kept exactly when it says it is required
      and names one of the three categories; a missing key drops it. */
  lemma DefaultFilterKeeps(e: Endpoint)
    ensures Kept(DefaultFilter, e) <==>
      e.required == Some(true) && e.category in {Some("Optimize"), Some("Allow"), Some("Default")}
  {
  }

  /** The URL begins with the two characters `*.`. */
  predicate IsWildcard(url: string) {
    |url| >= 2 && url[..2] == "*."
  }

  /**
   * A wildcard `*.example.com` becomes the proxy's "domain and subdomains" form
   * `.example.com`; any other URL is kept as it is.
   */
  function NormalizeDomain(url: string): (d: string)
    ensures !IsWildcard(d)
    ensures IsWildcard(url) ==> "*" + d == url
    ensures !IsWildcard(url) ==> d == url
  {
    if IsWildcard(url) then
      var d := "." + url[2..];
      assert url == "*." + url[2..] && d[0] == '.';
      d
    else url
  }

  lemma NormalizeDomainIdempotent(url: string)
    ensures NormalizeDomain(NormalizeDomain(url)) == NormalizeDomain(url)
  {
  }

  /** The singleton of a successfully parsed range, or nothing. */
  function Parsed(r: Option<string>): set<string> {
    if r.Some? then {r.value} else {}
  }

  /** The normalised domains of a list of URLs. */
  function Domains(urls: seq<string>): set<string> {
    if urls == [] then {}
    else Domains(urls[..|urls| - 1]) + {NormalizeDomain(urls[|urls| - 1])}
  }

  /** The canonical networks of the entries of `ips` that parse. */
  function Ranges(ips: seq<string>, parseNetwork: string -> Option<string>): set<string> {
    if ips == [] then {}
    else Ranges(ips[..|ips| - 1], parseNetwork) + Parsed(parseNetwork(ips[|ips| - 1]))
  }

  /** The entries of `ips` that do not parse, in order (one warning each). */
  function Invalid(ips: seq<string>, parseNetwork: string -> Option<string>): seq<string> {
    if ips == [] then []
    else
      var last := ips[|ips| - 1];
      Invalid(ips[..|ips| - 1], parseNetwork) + (if parseNetwork(last).None? then [last] else [])
  }

  /** What one record adds to the URL list. */
  function RecordUrls(cfg: FilterConfig, e: Endpoint): set<string> {
    if Kept(cfg, e) then Domains(Urls(e)) else {}
  }

  /** What one record adds to the IP-range list. */
  function RecordRanges(cfg: FilterConfig, e: Endpoint, parseNetwork: string -> Option<string>): set<string> {
    if Kept(cfg, e) then Ranges(Ips(e), parseNetwork) else {}
  }

  /** What one record adds to the reported invalid entries. */
  function RecordInvalid(cfg: FilterConfig, e: Endpoint, parseNetwork: string -> Option<string>): seq<string> {
    if Kept(cfg, e) then Invalid(Ips(e), parseNetwork) else []
  }

  /** The URL allow-list built from `endpoints`. */
  function UrlSet(cfg: FilterConfig, endpoints: seq<Endpoint>): set<string> {
    if endpoints == [] then {}
    else
      var e := endpoints[|endpoints| - 1];
      UrlSet(cfg, endpoints[..|endpoints| - 1]) + RecordUrls(cfg, e)
  }

  /** The IP-range allow-list built from `endpoints`. */
  function IpSet(cfg: FilterConfig, endpoints: seq<Endpoint>, parseNetwork: string -> Option<string>): set<string> {
    if endpoints == [] then {}
    else
      var e := endpoints[|endpoints| - 1];
      IpSet(cfg, endpoints[..|endpoints| - 1], parseNetwork) + RecordRanges(cfg, e, parseNetwork)
  }

  /** The IP entries reported as invalid, in the order they are met. */
  function InvalidIps(cfg: FilterConfig, endpoints: seq<Endpoint>, parseNetwork: string -> Option<string>): seq<string> {
    if endpoints == [] then []
    else
      var e := endpoints[|endpoints| - 1];
      InvalidIps(cfg, endpoints[..|endpoints| - 1], parseNetwork) + RecordInvalid(cfg, e, parseNetwork)
  }

  /** The IP entries of the kept records, one after the other. */
  function KeptIps(cfg: FilterConfig, endpoints: seq<Endpoint>): seq<string> {
    if endpoints == [] then []
    else
      var e := endpoints[|endpoints| - 1];
      KeptIps(cfg, endpoints[..|endpoints| - 1]) + (if Kept(cfg, e) then Ips(e) else [])
  }

  lemma RecordsStep(cfg: FilterConfig, endpoints: seq<Endpoint>, parseNetwork: string -> Option<string>, i: nat)
    requires i < |endpoints|
    ensures UrlSet(cfg, endpoints[..i + 1]) == UrlSet(cfg, endpoints[..i]) + RecordUrls(cfg, endpoints[i])
    ensures IpSet(cfg, endpoints[..i + 1], parseNetwork)
      == IpSet(cfg, endpoints[..i], parseNetwork) + RecordRanges(cfg, endpoints[i], parseNetwork)
    ensures InvalidIps(cfg, endpoints[..i + 1], parseNetwork)
      == InvalidIps(cfg, endpoints[..i], parseNetwork) + RecordInvalid(cfg, endpoints[i], parseNetwork)
  {
    assert endpoints[..i + 1][..i] == endpoints[..i];
  }

  lemma DomainsStep(list: seq<string>, j: nat)
    requires j < |list|
    ensures Domains(list[..j + 1]) == Domains(list[..j]) + {NormalizeDomain(list[j])}
  {
    assert list[..j + 1][..j] == list[..j];
  }

  lemma RangesStep(list: seq<string>, parseNetwork: string -> Option<string>, j: nat)
    requires j < |list|
    ensures Ranges(list[..j + 1], parseNetwork) == Ranges(list[..j], parseNetwork) + Parsed(parseNetwork(list[j]))
    ensures Invalid(list[..j + 1], parseNetwork)
      == Invalid(list[..j], parseNetwork) + (if parseNetwork(list[j]).None? then [list[j]] else [])
  {
    assert list[..j + 1][..j] == list[..j];
  }

  /** The inner URL loop: the normalised form of every URL of one record. */
  method CollectDomains(list: seq<string>) returns (domains: set<string>)
    ensures domains == Domains(list)
  {
    domains := {};
    for j := 0 to |list|
      invariant domains == Domains(list[..j])
    {
      DomainsStep(list, j);
      domains := domains + {NormalizeDomain(list[j])};
    }
    assert list[..|list|] == list;
  }

  /** The inner IP loop: every entry of one record that parses is kept in canonical form;
      one that does not is reported and skipped. */
  method CollectRanges(list: seq<string>, parseNetwork: string -> Option<string>)
    returns (ranges: set<string>, invalid: seq<string>)
    ensures ranges == Ranges(list, parseNetwork)
    ensures invalid == Invalid(list, parseNetwork)
  {
    ranges, invalid := {}, [];
    for j := 0 to |list|
      invariant ranges == Ranges(list[..j], parseNetwork)
      invariant invalid == Invalid(list[..j], parseNetwork)
    {
      RangesStep(list, parseNetwork, j);
      var ipRange := list[j];
      match parseNetwork(ipRange)
      case Some(network) =>
        ranges := ranges + {network};
      case None =>
        invalid := invalid + [ipRange];
    }
    assert list[..|list|] == list;
  }

  /**
   * Walks the records in order, skips those that fail the filter, and collects the
   * normalised URLs and the parsed IP ranges of the rest; an IP entry that does not
   * parse is reported and skipped.
   */
  method ExtractUrlsAndIps(cfg: FilterConfig, endpoints: seq<Endpoint>, parseNetwork: string -> Option<string>)
    returns (urls: set<string>, ips: set<string>, invalid: seq<string>)
    ensures urls == UrlSet(cfg, endpoints)
    ensures ips == IpSet(cfg, endpoints, parseNetwork)
    ensures invalid == InvalidIps(cfg, endpoints, parseNetwork)
  {
    urls, ips, invalid := {}, {}, [];
    for i := 0 to |endpoints|
      invariant urls == UrlSet(cfg, endpoints[..i])
      invariant ips == IpSet(cfg, endpoints[..i], parseNetwork)
      invariant invalid == InvalidIps(cfg, endpoints[..i], parseNetwork)
    {
      var endpoint := endpoints[i];
      RecordsStep(cfg, endpoints, parseNetwork, i);
      var category := endpoint.category.GetOr("");
      var required := endpoint.required.GetOr(false);
      if cfg.requiredOnly && !required {
        continue;
      }
      if category !in cfg.includeCategories {
        continue;
      }
      var domains: set<string>, ranges: set<string>, rejected: seq<string> := {}, {}, [];
      if endpoint.urls.Some? {
        domains := CollectDomains(endpoint.urls.value);
      }
      if endpoint.ips.Some? {
        ranges, rejected := CollectRanges(endpoint.ips.value, parseNetwork);
      }
      urls, ips, invalid := urls + domains, ips + ranges, invalid + rejected;
    }
    assert endpoints[..|endpoints|] == endpoints;
  }

  /** A domain is in the list exactly when it is the normalisation of one of the URLs. */
  lemma {:induction false} DomainsMembers(urls: seq<string>, x: string)
    ensures x in Domains(urls) <==> exists j :: 0 <= j < |urls| && NormalizeDomain(urls[j]) == x
    decreases |urls|
  {
    if urls != [] {
      var init := urls[..|urls| - 1];
      DomainsMembers(init, x);
      if exists j :: 0 <= j < |urls| && NormalizeDomain(urls[j]) == x {
        var j :| 0 <= j < |urls| && NormalizeDomain(urls[j]) == x;
        if j < |init| {
          assert init[j] == urls[j];
        }
      }
      if exists j :: 0 <= j < |init| && NormalizeDomain(init[j]) == x {
        var j :| 0 <= j < |init| && NormalizeDomain(init[j]) == x;
        assert urls[j] == init[j];
      }
    }
  }

  /** A range is in the list exactly when some entry parses to it. */
  lemma {:induction false} RangesMembers(ips: seq<string>, parseNetwork: string -> Option<string>, x: string)
    ensures x in Ranges(ips, parseNetwork) <==> exists j :: 0 <= j < |ips| && parseNetwork(ips[j]) == Some(x)
    decreases |ips|
  {
    if ips != [] {
      var init := ips[..|ips| - 1];
      RangesMembers(init, parseNetwork, x);
      if exists j :: 0 <= j < |ips| && parseNetwork(ips[j]) == Some(x) {
        var j :| 0 <= j < |ips| && parseNetwork(ips[j]) == Some(x);
        if j < |init| {
          assert init[j] == ips[j];
        }
      }
      if exists j :: 0 <= j < |init| && parseNetwork(init[j]) == Some(x) {
        var j :| 0 <= j < |init| && parseNetwork(init[j]) == Some(x);
        assert ips[j] == init[j];
      }
    }
  }

  /** An entry is reported exactly when it is one of the list's entries and does not parse. */
  lemma {:induction false} InvalidMembers(ips: seq<string>, parseNetwork: string -> Option<string>, r: string)
    ensures r in Invalid(ips, parseNetwork) <==> r in ips && parseNetwork(r).None?
    ensures multiset(Invalid(ips, parseNetwork))[r] == if parseNetwork(r).None? then multiset(ips)[r] else 0
    ensures |Invalid(ips, parseNetwork)| <= |ips|
    decreases |ips|
  {
    if ips != [] {
      var init := ips[..|ips| - 1];
      InvalidMembers(init, parseNetwork, r);
      assert ips == init + [ips[|ips| - 1]];
    }
  }

  /** Checking two lists one after the other reports what each reports, in that order. */
  lemma {:induction false} InvalidConcat(a: seq<string>, b: seq<string>, parseNetwork: string -> Option<string>)
    ensures Invalid(a + b, parseNetwork) == Invalid(a, parseNetwork) + Invalid(b, parseNetwork)
    decreases |b|
  {
    if b == [] {
      assert a + b == a;
    } else {
      var init := b[..|b| - 1];
      InvalidConcat(a, init, parseNetwork);
      assert (a + b)[..|a + b| - 1] == a + init;
    }
  }

  /** The reports of a whole answer are those of one list: the IP entries of the kept records. */
  lemma {:induction false} InvalidIpsOfKeptEntries(cfg: FilterConfig, endpoints: seq<Endpoint>, parseNetwork: string -> Option<string>)
    ensures InvalidIps(cfg, endpoints, parseNetwork) == Invalid(KeptIps(cfg, endpoints), parseNetwork)
    decreases |endpoints|
  {
    if endpoints != [] {
      var e := endpoints[|endpoints| - 1];
      var init := endpoints[..|endpoints| - 1];
      InvalidIpsOfKeptEntries(cfg, init, parseNetwork);
      assert endpoints == init + [e];
      AppendRecord(cfg, init, e, parseNetwork);
      var before, added := KeptIps(cfg, init), if Kept(cfg, e) then Ips(e) else [];
      assert KeptIps(cfg, endpoints) == before + added;
      InvalidConcat(before, added, parseNetwork);
      assert Invalid(added, parseNetwork) == RecordInvalid(cfg, e, parseNetwork);
    }
  }

  /** One report per unparsable occurrence: an entry listed twice by kept records is reported twice. */
  lemma InvalidIpsCountsOccurrences(cfg: FilterConfig, endpoints: seq<Endpoint>, parseNetwork: string -> Option<string>, r: string)
    ensures multiset(InvalidIps(cfg, endpoints, parseNetwork))[r]
      == if parseNetwork(r).None? then multiset(KeptIps(cfg, endpoints))[r] else 0
  {
    InvalidIpsOfKeptEntries(cfg, endpoints, parseNetwork);
    InvalidMembers(KeptIps(cfg, endpoints), parseNetwork, r);
  }

  /** The URL list is exactly the normalised URLs of the kept records. */
  lemma {:induction false} UrlSetMembers(cfg: FilterConfig, endpoints: seq<Endpoint>, x: string)
    ensures x in UrlSet(cfg, endpoints) <==>
      exists i :: 0 <= i < |endpoints| && Kept(cfg, endpoints[i]) && x in Domains(Urls(endpoints[i]))
    decreases |endpoints|
  {
    if endpoints != [] {
      var init := endpoints[..|endpoints| - 1];
      UrlSetMembers(cfg, init, x);
      if exists i :: 0 <= i < |endpoints| && Kept(cfg, endpoints[i]) && x in Domains(Urls(endpoints[i])) {
        var i :| 0 <= i < |endpoints| && Kept(cfg, endpoints[i]) && x in Domains(Urls(endpoints[i]));
        if i < |init| {
          assert init[i] == endpoints[i];
        }
      }
      if exists i :: 0 <= i < |init| && Kept(cfg, init[i]) && x in Domains(Urls(init[i])) {
        var i :| 0 <= i < |init| && Kept(cfg, init[i]) && x in Domains(Urls(init[i]));
        assert endpoints[i] == init[i];
      }
    }
  }

  /** The IP list is exactly the parsed ranges of the kept records. */
  lemma {:induction false} IpSetMembers(cfg: FilterConfig, endpoints: seq<Endpoint>, parseNetwork: string -> Option<string>, x: string)
    ensures x in IpSet(cfg, endpoints, parseNetwork) <==>
      exists i :: 0 <= i < |endpoints| && Kept(cfg, endpoints[i]) && x in Ranges(Ips(endpoints[i]), parseNetwork)
    decreases |endpoints|
  {
    if endpoints != [] {
      var init := endpoints[..|endpoints| - 1];
      IpSetMembers(cfg, init, parseNetwork, x);
      if exists i :: 0 <= i < |endpoints| && Kept(cfg, endpoints[i]) && x in Ranges(Ips(endpoints[i]), parseNetwork) {
        var i :| 0 <= i < |endpoints| && Kept(cfg, endpoints[i]) && x in Ranges(Ips(endpoints[i]), parseNetwork);
        if i < |init| {
          assert init[i] == endpoints[i];
        }
      }
      if exists i :: 0 <= i < |init| && Kept(cfg, init[i]) && x in Ranges(Ips(init[i]), parseNetwork) {
        var i :| 0 <= i < |init| && Kept(cfg, init[i]) && x in Ranges(Ips(init[i]), parseNetwork);
        assert endpoints[i] == init[i];
      }
    }
  }

  /** The reported entries are exactly the unparsable IP entries of kept records. */
  lemma {:induction false} InvalidIpsMembers(cfg: FilterConfig, endpoints: seq<Endpoint>, parseNetwork: string -> Option<string>, r: string)
    ensures r in InvalidIps(cfg, endpoints, parseNetwork) <==>
      parseNetwork(r).None? && exists i :: 0 <= i < |endpoints| && Kept(cfg, endpoints[i]) && r in Ips(endpoints[i])
    decreases |endpoints|
  {
    if endpoints != [] {
      var init := endpoints[..|endpoints| - 1];
      var e := endpoints[|endpoints| - 1];
      InvalidIpsMembers(cfg, init, parseNetwork, r);
      InvalidMembers(Ips(e), parseNetwork, r);
      if exists i :: 0 <= i < |endpoints| && Kept(cfg, endpoints[i]) && r in Ips(endpoints[i]) {
        var i :| 0 <= i < |endpoints| && Kept(cfg, endpoints[i]) && r in Ips(endpoints[i]);
        if i < |init| {
          assert init[i] == endpoints[i];
        }
      }
      if exists i :: 0 <= i < |init| && Kept(cfg, init[i]) && r in Ips(init[i]) {
        var i :| 0 <= i < |init| && Kept(cfg, init[i]) && r in Ips(init[i]);
        assert endpoints[i] == init[i];
      }
    }
  }

  /** Normalisation leaves no `*.` wildcard in the URL list. */
  lemma UrlSetHasNoWildcards(cfg: FilterConfig, endpoints: seq<Endpoint>)
    ensures forall x :: x in UrlSet(cfg, endpoints) ==> !IsWildcard(x)
  {
    forall x | x in UrlSet(cfg, endpoints)
      ensures !IsWildcard(x)
    {
      UrlSetMembers(cfg, endpoints, x);
      var i :| 0 <= i < |endpoints| && Kept(cfg, endpoints[i]) && x in Domains(Urls(endpoints[i]));
      DomainsMembers(Urls(endpoints[i]), x);
    }
  }

  /** The filter on its own: the kept records, in their original order. */
  function Select(cfg: FilterConfig, endpoints: seq<Endpoint>): seq<Endpoint> {
    if endpoints == [] then []
    else
      var e := endpoints[|endpoints| - 1];
      Select(cfg, endpoints[..|endpoints| - 1]) + (if Kept(cfg, e) then [e] else [])
  }

  /** The filter keeps exactly the records that pass it, and never adds any. */
  lemma {:induction false} SelectMembers(cfg: FilterConfig, endpoints: seq<Endpoint>, e: Endpoint)
    ensures e in Select(cfg, endpoints) <==> e in endpoints && Kept(cfg, e)
    ensures |Select(cfg, endpoints)| <= |endpoints|
    decreases |endpoints|
  {
    if endpoints != [] {
      var init := endpoints[..|endpoints| - 1];
      SelectMembers(cfg, init, e);
      assert endpoints == init + [endpoints[|endpoints| - 1]];
    }
  }

  /** Appending a record to the input appends it to the kept records exactly when it passes. */
  lemma SelectAppend(cfg: FilterConfig, endpoints: seq<Endpoint>, e: Endpoint)
    ensures Select(cfg, endpoints + [e]) == Select(cfg, endpoints) + (if Kept(cfg, e) then [e] else [])
  {
    assert (endpoints + [e])[..|endpoints|] == endpoints;
  }

  /** Appending a record adds exactly its own contribution. */
  lemma AppendRecord(cfg: FilterConfig, endpoints: seq<Endpoint>, e: Endpoint, parseNetwork: string -> Option<string>)
    ensures UrlSet(cfg, endpoints + [e]) == UrlSet(cfg, endpoints) + RecordUrls(cfg, e)
    ensures IpSet(cfg, endpoints + [e], parseNetwork) == IpSet(cfg, endpoints, parseNetwork) + RecordRanges(cfg, e, parseNetwork)
    ensures InvalidIps(cfg, endpoints + [e], parseNetwork)
      == InvalidIps(cfg, endpoints, parseNetwork) + RecordInvalid(cfg, e, parseNetwork)
  {
    assert (endpoints + [e])[..|endpoints|] == endpoints;
  }

  lemma {:induction false} SelectIdempotent(cfg: FilterConfig, endpoints: seq<Endpoint>)
    ensures Select(cfg, Select(cfg, endpoints)) == Select(cfg, endpoints)
    decreases |endpoints|
  {
    if endpoints != [] {
      var e := endpoints[|endpoints| - 1];
      var init := endpoints[..|endpoints| - 1];
      var kept := Select(cfg, init);
      SelectIdempotent(cfg, init);
      assert endpoints == init + [e];
      SelectAppend(cfg, init, e);
      if Kept(cfg, e) {
        SelectAppend(cfg, kept, e);
        calc {
          Select(cfg, Select(cfg, endpoints));
          Select(cfg, kept + [e]);
          Select(cfg, kept) + [e];
          kept + [e];
        }
      } else {
        assert Select(cfg, endpoints) == kept;
      }
    }
  }

  /** Dropped records contribute nothing: the lists depend only on the kept records. */
  lemma {:induction false} ExtractionDependsOnlyOnKept(cfg: FilterConfig, endpoints: seq<Endpoint>, parseNetwork: string -> Option<string>)
    ensures UrlSet(cfg, Select(cfg, endpoints)) == UrlSet(cfg, endpoints)
    ensures IpSet(cfg, Select(cfg, endpoints), parseNetwork) == IpSet(cfg, endpoints, parseNetwork)
    ensures InvalidIps(cfg, Select(cfg, endpoints), parseNetwork) == InvalidIps(cfg, endpoints, parseNetwork)
    decreases |endpoints|
  {
    if endpoints != [] {
      var e := endpoints[|endpoints| - 1];
      var init := endpoints[..|endpoints| - 1];
      var kept := Select(cfg, init);
      ExtractionDependsOnlyOnKept(cfg, init, parseNetwork);
      assert endpoints == init + [e];
      SelectAppend(cfg, init, e);
      AppendRecord(cfg, init, e, parseNetwork);
      if Kept(cfg, e) {
        AppendRecord(cfg, kept, e, parseNetwork);
        assert Select(cfg, endpoints) == kept + [e];
      } else {
        assert Select(cfg, endpoints) == kept;
        assert RecordUrls(cfg, e) == {} && RecordRanges(cfg, e, parseNetwork) == {};
        assert RecordInvalid(cfg, e, parseNetwork) == [];
      }
    }
  }
}
