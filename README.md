# Microsoft 365 endpoint tracker — Dafny model

The tracker polls the Microsoft 365 endpoint service. When the published manifest version
changes, it turns the manifest into two allow-list files for a Squid proxy: one of domains,
one of IP ranges. Then it asks Squid to reload. This project models the core of
`src/main.py`, the class `M365EndpointTracker`:

- `wrappers.dfy` — `Option`, for missing JSON keys, unset environment variables and failed requests.
- `code_point_order.dfy` — Python's order on `str`: lexicographic by code point, with a proper
  prefix first. It is proved to be a strict total order.
- `allow_list_file.dfy` — the file content `write_whitelist_files` produces for one set:
  `sorted(s)` (the ghost function `Sorted`), one line per element (`Lines`), and a loop method
  `Render` that emits the least remaining element each round. A line reader `SplitLines` is
  the inverse used to state what the file holds.
- `endpoint_filter.dfy` — `extract_urls_and_ips`: the record and filter data, the required-flag
  and category test, wildcard normalisation, and IP-range canonicalisation through a parser that
  is passed in. The nested loops are a method, proved against recursive set functions. Those
  functions are characterised by lemmas (membership in both directions, dropped records add
  nothing, no wildcard survives).
- `squid_reload.dfy` — `reload_squid`'s choice of command, from the three environment variables,
  checked against a table of reload variants.
- `endpoint_tracker.dfy` — `update_whitelist`: a `Tracker` class holding `lastVersion`. Its
  `UpdateWhitelist` method takes the fetched version, the fetched records, the range parser,
  the write fault and the reload environment, and returns the outcome and a trace of the steps
  that ran. It is proved equal to the ghost function `Cycle`; the lemmas about `Cycle` state
  the version gate, the abort on an empty list, and the commit.

The model follows these behaviours of the code:
- The two files are written one after the other, in place, so a failure on the IP file leaves
  the new URL file behind.
- A failed write is only logged. The reload still runs, and `lastVersion` still advances.
- A failed reload is only logged. `lastVersion` still advances.
- A version answer without `latest` gives the version `""`, which is an ordinary version here.
- A failed endpoint request and an empty manifest are the same input, an empty list. Both end
  the cycle.

## Model

| member | source | states |
|---|---|---|
| CodePointOrder.LessIrreflexive | src/main.py:142 | no string sorts before itself |
| CodePointOrder.LessTransitive | src/main.py:142 | the string order used by `sorted` is transitive |
| CodePointOrder.LessAsymmetric | src/main.py:142 | two strings are never each before the other |
| CodePointOrder.LessTrichotomy | src/main.py:142 | any two strings are equal or ordered one way round, so `sorted` has one answer |
| AllowListFile.SortedIsAscendingListing | src/main.py:142 | `sorted(s)` lists every element of `s` exactly once, in strictly ascending code-point order |
| AllowListFile.AscendingListingIsSorted | src/main.py:142 | any strictly ascending listing of exactly the elements of `s` is `sorted(s)` |
| AllowListFile.Render | src/main.py:141-148 | the loop's output is the sorted elements, each followed by one newline |
| AllowListFile.SplitLinesInvertsLines | src/main.py:143 | reading back the lines of the written content gives the written listing, when no element holds a newline |
| AllowListFile.RenderedLinesAreSortedSet | src/main.py:141-148 | when no element contains a newline, the file holds one line per element, strictly ascending, each element once; it is empty exactly when the set is empty, and otherwise ends in a newline |
| AllowListFile.LinesEndInNewline | src/main.py:147-148 | every written line is terminated, so content with at least one line ends in a newline |
| AllowListFile.RenderTwoDomains | src/main.py:142-143 | `{"a.com", ".b.com"}` is written as `.b.com`, then `a.com` |
| AllowListFile.RenderOneRange | src/main.py:147-148 | a one-element set is written as that element and a newline |
| EndpointFilter.DefaultFilterKeeps | src/main.py:54-55 | under the start-up configuration a record is kept iff `required` is true and its category is Optimize, Allow or Default; a missing key drops it |
| EndpointFilter.NormalizeDomain | src/main.py:117-122 | the result never starts with `*.`; a `*.` URL becomes the result with `*` put back in front; any other URL is unchanged |
| EndpointFilter.NormalizeDomainIdempotent | src/main.py:117-122 | normalising twice is normalising once |
| EndpointFilter.ExtractUrlsAndIps | src/main.py:97-135 | the loops return exactly the URL set, the IP-range set and the reported invalid entries defined over the records |
| EndpointFilter.CollectDomains | src/main.py:114-122 | the URL loop of one record collects exactly the normalised forms of its URLs |
| EndpointFilter.CollectRanges | src/main.py:125-132 | the IP loop of one record collects exactly the ranges its entries parse to, and reports the entries that do not parse, in order |
| EndpointFilter.DomainsMembers | src/main.py:114-122 | a domain is collected iff it is the normalisation of one of the record's URLs |
| EndpointFilter.RangesMembers | src/main.py:125-131 | a range is collected iff one of the record's entries parses to it |
| EndpointFilter.InvalidMembers | src/main.py:126-132 | an entry is reported iff it is one of the record's entries and does not parse, once for each time it is listed; never more reports than entries |
| EndpointFilter.UrlSetMembers | src/main.py:102-122 | the URL set is exactly the domains of kept records |
| EndpointFilter.IpSetMembers | src/main.py:102-132 | the IP set is exactly the parsed ranges of kept records; an unparsable entry adds nothing and later entries and records are still read |
| EndpointFilter.InvalidIpsMembers | src/main.py:125-132 | the reported entries are exactly the unparsable IP entries of kept records |
| EndpointFilter.InvalidConcat | src/main.py:125-132 | checking two lists of entries one after the other reports the first list's invalid entries, then the second's |
| EndpointFilter.InvalidIpsOfKeptEntries | src/main.py:102-132 | the reports for a whole answer are those of the IP entries of the kept records taken in order |
| EndpointFilter.InvalidIpsCountsOccurrences | src/main.py:102-132 | each unparsable entry is reported once per occurrence in a kept record, and a parsable entry never |
| EndpointFilter.UrlSetHasNoWildcards | src/main.py:117-120 | no element of the URL set starts with `*.` |
| EndpointFilter.SelectMembers | src/main.py:102-111 | the filter keeps a record iff it is in the input and passes both tests |
| EndpointFilter.SelectIdempotent | src/main.py:102-111 | filtering twice is filtering once |
| EndpointFilter.ExtractionDependsOnlyOnKept | src/main.py:102-132 | the URL set, the IP set and the reports are the same when computed from the kept records alone: dropped records contribute nothing |
| SquidReload.Lower | src/main.py:157 | lower-casing keeps the length and lower-cases each ASCII letter |
| SquidReload.ExternalFlagSpellings | src/main.py:157 | `EXTERNAL_SQUID` counts as true iff it is "true" in any mix of ASCII case |
| SquidReload.ReloadCommand | src/main.py:155-198 | not external: `squid -k reconfigure`; no command iff external with method `none`; an unknown method falls back to `squid -k reconfigure`; every command names squid |
| SquidReload.ReloadCommandFollowsStrategy | src/main.py:157-198 | the command equals the one of the reload variant selected by the table: systemctl, service, docker exec into the named container (default `squid-container`), none, or local reconfigure |
| SquidReload.InProcessIgnoresMethod | src/main.py:157-165 | when Squid is not external, the method and container name make no difference |
| SquidReload.ContainerNameOnlyForDocker | src/main.py:186-190 | the container name changes the command only for the external docker method |
| EndpointTracker.WriteWhitelistFiles | src/main.py:137-153 | the URL file gets the rendered URL set, then the IP file the rendered IP set; a fault on a file ends the writing there and is only reported |
| EndpointTracker.Tracker.constructor | src/main.py:21-26 | a new tracker uses the start-up filter and has applied no version |
| EndpointTracker.Tracker.UpdateWhitelist | src/main.py:209-242 | outcome, trace and new `lastVersion` are those of one cycle from the old `lastVersion` |
| EndpointTracker.VersionGate | src/main.py:213-221 | a failed version request or an already-applied version ends the cycle after the version request; `lastVersion` is kept |
| EndpointTracker.EmptyEndpointsAbort | src/main.py:225-229 | a new version with an empty endpoint list ends the cycle before extraction, writes and reload; `lastVersion` is kept |
| EndpointTracker.NewVersionIsApplied | src/main.py:231-241 | a new version with records runs extract (carrying the reported invalid entries), the writes, then the reload last, and moves `lastVersion` to the new version even when a write failed |
| EndpointTracker.AppliedContents | src/main.py:231-241 | without a write fault, extraction reports the invalid entries of the kept records, the two files receive the rendered URL and IP sets, and the reload follows |
| EndpointTracker.WatermarkMovesOnlyOnApply | src/main.py:209-241 | `lastVersion` changes only on an applied cycle, and only to the fetched version; a cycle applies iff the version is new and records arrived |
| EndpointTracker.RepeatedVersionIsNoOp | src/main.py:219-221 | after a cycle that applied or already had version `v`, a cycle that fetches `v` again fetches no records, writes nothing and reloads nothing |
| EndpointTracker.StartThenRepeat | src/main.py:209-241 | a fresh tracker applies the first version with records; a second cycle with the same version stops after the version request |
| EndpointTracker.ExampleLists | src/main.py:97-135 | the three example records (one kept with a wildcard and a range with host bits set, one kept with only an unparsable range, one dropped as not required) give the URL set `{a.com, .b.com}` and the IP set `{10.0.0.0/24}`, and report `not-an-ip` |
| EndpointTracker.EndToEndExample | src/main.py:209-242 | version "1" to "2" with the example records reports `not-an-ip`, writes `.b.com`, `a.com` and `10.0.0.0/24`, reloads with `squid -k reconfigure`, and sets `lastVersion` to "2" |

## Left out

- HTTP requests, JSON decoding and the request identifier (`get_current_version`, `get_endpoints`, src/main.py:64-95) are network I/O. Their results are cycle inputs: `None` for a failed version request, `Some("")` for an answer without `latest`, and an empty list for a failed or empty endpoint answer.
- JSON values of an unexpected type are not modelled. Examples: `"urls": null`, which raises an exception the source does not catch inside the cycle, or a non-boolean `required`, which Python tests for truthiness. Record fields are typed options.
- `ipaddress.ip_network(..., strict=False)` belongs to a foreign library. It is the parameter `parseNetwork: string -> Option<string>`, and every IP property holds for any such parser.
- Running the reload command (subprocess, timeout, return code, stderr) is an external process effect. Only the argument vector is modelled.
- Opening and writing `/etc/squid/whitelist.txt` and `/etc/squid/whitelist_ips.txt` is file I/O. The model gives each file's full content and, through `WriteFault`, which file a failure stops at. It does not model the partial content of a file whose write breaks off midway.
- Logging (src/main.py:33-46 and all log calls) is left out, except that the reported invalid IP entries are returned and appear in the trace's extraction step.
- Signal handling, `sys.exit` and the `running` flag (src/main.py:27-31, 58-62) are process plumbing.
- The `schedule`/`sleep` loop and the update interval in `run` (src/main.py:51, 244-268) are timing plumbing. A cycle is one call of `UpdateWhitelist`.
- Lower: lower-cases ASCII letters only, where Python's `str.lower` maps all of Unicode. No non-ASCII character lower-cases to `t`, `r`, `u` or `e`, so the comparison with "true" has the same result.
