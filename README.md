# Nexpose helper scripts, modelled in Dafny

This project models the deterministic logic of a set of Python scripts that
work with the Rapid7 Nexpose (InsightVM) REST API:

- **Site finder** (`site_finder.py`). Each site's included and excluded
  target entries are expanded. An entry `"a - b"` becomes every dotted quad
  from `a` to `b`, computed over 32-bit big-endian integers. Any other entry
  is returned as the bare string. The expanded entries are flattened, and an
  address resolves to the last site, in site order, whose included targets
  hold it and whose excluded targets do not. `flatten` iterates a bare
  string character by character, so a literal address entry contributes
  one-character strings and never matches a real address. The model keeps
  this behaviour. In particular, for site A with a range covering 10.0.0.3
  and a literal exclusion "10.0.0.3", followed by site B with a literal
  inclusion "10.0.0.3", the code resolves 10.0.0.3 to A
  (`SiteFinder.LiteralOverlapResolvesToRangeSite`). Treating a literal
  entry as an address would resolve 10.0.0.3 to B; the code resolves it to
  A, and the model follows the code.
- **Asset tagger** (`Scripts/asset_tagger.py`). A tag is looked up by id or
  by name over the tag list. Every matching tag asks for a y/n
  confirmation. Then one PUT (tag) or DELETE (untag) is issued per line of
  the asset-id file, and a log reports every call as a success. The
  script-level variables `tag_id` and `proceed` survive from one menu round
  to the next. The model threads them through `AssetTagger.RunOption` as a
  `Globals` value.
- **Asset id finder and asset lookup** (`Scripts/asset_id_finder.py`,
  `Scripts/asset_lookup.py`). An exported asset table is preprocessed:
  host names are domain-dropped and lower-cased, and each comma-space
  address list is exploded into one row per address. The table is then
  searched by address, host name or asset id.
- **API client** (`nexpose_api_calls.py`). The constructor validates the
  API host against a fixed two-entry table and stores the password as
  Base64 text (section 4 of RFC 4648). `get_auth` decodes it.
  `get_siteIDs` replaces the site-id list. `get_scanEngines` appends to the
  scan-engine id list, and the default value of that list is one object
  shared by every client.

HTTP replies, file contents and typed answers are inputs of the model. A
reply whose status makes `raise_for_status` fail is `None`. The answer to
the k-th confirmation prompt is `answer(k)`.

Files: `wrappers.dfy` (Option, Result), `seqs.dfy` (concatenation,
filtering, last match, count), `text.dfy` (Python string operations:
`in`, `split`, `join`, `lower`, `strip`, `int`/`str` on decimals),
`ipv4.dfy` (`inet_aton`/`inet_ntoa` on dotted quads), `site_finder.dfy`,
`asset_tagger.dfy`, `inventory.dfy` (shared by the two inventory scripts),
`asset_id_finder.dfy`, `asset_lookup.dfy`, `base64.dfy`,
`nexpose_client.dfy`.

## Model

| member | source | states |
|---|---|---|
| Text.Lower | Scripts/asset_id_finder.py:38 | `str.lower()` on ASCII letters: same length, each upper-case ASCII letter replaced by its lower-case one, every other character kept |
| Text.Strip | nexpose_api_calls.py:79-81 | `str.strip()`: the result is a slice of the input with only white space before and after it, neither starts nor ends with white space, and an input already without such space is returned unchanged |
| Text.ParseInt | Scripts/asset_lookup.py:67 | `int()` of text: surrounding white space stripped, then an optional ASCII sign and at least one ASCII digit give that integer; anything else is the `ValueError` (None) |
| Text.Split | site_finder.py:100 | Python `str.split` with a non-empty separator: at least one piece, and two or more exactly when the separator occurs |
| Text.JoinSplit | site_finder.py:100 | joining the pieces of a split with the separator gives back the input |
| Text.SplitPiecesFree | Scripts/asset_id_finder.py:39 | no piece of a split contains the separator |
| Text.IntRoundTrip | Scripts/asset_lookup.py:67 | `int()` of the decimal text of any integer gives that integer back |
| Ipv4.ParseAddress | site_finder.py:103-104 | an accepted dotted quad unpacks to an integer below 2^32 |
| Ipv4.FormatAddress | site_finder.py:105 | `inet_ntoa(pack('>I', n))`: the four big-endian octets of n in decimal, joined by '.' |
| Ipv4.AddressRoundTrip | site_finder.py:103-105 | packing an integer below 2^32 to a dotted quad and unpacking it gives the same integer |
| Ipv4.AddressRoundTripBack | site_finder.py:103-105 | an accepted dotted quad formats back to the same text |
| SiteFinder.AddressRange | site_finder.py:103-105 | `range(start, end + 1)` formatted as dotted quads: b-a+1 addresses from a upwards, none when a > b |
| SiteFinder.RangeSplit | site_finder.py:98-107 | an entry without " - " is returned unchanged as a literal; a range fails exactly when one end does not parse, and otherwise yields an address list |
| SiteFinder.RangeSplitRange | site_finder.py:99-105 | "a - b" expands to b-a+1 addresses (none when a > b) whose values climb by one from a, the first equal to the start text and the last to the end text |
| SiteFinder.AddressRangeValues | site_finder.py:105 | the k-th address of a range unpacks to a+k: the list is strictly ascending |
| SiteFinder.Flatten | site_finder.py:168-173 | the nested append loop returns the in-order concatenation of every entry's items |
| SiteFinder.FlattenContents | site_finder.py:168-173 | the flat list's length is the sum of the entries' item counts, and it holds exactly the items of the entries |
| SiteFinder.MultiCharMatchesOnlyRanges | site_finder.py:106-107 | a literal entry contributes single characters, so an address of any other length is found only through range entries |
| SiteFinder.ExpandAllSucceeds | site_finder.py:145-159 | a site's target list is set iff every one of its entries expands without raising |
| SiteFinder.ExpandAllValues | site_finder.py:146-149 | a set list has one expansion per entry, in entry order, each the entry's own |
| SiteFinder.ExpandEntries | site_finder.py:146-149 | the loop of one `try` block computes the expanded list, leaving it unset on the first failing entry |
| SiteFinder.RowOf | site_finder.py:137-159 | one site's row: its id and name, with the included and the excluded entries each expanded, or left unset when an entry raises |
| SiteFinder.GetSiteTargets | site_finder.py:122-166 | one row per site in site order, with the site's id, name and both target lists expanded or unset; no table at all when there is no site, since converting the missing "Site ID" column raises |
| SiteFinder.Resolution | site_finder.py:226-233 | the `output` dictionary: keyed by the queried address only when some site qualifies, valued by the last qualifying site's name |
| SiteFinder.ResolutionMeaning | site_finder.py:222-233 | the output map has at most the queried address as key, present iff some site includes and does not exclude it, mapped to the last such site's name |
| SiteFinder.ResolutionSnoc | site_finder.py:226-233 | one more site overwrites the entry when it qualifies and otherwise leaves the earlier sites' answer |
| SiteFinder.Resolve | site_finder.py:226-233 | the loop that overwrites `output[IP]` per qualifying site computes that map |
| SiteFinder.ResolveLines | site_finder.py:248-275 | one map per '\n'-separated line, the empty trailing line included, each the resolution of that line |
| SiteFinder.LiteralOverlapResolvesToRangeSite | site_finder.py:106-107 | a site listing the address only as a literal neither includes nor excludes it, so the range site wins |
| AssetTagger.GetTagId | Scripts/asset_tagger.py:95-105 | the map's only possible key is the name, present iff some tag has exactly that name, mapped to the id of the last such tag |
| AssetTagger.CollectTagsAsWritten | Scripts/asset_tagger.py:142-148 | the page loop as written fails whenever there is more than one page |
| AssetTagger.SinglePageAgrees | Scripts/asset_tagger.py:142-148 | with at most one page the tag list is page 0's resources, as written and as intended |
| AssetTagger.SecondPageBreaksAsWritten | Scripts/asset_tagger.py:144-148 | two served pages: the written loop fails where the intended one returns both pages in order |
| AssetTagger.AllPages | Scripts/asset_tagger.py:142-148 | the intended tag list: page 0 followed by pages 1 .. totalPages-1, at least one page, failing at the first page not served |
| AssetTagger.FetchedSucceeds | Scripts/asset_tagger.py:144-148 | fetching the later pages succeeds iff every one of them is served |
| AssetTagger.FetchedValue | Scripts/asset_tagger.py:144-148 | a successful fetch is page 0 followed by pages 1 .. k-1 concatenated in order |
| AssetTagger.CollectTags | Scripts/asset_tagger.py:142-148 | the intended page loop computes that list, with one GET per announced page |
| AssetTagger.Scan | Scripts/asset_tagger.py:150-157 | the scan over the tags in order: a matching tag sets `tag_id` to its id and `proceed` to the answer of the next prompt; other tags change nothing |
| AssetTagger.ScanPrompts | Scripts/asset_tagger.py:150-157 | the scan prompts once per matching tag |
| AssetTagger.ScanProceed | Scripts/asset_tagger.py:222-229 | `proceed` ends as the answer to the last prompt, and keeps its earlier value when nothing matched |
| AssetTagger.ScanKeepsLastMatch | Scripts/asset_tagger.py:222-229 | after the scan `tag_id` holds the id of the last tag matching the requested id or name |
| AssetTagger.ScanWithoutMatch | Scripts/asset_tagger.py:150-157 | without a matching tag the scan changes neither global |
| AssetTagger.ScanKeepsRequestedId | Scripts/asset_tagger.py:274-275 | in the id options `tag_id` stays the entered id whether or not a tag matched |
| AssetTagger.ScanTags | Scripts/asset_tagger.py:294-301 | the scan loop computes the globals of the scan specification |
| AssetTagger.BatchOutcome | Scripts/asset_tagger.py:159-189 | the asset loop's result: a stop when `proceed` is unbound, declined, or no tag was found; otherwise one call and one log entry per line and the log file text |
| AssetTagger.LogEntry | Scripts/asset_tagger.py:175 | one log line: "Asset ID <a> successfully tagged with tag <t>" when tagging, "Tag <t> successfully removed from asset <a>" (:319) when untagging |
| AssetTagger.LogText | Scripts/asset_tagger.py:185-187 | the log file: the option's header, a blank line, then every entry followed by a newline |
| AssetTagger.BatchGate | Scripts/asset_tagger.py:231-243 | the asset loop makes calls iff `proceed` contains 'y' and `tag_id` is set; a confirmed run with no tag stops as "tag not found" |
| AssetTagger.BatchCalls | Scripts/asset_tagger.py:303-318 | a completed run makes exactly one call per line, in file order: DELETE in the untag options, PUT otherwise, with the found tag |
| AssetTagger.BatchLogs | Scripts/asset_tagger.py:319 | a completed run logs one entry per line, each reporting a success |
| AssetTagger.EntryReportsSuccess | Scripts/asset_tagger.py:391 | every log entry, tag or untag, contains " successfully " whatever the reply was |
| AssetTagger.HeaderByOption | Scripts/asset_tagger.py:329 | the log starts with "Assets Untagged Summary:" only in option 3, and with "Assets Tagged Summary:" in options 1, 2 and 4 |
| AssetTagger.RunBatch | Scripts/asset_tagger.py:159-189 | the asset loop over the '\n'-split file, the empty trailing line included, computes the batch outcome |
| AssetTagger.RunOption | Scripts/asset_tagger.py:129-198 | one menu round, built on the corrected page loop: a failed page stops the run; otherwise the globals after the scan and the batch outcome they lead to |
| Inventory.DropDomain | Scripts/asset_id_finder.py:22-30 | the result is a prefix without '.', equal to the name when it has no '.', and otherwise followed by the first '.' |
| Inventory.DropDomainUnique | Scripts/asset_lookup.py:17-25 | any dot-free prefix ending at a '.' or at the end is what `drop_domain` returns |
| Inventory.DropDomainIdempotent | Scripts/asset_lookup.py:22 | dropping the domain twice is dropping it once |
| Inventory.DropDomainLowerCommute | Scripts/asset_id_finder.py:36-38 | lower-casing then domain-dropping gives the same key as domain-dropping then lower-casing |
| Inventory.CleanHostIsQueryKey | Scripts/asset_id_finder.py:99-100 | a stored host name equals the search key of the original name |
| Inventory.Explode | Scripts/asset_id_finder.py:39-40 | one row per ', '-separated address of the asset, in order, each with the asset's id, cleaned host name and other columns |
| Inventory.ExplodeSpec | Scripts/asset_id_finder.py:39-40 | an asset explodes into at least one row, other columns copied, no address holding ", ", and the addresses joined back give the original cell |
| Inventory.Preprocess | Scripts/asset_lookup.py:31-35 | the inventory after preprocessing: every asset's exploded rows, asset after asset |
| Inventory.PreprocessSize | Scripts/asset_lookup.py:34-35 | the preprocessed table has one row per listed address: the sum of the part counts |
| Inventory.PreprocessRows | Scripts/asset_lookup.py:31-35 | a row is in the preprocessed table iff it comes from some asset's explosion |
| Inventory.HostMatches | Scripts/asset_id_finder.py:106 | `DB[DB.host_name.str.contains(key, na=False)]`: the rows whose host name contains the query's key, in table order |
| Inventory.HostMatchesMeaning | Scripts/asset_id_finder.py:106 | exactly the rows of the table whose host name is present and contains the query's key |
| Inventory.EmptyQueryMatchesAllNamed | Scripts/asset_id_finder.py:106 | an empty query selects every row with a host name and only those |
| AssetIdFinder.IpLineRows | Scripts/asset_id_finder.py:68-70 | the inner loop over the table: each row whose address equals the line appends another copy of the containing rows |
| AssetIdFinder.IpLineSize | Scripts/asset_id_finder.py:68-70 | a line adds one copy of the containing rows per exactly matching row, so no rows without an exact match |
| AssetIdFinder.IpLineContents | Scripts/asset_id_finder.py:68-70 | a line adds only rows whose address contains it, and all of them once some row matches exactly |
| AssetIdFinder.SearchByIp | Scripts/asset_id_finder.py:59-74 | the nested loop appends, line by line in file order, what each line adds |
| AssetIdFinder.HostSearchSnoc | Scripts/asset_id_finder.py:98-110 | one more line appends exactly that line's host-name matches to the output |
| AssetIdFinder.SearchByHostname | Scripts/asset_id_finder.py:96-110 | the loop appends, line by line in file order, the host-name matches of each line |
| AssetIdFinder.HostSearchRows | Scripts/asset_id_finder.py:97-110 | a row is in the output iff some line selects it |
| AssetIdFinder.TrailingNewlineSelectsAllNamed | Scripts/asset_id_finder.py:96-106 | a file ending in a newline has an empty last line, which selects every row with a host name |
| AssetLookup.IdMatches | Scripts/asset_lookup.py:67 | exactly the rows whose asset id equals the integer; none iff no row carries it |
| AssetLookup.IpMatches | Scripts/asset_lookup.py:49 | exactly the rows whose address contains the term |
| AssetLookup.Lookup | Scripts/asset_lookup.py:44-71 | an empty term is never searched; shown rows come from the table; only the id search reports "not found"; a bad id numeral is an error |
| AssetLookup.IdLookup | Scripts/asset_lookup.py:62-71 | "Asset not found" iff no row carries the id, otherwise exactly the rows with that id |
| AssetLookup.AddressPrefixAlsoMatches | Scripts/asset_lookup.py:49 | the term "10.0.0.1" also selects the address "10.0.0.10" |
| AssetLookup.HostLookupFindsOwnName | Scripts/asset_lookup.py:57-59 | a query with the same name as a host up to case and domain finds that host's rows |
| Base64.Encode | nexpose_api_calls.py:89 | `b64encode`: each group of three bytes as four letters, a last group of one or two bytes padded with '=' to four; empty exactly for no bytes |
| Base64.Decode | nexpose_api_calls.py:100 | `b64decode` of well-formed text: four letters per three bytes, padding allowed only in the last group; a bad length, letter or padding is the error (None) |
| Base64.LetterValue | nexpose_api_calls.py:89 | a character read as a six-bit value is that value's letter |
| Base64.EncodeLength | nexpose_api_calls.py:89 | the encoding has 4 characters per started group of 3 bytes, so its length is a multiple of 4 |
| Base64.EncodeAlphabet | nexpose_api_calls.py:89 | the encoding uses only the Base64 alphabet and '=' |
| Base64.DecodeEncode | nexpose_api_calls.py:89-100 | decoding the encoding of any byte sequence gives it back |
| NexposeClient.SelectHost | nexpose_api_calls.py:71-85 | without a host the stripped selection must be a table key and gives that key's URL; a given host must be a table URL and is kept unchanged; otherwise the matching error |
| NexposeClient.SelectionIgnoresSpaces | nexpose_api_calls.py:79-81 | " 2 " selects the development URL |
| NexposeClient.Client.constructor | nexpose_api_calls.py:54-68 | the fields `__init__` sets: the given host and credentials, no site ids, and the engine list it was given, shared and not copied |
| NexposeClient.Connect | nexpose_api_calls.py:46-93 | a bad host fails before the credentials are read; otherwise a fresh client with the chosen host, the given credentials or the typed user with the Base64 text of the password, no site ids, and the shared default engine list |
| NexposeClient.Client.GetAuth | nexpose_api_calls.py:95-100 | the user name is returned unchanged |
| NexposeClient.GetAuthRoundTrip | nexpose_api_calls.py:89-100 | `get_auth` gives back the password whose encoding is stored |
| NexposeClient.Client.GetSiteIds | nexpose_api_calls.py:114-126 | the ids of page 0's sites replace the site-id list, same order and length; a failed reply changes nothing |
| NexposeClient.Client.GetScanEngines | nexpose_api_calls.py:297-336 | each engine id is appended in row order without clearing the list; a failed reply, or a reply with no engines (the type conversion of the missing id column raises), changes nothing and reports failure |
| NexposeClient.SharedDefaultList | nexpose_api_calls.py:46 | two clients built on the default list share it: engines read through either appear in both |

## Left out

- HTTP and networking: every `requests` call, `test_connection`, disabled TLS verification and status handling. Replies are inputs, and a failed status is `None`.
- pandas machinery: appending, NaN replacement, type conversion (apart from its failure on an empty table, modelled in `SiteFinder.GetSiteTargets` and `NexposeClient.Client.GetScanEngines`), `to_csv`, and the `sort_values` on `host_name` in the inventory preprocessing. Rows keep table order. A target list left unset reads as an empty list, as the NaN-to-'' replacement makes it.
- Regular expressions in `str.contains`: terms are matched as plain substrings, so a '.' in an address term is not a wildcard here.
- Files, prompts, console output, timestamps and `sys.exit`. A `Stopped` outcome stands for the script ending. This includes the hostname option's `.txt` check testing the wrong variable (Scripts/asset_id_finder.py:91). The re-prompt loops for empty terms appear only as the `EmptyTerm` error.
- Ipv4.ParseAddress: only four canonical decimal octets are accepted. `inet_aton`'s short forms, octal and hexadecimal parts, and leading zeros are rejected.
- Text.Lower: lower-cases ASCII letters only, not the rest of Unicode.
- Text.ParseInt: accepts surrounding white space, an ASCII sign and ASCII digits only. Python's `int()` also allows underscores between digits and any Unicode decimal digit (so `int("١٢")` is 12), and the model rejects both.
- NexposeClient.Connect: the password is a byte sequence. Its UTF-8 encoding from the typed string, and the UTF-8 decoding in `get_auth`, are not modelled.
- Base64.Decode: strict decoding. Python's non-strict `b64decode` skips characters outside the alphabet and stops after the first complete padding group ("YQ==YQ==" and "YQ===" both give the byte of "a"); the model rejects such text. Neither case arises for text the encoder produced.
- NexposeClient.Client.GetAuth: strict decoding, through `Base64.Decode`. Python's decoder first discards characters outside the alphabet, which only matters for credentials passed in that were not produced by the encoder.
- AssetTagger.RunOption: uses the corrected page loop (`AssetTagger.CollectTags`), not the one as written. With more than one tag page the source ends the round with a NameError before any call, while the model goes on to the scan and the asset loop; see "## Findings".
- AssetTagger.RunOption: the typed tag id of options 1 and 3 is an integer input. `int()` rejecting it, and a failed first tag page, are not modelled.
- Inventory.Asset: `ip_address_all` is always text. An empty cell would make the preprocessing raise.
- NexposeClient.Client.GetScanEngines: the scan-engine table is not stored. Its `sort_values` result is discarded in the source, so the ids keep reply order.
- The JSON-to-table flatteners (`get_siteInfo`, `get_scanSchedules`, `get_siteCreds`, `get_scanTemplates`, `get_enginePools`, `get_users`, `get_consoleInfo`): they only copy fields into tables.

## Findings

| source | as written | input that shows it | evidently intended | confidence | as-written member | corrected member |
|---|---|---|---|---|---|---|
| Scripts/asset_tagger.py:144-148 | the page loop requests `url` with `self.get_auth()`, names that are not bound at module level, so any tag list longer than one page ends the run with a NameError | first reply with totalPages = 2, page 1 served | request `/tags` page by page and append every page's resources to page 0's, in order | not executed | AssetTagger.SecondPageBreaksAsWritten | AssetTagger.CollectTags |
