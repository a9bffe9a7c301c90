# IP-API backend core in Dafny

This project models the sequential core of the IP-API backend, an HTTP service that answers questions about an IP address or network. It covers these parts:

- **`Store`**: the lazily expiring key/value store used as the lookup cache. It keeps a running byte counter with a 1 GiB cap, expires entries after 24 hours, and writes best-effort snapshots to disk.
- **`WhoisClient`**: the parser of RIPE WHOIS replies. Replies follow the WHOIS protocol of RFC 3912 and hold RPSL `key: value` attribute lines as in section 2 of RFC 2622.
- **`BgpToolsClient`**: the parser of the `|`-separated table that the bgp.tools WHOIS service returns, and the lookup built on top of it.
- **`MaxmindReader`**: loading the GeoLite2 ASN, City and Country databases, and assembling the answer for an address or a CIDR network (section 3.1 of RFC 4632).
- **`MaxmindUpdater`**: download URLs, the search for the database file in an unpacked archive, and the order of an update.
- **`Scheduler`**: daily tasks, each driven by a wake, run and sleep loop.
- **`RpkiClient`**: the URL of a route origin validation query (RFC 6811, section 2) and how its answer becomes a validity record.
- **`BgpApiClient`**: the host-prefix search URL for bgp-api.net and how the result is extracted.

Shared modules:

- `Wrappers`: `Option` and `Result`.
- `Text`: Rust `str` operations, such as `trim`, `lines`, `split`, `replace`, `trim_end_matches` and `ends_with`.
- `Net`: addresses as numbers, and the network and broadcast address of a prefix.
- `Http`: a reply as the clients see it.

Parsing and printing addresses, sending requests and decoding JSON come from libraries whose code is not part of this model. They are represented as function parameters or function-typed fields:

- `NetLib` stands for the address parsers and the printer.
- `Reply<T>` is an HTTP reply with its already decoded body.
- A database lookup is a function from an address to `Result<Option<Record>>`.

A failure of a disk or network step is a `fault` argument, and the clock is a `now` argument.

The store keeps one invariant, `Valid()`: `currentSizeBytes` equals the sum of `sizeBytes` over all stored entries, expired ones included. Every mutating method preserves it. Because of it, the subtractions in `remove` and `cleanup_expired` never go below zero.

## Model

| member | source | states |
|---|---|---|
| `Store.TotalSizeRemove` | backend/src/utils/kv_store.rs:171-177 | Any one entry's size can be split off the total, so subtracting it from the counter cannot go below zero |
| `Store.TotalSizeUpdate` | backend/src/utils/kv_store.rs:142-158 | Inserting or overwriting a key changes the total by the new size minus the old entry's size |
| `Store.TotalSizeSubmap` | backend/src/utils/kv_store.rs:290-302 | A map drawn from another map never has a larger total |
| `Store.LiveSizeAtMost` | backend/src/utils/kv_store.rs:290-302 | The live part of a map weighs at most the whole map, so loading a snapshot that was within the cap stays within it |
| `Store.LiveExpiredPartition` | backend/src/utils/kv_store.rs:205-225 | A sweep splits the keys into the survivors and the removed; their counts add up to the old size |
| `Store.LiveIsUnexpired` | backend/src/utils/kv_store.rs:205-225 | The entries a sweep keeps are exactly those it does not remove |
| `Store.LiveAddBack` | backend/src/utils/kv_store.rs:290-302 | Loading one more snapshot entry adds it exactly when it is still live at now |
| `Store.LiveLater` | backend/src/utils/kv_store.rs:112-124 | What is live at a later time was live at every earlier time, so an early sweep changes no later read |
| `Store.KvStore.constructor` | backend/src/utils/kv_store.rs:54-63 | A new store is empty, its counter is 0 and valid, and the last-persist time is the creation time |
| `Store.KvStore.EstimateSize` | backend/src/utils/kv_store.rs:191-203 | Key bytes + value bytes + 64 when both encodings succeed; otherwise the key's error first, then the value's |
| `Store.KvStore.Get` | backend/src/utils/kv_store.rs:112-124 | Some(value) exactly when the key is stored and its expiry is later than now; expired entries stay stored |
| `Store.KvStore.ContainsKey` | backend/src/utils/kv_store.rs:179-189 | True exactly when `Get` returns a value |
| `Store.KvStore.Len` | backend/src/utils/kv_store.rs:309-311 | The number of stored entries, expired ones not yet swept included, so it is at least the number live at any time |
| `Store.KvStore.MemoryUsage` | backend/src/utils/kv_store.rs:317-319 | Equals the sum of the entry sizes |
| `Store.KvStore.Set` | backend/src/utils/kv_store.rs:126-169 | Estimate failure → that error; otherwise fails with `CapacityExceeded`, and succeeds exactly when the new total is ≤ 1 GiB (the cap itself is accepted). Success stores value, expiry now + 86400 and the estimated size, replacing any old entry. Any failure leaves every field unchanged. Once 600 s have passed, the inline persist writes the whole map on success, and `lastPersist` becomes now even when the write fails. Keeps `Valid()` |
| `Store.KvStore.Remove` | backend/src/utils/kv_store.rs:171-177 | Removes a stored key whether or not it has expired, subtracts its size and returns its value; an absent key returns None and changes nothing. Keeps `Valid()` |
| `Store.KvStore.CleanupExpired` | backend/src/utils/kv_store.rs:205-225 | Removes exactly the entries with expiry ≤ now, keeps every other entry as it was, and returns the number removed; the counter does not grow. Keeps `Valid()` |
| `Store.KvStore.Persist` | backend/src/utils/kv_store.rs:227-269 | On success the file holds the whole map, expired entries included, and `lastPersist` is now; on failure neither the file nor `lastPersist` changes |
| `Store.KvStore.LoadFromDisk` | backend/src/utils/kv_store.rs:271-307 | No file → Ok, nothing changes; read or decode error → that error before anything is cleared; otherwise the map is exactly the snapshot's entries live at now, and the counter is their sum |
| `Store.PersistThenLoad` | backend/src/utils/kv_store.rs:227-307 | Persisting at one time and loading at a later time gives the entries live at the later time, and a store within the cap stays within it |
| `Text.TrimStart` | backend/src/utils/whois_client.rs:97 | `str::trim_start`: the result is a suffix of the text, does not start with white space, and only white space was dropped |
| `Text.TrimEnd` | backend/src/utils/whois_client.rs:97 | `str::trim_end`: the result is a prefix of the text, does not end with white space, and only white space was dropped |
| `Text.TrimDropsOnlyWhitespace` | backend/src/utils/whois_client.rs:97 | `str::trim` drops only white space, before and after the piece it keeps |
| `Text.TrimEdges` | backend/src/utils/whois_client.rs:97 | The piece `str::trim` keeps neither starts nor ends with white space |
| `Text.IndexOf` | backend/src/utils/whois_client.rs:102 | The first occurrence of the character: a found index holds it and none comes before it; None exactly when the text does not hold it |
| `Text.Lines` | backend/src/utils/whois_client.rs:96 | `str::lines`: no line holds a line feed, and there are no lines exactly when the text is empty |
| `Text.LinesCons` | backend/src/utils/whois_client.rs:96 | A line ended by a line feed comes first, without a carriage return just before the feed, followed by the lines of the rest |
| `Text.LinesLast` | backend/src/utils/whois_client.rs:96 | A last piece without a line feed is one line, kept as it is |
| `Text.LinesCrLfExample` | backend/src/utils/bgptools_client.rs:137 | `a` CR LF `b` LF gives the lines `a` and `b`: the CR LF ending is removed and a final line feed starts no empty line |
| `Text.Split` | backend/src/utils/bgptools_client.rs:144-145 | `str::split` on a character: at least one part, and no part contains the separator |
| `Text.JoinSplit` | backend/src/utils/bgptools_client.rs:144-145 | Joining the parts with the separator gives back the text |
| `Text.SplitCount` | backend/src/utils/bgptools_client.rs:144-145 | There is one more part than occurrences of the separator |
| `Text.ReplaceAllSelf` | backend/src/maxmind/updater.rs:82 | `str::replace` of a pattern by itself gives back the text |
| `Text.ReplaceAllAbsent` | backend/src/maxmind/updater.rs:82 | `str::replace` leaves text without the pattern unchanged |
| `Text.ReplaceAllFirst` | backend/src/maxmind/updater.rs:82 | The first occurrence of the pattern is replaced and the rest of the text is processed after it |
| `Text.TrimAround` | backend/src/utils/whois_client.rs:97 | `str::trim` of `k`, a visible character, then `v` trims only the front of `k` and the back of `v` |
| `Text.TrimEndChar` | backend/src/utils/rpki_client.rs:66 | `trim_end_matches`: the result is a prefix of the input, does not end with the character, and only that character was removed |
| `Net.Network` | backend/src/maxmind/reader.rs:149 | `IpNet::network`: same family, a multiple of the host count (host bits cleared), at or below the address as written, and less than one host count below it |
| `Net.Broadcast` | backend/src/maxmind/reader.rs:149 | `IpNet::broadcast`: same family, one below a multiple of the host count (host bits set), at or above the address as written, and less than one host count above it |
| `Net.NetworkContainsAddr` | backend/src/maxmind/reader.rs:144-149 | The address as written lies between the network and broadcast addresses of its prefix, in the same family, and the range spans the prefix's host count |
| `Http.Body` | backend/src/utils/rpki_client.rs:80-85 | Ok exactly when the request was sent, the status is 2xx and the body decoded, and then Ok holds that body |
| `WhoisClient.ParseLine` | backend/src/utils/whois_client.rs:97-108 | Lines that are blank, `%` or `#` after trimming, and lines without `:`, carry no attribute; a key never contains `:` |
| `WhoisClient.SplitAttribute` | backend/src/utils/whois_client.rs:102-108 | A trimmed line gives an attribute exactly when it holds a `:`, and the key has none |
| `WhoisClient.ParseLineSplitsAtFirstColon` | backend/src/utils/whois_client.rs:102-108 | For `k:v` where `k` has no `:` and does not start a comment, the attribute is (trimmed `k`, trimmed `v`); the value keeps any further `:` |
| `WhoisClient.FieldOfKeys` | backend/src/utils/whois_client.rs:110-124 | Each field is filled by exactly its own key; `org` and `organisation` both fill the organisation field, and every other key fills none |
| `WhoisClient.LastValueAppend` | backend/src/utils/whois_client.rs:111-122 | For the last-wins keys, a later occurrence overrides every earlier one |
| `WhoisClient.FirstValueAppend` | backend/src/utils/whois_client.rs:113-117 | For `descr`, the first occurrence hides every later one |
| `WhoisClient.UnknownKeyIgnored` | backend/src/utils/whois_client.rs:123 | An attribute whose key is not looked for changes no field |
| `WhoisClient.ValueStep` | backend/src/utils/whois_client.rs:110-124 | What one more attribute does to a last-wins field and to a first-wins field |
| `WhoisClient.CollectValues` | backend/src/utils/whois_client.rs:110-137 | Recording the attributes in order leaves each field with the last value of its key, `descr` with the first, and the reply text kept |
| `WhoisClient.ParseLinesCollects` | backend/src/utils/whois_client.rs:96-125 | Reading the lines one at a time and skipping those without an attribute records the same as recording the attributes of all lines |
| `WhoisClient.ParseResponse` | backend/src/utils/whois_client.rs:86-138 | The result is the record of the reply's attributes in order. Each field holds the last value of its key; `descr` holds the first; `org` and `organisation` share one field where the last wins; `rawResponse` is the input |
| `BgpToolsClient.Columns` | backend/src/utils/bgptools_client.rs:144-145 | One trimmed cell per `|`-separated part of the trimmed line |
| `BgpToolsClient.RowOf` | backend/src/utils/bgptools_client.rs:138-145 | A row is never a header (blank, `#`, `AS `) and has at least 7 cells |
| `BgpToolsClient.RowNeedsSixBars` | backend/src/utils/bgptools_client.rs:138-145 | A line that is not a header is a row exactly when its trimmed text holds at least six `|` |
| `BgpToolsClient.FirstOfIsFirst` | backend/src/utils/bgptools_client.rs:137-155 | The first result of a search over a sequence is None exactly when every element gives None, and otherwise it is the result of the earliest element that gives one |
| `BgpToolsClient.FirstRow` | backend/src/utils/bgptools_client.rs:137-155 | The row found has at least 7 cells |
| `BgpToolsClient.FirstRowIsFirst` | backend/src/utils/bgptools_client.rs:137-155 | A row is found exactly when some line is one, and then it is the earliest such line |
| `BgpToolsClient.ParseWhoisResponse` | backend/src/utils/bgptools_client.rs:129-168 | Cells 0, 2, 3, 4, 5 and 6 of the first row fill asn, prefix, country, registry, allocated and as_name (cell 1 is unused), or all are None; `ip` is the argument, upstreams are empty, and the raw response is kept |
| `BgpToolsClient.QueryWhois` | backend/src/utils/bgptools_client.rs:78-126 | Text that is not an IP address is an error and nothing is sent; otherwise `ip` CR LF is sent. The exchange fails only when connecting, setting a timeout or writing fails; a read that fails part way ends the reply, and the text read so far is parsed and returned as Ok |
| `BgpToolsClient.Lookup` | backend/src/utils/bgptools_client.rs:39-75 | The parsed fields are copied unchanged. Upstreams are fetched only for a prefix that is present, and a failed fetch leaves them empty while the lookup still succeeds |
| `MaxmindReader.LoadErrorOf` | backend/src/maxmind/reader.rs:154-200 | A missing file is `NotFound` and an unopenable file `OpenFailed`, naming that kind's database file |
| `MaxmindReader.PreferredName` | backend/src/maxmind/reader.rs:95-97 | The `zh-CN` name, else the `en` name, else none |
| `MaxmindReader.LocalizedName` | backend/src/maxmind/reader.rs:93-99 | A name exactly when the place has names with `zh-CN` or `en`, and it is one of those names |
| `MaxmindReader.RangeText` | backend/src/maxmind/reader.rs:149 | The printed network address, then ` - `, then the printed broadcast address |
| `MaxmindReader.Reader.constructor` | backend/src/maxmind/reader.rs:31-38 | A new reader has no database loaded |
| `MaxmindReader.Reader.LoadAsnDatabase` | backend/src/maxmind/reader.rs:154-168 | Ok and the ASN database set exactly when the file opened; otherwise the file's error, and the field is unchanged |
| `MaxmindReader.Reader.LoadCityDatabase` | backend/src/maxmind/reader.rs:170-184 | The same for the City database |
| `MaxmindReader.Reader.LoadCountryDatabase` | backend/src/maxmind/reader.rs:186-200 | The same for the Country database |
| `MaxmindReader.Reader.LoadDatabases` | backend/src/maxmind/reader.rs:40-47 | Loads ASN, then City, then Country, stopping at the first file that fails and returning its error; databases loaded before the failure stay loaded |
| `MaxmindReader.Reader.Lookup` | backend/src/maxmind/reader.rs:49-57 | The CIDR path exactly when the text contains `/`, the single-address path otherwise |
| `MaxmindReader.Reader.LookupIp` | backend/src/maxmind/reader.rs:59-138 | Unparsable text → `InvalidIp`. ASN and organization come from the ASN record, and an ASN error or missing record leaves them None. The city name comes from the city record. The country comes from the city record, and the Country database is consulted only when that gives none. A City or Country lookup with no record is `Panic` |
| `MaxmindReader.Reader.LookupCidr` | backend/src/maxmind/reader.rs:140-152 | Unparsable text → `InvalidCidr`; otherwise looks up the address as written, and labels the answer with the CIDR text and the range "network - broadcast" |
| `MaxmindReader.CountryDbUnusedWhenCityNamesCountry` | backend/src/maxmind/reader.rs:101-117 | When the city record names a country, the Country database has no effect on the answer |
| `MaxmindReader.AsnDbNeverFails` | backend/src/maxmind/reader.rs:73-87 | The ASN database never makes a lookup fail and affects only `asn` and `organization` |
| `MaxmindReader.CidrUsesWrittenAddress` | backend/src/maxmind/reader.rs:140-152 | With a printer that round-trips, a CIDR is answered from its address as written, not from its network address; the only failure left is the unwrap panic |
| `MaxmindUpdater.GetDownloadUrl` | backend/src/maxmind/updater.rs:74-83 | Ok exactly for the type names `asn`, `city` and `country` |
| `MaxmindUpdater.DownloadUrlOfKind` | backend/src/maxmind/updater.rs:74-83 | Each kind uses its own template with every `{license_key}` replaced by the key; a template without the placeholder is used unchanged |
| `MaxmindUpdater.DownloadUrlSubstitutesKey` | backend/src/maxmind/updater.rs:82 | The first placeholder in a template is replaced by the license key |
| `MaxmindUpdater.DerivedFileName` | backend/src/maxmind/updater.rs:96 | The file name as the updater derives it: `GeoLite2-` + the type name with an upper-case first letter + `.mmdb` |
| `MaxmindUpdater.DerivedAsnFileNameMismatch` | backend/src/maxmind/updater.rs:96 | The derived ASN name is `GeoLite2-Asn.mmdb`, which differs from the reader's `GeoLite2-ASN.mmdb` |
| `MaxmindUpdater.DerivedFileNamesAgree` | backend/src/maxmind/updater.rs:96 | For City and Country the derived name is the file the reader opens |
| `MaxmindUpdater.TargetFileName` | backend/src/maxmind/updater.rs:96 | The corrected name: the file the reader opens, for every kind |
| `MaxmindUpdater.FirstMatch` | backend/src/maxmind/updater.rs:97-111 | A match found is an index into the walk |
| `MaxmindUpdater.FirstMatchIsFirst` | backend/src/maxmind/updater.rs:97-115 | Finds nothing exactly when every entry is read without error and none matches. Otherwise it stops at the earliest entry that matches or fails |
| `MaxmindUpdater.FirstMatchSkip` | backend/src/maxmind/updater.rs:97-111 | Skipping entries the search passes over shifts what it finds by their number |
| `MaxmindUpdater.Updater.constructor` | backend/src/maxmind/updater.rs:18-29 | A new updater has never updated |
| `MaxmindUpdater.Updater.ExtractDatabase` | backend/src/maxmind/updater.rs:85-118 | Copies the first entry whose name ends with the target and then stops. A walk error before that entry, no match, or a failed copy is an error |
| `MaxmindUpdater.Updater.DownloadAndExtract` | backend/src/maxmind/updater.rs:54-72 | Succeeds exactly when the download succeeds with a 2xx status, the archive holds an entry ending with the name the updater derives (`GeoLite2-Asn.mmdb` for ASN), and the copy succeeds |
| `MaxmindUpdater.Updater.Update` | backend/src/maxmind/updater.rs:31-44 | Runs the directory step, then ASN, City and Country in order, each searching for the derived name, and stops at the first failure. `lastUpdate` is set to now only when all steps succeed |
| `MaxmindUpdater.AsnArchiveMissedByDerivedName` | backend/src/maxmind/updater.rs:96-115 | On an archive laid out like MaxMind's, the derived ASN name finds nothing |
| `MaxmindUpdater.AsnArchiveFoundByTargetName` | backend/src/maxmind/updater.rs:96-115 | On the same archive the corrected name finds `GeoLite2-ASN.mmdb` |
| `MaxmindUpdater.AsnStepFailsOnMaxmindArchive` | backend/src/maxmind/updater.rs:54-115 | Served MaxMind's ASN archive, the ASN step as written fails whatever the copy would do |
| `MaxmindUpdater.AsnStepWithTargetNameOnMaxmindArchive` | backend/src/maxmind/updater.rs:54-115 | With the corrected name the same step succeeds exactly when the copy does |
| `MaxmindUpdater.UpdateStopsAtAsnArchive` | backend/src/maxmind/updater.rs:31-44 | An update served MaxMind's ASN archive fails, runs only the ASN step, and leaves `lastUpdate` as it was |
| `Scheduler.NextLastRun` | backend/src/scheduler/mod.rs:35-45 | The last run never moves back, and changes only when the task was due and succeeded, and then to now |
| `Scheduler.SleepMillis` | backend/src/scheduler/mod.rs:51-55 | The sleep is the larger of the time until the next due time and 1000 ms |
| `Scheduler.SuccessSleepsOnePeriod` | backend/src/scheduler/mod.rs:35-55 | After a successful daily run the loop sleeps one whole day |
| `Scheduler.FailureRetriesAfterOneSecond` | backend/src/scheduler/mod.rs:35-55 | After a failed run the last run is kept, the loop sleeps 1000 ms, and the task is still due on waking |
| `Scheduler.NotDueWakesDue` | backend/src/scheduler/mod.rs:35-55 | A task that is not due does not run, and it is due when it wakes |
| `Scheduler.Scheduler.constructor` | backend/src/scheduler/mod.rs:11-13 | No task is registered |
| `Scheduler.Scheduler.ScheduleDaily` | backend/src/scheduler/mod.rs:15-20 | Appends a task with a period of one day whose last run is the scheduling time; hour and minute are ignored |
| `Scheduler.Scheduler.Tick` | backend/src/scheduler/mod.rs:30-55 | One loop iteration: the task runs exactly when due, only its own last run changes, as `NextLastRun` says, and the sleep is `SleepMillis` |
| `Scheduler.Scheduler.Start` | backend/src/scheduler/mod.rs:22-29 | Starts one loop per registered task, in registration order |
| `RpkiClient.New` | backend/src/utils/rpki_client.rs:65-67 | The base URL with every trailing `/` removed |
| `RpkiClient.NewIgnoresTrailingSlashes` | backend/src/utils/rpki_client.rs:65-67 | Any number of trailing slashes gives the same client, and normalizing twice changes nothing |
| `RpkiClient.QueryUrl` | backend/src/utils/rpki_client.rs:70 | Starts with the base URL and `/api/v1/validity/`, ends with `/` and the prefix, and has room for exactly the ASN between them |
| `RpkiClient.QueryUrlReadsBack` | backend/src/utils/rpki_client.rs:70 | The URL is base + `/api/v1/validity/` + ASN + `/` + prefix; the ASN comes first, so both can be read back even when the prefix holds `/` |
| `RpkiClient.ToValidity` | backend/src/utils/rpki_client.rs:87-103 | Echoes the ASN and prefix, and `reason` is None. With a validated route: its state and the route-level VRPs. Without one: `not-found` and no VRPs |
| `RpkiClient.ValidityIsOriginValidationState` | backend/src/utils/rpki_client.rs:87-103 | When the service reports one of the three RFC 6811 states, the record carries one of them too |
| `RpkiClient.Query` | backend/src/utils/rpki_client.rs:69-104 | Send failure, non-2xx status or decode failure → error; otherwise the mapped validity record |
| `BgpApiClient.HostPrefix` | backend/src/utils/bgp_api_client.rs:35-39 | Appends `/128` exactly when the text contains `:`, `/32` exactly when it does not. The input is a prefix of the result, and the result is exactly the suffix's length longer, so nothing comes between them |
| `BgpApiClient.HostPrefixInjective` | backend/src/utils/bgp_api_client.rs:35-39 | Different inputs give different prefixes |
| `BgpApiClient.HostPrefixAppendsUnconditionally` | backend/src/utils/bgp_api_client.rs:35-39 | The suffix is appended even to an IPv4 text that already has a prefix length |
| `BgpApiClient.HostPrefixAppendsUnconditionallyV6` | backend/src/utils/bgp_api_client.rs:35-39 | The same for an IPv6 text: `/128` follows the given length |
| `BgpApiClient.SearchUrl` | backend/src/utils/bgp_api_client.rs:40 | `https://rest.bgp-api.net/api/v1/prefix/` + the host prefix + `/search` |
| `BgpApiClient.Query` | backend/src/utils/bgp_api_client.rs:33-62 | Send failure, non-2xx status, decode failure, or a missing `result` → error; otherwise the result unchanged |

## Left out

- Network sockets are not modelled. This covers the TCP WHOIS connection, the write, the line-by-line read and the timeouts of `WhoisClient::lookup` and `query_whois`. The parsers receive the reply text; the bgp.tools exchange is a given function.
- The HTML scraping in `fetch_upstreams` depends on the `scraper` DOM and selectors. The model uses a given function from a prefix to an upstream list or an error.
- reqwest requests and serde JSON decoding are not modelled. A reply is a status together with the decoded body or a decode error. Error message texts are not modelled.
- bincode encoding is not modelled: the store gets the encoded length of each key and value, or the encoder's error. File creation, the temporary file, the atomic rename and the read are not modelled either: the file is the `disk` field, and any I/O or decode failure is a `fault` argument.
- `Store.KvStore.LoadFromDisk` does not check the 1 GiB cap, and neither does the source; the model proves the cap holds after a load only when the snapshot itself was within it.
- The store's two clocks, `SystemTime` for expiry and `Instant` for the persist interval, are merged into one `now` in seconds.
- `create_shared`, `start_background_tasks`, the tokio tasks, `RwLock`, `Mutex`, `time::interval` and `sleep` are concurrency. The model covers the calls those tasks make (`LoadFromDisk`, `Persist`, `CleanupExpired`) and, for the scheduler, one loop iteration (`Tick`).
- `is_empty`, `memory_usage_mb` and the floating-point statistics are left out.
- `Scheduler.SleepMillis` and `Scheduler.NextLastRun`: time is in whole milliseconds. The source compares `chrono` durations at nanosecond precision and truncates the sleep with `num_milliseconds()` (backend/src/scheduler/mod.rs:53). So a due test decided by less than one millisecond, and the truncation of the sleep, are not modelled.
- Integer widths are not modelled: `usize` sizes, the `u32` ASN, and the `i64` milliseconds of the scheduler are unbounded integers.
- The MaxMind binary database format is not modelled: each opened database is a given lookup function.
- Parsing and printing addresses and networks (`IpAddr::from_str`, `IpNet::from_str`, `Display`) are given functions in `NetLib`. The network and broadcast addresses are computed from the prefix length.
- gzip, tar, the temporary directory and `walkdir` are not modelled: the unpacked archive is the sequence of entry names the walk yields, with any walk error in place. The copy's failure is a `copyFault` argument. Path joining is not modelled: the copy is identified by its walk index. A failure to create the temporary directory or to unpack the archive (backend/src/maxmind/updater.rs:85-91) has no outcome of its own. It shows up only as a walk error at the start of the walk, which fails the step the same way with a different message.
- `MaxmindUpdater.Updater.Update` and `MaxmindUpdater.Updater.DownloadAndExtract` search for the name as the source derives it, so they keep the failure in the findings below. The corrected name `MaxmindUpdater.TargetFileName` is carried through one download step only, in `MaxmindUpdater.AsnStepWithTargetNameOnMaxmindArchive`; no corrected variant of the whole update is modelled.
- `MaxmindUpdater.DerivedFileName`: the first letter is upper-cased by ASCII rules only. Rust's `to_uppercase` is Unicode-aware, which makes no difference for the three fixed type names.
- The `unmatched_as` and `unmatched_length` lists of the RPKI answer's `RpkiVrpsInfo` are untyped JSON values that nothing reads. `RpkiClient.VrpsInfo` keeps only `matched`.
- Client timeouts and all logging are not modelled: 30 s for RPKI (backend/src/utils/rpki_client.rs:73), 10 s for the BGP API (backend/src/utils/bgp_api_client.rs:43), 30 s for the upstream page (backend/src/utils/bgptools_client.rs:176), 300 s for downloads (backend/src/maxmind/updater.rs:20), and the socket timeouts of the two WHOIS clients (10 s and 15 s). A timeout shows up only as one of the I/O errors the given functions may return.
- `backend/src/utils/ip_cache.rs`, `backend/src/main.rs`, the configuration loading in `backend/src/config/mod.rs` and the HTTP API in `backend/src/api/` are startup wiring, delegation and routing, and are not part of this model.

## Findings

| source | as written | input that shows it | evidently intended | confidence | as-written member | corrected member |
|---|---|---|---|---|---|---|
| backend/src/maxmind/updater.rs:96 | The database file name is derived from the type name by upper-casing its first letter, so `asn` gives `GeoLite2-Asn.mmdb`. The search uses a case-sensitive `ends_with` | A MaxMind ASN archive whose database file is `GeoLite2-ASN.mmdb` (the name the reader opens at backend/src/maxmind/reader.rs:155): no entry matches, extraction fails, `update` stops at its first step, and `last_update` is never set | Search for and write `GeoLite2-ASN.mmdb`, the file the reader loads | high for the name mismatch, which is shown from the code; the archive layout is MaxMind's published one; not executed | `MaxmindUpdater.DerivedFileName`, `MaxmindUpdater.DerivedAsnFileNameMismatch`, `MaxmindUpdater.AsnArchiveMissedByDerivedName`, `MaxmindUpdater.AsnStepFailsOnMaxmindArchive`, `MaxmindUpdater.UpdateStopsAtAsnArchive` | `MaxmindUpdater.TargetFileName`, `MaxmindUpdater.AsnArchiveFoundByTargetName`, `MaxmindUpdater.AsnStepWithTargetNameOnMaxmindArchive` |
