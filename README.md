# nvd2mysqlloader, modelled in Dafny

`nvd2mysqlloader.py` keeps a MySQL copy of the NIST National Vulnerability
Database (NVD). A run goes through the NVD JSON 1.1 feeds `modified` and `recent`,
and with `-a` (`get_all_data`) first one feed per year from 2002 on. For each feed it does four things:
- reads the small `.meta` descriptor NVD publishes beside the feed;
- compares that descriptor's `lastModifiedDate` with the one recorded by the
  feed's latest load in `update_history`;
- when the remote date is greater, decodes the feed and upserts every CVE
  item into the `nvd` and `nvd_json` tables;
- returns the number of items it loaded.

The model covers the logic inside that glue, one module per concern:

| module | file | what it models |
|---|---|---|
| `Wrappers` | wrappers.dfy | `Option`, `Result` and the Python exceptions the core raises (`KeyError`, `TypeError`, `AttributeError`, `IndexError`) |
| `PyStr` | pystr.dfy | `str.lstrip`/`rstrip` with character-set semantics; `split` on one character; `sep.join`; `str.replace` and `re.sub` with a literal pattern; `str()` of an int |
| `StrOrder` | strorder.dfy | Python's `<` on `str`: code-point lexicographic order, with its laws |
| `Json` | json.dfy | a decoded JSON value; `v[key]`, `v.keys()`, `for x in v`, `x == True` and `','.join(...)`, each raising where Python raises |
| `FeedMeta` | meta.dfy | `get_file_lastModifiedDate` on the descriptor text: `json.zip`→`meta` URL, line split, per-field `lstrip(tag).rstrip('\r')` |
| `Freshness` | freshness.dfy | `update_history` as a sequence of rows; the "latest row" query; the download decision with its sentinel date |
| `CveExtract` | extract.dfy | `get_vulnerable_software_list` and `get_data`, as methods with the source's loops, each proved equal to a function that states the result |
| `Feeds` | feeds.dfy | the modifier list of `initial_setup` and the `year` templating of `get_and_load` |
| `Tables` | tables.dfy | `nvd` / `nvd_json`: rows with auto-increment ids, `select id ... limit 1`, `insert`, `replace into (id, ...)` |
| `Loader` | loader.dfy | `insert_data_into_db` and `get_and_load` as methods of a `Database` class. The class holds the committed state and this connection's uncommitted one. |

Behaviour of the program worth knowing:
- **Sentinel date.** A feed with no history is compared against the sentinel
  `'2019-00-01T00:00:00-04:00'` (`nvd2mysqlloader.py:89`). It is not
  downloaded unconditionally. A feed dated before 2019 that was never loaded
  is skipped (`Freshness.NoHistoryOldFeedIsSkipped`).
- **String comparison.** Dates are compared as Python strings, not as
  timestamps.
- **History row before the CVE loop.** The `update_history` row is inserted
  before the CVE loop (`nvd2mysqlloader.py:441-443`).
  - The connection has autocommit off, so that row becomes durable only with
    the first per-item commit, or with the final commit when the feed has no
    items.
  - An exception on the first item discards it, and the feed stays stale
    (`Loader.FirstItemCrashChangesNothing`).
  - An exception on a later item leaves it committed. The partly loaded feed
    then looks fresh until NVD publishes a newer date
    (`Loader.CommittedFeedLooksFresh`).
- **get_data errors end the run.** A CVE item missing a mandatory field makes
  `get_data` raise outside any `try`, which ends the whole run. It does not
  abort just that record.

The descriptor parser strips each field's tag as a *set of characters*. A
SHA-256 starting with `2`, `5`, `6` or `a` therefore loses those leading
characters. `FeedMeta.ExampleShaLosesLeadingSix` shows this on the example
in the source's own comment. The round trip `FeedMeta.ParseRenderRoundTrip`
holds exactly for fields that do not start with one of their tag's
characters.

## Model

| member | source | states |
|---|---|---|
| PyStr.LStripSpec | nvd2mysqlloader.py:59-63 | `lstrip(chars)` removes the longest prefix made only of characters in `chars`, and nothing else: the result is a suffix of the input that is empty or starts outside `chars` |
| PyStr.RStripSpec | nvd2mysqlloader.py:59-63 | `rstrip('\r')` removes every trailing character in the set and nothing else: the result is a prefix that is empty or ends outside the set |
| PyStr.Split | nvd2mysqlloader.py:58 | `split('\n')` yields one more piece than there are separators |
| PyStr.SplitPiecesLackSep | nvd2mysqlloader.py:58 | no piece of a split holds the separator |
| PyStr.JoinSplit | nvd2mysqlloader.py:58 | joining the pieces of a split with the separator gives back the text |
| PyStr.SplitJoin | nvd2mysqlloader.py:190 | splitting a join recovers the parts when no part holds the separator |
| PyStr.ReplaceSkips | nvd2mysqlloader.py:519-520 | text in which no occurrence of the pattern can start is copied through unchanged |
| PyStr.ReplaceAtFront | nvd2mysqlloader.py:519-520 | an occurrence at the front is replaced and scanning resumes after it |
| PyStr.ReplaceTemplate | nvd2mysqlloader.py:519-520 | a template with a single occurrence, and no other place where one could start, becomes prefix + replacement + suffix |
| PyStr.Decimal | nvd2mysqlloader.py:518 | `str(n)` of a non-negative int is a non-empty string of decimal digits |
| PyStr.DecimalRoundTrip | nvd2mysqlloader.py:518 | `int(str(n)) == n` |
| StrOrder.Irreflexive | nvd2mysqlloader.py:91 | no string is below itself |
| StrOrder.Transitive | nvd2mysqlloader.py:91 | the order on strings is transitive |
| StrOrder.Trichotomy | nvd2mysqlloader.py:91 | exactly one of `a < b`, `a == b`, `b < a` holds |
| StrOrder.PrefixIsLess | nvd2mysqlloader.py:91 | a proper prefix is smaller |
| Json.DistinctNamesSpec | nvd2mysqlloader.py:181 | a dict's keys are exactly the member names of the object, each listed once |
| Json.LastValueSpec | nvd2mysqlloader.py:216-218 | a key has a value exactly when some member carries it, and the value is that of the last member carrying it (a later duplicate overwrites an earlier one, as in a Python dict) |
| Json.Lookup | nvd2mysqlloader.py:216-218 | `v[key]` raises KeyError on a dict without the key and TypeError on anything that is not a dict; it succeeds only on a dict |
| Json.LookupFindsKeys | nvd2mysqlloader.py:181-183 | a dict lookup succeeds exactly for the keys the dict lists |
| Json.PathAppend | nvd2mysqlloader.py:234 | following `keys + more` is following `keys`, then `more` from where that led; the first failure wins |
| Json.Keys | nvd2mysqlloader.py:181 | `v.keys()` succeeds exactly on a dict, and raises AttributeError otherwise |
| Json.KeysLookup | nvd2mysqlloader.py:181-183 | every key listed by `keys()` looks up successfully, and no key is listed twice |
| Json.Iterate | nvd2mysqlloader.py:180 | iteration raises exactly on null, booleans and numbers; a list yields its items; only a list can yield dicts |
| Json.JoinStrings | nvd2mysqlloader.py:190 | `','.join(values)` succeeds exactly when every value is a string, and raises TypeError otherwise |
| Json.JoinStringsSplits | nvd2mysqlloader.py:242 | a comma-join of comma-free strings splits back into exactly those strings |
| FeedMeta.ParseMeta | nvd2mysqlloader.py:58-64 | the descriptor parses exactly when it has at least five lines (four newlines); otherwise IndexError |
| FeedMeta.LStripTagThenValue | nvd2mysqlloader.py:59-63 | stripping a tag's characters from `tag + value` is stripping them from `value` alone |
| FeedMeta.FieldOfLine | nvd2mysqlloader.py:59-63 | a CR-terminated `tag + value` line reads back as `value` with the tag's characters stripped from its front |
| FeedMeta.ParseRendered | nvd2mysqlloader.py:56-64 | parsing a descriptor in NVD's format gives back each of the five fields, in order, minus its leading tag characters |
| FeedMeta.ParseRenderRoundTrip | nvd2mysqlloader.py:56-64 | when no field starts with a character of its tag, parsing recovers the descriptor exactly |
| FeedMeta.ExampleShaLosesLeadingSix | nvd2mysqlloader.py:54-63 | the example SHA-256 `64310FE...` is read back as `4310FE...` |
| Freshness.LatestRowIsLatest | nvd2mysqlloader.py:72-85 | the latest-row query finds a row of the feed that no row of the feed follows in download date, and finds none exactly when the feed has no row |
| Freshness.LatestRowOtherFeed | nvd2mysqlloader.py:72 | a row appended for another feed does not change a feed's latest row |
| Freshness.LatestRowAfterAppend | nvd2mysqlloader.py:72 | a row appended with a download date not below the feed's earlier ones becomes its latest row |
| Freshness.DownloadDecision | nvd2mysqlloader.py:71-94 | the decision has a value exactly when the descriptor parses; otherwise the descriptor's IndexError escapes |
| Freshness.SameDateIsFresh | nvd2mysqlloader.py:91-94 | equal dates never trigger a download |
| Freshness.OlderRemoteIsFresh | nvd2mysqlloader.py:91-94 | a remote date below the stored one never triggers a download |
| Freshness.DecisionIsTrichotomous | nvd2mysqlloader.py:91-94 | a download happens exactly when the dates differ and the remote one is not the smaller |
| Freshness.LaterRemoteStaysStale | nvd2mysqlloader.py:91-94 | if a remote date triggers a download, every later remote date does too |
| Freshness.NoHistoryUsesSentinel | nvd2mysqlloader.py:84-91 | with no history row for the feed, the decision is `sentinel < remote` |
| Freshness.NoHistoryOldFeedIsSkipped | nvd2mysqlloader.py:89-94 | a never-loaded feed dated before the sentinel is not downloaded |
| Freshness.NoHistoryExampleIsLoaded | nvd2mysqlloader.py:50 | a never-loaded feed dated like the source's example is downloaded |
| CveExtract.WalkRaisedStays | nvd2mysqlloader.py:182-188 | once an entry of a key's list raises, the entries after it change nothing |
| CveExtract.WalkConcat | nvd2mysqlloader.py:183-185 | walking two runs of entries is walking the first, then the second unless the first raised |
| CveExtract.WalkRaises | nvd2mysqlloader.py:182-188 | a key's walk stops early exactly when one of its entries raises |
| CveExtract.WalkCollects | nvd2mysqlloader.py:183-185 | a key's walk yields exactly the `cpe23Uri` of vulnerable dict entries that no raising entry precedes |
| CveExtract.ChildrenNotDescended | nvd2mysqlloader.py:181-188 | a list starting with a dict without `vulnerable` (a `children` node) contributes nothing: nested nodes are not visited |
| CveExtract.KeysUrisConcat | nvd2mysqlloader.py:181-188 | the keys of a node contribute in order, each independently of the others |
| CveExtract.NodesErrStays | nvd2mysqlloader.py:180-181 | once a node raises, the later nodes change nothing |
| CveExtract.VulnerableSoftwareSplits | nvd2mysqlloader.py:179-190 | the result is the comma-join of the collected URIs in traversal order, and splits back into them |
| CveExtract.GetVulnerableSoftwareList | nvd2mysqlloader.py:168-190 | the nested loops compute the specified list, or the exception that escapes |
| CveExtract.CollectKeys | nvd2mysqlloader.py:181-188 | the loop over `node.keys()` collects each key's URIs, swallowing each key's failure |
| CveExtract.CollectEntries | nvd2mysqlloader.py:182-188 | the loop over one key's list collects URIs until an entry raises |
| CveExtract.DescriptionErrStays | nvd2mysqlloader.py:220-221 | once a description blob fails, the later blobs change nothing |
| CveExtract.DescriptionConcat | nvd2mysqlloader.py:219-221 | the description of two runs of blobs is the first's followed by the second's, with no separator |
| CveExtract.DescriptionOkIff | nvd2mysqlloader.py:220-221 | the description succeeds exactly when every blob has a string `value` |
| CveExtract.ReferenceUrlsErrStays | nvd2mysqlloader.py:240-241 | once a reference lacks `url`, the later references change nothing |
| CveExtract.ReferenceUrlsSpec | nvd2mysqlloader.py:238-241 | the URLs are read exactly when every reference has one, and they are those URLs in order |
| CveExtract.GetData | nvd2mysqlloader.py:193-269 | the method computes the record the specification function states, or the exception that escapes |
| CveExtract.GetReferences | nvd2mysqlloader.py:237-244 | the references `try` yields the joined URLs, or `''` on any failure |
| CveExtract.OnlyMandatoryFieldsFail | nvd2mysqlloader.py:215-221 | get_data raises exactly when the id, a date or the description cannot be read |
| CveExtract.BadBlobFails | nvd2mysqlloader.py:220-221 | one blob without a string `value` makes get_data raise |
| CveExtract.RecordKeepsMandatoryValues | nvd2mysqlloader.py:215-221 | the id, both dates and the item reach the record unchanged, and the summary is the description |
| CveExtract.MissingCvssDefaults | nvd2mysqlloader.py:233-268 | without `impact.baseMetricV2.cvssV2` the score is 0.0 and the six other CVSS columns are `''` |
| CveExtract.CvssFieldsIndependent | nvd2mysqlloader.py:245-268 | with `cvssV2` present, each CVSS column is read on its own, and only a missing one takes its default |
| CveExtract.MissingConfigurationDefaults | nvd2mysqlloader.py:222-232 | without `configurations` the configuration is `''` and the vulnerable list is `[]` |
| CveExtract.ConfigurationSoftware | nvd2mysqlloader.py:226-232 | with `configurations`, the vulnerable list is get_vulnerable_software_list's result, or `[]` when that raises |
| CveExtract.ReferencesAllOrNothing | nvd2mysqlloader.py:237-244 | one reference without `url` empties the whole `urls` column |
| CveExtract.ReferencesSplit | nvd2mysqlloader.py:237-244 | with every reference holding a comma-free string `url`, the column splits back into those URLs in order |
| Feeds.InitialModifiers | nvd2mysqlloader.py:154-160 | the list is the years 2002..thisyear ascending, then `modified` and `recent`; without the flag it is exactly `modified`, `recent` |
| Feeds.TemplateShapes | nvd2mysqlloader.py:519-520 | replacing `year` in the URL and file templates puts the modifier between their fixed parts |
| Feeds.DistinctTextsDistinctFeeds | nvd2mysqlloader.py:518-520 | modifiers that print differently get different URLs and different files |
| Feeds.KnownTextsDiffer | nvd2mysqlloader.py:518 | different years or labels print differently |
| Feeds.ModifierTextsDistinct | nvd2mysqlloader.py:154-160 | the modifiers of a list print pairwise differently |
| Feeds.FeedsDistinct | nvd2mysqlloader.py:517-520 | every feed of a modifier list has its own URL and its own file |
| Feeds.Example2019 | nvd2mysqlloader.py:163 | the 2019 feed is `.../nvdcve-1.1-2019.json.zip` |
| Feeds.MetaBeside | nvd2mysqlloader.py:56 | in a URL whose only other `j` starts `json/`, the replacement touches the `.json.zip` suffix alone |
| Feeds.FeedMetaUrl | nvd2mysqlloader.py:56 | the descriptor of a listed feed is the feed URL with `.json.zip` turned into `.meta` |
| Tables.Find | nvd2mysqlloader.py:456-457 | the query finds the first row with the key; it finds none exactly when no row has it |
| Tables.FindAt | nvd2mysqlloader.py:456-457 | the first row holding a key is the one the query reports |
| Tables.ReplaceAt | nvd2mysqlloader.py:463 | in a valid table, `replace into` by an existing id overwrites that one row in place |
| Tables.UpsertValid | nvd2mysqlloader.py:456-464 | a write keeps ids ascending and below the counter, and keys unique |
| Tables.UpsertRow | nvd2mysqlloader.py:456-464 | after a write the key's row holds the new columns, under its old id when it had one and a fresh id otherwise |
| Tables.UpsertOthers | nvd2mysqlloader.py:456-464 | a write changes nothing for any other key |
| Tables.UpsertSize | nvd2mysqlloader.py:456-464 | a new key adds exactly one row; a known key adds none |
| Tables.UpsertIdempotent | nvd2mysqlloader.py:456-464 | writing the same item twice leaves the table as writing it once |
| Loader.Database.Commit | nvd2mysqlloader.py:460 | a commit makes this connection's writes the committed state |
| Loader.Database.Rollback | nvd2mysqlloader.py:454 | an exception ending the program discards what was not committed |
| Loader.Database.InsertDataIntoDb | nvd2mysqlloader.py:411-489 | the method leaves the committed state and outcome the specification function states, with nothing left uncommitted |
| Loader.Database.GetAndLoad | nvd2mysqlloader.py:508-531 | the method computes the outcome and committed state of the specification loop over the templated URLs |
| Loader.ApplyItemsErrStays | nvd2mysqlloader.py:452-454 | once get_data raises, the later items change nothing |
| Loader.ApplyItemsSpec | nvd2mysqlloader.py:452-464 | items are stored in order until the first whose get_data raises, with its exception; the CVE loop never touches update_history |
| Loader.ApplyItemsValid | nvd2mysqlloader.py:452-482 | storing keeps both tables valid: ascending ids, one row per CVE id |
| Loader.ApplyItemsOthers | nvd2mysqlloader.py:452-482 | rows of CVE ids no stored item carries are unchanged |
| Loader.ApplyItemsKeepsIds | nvd2mysqlloader.py:456-481 | a CVE id that had a row keeps that row's id in both tables, however often it is stored |
| Loader.ApplyItemsConcat | nvd2mysqlloader.py:452 | storing a list is storing its first part, then the rest unless the first part stopped |
| Loader.ApplyItemsSplitAt | nvd2mysqlloader.py:452 | when every item is stored, so is every prefix, and the rest is stored on top of it |
| Loader.LastStoredRow | nvd2mysqlloader.py:454-482 | after an item is stored, both tables hold its columns under its CVE id |
| Loader.LastItemWins | nvd2mysqlloader.py:452-482 | a CVE id's row holds the columns of the last item carrying that id: later duplicates overwrite earlier ones |
| Loader.InsertDataLoaded | nvd2mysqlloader.py:448-489 | a call returns a count exactly when the descriptor parses, `CVE_Items` iterates and every item is stored; the count is the number of items, duplicates included |
| Loader.InsertDataHistory | nvd2mysqlloader.py:441-460 | update_history gains exactly the one row for the URL when the first commit happens, and is unchanged otherwise |
| Loader.InsertDataValid | nvd2mysqlloader.py:452-482 | a call keeps both tables valid |
| Loader.CommittedFeedLooksFresh | nvd2mysqlloader.py:441-443 | once the history row is committed, the feed is judged fresh for the date it recorded, even when a later item crashed the load |
| Loader.FirstItemCrashChangesNothing | nvd2mysqlloader.py:441-454 | an exception on the first item leaves the committed state as it was |
| Loader.ApplyItemsFirstFails | nvd2mysqlloader.py:452-454 | when the first item raises, nothing is stored and the loop stops with that exception |
| Loader.LatestRowIgnoresOthers | nvd2mysqlloader.py:72 | rows for other feeds appended to the history do not change a feed's latest row |
| Loader.DecisionAgainstBase | nvd2mysqlloader.py:521 | the decision for a feed ignores rows other feeds appended during the run |
| Loader.InsertDataOwnRows | nvd2mysqlloader.py:441-443 | a load only appends history rows for its own URL |
| Loader.ExtendsWithOwnRows | nvd2mysqlloader.py:517-525 | rows appended by one feed's load leave the later feeds' history as it was |
| Loader.StaleFeedLoaded | nvd2mysqlloader.py:521-525 | a stale feed in a run that ends with a count was loaded in full: all its items counted, rows for its own URL only |
| Loader.LoadFeedsCountFrom | nvd2mysqlloader.py:516-531 | from any feed on, a run that ends with a count adds the items of the feeds that were stale at the start |
| Loader.VisitFeedCount | nvd2mysqlloader.py:517-525 | one feed's turn adds its items exactly when it was stale at the start |
| Loader.RunCountsStaleFeeds | nvd2mysqlloader.py:516-531 | get_and_load returns the sum of the item counts of exactly the feeds that were stale when the run began |

## Left out

- HTTP (`requests.get`), the zip file, reading, writing and removing files, and directory creation. The descriptor text seen by the freshness check, the one read again by `insert_data_into_db`, and the decoded feed document are inputs (`Loader.FeedSource`).
- `json.loads` of the feed file. The decoded document is an input. Its failures (bad UTF-8, bad JSON) are not modelled.
- The clock (`datetime.now()`), the config file and `cli`/`sys.argv`. The year, the download timestamp and the all-data flag are parameters.
- `setup_database` (DDL, indexes, `ALTER TABLE`), `cve_tally`, `main`, syslog and `print`.
- MySQL connection errors and every error in a statement: the `try`/`except` around the history insert, and the `exit()` after a failed write. The model's writes always succeed. Also left out: the truncation to `varchar` widths, and MySQL's `utf8mb4_unicode_ci` collation (`nvd2mysqlloader.py:78`, `:277`), which is case-insensitive and ignores trailing spaces. The model compares strings exactly. This covers `cve_id` equality, and also the history lookup `where download_name = %s order by downloadedDate desc` (`nvd2mysqlloader.py:72`), which `Freshness.LatestRow` models with exact equality and `StrOrder.Less`. The program writes only the lower-case feed URLs built from its own templates as `download_name`, and only `isoformat()` timestamps as `downloadedDate` (`nvd2mysqlloader.py:439`). Those timestamps are digits and punctuation, with a `T` at the same place in each, so the collation would give the same matches and the same order as exact comparison.
- `json.dumps` of the item and of `configurations`. The columns keep the JSON value the text would serialise. The numeric `baseScore` is an opaque literal, and `0.0` is its default.
- Loader.Database.GetAndLoad: the file name is templated in the source but used only for file I/O, so the model does not compute it. `Feeds.TemplateShapes` states what it would be.
- Freshness.DownloadDecision: the `except` around the string comparison is unreachable for two strings and is not modelled. So is `str()` of a `NULL` date column, because the model's history holds strings only.
- Freshness.LatestRow: `order by downloadedDate desc limit 1` leaves ties unordered. The model picks the row appended last among equal dates.
- CveExtract.CveRecordOf: `x == True` also holds for the float `1.0`, which the model does not represent as a number. The Python list `[]` passed as a column value is kept as a distinct `EmptyList` value; what the driver does with it is not modelled.
- Feeds.Substitute: `re.sub` treats backslashes in the replacement specially. Modifiers never hold one, so it is modelled as a plain replace.
- `example.py` is not part of this model: a standalone script with hard-coded paths and no logic of its own.
