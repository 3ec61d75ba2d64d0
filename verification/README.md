# Animal call audio downloader — a Dafny model

`macaulay_downloader/Download_Audio.py` builds a local archive of bird-call
recordings. It reads the eBird code table, asks GBIF for each species' class,
order and family, and derives the folder
`/mnt/d/Mints/<class>/<order>/<family>/<species>` from them. It pages through
the Macaulay Library search and collects audio URLs; the download step there
is commented out. It then asks Xeno-Canto for the species' recordings. Each
recording goes through the download unit `download_audio`, which:

- skips a file that already exists;
- fetches the audio and converts it to WAV, keeping the raw bytes when a
  non-MP3 body cannot be decoded;
- writes a JSON sidecar holding the metadata;
- appends one row to the DuckDB table `metadata`.

The model has one module per part of the script:

| module | file | part of the script |
|---|---|---|
| `Common` | `common.dfy` | Optional values, bytes, and `startswith`/`endswith`. |
| `Sanitizer` | `sanitizer.dfy` | `sanitize`. |
| `Paths` | `paths.dfy` | `os.path.join` on POSIX, and the sidecar name `filepath.rsplit(".", 1)[0] + ".json"`. |
| `Taxonomy` | `taxonomy.dfy` | The parsing loop of `load_taxonomy`, the defaults of `get_taxonomy_from_gbif`, and the species folder. |
| `Store` | `store.dfy` | The archive as a class `Archive`. Its fields are the files and the table rows, plus a ghost record of the URLs fetched. `store_metadata` and `download_audio` are its methods. `StoreMetadata` appends exactly one row. `DownloadAudio` is proved equal to the pure specification `Download`, and the lemmas about `Download` state what the unit promises. |
| `Macaulay` | `macaulay.dfy` | The pagination loop of `fetch_macaulay` exactly as written, and the loop as evidently intended (see Findings). |
| `XenoCanto` | `xenocanto.dfy` | The candidate loop of `fetch_xeno_canto`: which recordings become download calls, with which file name, URL and metadata. |
| `Orchestrator` | `orchestrator.dfy` | The species walk of `main`: folder derivation, then the two fetches for each species in table order. |

The outside world is given as data:

- HTTP replies are maps from URL, or from scientific name, to the parsed
  reply. A missing key means the request or its JSON failed. The Macaulay
  replies are a map from taxon code; a code missing from it gets empty
  pages.
- The Macaulay endpoint is a sequence of page replies.
- pydub's two decoders are maps from body to WAV bytes. A missing body means
  the decoder raises.
- Unwritable paths are a set.

The code table `load_taxonomy` downloads is passed to `Run`; `None` means
that download failed. That failure is fatal in the script, before any
species is visited.

## Model

| member | source | states |
|---|---|---|
| `Sanitizer.ReplaceSpaces` | macaulay_downloader/Download_Audio.py:68 | Same length; each space becomes `_`, every other character is kept. |
| `Sanitizer.StripIllegal` | macaulay_downloader/Download_Audio.py:68 | Never longer; every kept character comes from the input and is not one of `\ / * ? : " < > \|`. |
| `Sanitizer.Sanitize` | macaulay_downloader/Download_Audio.py:67-68 | The result is never longer than the name and holds no space and no illegal character, so never a path separator. |
| `Sanitizer.ReplaceSpacesConcat` | macaulay_downloader/Download_Audio.py:68 | Replacing spaces distributes over concatenation. |
| `Sanitizer.StripIllegalConcat` | macaulay_downloader/Download_Audio.py:68 | Deleting illegal characters distributes over concatenation. |
| `Sanitizer.SanitizeConcat` | macaulay_downloader/Download_Audio.py:67-68 | Sanitising works character by character: it distributes over concatenation. |
| `Sanitizer.SanitizeOneChar` | macaulay_downloader/Download_Audio.py:67-68 | A space becomes `_`, an illegal character disappears, and any other character stays. |
| `Sanitizer.SanitizeCharwise` | macaulay_downloader/Download_Audio.py:67-68 | The sanitised name is the first character's image followed by the sanitised rest. |
| `Sanitizer.ReplaceSpacesFixes` | macaulay_downloader/Download_Audio.py:68 | A string without spaces is unchanged by the replacement. |
| `Sanitizer.StripIllegalFixes` | macaulay_downloader/Download_Audio.py:68 | A string without illegal characters is unchanged by the deletion. |
| `Sanitizer.SanitizeFixes` | macaulay_downloader/Download_Audio.py:67-68 | A name made only of safe characters passes through unchanged. |
| `Sanitizer.SanitizeIdempotent` | macaulay_downloader/Download_Audio.py:67-68 | Sanitising twice equals sanitising once. |
| `Paths.LastIndexOf` | macaulay_downloader/Download_Audio.py:113 | The index found holds the character and no later index does; -1 means the character does not occur. |
| `Paths.SidecarPath` | macaulay_downloader/Download_Audio.py:113 | The sidecar path ends in `.json` and is at most five characters longer than the audio path. |
| `Paths.SidecarReplacesExtension` | macaulay_downloader/Download_Audio.py:113 | A path whose last `.` is followed by an extension with no `.` in it gets that extension replaced by `.json`, whatever dots come before. |
| `Paths.SidecarWithoutDot` | macaulay_downloader/Download_Audio.py:113 | A path with no `.` at all gets `.json` appended. |
| `Paths.JoinInside` | macaulay_downloader/Download_Audio.py:112 | Joining a relative name gives the folder, a separator when one is missing, then the name; the result starts with the folder and ends with the name. |
| `Paths.SidecarOfWav` | macaulay_downloader/Download_Audio.py:113 | The instance every Xeno-Canto call builds: the sidecar of `base.wav` is `base.json`, whatever dots `base` holds, so it is never the audio path. |
| `Taxonomy.SplitFirst` | macaulay_downloader/Download_Audio.py:39 | Rejoining the two parts with `_` gives back the value; the left part holds no `_`. |
| `Taxonomy.SplitFirstUnique` | macaulay_downloader/Download_Audio.py:39 | The split is at the first `_`: it is the only split whose left part has no `_`, so the common name keeps any later underscores. |
| `Taxonomy.ParseTable` | macaulay_downloader/Download_Audio.py:36-40 | The table never has more rows than the JSON object has pairs. |
| `Taxonomy.LoadTaxonomy` | macaulay_downloader/Download_Audio.py:36-40 | The loop's rows equal `ParseTable` of the pairs, and no scientific name holds `_`. |
| `Taxonomy.ParseTableConcat` | macaulay_downloader/Download_Audio.py:37-40 | Parsing keeps input order: the rows of a concatenation are the concatenation of the rows. |
| `Taxonomy.ParseTableSingle` | macaulay_downloader/Download_Audio.py:38-40 | One pair yields one row exactly when its value holds `_`, and no row otherwise. |
| `Taxonomy.ParseTableSound` | macaulay_downloader/Download_Audio.py:37-40 | Every row comes from a pair whose value is `scientific + "_" + common`; the scientific name has no `_`. |
| `Taxonomy.ParseTableComplete` | macaulay_downloader/Download_Audio.py:37-40 | Every pair whose value holds `_` yields its row. |
| `Taxonomy.Classify` | macaulay_downloader/Download_Audio.py:72-87 | A failed lookup gives `Unknown` for all three ranks. Otherwise each rank is the reply's value when the key is present (JSON `null` stays `None`) and `Unknown` when the key is absent. |
| `Taxonomy.SpeciesSegments` | macaulay_downloader/Download_Audio.py:258-262 | Five segments: the root, then four sanitised segments (the last one the sanitised scientific name), none holding an illegal character. |
| `Taxonomy.FailedClassificationFolder` | macaulay_downloader/Download_Audio.py:85-87 | A failed GBIF lookup files the species under `root/Unknown/Unknown/Unknown/<sanitised name>`. |
| `Taxonomy.SanitizeUnknown` | macaulay_downloader/Download_Audio.py:81-87 | The default rank `Unknown` is unchanged by sanitising. |
| `Taxonomy.ClassifiedFolder` | macaulay_downloader/Download_Audio.py:80-84 | After a successful GBIF lookup, the class, order and family segments are the sanitised `str()` of the reply's values (`None` for a JSON `null`), each `Unknown` when its key is missing. The last segment is the sanitised scientific name. |
| `Taxonomy.SegmentsHaveNoSeparator` | macaulay_downloader/Download_Audio.py:258-262 | No segment below the root holds `/`, so no segment adds a level. A segment may still be empty or `..`. |
| `Store.RowOfColumns` | macaulay_downloader/Download_Audio.py:91-106 | The row binds, in declared column order, `meta.get` of each of the eleven columns, and NULL for an absent key. |
| `Store.AudioBytes` | macaulay_downloader/Download_Audio.py:124-136 | An `.mp3` URL writes exactly when the body decodes and the path is writable, and it writes the decoder's WAV. Any other URL writes whenever the path is writable: the generic decoder's WAV when it decodes, the raw body otherwise. |
| `Store.DownloadSkipsExisting` | macaulay_downloader/Download_Audio.py:112-119 | An existing audio path gives `True` with nothing fetched, written or stored. Otherwise the URL is fetched exactly once. |
| `Store.DownloadSucceeds` | macaulay_downloader/Download_Audio.py:138-144 | The success path: a new path, a successful fetch, audio written and a writable sidecar give `True`. The audio file and the sidecar holding the metadata are written, exactly one row `RowOf(meta)` is appended, and the URL is fetched once. |
| `Store.DownloadFailuresWriteNothing` | macaulay_downloader/Download_Audio.py:118-136 | A failed fetch, an `.mp3` body that does not decode, or an audio path that cannot be written gives `False` with no file written and no row added; the URL is still recorded as fetched. |
| `Store.DownloadUnwritableAudio` | macaulay_downloader/Download_Audio.py:127-136 | An audio path that cannot be written gives `False` with no file written and no row added, whatever the URL and the body. |
| `Store.DownloadRawFallback` | macaulay_downloader/Download_Audio.py:130-136 | When the audio path is writable, an undecodable non-MP3 body leaves a file at the audio path, and when the sidecar path differs from the audio path that file holds the body verbatim. |
| `Store.DownloadRowLast` | macaulay_downloader/Download_Audio.py:138-147 | The table grows by at most this call's row. The row is added only after the audio and the sidecar holding the metadata are written. `True` means the file existed or the row was added. |
| `Store.DownloadFrame` | macaulay_downloader/Download_Audio.py:110-147 | No file is removed, and only the audio path and the sidecar path can change. |
| `Store.DownloadNoUndo` | macaulay_downloader/Download_Audio.py:139-147 | When the sidecar cannot be written, the call gives `False`, adds no row, and the file map is the old one plus the written audio file; a file already at the sidecar path is left as it was. |
| `Store.DownloadRepeat` | macaulay_downloader/Download_Audio.py:114-116 | After a successful download, repeating the same call is a skip that changes nothing. |
| `Store.Archive.Open` | macaulay_downloader/Download_Audio.py:47-63 | Opening the database keeps the rows already in it (`CREATE TABLE IF NOT EXISTS`), and no URL has been fetched. |
| `Store.Archive.StoreMetadata` | macaulay_downloader/Download_Audio.py:91-106 | Exactly one row, `RowOf(meta)`, is appended; files are unchanged. |
| `Store.Archive.DownloadAudio` | macaulay_downloader/Download_Audio.py:110-147 | The return value and the new files, rows and fetches equal `Download` of the old state, so every `Download` lemma holds of the method. |
| `Macaulay.PageUrls` | macaulay_downloader/Download_Audio.py:174-177 | One URL per item, in order: entry `i` is `audioUrl` of item `i` unless that is missing or empty, in which case it is `mediaUrl`. |
| `Macaulay.CollectPage` | macaulay_downloader/Download_Audio.py:174-177 | The inner loop yields `audioUrl or mediaUrl` of each item, in order. |
| `Macaulay.FetchMacaulay` | macaulay_downloader/Download_Audio.py:155-202 | The returned value equals `ResultFrom` from page 1 with no list bound. The requests made equal `PagesFrom` from page 1. |
| `Macaulay.CrawlPages` | macaulay_downloader/Download_Audio.py:158-178 | The requests are consecutive pages, fewer than the limit allows, and every one but the last got a non-empty page. |
| `Macaulay.CrawlStep` | macaulay_downloader/Download_Audio.py:170-178 | After a non-empty page, the crawl continues at the next page with `url_list` holding only that page's URLs. |
| `Macaulay.CrawlStops` | macaulay_downloader/Download_Audio.py:158-171 | At the limit nothing more is requested and `url_list` is returned as it stands. A failed or empty page is the last request: a failed one gives `None`, an empty one the current `url_list`. |
| `Macaulay.CrawlEndsFailed` | macaulay_downloader/Download_Audio.py:166-168 | A crawl whose last request failed returns `None`. |
| `Macaulay.CrawlEndsEmpty` | macaulay_downloader/Download_Audio.py:170-171 | A crawl stopped by an empty page returns the previous page's URLs, or the prior `url_list` when the empty page came first. |
| `Macaulay.CrawlEndsFull` | macaulay_downloader/Download_Audio.py:158 | A crawl whose last page was full ran to page 33, and returns that page's URLs. |
| `Macaulay.FetchMacaulayPages` | macaulay_downloader/Download_Audio.py:155-178 | Pages 1, 2, 3, … are requested: at most 33 requests, and every one but the last got a non-empty page. |
| `Macaulay.FetchMacaulayNone` | macaulay_downloader/Download_Audio.py:170-202 | The result is `None` exactly when page 1 is empty or some request failed (both directions). |
| `Macaulay.FetchMacaulayLastPage` | macaulay_downloader/Download_Audio.py:174-199 | A returned list holds the URLs of the last non-empty page alone. |
| `Macaulay.FetchMacaulayIntended` | macaulay_downloader/Download_Audio.py:155-202 | The corrected loop (list created once, extended per page) returns `CollectedFrom` from page 1 and makes the same requests. |
| `Macaulay.UrlsOfPagesCons` | macaulay_downloader/Download_Audio.py:174-177 | The URLs of a run of pages are the first page's URLs followed by the rest. |
| `Macaulay.CollectStep` | macaulay_downloader/Download_Audio.py:170-178 | In the corrected loop, a full page appends its URLs to the list, and the crawl continues at the next page. |
| `Macaulay.CollectedFails` | macaulay_downloader/Download_Audio.py:166-171 | The corrected loop returns `None` exactly when its last request failed. |
| `Macaulay.CollectedAll` | macaulay_downloader/Download_Audio.py:174-199 | The corrected loop returns every URL of every page it requested, in order. |
| `Macaulay.IntendedFetchMacaulay` | macaulay_downloader/Download_Audio.py:198-199 | From page 1, the corrected result is `None` only on a failed last request. Otherwise it holds all URLs, and an empty first page gives an empty list. |
| `Macaulay.OnlyLastPageReturned` | macaulay_downloader/Download_Audio.py:174 | For three pages of two results each, pages 1-4 are requested. As written, two URLs come back; the corrected loop returns six. |
| `Macaulay.EmptyFirstPageGivesNone` | macaulay_downloader/Download_Audio.py:170-171 | As written, an empty first page gives `None`; the corrected loop gives an empty list. |
| `XenoCanto.WithFile` | macaulay_downloader/Download_Audio.py:218-220 | Exactly the recordings with a non-empty `file` are kept: every kept one has a file and comes from the reply, and every recording with a file is kept. |
| `XenoCanto.WithFileConcat` | macaulay_downloader/Download_Audio.py:217-220 | Filtering keeps reply order: filtering a concatenation gives the filtered parts, one after the other. |
| `XenoCanto.XcPlanFollowsResponse` | macaulay_downloader/Download_Audio.py:217-238 | One download call per recording that has a file, in reply order. The calls stop exactly at the first such recording whose `id` key is absent (the `KeyError`). |
| `XenoCanto.XcPlanComplete` | macaulay_downloader/Download_Audio.py:217-238 | When every recording with a file has an `id` key, every recording with a file is downloaded. |
| `XenoCanto.NullIdDownloads` | macaulay_downloader/Download_Audio.py:224-238 | A JSON-null `id` does not stop the loop: that recording is downloaded as `<name>_XC_None.wav` with page `https://xeno-canto.org/None`, and the next recording follows. An absent `id` ends the calls. |
| `XenoCanto.XcCandidateUrl` | macaulay_downloader/Download_Audio.py:221-222 | A protocol-relative reference gets `https:` (and then starts with `https://`); any other reference is used as is. |
| `XenoCanto.StemIsRelative` | macaulay_downloader/Download_Audio.py:224 | The generated file name never starts with `/`. |
| `XenoCanto.XcCandidatePaths` | macaulay_downloader/Download_Audio.py:224 | The audio path is the species folder (as a string prefix) followed by `<stem>.wav`. Its sidecar `<stem>.json` sits beside it and is distinct from it. The file name holds `/` exactly when the id does. |
| `XenoCanto.NoSlashInFilename` | macaulay_downloader/Download_Audio.py:224 | A `/` in a generated file name can only come from the id, since the sanitised common name holds none. |
| `XenoCanto.XcCandidateRow` | macaulay_downloader/Download_Audio.py:225-237 | The stored row holds, column by column: `Xeno-Canto`, the id, the recording's fields, the common name, the recording's page URL and the file name. |
| `XenoCanto.XcPlanAdvance` | macaulay_downloader/Download_Audio.py:217-238 | One step of the loop: a recording without a file is skipped, a recording with a file but no `id` key ends the calls, and any other recording (a null `id` included) adds its call. |
| `XenoCanto.XcPlanDone` | macaulay_downloader/Download_Audio.py:217 | Once every recording has been visited, the calls made are the whole plan. |
| `XenoCanto.DownloadAllSnoc` | macaulay_downloader/Download_Audio.py:238 | One more call applies the download unit to the state so far. |
| `XenoCanto.DownloadAllAppends` | macaulay_downloader/Download_Audio.py:217-238 | A run of downloads deletes no file and only appends rows: at most one per call, each the row of one call's metadata. |
| `XenoCanto.DownloadAllSources` | macaulay_downloader/Download_Audio.py:226 | Every row the run adds carries the source that all the calls name. |
| `XenoCanto.DownloadAllExisting` | macaulay_downloader/Download_Audio.py:114-116 | Repeating calls whose audio files all exist changes nothing and downloads nothing. |
| `XenoCanto.DownloadRecording` | macaulay_downloader/Download_Audio.py:221-238 | The loop body builds exactly `XcCandidate`'s URL, file name and metadata, and applies the download unit once. |
| `XenoCanto.FetchXenoCanto` | macaulay_downloader/Download_Audio.py:207-241 | The calls made equal the plan for the reply (none if the request failed), and the new state is those calls applied in order. |
| `Orchestrator.WalkStep` | macaulay_downloader/Download_Audio.py:253-266 | One more species applies its Xeno-Canto calls in its folder. |
| `Orchestrator.Run` | macaulay_downloader/Download_Audio.py:245-271 | Without a table the run fails and nothing changes. Otherwise the new state is the walk over the parsed table under `/mnt/d/Mints`. |
| `Orchestrator.WalkAppends` | macaulay_downloader/Download_Audio.py:253-266 | The walk deletes no file and keeps the existing rows in place. |
| `Orchestrator.WalkRowsFromXenoCanto` | macaulay_downloader/Download_Audio.py:264-266 | Every row the walk adds has source `Xeno-Canto`; the Macaulay path stores nothing. |
| `Orchestrator.CallsAreXenoCanto` | macaulay_downloader/Download_Audio.py:226 | Every call of the Xeno-Canto loop carries `Xeno-Canto` as its source. |
| `Orchestrator.WalkExisting` | macaulay_downloader/Download_Audio.py:253-266 | A second walk over recordings that are all stored changes nothing and downloads nothing (restart idempotence). The GBIF, Macaulay and Xeno-Canto queries are still made. |

## Left out

- Network I/O: every HTTP request is replaced by the map of replies it would
  get. Timeouts, query parameters and status codes become "present" or
  "absent" in that map.
- Audio decoding: pydub's `from_mp3`, `from_file` and `export` are maps from
  body to WAV bytes. An export that fails after writing part of a file is
  not modelled; a write either happens whole or raises before writing.
- Filesystem: the filesystem is a map from path to content. `os.path.exists`
  is membership in that map, so a directory at the audio path is not
  modelled. The `os.makedirs` calls (the script root, line 22; each species
  folder, line 263) are left out; they either succeed or crash the script.
- The sidecar holds the metadata dict itself. The JSON text `json.dump`
  would format is not modelled.
- DuckDB: the table is a sequence of rows. The database path and the
  connection (lines 47-48) are left out. An INSERT that raises is not
  modelled; in the script it would make `download_audio` return `False`
  after both files are written.
- Printing and the banner in `main` are left out. So is the pandas
  DataFrame: the rows are a sequence of `TaxonEntry`, visited in the same
  order.
- JSON values read with `.get` are strings or `null`. GBIF ranks,
  Xeno-Canto fields and ids, and Macaulay URLs of other JSON types (a
  numeric id, say) are not modelled. Neither are non-object items in
  `results` or `recordings`, which would make `.get` raise.
- `Taxonomy.ParseTable`: the code table's values are strings only. A `null`
  value would make `"_" in species` (line 38) raise `TypeError`, which is
  fatal; that case is not modelled.
- `Taxonomy.ParseTable`: the code table is the sequence of the JSON
  object's pairs in document order. `json.loads` keeps only one value per
  repeated key: the last value, at the position of the key's first
  occurrence. The model keeps every pair, so a table with repeated codes is
  not modelled as the script would see it.
- `Taxonomy.SpeciesFolder`: a sanitised segment can be empty (an empty GBIF
  rank, or a name made only of deleted characters), and `os.path.join`
  then adds only a `/`, so the folder can sit fewer than four levels below
  the root. A segment `..` also survives `sanitize`. The model computes
  these paths as `os.path.join` does; it proves only that no segment
  holds `/`.
- `XenoCanto.XcCandidatePaths`: the id is not sanitised (line 224), so an
  id holding `/` or `..` places the file outside the species folder. The
  lemma proves a string prefix, not containment in the folder.
- `Taxonomy.Classify`: `get_taxonomy_from_gbif` receives the parsed reply,
  so the URL it builds (line 75) is not modelled.
- `Macaulay.FetchMacaulay`: the `code`, `scientific_name` and
  `species_folder` arguments only shape the request and the messages. The
  commented-out download at lines 180-197 is not code and is not modelled;
  Macaulay therefore never writes a file or a row.
- Pagination as the code runs it:
  - `page += 1` (line 178) is in the `while` body after the `for` loop, so
    `page` advances once per non-empty page.
  - With non-empty pages 1-3 and an empty page 4, pages 1-4 are requested
    (`Macaulay.OnlyLastPageReturned`).
  - An exception during the crawl returns `None`, and the URLs of earlier
    pages are lost (`Macaulay.FetchMacaulayNone`).
  - The page cap is the literal `34` at line 158; the model names it
    `Macaulay.PageLimit`.

## Findings

| source | as written | input that shows it | evidently intended | confidence | as-written member | corrected member |
|---|---|---|---|---|---|---|
| macaulay_downloader/Download_Audio.py:174 | `url_list = []` sits inside the page loop, so every page discards the URLs of the pages before it. The function returns only the last non-empty page's URLs, although line 198 reports them as the "total". | Pages 1-3 each hold two results and page 4 is empty: the loop returns 2 URLs, not 6. | `url_list` created once before the loop and extended by every page. | not executed | `Macaulay.OnlyLastPageReturned`, `Macaulay.FetchMacaulayLastPage` | `Macaulay.FetchMacaulayIntended`, `Macaulay.CollectedAll`, `Macaulay.IntendedFetchMacaulay` |
| macaulay_downloader/Download_Audio.py:170-171 | When page 1 has no results, the loop breaks before `url_list` is ever bound. `len(url_list)` at line 198 raises `UnboundLocalError`, which the handler at line 201 turns into `None`. | A taxon code with no Macaulay recordings (an empty page 1): `None`, not `[]`. | An empty list for a species with no recordings. `None` only when a request fails. | not executed | `Macaulay.EmptyFirstPageGivesNone`, `Macaulay.FetchMacaulayNone` | `Macaulay.IntendedFetchMacaulay` |
