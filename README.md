# mboxzip2json, modelled in Dafny

`mboxzip2json` reads a zip archive and prints, as JSON, one record per email in
every mailbox file inside it. Mailbox files may sit at any depth of nested zip
archives. The record fields are From, To, CC, Subject, Body and Timestamp;
the Date header is parsed with a fallback list of three layouts. The first
error anywhere aborts the whole run, and no partial list is returned.

This project models the logic of `cmd/mboxzip2json/main.go` around the
libraries it calls:

- `wrappers.dfy` (`Wrappers`): `Option`, `Result` and `Cause`, the text of
  a library error.
- `filepath.dfy` (`FilePaths`): `strings.HasSuffix` and `filepath.Ext`. It
  proves that an extension of exactly ".zip" is the same as a name that ends
  in ".zip".
- `timeparser.dfy` (`TimeParsing`): `timeParser`. `Parse` is an imperative
  loop proved equal to the reference definition `FirstMatch`, and the
  first-success, last-error and empty-list behaviours are proved about
  `FirstMatch`.
- `mailbox.dfy` (`Mailbox`): the callback's per-entry logic.
  - The name filter (`IsMailboxName`).
  - The header projection `xh` (`Header`, built on `Join`, which models
    `strings.Join`).
  - Building a record from one message (`Convert`).
  - The message loop (`Records`), and one mailbox scan (`Scan`).
- `archive.dfy` (`Archive`): `descendZip` as a pure plan (`Walk`/`Step`).
  A plan is the depth-first list of entries handed to the callback, each
  with its joined path, plus the structural error that stops the walk, if
  any. This module proves:
  - only leaves are visited;
  - visits follow container order;
  - nested archives are expanded in place;
  - directories are skipped;
  - the walk stops at the first error;
  - nesting changes only the paths.
- `extract.dfy` (`Extraction`): the run of a plan with the callback
  (`RunPlan`), and the class `Extractor`.
  - `Extractor` holds the captured result list, like the closure's
    `emails` slice.
  - Its methods `Callback`, `AppendRecords`, `DescendZip` and `DescendEntry` are the
    imperative loops and recursion of the source, each proved equal to the
    functional definition.
  - `ExtractEmailsFromZip` is the top-level function.
  - This module proves the end-to-end properties: when extraction succeeds,
    what the list holds, and that nesting and non-mailbox entries do not
    change the result.

An archive is modelled as the tree of its entries (`Reader`/`File`). It
carries, per entry:

- its base name;
- whether it is a directory;
- the outcome of opening it;
- the outcome of decoding it as a nested archive;
- what the mbox scanner yields for it: the messages, then the scanner's
  final error.

`time.Parse` for a single layout is the function parameter `parse`.

## Model

| member | source | states |
|---|---|---|
| FilePaths.HasSuffix | cmd/mboxzip2json/main.go:70-71 | `strings.HasSuffix`; no contract of its own. It is specified through ExtZipIff and MailboxNameIsNotZip. |
| FilePaths.Ext | cmd/mboxzip2json/main.go:141 | `filepath.Ext` of a name: a suffix of it. Either empty, when no dot follows the last '/', or a dot followed by no further dot or slash. |
| FilePaths.ExtSnoc | cmd/mboxzip2json/main.go:141 | Appending a dot makes the extension "."; appending any other non-slash character extends a non-empty extension and leaves an empty one empty. |
| FilePaths.ExtZipIff | cmd/mboxzip2json/main.go:141-142 | The walk's test `filepath.Ext(name) == ".zip"` holds exactly when the name ends in ".zip" (case-sensitive). |
| Mailbox.IsMailboxName | cmd/mboxzip2json/main.go:69-74 | The callback's suffix filter, ".mbox" or ".mbox.txt" on the base name; no contract of its own. It is specified through MailboxNameIsNotZip, CallbackEffect and ExtractIgnoresOtherFiles. |
| Mailbox.Join | cmd/mboxzip2json/main.go:91-93 | `strings.Join`; no contract of its own. It is specified by JoinLength and JoinAt. |
| Mailbox.MailboxNameIsNotZip | cmd/mboxzip2json/main.go:67-74 | A name that passes the mailbox filter never has the extension ".zip", so such an entry is handed to the callback and never walked. |
| Mailbox.JoinLength | cmd/mboxzip2json/main.go:91-93 | The joined header is the sum of the values' lengths plus one separator between each neighbouring pair. |
| Mailbox.JoinAt | cmd/mboxzip2json/main.go:91-93 | Every value of the header appears in the joined text at its own offset, in stored order, with exactly one ", " before every value but the first. |
| Mailbox.Header | cmd/mboxzip2json/main.go:91-93 | `xh(k)`: a missing key, or one with no values, gives the empty string; a single value is returned as is. |
| Mailbox.DateOf | cmd/mboxzip2json/main.go:95-99 | The fallback parse of the joined Date header with the three layouts; no contract of its own. It is specified through FirstMatch's lemmas and TimeParser.Parse. |
| Mailbox.Convert | cmd/mboxzip2json/main.go:84-111 | One turn of the message loop; no contract of its own. It is specified by ConvertSpec. |
| Mailbox.ConvertSpec | cmd/mboxzip2json/main.go:84-111 | A message yields a record exactly when its body reads and its Date header parses. That record holds the From, To, Cc and Subject projections, the body bytes and the parsed time. Otherwise the body error takes precedence over the Date error. |
| Mailbox.Records | cmd/mboxzip2json/main.go:82-112 | The message loop up to its first failure; no contract of its own. It is specified by RecordsSpec and implemented by Extractor.AppendRecords. |
| Mailbox.Scan | cmd/mboxzip2json/main.go:82-116 | The message loop, then the scanner's own error when the loop did not fail; no contract of its own. It is specified through CallbackEffectSpec. |
| Mailbox.RecordsSpec | cmd/mboxzip2json/main.go:83-112 | The message loop appends one record per message, in order, each describing its message. It fails exactly when some message fails. It then reports the first failing message's error, having appended only the records before that message. |
| TimeParsing.FirstMatch | cmd/mboxzip2json/main.go:193-203 | Reference definition of the fallback parse; no contract of its own. It is specified by FirstMatchFirstSuccess, FirstMatchAllFail and FirstMatchFails, and implemented by TimeParser.Parse. |
| TimeParsing.FirstMatchFirstSuccess | cmd/mboxzip2json/main.go:193-203 | If layout i is the first that parses, its time is returned with no error, and no later layout matters. |
| TimeParsing.FirstMatchAllFail | cmd/mboxzip2json/main.go:193-203 | If every layout fails, the result is the zero time with the last layout's error. With no layouts, it is the zero time and no error. |
| TimeParsing.FirstMatchFails | cmd/mboxzip2json/main.go:193-203 | An error is returned exactly when there is at least one layout and none parses. |
| TimeParsing.TimeParser.Parse | cmd/mboxzip2json/main.go:183-203 | The loop over the layouts, with its `lastErr` variable, computes exactly `FirstMatch`. |
| Archive.Step | cmd/mboxzip2json/main.go:128-154 | One iteration of the loop in `descendZip`; no contract of its own. It is specified by StepWellFormed, StepVisitsLeaves, StepIgnoresPrefix and RunStep. |
| Archive.Walk | cmd/mboxzip2json/main.go:126-158 | `descendZip` as the plan of visits and the stop; no contract of its own. It is specified by WalkWellFormed, WalkVisitsLeaves, WalkAppend, WalkNestedInPlace, WalkFlattensNesting and the other Walk lemmas, and implemented by Extractor.DescendZip. |
| Archive.WalkWellFormed | cmd/mboxzip2json/main.go:126-158 | Only leaves reach the callback, never a directory, an entry that failed to open, or a ".zip" entry. Each is visited under a path that extends the walk's prefix and ends in its own name. A walk stops only on a structural error. |
| Archive.StepWellFormed | cmd/mboxzip2json/main.go:128-154 | The same, for one iteration of the loop, including a recursion into a nested archive under the entry's path. |
| Archive.WalkAppend | cmd/mboxzip2json/main.go:127-155 | Container order: walking two runs of entries in a row is walking the first, then, unless it stopped, the second. |
| Archive.WalkSingle | cmd/mboxzip2json/main.go:127-155 | A container of one entry is walked as that entry's step. |
| Archive.WalkNestedInPlace | cmd/mboxzip2json/main.go:141-149 | A ".zip" entry that opens and decodes is replaced, at its own position, by the walk of its entries under its own path. The nested walk's error is returned unchanged. |
| Archive.WalkSkipsDirectory | cmd/mboxzip2json/main.go:128-131 | A directory entry is never opened and never visited: the walk is the same without it. |
| Archive.WalkStopsAtFirstError | cmd/mboxzip2json/main.go:133-149 | Once the entries walked so far have produced an error, no later entry is opened or visited. |
| Archive.WalkFlat | cmd/mboxzip2json/main.go:126-158 | A container of leaves only is visited entry by entry, in container order, each under its own name, and ends without error. |
| Archive.WalkVisitsLeaves | cmd/mboxzip2json/main.go:126-158 | The walk ends without error exactly when every non-directory entry opens and every ".zip" entry decodes, recursively. The callback is then handed exactly the non-directory, non-".zip" entries, depth first, in container order, each nested archive's leaves at its own position. |
| Archive.StepVisitsLeaves | cmd/mboxzip2json/main.go:128-154 | The same, for one iteration of the loop. |
| Archive.WalkIgnoresPrefix | cmd/mboxzip2json/main.go:126-158 | The path prefix (where a container sits) changes neither the entries visited, nor their order, nor how the walk stops. |
| Archive.StepIgnoresPrefix | cmd/mboxzip2json/main.go:128-154 | The same, for one iteration of the loop. |
| Archive.WalkFlattensNesting | cmd/mboxzip2json/main.go:126-158 | Nesting does not change what is visited. Replacing an archive entry by its own entries visits the same entries in the same order and stops the same way; only the paths differ. |
| Extraction.CallbackEffect | cmd/mboxzip2json/main.go:67-74 | An entry whose base name ends in neither ".mbox" nor ".mbox.txt" contributes no records and raises no error. |
| Extraction.CallbackEffectSpec | cmd/mboxzip2json/main.go:66-119 | The callback fails exactly on the mailbox entries that are not accepted: the entry does not open, a body does not read, a Date header does not parse, or the scanner ends with an error. On success it has appended one record per message of the mailbox, in file order. |
| Extraction.RunPlan | cmd/mboxzip2json/main.go:66-119 | The callback only ever appends to the captured result list: the list it started from is kept as a prefix. |
| Extraction.RunThen | cmd/mboxzip2json/main.go:147-153 | Running two plans in sequence runs the second from where the first left the list, and only when the first ended without error. |
| Extraction.RunPlanFails | cmd/mboxzip2json/main.go:126-158 | A walk fails exactly when it meets a structural error or visits an entry the callback does not accept. |
| Extraction.RunPlanRecords | cmd/mboxzip2json/main.go:104-111 | A successful run appends one record per message of every visited mailbox: in visit order, then in message order, each describing its message. |
| Extraction.RunPlanIgnoresPaths | cmd/mboxzip2json/main.go:150-153 | Paths only label callback errors. Two plans that differ only in paths build the same list, and both succeed or both fail. |
| Extraction.RunStep | cmd/mboxzip2json/main.go:128-154 | One loop iteration, case by case: a directory changes nothing; an open failure stops with "open archive file"; a decode failure stops with "newZipFromReader"; a decoded archive is walked under the entry's path; a leaf runs the callback, whose error is wrapped with the entry's path. |
| Extraction.Extractor.Callback | cmd/mboxzip2json/main.go:66-119 | The closure appends exactly the entry's callback effect to the captured list and returns its error. |
| Extraction.Extractor.AppendRecords | cmd/mboxzip2json/main.go:82-112 | The `for ms.Next()` loop appends exactly the message loop's records and returns its error, keeping the records appended before a failure. |
| Extraction.Extractor.DescendZip | cmd/mboxzip2json/main.go:126-158 | The loop with its early returns and recursion leaves the list and returns the error exactly as running the walk's plan does. |
| Extraction.Extractor.DescendEntry | cmd/mboxzip2json/main.go:128-154 | One iteration of the loop (skip, open, recurse or call back, with the early returns) leaves the list and returns the error exactly as running that entry's step does. |
| Extraction.Extract | cmd/mboxzip2json/main.go:47-124 | The value `extractEmailsFromZip` returns; no contract of its own. It is specified by ExtractSpec, ExtractFlattensNesting and ExtractIgnoresOtherFiles, and implemented by ExtractEmailsFromZip. |
| Extraction.ExtractEmailsFromZip | cmd/mboxzip2json/main.go:47-124 | `extractEmailsFromZip` returns exactly `Extract`. That is the open, stat or zip-reader error; or the walk error, wrapped as "reading zip file", with no list; or the whole list. |
| Extraction.ExtractSpec | cmd/mboxzip2json/main.go:64-123 | Extraction succeeds exactly when the walk meets no structural error and every visited entry is accepted. The list is then one record per message of every visited mailbox, in walk order and then in file order, each describing its message. |
| Extraction.ExtractFlattensNesting | cmd/mboxzip2json/main.go:141-149 | Replacing a nested archive by its own entries, at its position, changes neither whether extraction succeeds nor the list it returns. |
| Extraction.DropIgnoredVisit | cmd/mboxzip2json/main.go:67-74 | A visit the callback ignores can be removed from a run without changing it. |
| Extraction.ExtractIgnoresOtherFiles | cmd/mboxzip2json/main.go:67-74 | An entry that opens and is neither a mailbox nor a nested archive changes nothing in the result. |

## Left out

- File and archive I/O (`os.Open`, `Stat`, `zip.NewReader`, `zf.Open`, `f.Open`, `Close` and `defer`) are not modelled. Each appears only through its outcome: `Input` for the top-level file, and `File.openErr` for an entry.
- One `openErr` per entry stands for both `f.Open()` in `descendZip` and `zf.Open()` in the callback. The two open the same entry the same way, and the callback only sees entries the walk opened successfully.
- `newZipFromReader` (the `ReaderAt` check, `ReadAll` buffering, `zip.NewReader`) and the zip format are not modelled. A ".zip" entry carries the outcome of decoding it, an entry list or an error.
- `mbox.NewScanner` is not modelled: neither the mbox framing nor the header parsing. An entry carries the scanner's output: the messages, then `ms.Err()`. A message carries its header map and the outcome of reading its body. Messages of non-mailbox entries are never consulted.
- `time.Parse` and the meaning of the three Date layouts are a function parameter. The model proves which layout's result is used, not what a layout accepts. `Time` is a plain record whose fields no lemma relies on; `ZeroTime` stands for `time.Time{}`.
- JSON encoding, `main`, `mainErr` and the argument check are not modelled. `Extract` gives the value `mainErr` would encode.
- `Email.Body` is kept as the body's bytes; the conversion `string(bodyBytes)` to UTF-8 text, and JSON's handling of invalid UTF-8, are not modelled.
- Entry names and header values are Dafny character strings, where Go has byte strings. Every test the model makes is an ASCII suffix, or a search for '.' or '/', and these bytes never occur inside a multi-byte UTF-8 sequence.
- `filepath.Join` is modelled as a list of path components, outermost first, without cleaning. The model keeps which entry an error names, not the exact string.
- `FileInfo().Name()` and `FileInfo().IsDir()` are taken as given: each entry carries its base name and its directory flag.
- Error messages are modelled as constructors (`OpenArchiveFile`, `ProcessingFile`, …) that wrap the library's error, not as formatted strings.
- `descendZip` takes any callback; the model specialises it to the one callback `extractEmailsFromZip` passes.
- The callback's message loop, which the source writes inline in the closure, is a separate method of its own (`AppendRecords`), and so is one iteration of the loop in `descendZip` (`DescendEntry`).
- Only callback errors carry the entry's path. The errors for opening an entry and decoding a nested archive do not. This follows the code (main.go:135 and main.go:145).
