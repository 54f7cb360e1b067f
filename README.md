# chop: Scoop manifest search, modelled in Dafny

chop searches the manifests of locally installed Scoop buckets. Each manifest
lives at `<root>/buckets/<bucket>/bucket/<app>.json`. For every app it finds, chop
prints a block of lines: name and bucket, description, version, homepage,
license and notes. Occurrences of the query in the name and the description
are highlighted. The repository holds three variants of this search, and this
project models all three, plus the manifest types they share:

- `search` (src/search.rs) walks buckets, then files, in order. It reads and
  decodes every manifest. It keeps the apps whose lower-cased stem or
  description contains the lower-cased query. The first failure ends the walk
  with an error.
- `asyncv` (src/asyncv.rs) strips the last five characters of each file name
  to get the app name. It keeps the apps whose name contains the query, case
  included. Only those manifests are loaded. Each app goes down a channel as an
  `Info` message, followed by a final `Close`. A consumer loop (`output`,
  identical to `worker` in src/output.rs) renders one block per `Info` until
  the first `Close`.
- `syncv` (src/syncv.rs) does the same walk as `asyncv`. It prints each block
  as soon as the app is found.

The filesystem is given to the model as a value (`Tree`): a listing of bucket
directories, each holding a listing of manifest files. Every directory,
directory entry and file read can fail. JSON comes already parsed, as an
abstract value (`Json.Value`). A block is a list of logical lines (`Render.Line`):
the highlight is a marked piece, and colours are tags. A failed `unwrap` is a
panic. The model represents it as a `panicked` flag, kept together with
everything produced before it.

Modules, by file:

| file | module | models |
|---|---|---|
| strings.dfy | `Strings` | ASCII lower-casing, `contains`/`find`, `join`, in-order concatenation |
| json.dfy | `Json` | parsed JSON values |
| manifest.dfy | `Manifest` | src/manifest.rs: the serde shapes of `AppManifest`, `License`, `Notes` and their `Display` |
| tree.dfy | `Tree` | the bucket tree the scans read |
| render.dfy | `Render` | the highlight closure (`backcolor`/`background`) and the lines of one block, shared by the three printers |
| output.dfy | `Output` | src/output.rs: `Message` and the `worker` loop (also `output` of src/asyncv.rs) |
| search.dfy | `Search` | src/search.rs: `search`, `AppInfo`, `From` |
| asyncv.dfy | `Asyncv` | src/asyncv.rs: the walk that sends messages, `more`, `asyncv` as a whole |
| syncv.dfy | `Syncv` | src/syncv.rs: the walk that prints directly (`appinfo` is `more`) |

`Manifest.DecodeManifest` follows serde's derived decoding. It accepts an
object, and also the positional form of the struct: an array of exactly five
elements. The untagged `License::Object` has no positional form.

Every loop of the source is a `method` with a `while` loop. Each is proved
equal to a specification function over the input: `Search.Search` to
`SearchSpec`, `Asyncv.Scan` to `Sends`, `Output.Worker` to `Rendered`, and
`Syncv.Run` to `Prints`. The properties are proved as lemmas about those
functions.

Two behaviours of the code are easy to miss:

- A manifest that fails to read or decode ends `search` with an error. It is
  not skipped.
- `asyncv` and `syncv` match the name only. The match is case-sensitive, and
  the query is not lower-cased there or in the highlight.

## Model

| member | source | states |
|---|---|---|
| Strings.Find | src/output.rs:37 | `str::find` finds an occurrence exactly when the text contains the pattern, and the offset it returns is the leftmost occurrence |
| Strings.JoinLayout | src/asyncv.rs:183 | in the result of `join`, each element sits at its offset, a separator follows every element but the last, and the last element ends the string |
| Strings.JoinLength | src/syncv.rs:127 | the join of an empty list is empty; otherwise it is the element lengths plus one separator per gap |
| Strings.JoinEmptySeparator | src/manifest.rs:43 | `join("")` is plain in-order concatenation |
| Strings.JoinPair | src/asyncv.rs:183 | two elements join as first, separator, second |
| Manifest.DecodeStrings | src/manifest.rs:36 | a `Vec<String>` decodes exactly when every element is a string, keeping each element in place |
| Manifest.LicenseShapesAgree | src/manifest.rs:22-30 | `"MIT"` and `{"identifier": "MIT", ...}` both decode and both display as `MIT` |
| Manifest.LicenseAcceptedShapes | src/manifest.rs:15-20 | a license decodes exactly from a string or from an object with a string `identifier` |
| Manifest.NotesAcceptedShapes | src/manifest.rs:32-37 | notes decode exactly from a string or from an array all of whose elements are strings |
| Manifest.NotesArrayDisplay | src/manifest.rs:39-47 | an array of notes displays as the in-order concatenation of its elements, with length equal to the sum of theirs; `[]` shows as `""`, and `[x]` shows like the string `x` |
| Manifest.StringsRoundTrip | src/manifest.rs:36 | an array of strings decodes back to the same list |
| Manifest.LicenseRoundTrip | src/manifest.rs:15-20 | each license shape decodes back from its JSON form |
| Manifest.NotesRoundTrip | src/manifest.rs:32-37 | each notes shape decodes back from its JSON form |
| Manifest.ManifestRoundTrip | src/manifest.rs:5-13 | every manifest decodes back from its object form; with no `notes` key, it decodes with notes `None` |
| Manifest.ManifestObjectFields | src/manifest.rs:5-13 | an object decodes exactly when `version`, `description`, `homepage` are strings, `license` decodes, and `notes` is absent, `null` or valid notes; the string fields are copied, and notes are `None` exactly when absent or `null` |
| Render.Backcolor | src/output.rs:36-48 | the pieces spell the original text; with no occurrence of the query in the lower-cased text, the text is a single plain piece; otherwise it is cut at the leftmost occurrence into prefix, highlighted middle of length `\|query\|` (which lower-cases to the query), and suffix; a highlight appears exactly when the lower-cased text contains the query |
| Render.UpperQueryNeverHighlights | src/output.rs:37 | a query with an upper-case ASCII letter is never highlighted, since only the text is lower-cased |
| Render.EmptyQueryHighlightsNothing | src/asyncv.rs:82-94 | the empty query is found at offset 0: an empty highlight, then the whole text |
| Render.TitleRow | src/output.rs:52-58 | the title line reads `  <name> in <bucket>`; the pieces between the lead-in and ` in <bucket>` are `Backcolor` of the name, so the highlight, when there is one, is the leftmost occurrence of the query in the name; it has a highlight exactly when the lower-cased name contains the query |
| Render.DescriptionRow | src/output.rs:59-64 | the description line reads `  description: <description>`; the pieces after the label are `Backcolor` of the description; it has a highlight exactly when the lower-cased description contains the query |
| Render.Block | src/output.rs:50-71 | a block has 8 lines with notes and 7 without, opens with the top border, closes with the bottom border, and has text rows in between |
| Render.BlockText | src/output.rs:52-70 | each row shows its label and field unchanged; version, homepage and license are printed as they are |
| Render.BlockHighlights | src/output.rs:55-62 | only the name line and the description line can carry a highlight, each exactly when its lower-cased text contains the query, and their highlighted pieces are `Backcolor` of the name and of the description |
| Render.BlockNotesLine | src/output.rs:68-70 | a block has a notes line exactly when the notes are `Some`, and then it is the seventh line |
| Output.BeforeClose | src/output.rs:72-74 | the messages consumed are a prefix of the stream, all `Info`, ending where the first `Close` is or where the stream ends |
| Output.Worker | src/output.rs:18-78 | the loop writes the blocks of the messages before the first `Close`, one per message, in arrival order |
| Output.BlocksAppend | src/output.rs:22 | the rendering of two runs of messages is the rendering of the first followed by that of the second |
| Output.CloseEndsConsumption | src/output.rs:72-74 | nothing after a `Close` is ever rendered |
| Output.EndOfStreamRendersAll | src/output.rs:22 | with no `Close`, the end of the stream ends consumption, and every message is rendered in order |
| Output.RenderedAfterInfos | src/output.rs:22-75 | a stream that begins with `Info` messages renders their blocks first, then the rest of the stream |
| Output.OneBlockPerInfo | src/output.rs:22-71 | the number of blocks written equals the number of `Info` messages before the first `Close` |
| Output.ClosedStreamBlocks | src/asyncv.rs:68-121 | `Info` messages closed by `Close` give exactly one block each |
| Search.FromManifest | src/search.rs:62-76 | `From` keeps name and bucket, copies version, description and homepage, displays the license, and gives notes `None` exactly when the manifest has none (otherwise their display) |
| Search.LastDot | src/search.rs:28 | the result is the last `.` of the name, or none when the name has no `.` |
| Search.FileStem | src/search.rs:28 | `file_stem`: there is a stem unless the name is `..`; the stem is a prefix of the name; it is cut at the last `.` unless that dot leads the name, otherwise it is the whole name |
| Search.JsonFileStem | src/search.rs:28 | `<stem>.json` has stem `<stem>` |
| Search.Search | src/search.rs:5-49 | the nested loops return exactly `SearchSpec`: buckets and files in listing order, stopping at the first failure with its error |
| Search.ExamineFile | src/search.rs:27-43 | one entry: a bad entry fails; no stem is skipped; a read failure or decode failure fails with the app name; a match gives one `AppInfo`; a non-match gives none |
| Search.CollectStops | src/search.rs:18 | a failing step after a clean prefix is the result of the whole loop |
| Search.CollectExtends | src/search.rs:42 | a clean step appends its results to those gathered so far |
| Search.CollectOk | src/search.rs:14-48 | a loop succeeds exactly when every step succeeds |
| Search.CollectFirstError | src/search.rs:27-34 | a failing loop returns the error of its first failing step |
| Search.SearchCorrect | src/search.rs:14-48 | the scan succeeds exactly on a tree in which every directory lists, every entry reads and every stemmed manifest decodes; it then returns the filter of all candidates in bucket-then-file order |
| Search.ErrorIgnoresQuery | src/search.rs:30-36 | the scan's error (or its success) does not depend on the query: even a file that would not match must be read and decoded |
| Search.FilterAppend | src/search.rs:14-45 | results of earlier candidates come before those of later ones |
| Search.FilterMember | src/search.rs:36-42 | an app is reported exactly when some candidate's lower-cased stem or description contains the lower-cased query, converted by `From` |
| Search.EmptyQueryKeepsAll | src/search.rs:36-42 | the empty query reports every decoded manifest that has a stem, in order |
| Search.ResultsBounded | src/search.rs:12-48 | a successful scan reports at most one app per candidate, and at most one per manifest entry examined |
| Search.CandidateOrigin | src/search.rs:19-29 | each candidate carries the name of its bucket directory and the stem of the entry it was read from |
| Search.LicenseShapeIrrelevant | src/search.rs:72 | the two license shapes make no difference to the reported app, whose license is the string |
| Asyncv.AppName | src/asyncv.rs:35 | a name of at least five characters loses exactly its last five; a shorter one panics |
| Asyncv.Flatten | src/asyncv.rs:177-192 | `more` copies version, description and homepage; it gives both license shapes their string; it keeps string notes and joins array notes with a newline and nine spaces; `None` stays `None` |
| Asyncv.More | src/asyncv.rs:174-176 | `more` returns exactly when the file reads and decodes, and then gives the flattened manifest |
| Asyncv.Unwrapped | src/asyncv.rs:27-30 | collecting a listing succeeds exactly when every entry is good, keeping entries in order |
| Asyncv.FoldStops | src/asyncv.rs:23 | a panic after a clean prefix ends the walk with what was produced so far |
| Asyncv.FoldExtends | src/asyncv.rs:31-47 | a clean step appends its output |
| Asyncv.FoldKeeps | src/asyncv.rs:22-48 | a property of every step's output holds of the whole walk's output |
| Asyncv.FoldPrefix | src/syncv.rs:16-67 | the output of a walk begins with the output of any prefix of it |
| Asyncv.Scan | src/asyncv.rs:21-50 | the bucket loop sends exactly `Sends`: the matching apps in listing order, then `Close`, or those listed before the first panic (the parallel loop's other splits are under "Left out") |
| Asyncv.UnwrapAll | src/asyncv.rs:27-30 | the collecting loop succeeds exactly when every entry is good, and returns them in order |
| Asyncv.SendApp | src/asyncv.rs:32-46 | the closure for one app: strip the name (panicking if too short), filter on the name, load with `more` (panicking on failure), send one `Info` |
| Asyncv.Run | src/asyncv.rs:9-52 | `asyncv` as a whole: what the output loop renders from what the scan sends, with the scan's panic flag |
| Asyncv.SendsShape | src/asyncv.rs:37-50 | every app sent has a name containing the query; a clean scan sends only `Info` messages and then exactly one `Close`; a panicking scan sends no `Close` |
| Asyncv.UnmatchedNeverLoaded | src/asyncv.rs:37-38 | a file whose name does not match is never loaded: it sends nothing and cannot panic, whatever its contents |
| Asyncv.ShortNamePanics | src/asyncv.rs:35 | a file name shorter than five characters panics |
| Asyncv.MatchedIsLoaded | src/asyncv.rs:37-45 | a matching app is sent with name, bucket and flattened manifest; if its manifest does not read or decode, it panics |
| Asyncv.NotesJoinLonger | src/asyncv.rs:183 | the joined notes are ten characters per gap longer than the display of the same notes in src/manifest.rs; for `[]` both are empty |
| Asyncv.TwoNotes | src/asyncv.rs:183 | `[a, b]` becomes `a`, newline, nine spaces, `b` here and `ab` in src/manifest.rs |
| Asyncv.OneBlockPerApp | src/asyncv.rs:68-121 | on a clean scan, the output loop draws exactly one block per app sent |
| Asyncv.JsonNamesAgree | src/asyncv.rs:35 | for `<stem>.json`, the five-character strip and the `file_stem` of src/search.rs both give `<stem>` |
| Asyncv.OtherExtensionsDiffer | src/asyncv.rs:35 | for `git.yml`, the strip gives `gi` where `file_stem` gives `git` |
| Asyncv.NamesAgreeExactly | src/asyncv.rs:35 | the five-character strip and `file_stem` give the same name exactly when the file name's last `.` is five characters from its end and is not its first character |
| Asyncv.UpperQueryMissesLowerName | src/asyncv.rs:37 | a query with an upper-case ASCII letter keeps no name without one, and loads nothing, while the filter of src/search.rs keeps such a name whenever it contains the lower-cased query |
| Asyncv.CaseSensitiveFilter | src/asyncv.rs:37 | the filter drops `git.json` for the query `Git`, which the filter of src/search.rs keeps |
| Syncv.Run | src/syncv.rs:16-67 | the bucket loop prints exactly `Prints`: the blocks of the apps the walk finds, in bucket-then-app order, up to a panic |
| Syncv.PrintApps | src/syncv.rs:25-66 | the loop over one bucket's apps prints the blocks of the apps found, and panics where the walk does |
| Syncv.PrintOne | src/syncv.rs:26-64 | one app: strip the name, filter, load with `appinfo`, print its block |
| Syncv.SameAsChannel | src/syncv.rs:16-67 | `syncv` prints exactly what `asyncv`'s output loop renders from the messages `asyncv` sends, read in listing order (`Sends`), and panics on the same trees |
| Syncv.PrintedStaysPrinted | src/syncv.rs:55-64 | the output, up to and including a panic, begins with the blocks of every bucket walked so far |

## Left out

- Concurrency: the rayon `into_par_iter`/`for_each_with`, the thread that runs
  `output`, and the `mpsc` channel. The channel is a sequence. The apps of one
  bucket are sent in listing order, while the real parallel loop sends them in
  any order.
- Asyncv.Scan: on a bucket where one app panics, the parallel loop still runs
  the bucket's other splits (rayon's `join` finishes both halves before it
  re-raises the panic), so apps listed after the panicking one may still be
  sent; `Sends` keeps only those listed before it. For a bucket listing an
  unreadable `a.json` and then a good `ab.json`, with the query `a`, the real
  loop may send `Info` for `ab` and then panic, and the model sends nothing.
- After a panic in `asyncv`, the output thread may or may not render what was
  sent before the panic. `Asyncv.Run` gives the rendering of everything sent.
- The filesystem and environment: `read_dir`, `fs::read`, `userprofile`,
  `buckets_path`, and src/config.rs. The tree is an input value, and its
  listing order is the order the model walks.
- src/search.rs:8-10: the unused config load, the root-path `unwrap` and the
  `buckets` join. The root listing is given.
- The stdin prompt, `read_line` and `trim` of `asyncv` and `syncv`: the query
  is an input.
- serde_json byte parsing. A file is unreadable, not JSON, or a parsed value.
  Duplicate object keys cannot occur, since objects are maps. Numbers are
  integers.
- Unicode: lower-casing covers ASCII letters only, and the character offsets
  used stand for the byte offsets of the source. The byte/char mix in the
  highlight (a byte index plus a char count) agrees on ASCII.
- Non-UTF-8 file names, which make `to_str().unwrap()` panic.
- Colour codes, the terminal width, and the border strings (which underflow
  when the width is below 2). Borders are `TopRule`/`BottomRule`, colours are
  tags. Also left out: `BufWriter` flushing and the `writeln!`/`println!`
  results.
- The name strip of `asyncv` and `syncv` (src/asyncv.rs:35, src/syncv.rs:28) on
  a non-ASCII name, where cutting inside a character also panics.
- src/main.rs (the `clap` front end and the same channel glue), src/deserialize.rs
  (type declarations only), src/error.rs (a bare enum), and the tests. The
  `deserialize::AppInfo` that src/output.rs imports is not defined there. It is
  taken as the five-field record of src/asyncv.rs (`Render.Details`).
