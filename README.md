# Alpino server: parse-output assembly

`alpinoserver.py` is a small web service around the Alpino parser for Dutch.
Almost all of its work is done by external programs (the Alpino tokenizer,
Alpino itself, a NAF library). The logic the server implements itself, which
this project models and proves things about, is the assembly of the parser's
output:

- `read_triples_into_dict` reads Alpino's `|`-separated dependency output,
  one triple per non-blank line, into an insertion-ordered dict
  `{id: {"triples": [...]}}` that it updates in place. It can optionally
  reduce a path-like id to its bare stem (`strip_id`).
- `alpino_xml_raw` builds `{id: {"xml": ...}}` from the files the XML run
  leaves in its treebank directory. It fails when there are none.
- `alpino_treebank_triples` runs `-treebank_triples` on those files. It then
  overlays each output line onto the XML-phase dict: the text before the
  line's last `|` is appended, as one string, to the entry whose id is
  derived from the file name after it.
- The three ways of turning a file name into a sentence id
  (`splitext(fn)[0]`, `splitext(basename(p))[0]`,
  `basename(fn).split(".")[0]`), and their round trips.
- `tokenize` removes every `|` from the tokenizer's output.
- `parse` tokenizes unless told the text already is tokenized, then dispatches
  on the output kind. It raises `ValueError` for an unknown kind.
- `call_alpino_stdout` fails on empty standard output.
- `get_parsed_naf` decides between an already parsed NAF document, a NAF
  document without dependencies, and input that is not XML.

Layout, one module per file:

- `PyStrings` holds the Python `str` operations the code relies on, with
  Python's semantics. These are `split` and `rsplit(c, 1)` with a
  one-character separator, `strip()` with the `str.isspace` character set, and
  `replace(c, "")`.
- `Paths` holds POSIX `os.path.basename`, `splitext` (which skips leading
  dots) and `join`, plus the three id derivations.
- `Outcomes` holds `Option`, the exceptions the core raises, and `Result`.
- `ResultDicts` holds the result dict. `Dict` is its value (keys in insertion
  order plus a map), and the class `ResultDict` is the object the loops update
  in place.
- `Triples` holds `read_triples_into_dict`: a `method` with a loop, proved
  against the left fold `ReadTriples`, with lemmas about that fold.
- `Treebank` holds the XML-phase dict comprehension and the overlay loop (a
  `method`, proved against the fold `Overlay`), with lemmas about both.
- `Server` holds the tokenizer, the three output kinds and `parse`. The Alpino
  installation is a parameter: what each command prints on each input, and
  which files the XML run writes. Each operation returns its outcome together
  with the processes it started, in order.
- `Naf` holds `get_parsed_naf`, over an abstract NAF reader and `parse_naf`.

Sentence ids and Alpino output are `string`s. The triples lists of the source
are heterogeneous: `read_triples_into_dict` appends lists of fields and the
treebank overlay appends whole strings. Both kinds are in `Triple`. Dict
entries record `"xml"` and `"triples"` as optional fields, because a key the
source never set is absent.

`read_triples_into_dict` has a `strip_id` flag that nothing in the file
sets. The treebank phase does not use that function. It has its own loop
(alpinoserver.py:160-164), which splits at the last `|`, derives the id with
`basename(fn).split(".")[0]`, and indexes `result[id]` without `setdefault`.
So an id with a dot loses everything from its first dot
(`Paths.TreebankIdCutsDottedId`), where `strip_id` would have kept it
(`Paths.StripIdRoundTrip`).

## Model

"Bar" below is the separator character `|` (U+007C).

| member | source | states |
|---|---|---|
| PyStrings.Strip | alpinoserver.py:135 | definition of `str.strip()` over the `str.isspace` set; properties in `PyStrings.StripEmptyIffBlank` |
| PyStrings.RFind | alpinoserver.py:162-163 | `str.rfind(c)`: the last index holding `c`, with no `c` after it, or -1 when there is none |
| PyStrings.Join | alpinoserver.py:136 | definition of `c.join(ps)`; properties in `PyStrings.JoinSplit` and `PyStrings.SplitJoin` |
| PyStrings.Split | alpinoserver.py:136 | `split` on one character gives at least one piece, and no piece holds the separator |
| PyStrings.JoinSplit | alpinoserver.py:136 | joining the pieces of a split with the separator gives the string back |
| PyStrings.SplitJoin | alpinoserver.py:136 | splitting a join of separator-free pieces gives the pieces back |
| PyStrings.StripEmptyIffBlank | alpinoserver.py:135 | `s.strip()` is empty exactly when every character of `s` is white space in the sense of `str.isspace` |
| PyStrings.RSplitOnce | alpinoserver.py:162 | `rsplit` at the last bar gives one piece (the string) exactly when there is no bar; otherwise head, a bar and the tail concatenated is the string and the tail has no bar |
| PyStrings.RSplitOnceIsSplit | alpinoserver.py:162 | the tail of `rsplit` is the last `split` field and the head is the other fields joined by a bar |
| PyStrings.RemoveAll | alpinoserver.py:94 | `replace` of every bar by nothing leaves no bar |
| PyStrings.RemoveAllCounts | alpinoserver.py:94 | every other character keeps its number of occurrences |
| PyStrings.RemoveAllIsConcatOfSplit | alpinoserver.py:94 | removing every bar is concatenating the bar-split pieces, so the other characters keep their order |
| PyStrings.RemoveAllIdentity | alpinoserver.py:94 | a string without a bar is left alone, so scrubbing twice is scrubbing once |
| Paths.Basename | alpinoserver.py:163 | `basename` is the `/`-free suffix after the last `/` |
| Paths.Splitext | alpinoserver.py:171 | the two parts concatenate to the path, and the extension is empty or a dot followed by neither dot nor `/`; `Paths.SplitextSpec` pins down the rest |
| Paths.SplitextSpec | alpinoserver.py:171 | an extension follows a stem whose final component is not all dots; with no extension, every dot of the final component has only dots before it (the leading-dot rule of `.bashrc`) |
| Paths.PathJoin | alpinoserver.py:157 | definition of `os.path.join(a, b)`; properties in `Paths.BasenameOfJoin` |
| Paths.XmlPath | alpinoserver.py:157 | definition of `join(d, id + ".xml")`; properties in the round-trip lemmas below |
| Paths.XmlId | alpinoserver.py:171 | definition of `splitext(fn)[0]`; properties in `Paths.XmlIdOfXmlName` |
| Paths.StripId | alpinoserver.py:138-139 | definition of `splitext(basename(id))[0]`; properties in `Paths.StripIdRoundTrip` |
| Paths.TreebankId | alpinoserver.py:163 | definition of `basename(fn).split(".")[0]`; properties in `Paths.TreebankIdRoundTrip` and `Paths.TreebankIdCutsDottedId` |
| Paths.BasenameOfJoin | alpinoserver.py:157 | the basename of `join(d, name)` is `name` for a `/`-free name |
| Paths.SplitextOfName | alpinoserver.py:171 | `splitext` of `stem + ext` is `(stem, ext)` when the stem is `/`-free and not all dots and `ext` is one extension |
| Paths.XmlIdOfXmlName | alpinoserver.py:171 | a directory entry `<stem>.xml` gets id `<stem>` |
| Paths.TreebankIdRoundTrip | alpinoserver.py:157-163 | an id with neither `.` nor `/` comes back from `basename(join(d, id + ".xml")).split(".")[0]` |
| Paths.StripIdRoundTrip | alpinoserver.py:138-139 | with `strip_id`, `join(d, id + ".xml")` is reduced back to `id` for every `/`-free id that is not all dots, dotted ids included |
| Paths.TreebankIdCutsDottedId | alpinoserver.py:157-163 | for an id `a.b` the overlay's derivation gives `a`, which is not the id |
| ResultDicts.Put | alpinoserver.py:171 | assigning a key keeps the dict well formed: ids distinct and equal to the key set |
| ResultDicts.AppendTriple | alpinoserver.py:140 | `setdefault(k, {}).setdefault("triples", []).append(t)` puts `k` last if new, leaves it in place otherwise, changes only `k`'s entry, keeps its `"xml"`, and extends its list by `t` |
| ResultDicts.AppendTriplesOf | alpinoserver.py:140 | the append extends `k`'s list by `t` and leaves every other key's list as it was |
| ResultDicts.AppendToExisting | alpinoserver.py:164 | appending under a key already present changes neither the keys, their order, nor any `"xml"` |
| ResultDicts.InsertAllIsDedup | alpinoserver.py:140 | assigning keys in turn keeps old keys in place and appends the new ones once each, in order of first assignment |
| ResultDicts.ResultDict.SetDefaultAppend | alpinoserver.py:140 | the in-place append leaves the object holding `AppendTriple` of its old value |
| ResultDicts.ResultDict.Empty | alpinoserver.py:130 | `{}` is the empty dict |
| ResultDicts.ResultDict.Of | alpinoserver.py:156 | an object holding a given well-formed dict |
| Triples.RowId | alpinoserver.py:136-139 | definition of the id of a line, `fields[-1]`, reduced when `strip_id` is set; properties in `Triples.RowOfFields` and `Triples.RowShape` |
| Triples.RowTriple | alpinoserver.py:136-140 | definition of the stored triple `fields[:-1]`; properties in `Triples.RowOfFields` and `Triples.RowShape` |
| Triples.ReadRow | alpinoserver.py:135-140 | definition of one loop pass: a blank line is skipped, any other line appends its triple under its id; properties in `Triples.ReadRowTriples` |
| Triples.ReadRows | alpinoserver.py:135-140 | the fold over lines keeps the dict well formed |
| Triples.ReadTriples | alpinoserver.py:133-141 | definition of `read_triples_into_dict` as a value, the fold over `triples.split("\n")`; properties in the `ReadRows` lemmas below |
| Triples.ReadTriplesIntoDict | alpinoserver.py:133-141 | the loop updates `result` in place to the fold `ReadTriples` of its old value and returns that same object |
| Triples.RowOfFields | alpinoserver.py:136-140 | a line of bar-free fields stores all fields but the last, under the last |
| Triples.RowShape | alpinoserver.py:136-140 | every line is its stored triple and raw id joined by a bar, and no stored field contains a bar |
| Triples.SeparatorFreeRow | alpinoserver.py:136-140 | a line without a bar is stored under the whole line with the empty triple `[]` |
| Triples.ReadRowsSnoc | alpinoserver.py:135-140 | a blank line adds nothing, and any other line appends exactly one triple under its id |
| Triples.ReadRowsIds | alpinoserver.py:135-140 | ids already present keep their place; new ids follow once each, in first-seen order |
| Triples.ReadRowsInsertAll | alpinoserver.py:135-140 | the ids afterwards are the keys assigned in turn by the data lines |
| Triples.ReadRowTriples | alpinoserver.py:140 | one line extends the list of its own id by its triple and no other list |
| Triples.ReadRowsTriples | alpinoserver.py:135-140 | each id's list is its old list followed by the triples of its lines, in line order |
| Triples.ReadRowsEntries | alpinoserver.py:135-140 | an id is present afterwards exactly when it was or a line names it; `"xml"` is kept; a new id has none; a named id has a list; an unnamed entry is untouched |
| Triples.ReadRowsKeepsTriples | alpinoserver.py:140 | an entry that has a triples list keeps one |
| Triples.ReadRowsIntoEmpty | alpinoserver.py:133-141 | lines read into `{}` give the lines' ids once each in first-seen order, each with the triples of its lines in order and no `"xml"` |
| Triples.ReadIntoEmpty | alpinoserver.py:133-141 | the same for the text split at newlines |
| Triples.CollectedNonEmptyIffNamed | alpinoserver.py:135-140 | an id gains triples exactly when some data line names it |
| Treebank.XmlDict | alpinoserver.py:171 | definition of the XML-phase comprehension over the files in listing order; properties in `Treebank.XmlDictIds` and `Treebank.PutFilesEntries` |
| Treebank.PutFiles | alpinoserver.py:171 | the comprehension keeps the dict well formed |
| Treebank.PutFilesInsertAll | alpinoserver.py:171 | its ids are the files' ids assigned in listing order |
| Treebank.XmlDictIds | alpinoserver.py:171-172 | the XML-phase ids are the files' ids once each in first-listed order; the dict is empty exactly when the directory is |
| Treebank.LastContentsFound | alpinoserver.py:171 | an id has contents exactly when some file carries it |
| Treebank.PutFilesEntries | alpinoserver.py:171 | an id of some file holds only `"xml"`, with the contents of the last file carrying it; other entries are untouched |
| Treebank.XmlPaths | alpinoserver.py:157 | one path `join(d, id + ".xml")` per id, in order |
| Treebank.TreebankPaths | alpinoserver.py:157-158 | definition of `list(fns.keys())`, the distinct paths in first-seen order; properties in `Treebank.PathNamesId` |
| Treebank.TreebankCommand | alpinoserver.py:158 | definition of the `-treebank_triples` command line; properties in `Server.TreebankTriplesCalls` |
| Treebank.ParseLine | alpinoserver.py:161-163 | definition of how the loop body reads a line; properties in `Treebank.ParseLineCases` |
| Treebank.OverlayLine | alpinoserver.py:161-164 | definition of one loop pass; properties in `Treebank.OverlayLineOk` and `Treebank.OverlayLineJoins` |
| Treebank.Overlay | alpinoserver.py:160-164 | definition of the loop as a fold that stops at the first failing line; properties in `Treebank.OverlayOkIff`, `Treebank.OverlayKeeps` and `Treebank.OverlayTriples` |
| Treebank.ParseLineCases | alpinoserver.py:161-163 | a line is skipped exactly when `strip()` empties it, fails to unpack exactly when it is not blank and has no bar, and otherwise yields the text before its last bar and the id of what follows |
| Treebank.OverlayLineOk | alpinoserver.py:161-164 | one line passes exactly when it is blank or names an existing id, and otherwise fails with `Unpack` or `MissingId` |
| Treebank.OverlayLineJoins | alpinoserver.py:161-164 | a passing line leaves the dict alone if blank and otherwise appends its prefix to its id |
| Treebank.JoinParsedKeeps | alpinoserver.py:164 | a passing line keeps the ids, their order, the key set and every `"xml"` |
| Treebank.JoinParsedTriples | alpinoserver.py:164 | a passing line extends exactly its id's list, by its prefix |
| Treebank.OverlayUnfold | alpinoserver.py:160-164 | the overlay of the lines from `i` on is line `i` followed by the overlay of the rest |
| Treebank.OverlayLineInto | alpinoserver.py:161-164 | the loop body on one line updates `result` in place to `OverlayLine` of its old value, or reports the failure and changes nothing |
| Treebank.OverlayTriplesInto | alpinoserver.py:159-164 | the loop updates `result` in place to the fold `Overlay`, and reports a failure exactly when the fold fails, with the same failure |
| Treebank.FirstFailing | alpinoserver.py:160-164 | the first line that does not pass, judged against the starting dict, is at most the number of lines |
| Treebank.FirstFailingParsed | alpinoserver.py:160-164 | the first parsed line that does not pass is at most the number of lines |
| Treebank.ParseAll | alpinoserver.py:160-162 | one parse per line |
| Treebank.ParseAllAt | alpinoserver.py:160-162 | the parse at `i` is that of line `i` |
| Treebank.OverlayIsParsed | alpinoserver.py:160-164 | the overlay of the lines is the overlay of their parses, so whether a line passes is decided by its parse |
| Treebank.FirstFailingIsParsed | alpinoserver.py:160-164 | the first failing line is the first failing parse |
| Treebank.JoinsByKeys | alpinoserver.py:164 | whether a parsed line passes depends only on the dict's keys |
| Treebank.FirstFailingByKeys | alpinoserver.py:164 | the first failing parse is the same for dicts with the same keys |
| Treebank.ParsedFailure | alpinoserver.py:160-164 | the overlay of parsed lines fails exactly when some parse does not pass, and then with the failure of the first such parse |
| Treebank.OverlayFailure | alpinoserver.py:160-164 | the overlay fails exactly when some line does not pass, and then with the failure of the first such line |
| Treebank.FirstFailingFails | alpinoserver.py:160-164 | the first failing line does not pass |
| Treebank.FirstFailingIsFirst | alpinoserver.py:160-164 | every line before the first failing one passes |
| Treebank.OverlayOkIff | alpinoserver.py:160-164 | the overlay succeeds exactly when every line passes; otherwise it raises the `KeyError` or unpack failure of the first line that does not, and all earlier lines pass |
| Treebank.OverlayKeeps | alpinoserver.py:160-164 | on success the ids, their order, the key set and every `"xml"` are unchanged |
| Treebank.OverlayTriples | alpinoserver.py:160-164 | on success each id's list is its old list followed by the prefixes of its lines, in line order |
| Treebank.OverlayAppendsWholePrefix | alpinoserver.py:162-164 | the appended string is the whole text before the last bar, that is the fields `read_triples_into_dict` would store, joined back |
| Treebank.PathNamesId | alpinoserver.py:157-163 | a path given to `-treebank_triples` derives an XML-phase id when the ids have neither `.` nor `/` |
| Treebank.OverlayOfGeneratedPaths | alpinoserver.py:157-164 | when every data line ends in one of the given paths, the overlay succeeds and keeps the ids |
| Server.CallAlpinoStdout | alpinoserver.py:195-199 | definition of `call_alpino_stdout`; properties in `Server.CallAlpinoStdoutOutcome` |
| Server.Tokenize | alpinoserver.py:93-94 | definition of `tokenize`; properties in `Server.TokenizeOutcome` |
| Server.Dependencies | alpinoserver.py:122-130 | definition of `alpino_dependencies`; properties in `Server.DependenciesOutcome` |
| Server.XmlRaw | alpinoserver.py:168-174 | definition of `alpino_xml_raw`; properties in `Server.XmlRawOutcome` |
| Server.Xml | alpinoserver.py:144-151 | definition of `alpino_xml`, in the temporary directory; properties in `Server.XmlRawOutcome` |
| Server.TreebankTriples | alpinoserver.py:154-165 | definition of `alpino_treebank_triples`; properties in `Server.TreebankTriplesCalls` and `Server.TreebankTriplesJoins` |
| Server.Dispatch | alpinoserver.py:112-119 | definition of the `if`/`elif` chain of `parse`; properties in `Server.DispatchCalls` and `Server.ParseKnownOutput` |
| Server.Parse | alpinoserver.py:97-119 | definition of `parse`; properties in `Server.ParseTokenizes`, `Server.ParseAfterTokenize`, `Server.ParseUnknownOutput` and `Server.ParseKnownOutput` |
| Server.AlpinoDependencies | alpinoserver.py:122-130 | a fresh dict filled in place by `read_triples_into_dict`, equal to `Dependencies`, or its failure |
| Server.AlpinoTreebankTriples | alpinoserver.py:154-165 | the XML-phase dict updated in place by the overlay loop, equal to `TreebankTriples`, or its failure |
| Server.CallAlpinoStdoutOutcome | alpinoserver.py:195-199 | one process; stdout is returned exactly when it is non-empty, and empty stdout fails naming the command and carrying stderr |
| Server.TokenizeOutcome | alpinoserver.py:93-94 | the tokens hold no bar and keep every other character of the tokenizer's output, in order and as often; empty output fails |
| Server.TreebankTriplesCalls | alpinoserver.py:154-165 | the treebank phase only starts Alpino proper, given the tokens or nothing |
| Server.DispatchCalls | alpinoserver.py:112-117 | every process a dispatch starts is Alpino proper, given the tokens or nothing |
| Server.ParseTokenizes | alpinoserver.py:110-111 | the tokenizer is the first process exactly when `tokenized` is false, and is never started again later |
| Server.ParseAfterTokenize | alpinoserver.py:110-117 | untokenized text parses as its tokens do as tokenized text, after the tokenizer's process; no later process is given a bar |
| Server.ParseUnknownOutput | alpinoserver.py:110-119 | an unknown output kind raises `ValueError` after tokenizing (the tokenizer's own failure comes first) and starts no Alpino process |
| Server.ParseKnownOutput | alpinoserver.py:112-117 | on tokenized text each known kind is exactly its operation |
| Server.DependenciesOutcome | alpinoserver.py:122-130 | empty Alpino output fails; otherwise the ids are the lines' ids once each in first-seen order, each with the triples of its lines in order and no `"xml"` |
| Server.XmlRawOutcome | alpinoserver.py:168-174 | fails exactly when the XML run wrote no file, carrying its stderr; otherwise the ids are the files' ids and each holds the last such file's contents |
| Server.SentenceFileId | alpinoserver.py:171 | a file `<stem>.xml` with a non-empty stem free of `.` and `/` gets that stem as id |
| Server.SentenceFileIds | alpinoserver.py:171 | such files give ids free of `.` and `/` |
| Server.TreebankTriplesJoins | alpinoserver.py:154-165 | when Alpino names its files `<stem>.xml` and every output line ends in a path it was given, the treebank phase succeeds and keeps the XML phase's ids |
| Naf.GetParsedNaf | alpinoserver.py:74-86 | definition of `get_parsed_naf`; properties in `Naf.GetParsedNafKeepsParsed` and `Naf.GetParsedNafIdempotent` |
| Naf.GetParsedNafKeepsParsed | alpinoserver.py:74-86 | a body that reads as a document with dependencies is returned unchanged; otherwise `parse_naf` gets the document, or the raw body when it is not XML |
| Naf.GetParsedNafIdempotent | alpinoserver.py:74-86 | when `parse_naf` always yields a document with dependencies, the result is already parsed and resubmitting it returns it unchanged |

## Left out

- HTTP routing, request decoding and response headers: web plumbing.
- Starting processes (`call_alpino`, `Popen`, `communicate`), the environment
  variable `ALPINO_HOME` and UTF-8 decoding: a process is modelled by what it
  prints, as a parameter of `Server.Alpino`.
- `call_alpino_stdout(cmd)` without input: modelled as the empty input,
  because `communicate` sends nothing for either.
- `do_nerc` (the Java tagger and its environment and file checks): external
  process and OS state.
- Creating and removing the temporary directory, `os.listdir` and
  `open().read()`: the directory's name is a parameter, and the listing is a
  sequence of file names with contents, in whatever order the OS gives.
- `_alpino_error`'s diagnostic file and its log line: only the exception it
  raises is modelled (`EmptyOutput`).
- `KafNafParser`, `alpinonaf.parse` and `parse_naf`'s internals: the NAF
  reader and `parse_naf` are parameters of `Naf.Naf`.
- Naf.GetParsedNaf: an `XMLSyntaxError` raised inside `parse_naf` (which the
  same `try` would also catch) is not modelled.
- Treebank.OverlayTriplesInto: after a failure, the state of `result` (the
  lines before the failing one already applied) is not stated. The server
  discards it with the exception.
- Logging, argument parsing and `app.run(threaded=True)`: startup code and
  concurrency.
