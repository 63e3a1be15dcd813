/** The two halves of `alpino_treebank_triples`: the XML phase's dict built
    from the treebank directory (`alpino_xml_raw`), and the overlay of the
    `-treebank_triples` output onto it. */
module Treebank {
  import opened PyStrings
  import opened Paths
  import opened Outcomes
  import opened ResultDicts

  /** A file the XML run left in the treebank directory: its name as
      `os.listdir` gives it and what `open(...).read()` returns. */
  datatype File = File(name: string, contents: string)

  /** The dict comprehension over the directory, one assignment per file in
      listing order: a later file with the same id overwrites the value but
      keeps the key's place. */
  function PutFiles(d: Dict, files: seq<File>): (r: Dict)
    ensures d.WellFormed() ==> r.WellFormed()
    decreases files
  {
    if files == [] then d
    else PutFiles(Put(d, XmlId(files[0].name), Entry(Some(files[0].contents), None)), files[1..])
  }

  /** `{os.path.splitext(fn)[0]: {"xml": ...} for fn in os.listdir(treebank)}` */
  function XmlDict(files: seq<File>): Dict {
    PutFiles(EmptyDict, files)
  }

  /** The ids of the files, in listing order, repeats kept. */
  function FileIds(files: seq<File>): seq<string> {
    if files == [] then [] else [XmlId(files[0].name)] + FileIds(files[1..])
  }

  /** The contents of the last file whose id is `k`. */
  function LastContents(files: seq<File>, k: string): Option<string> {
    if files == [] then None
    else
      var later := LastContents(files[1..], k);
      if later.Some? then later
      else if XmlId(files[0].name) == k then Some(files[0].contents)
      else None
  }

  lemma {:induction false} PutFilesInsertAll(d: Dict, files: seq<File>)
    ensures PutFiles(d, files).ids == InsertAll(d.ids, FileIds(files))
    decreases files
  {
    if files != [] {
      var e := Entry(Some(files[0].contents), None);
      PutFilesInsertAll(Put(d, XmlId(files[0].name), e), files[1..]);
      assert FileIds(files)[1..] == FileIds(files[1..]);
    }
  }

  /** The XML phase's ids are the files' ids, each once, in listing order of
      first occurrence; in particular the dict is empty only when the
      directory is. */
  lemma XmlDictIds(files: seq<File>)
    ensures XmlDict(files).ids == Dedup(FileIds(files))
    ensures XmlDict(files).ids == [] <==> files == []
  {
    PutFilesInsertAll(EmptyDict, files);
    InsertAllIsDedup([], FileIds(files));
    AbsentOfNothing(FileIds(files));
    if files != [] {
      assert FileIds(files)[0] in Dedup(FileIds(files));
    }
  }

  lemma {:induction false} LastContentsFound(files: seq<File>, k: string)
    ensures LastContents(files, k).Some? <==> k in FileIds(files)
    decreases files
  {
    if files != [] {
      LastContentsFound(files[1..], k);
    }
  }

  /** Each entry holds only `"xml"`, with the contents of the last file
      carrying its id; an id no file carries keeps its old entry. */
  lemma {:induction false} PutFilesEntries(d: Dict, files: seq<File>, k: string)
    ensures k in PutFiles(d, files).entries <==> k in d.entries || k in FileIds(files)
    ensures k in FileIds(files) ==>
      PutFiles(d, files).entries[k] == Entry(LastContents(files, k), None) && LastContents(files, k).Some?
    ensures k !in FileIds(files) && k in d.entries ==> PutFiles(d, files).entries[k] == d.entries[k]
    decreases files
  {
    LastContentsFound(files, k);
    if files != [] {
      PutFilesEntries(Put(d, XmlId(files[0].name), Entry(Some(files[0].contents), None)), files[1..], k);
      assert FileIds(files) == [XmlId(files[0].name)] + FileIds(files[1..]);
      LastContentsFound(files[1..], k);
    }
  }

  /** `[os.path.join(d, "{id}.xml") for id in ids]` */
  function XmlPaths(dir: string, ids: seq<string>): (r: seq<string>)
    ensures |r| == |ids|
    ensures forall i | 0 <= i < |ids| :: r[i] == XmlPath(dir, ids[i])
  {
    if ids == [] then [] else [XmlPath(dir, ids[0])] + XmlPaths(dir, ids[1..])
  }

  /** `list(fns.keys())` for `fns = {os.path.join(d, "{id}.xml"): id for id in ids}` */
  function TreebankPaths(dir: string, ids: seq<string>): seq<string> {
    Dedup(XmlPaths(dir, ids))
  }

  /** `["bin/Alpino", "-treebank_triples"] + list(fns.keys())` */
  function TreebankCommand(dir: string, ids: seq<string>): seq<string> {
    ["bin/Alpino", "-treebank_triples"] + TreebankPaths(dir, ids)
  }

  /** The part of a line before its last `|`: the string the overlay stores. */
  function LinePrefix(line: string): string
    requires '|' in line
  {
    RSplitOnce(line, '|')[0]
  }

  /** The id a line joins on: `os.path.basename(fn).split(".")[0]`, where `fn`
      follows the last `|`. */
  function LineId(line: string): string
    requires '|' in line
  {
    TreebankId(RSplitOnce(line, '|')[1])
  }

  /** A line of the `-treebank_triples` output as the loop body reads it:
      skipped by the `if line.strip()` filter, without a `|` (so the
      two-name unpacking of `rsplit("|", 1)` fails), or the text before its
      last `|` and the id derived from the file name after it. */
  datatype LineParse = BlankLine | NoSeparator(line: string) | DataLine(prefix: string, id: string)

  function ParseLine(line: string): LineParse {
    if Strip(line) == "" then BlankLine
    else
      var parts := RSplitOnce(line, '|');
      if |parts| != 2 then NoSeparator(line)
      else DataLine(parts[0], TreebankId(parts[1]))
  }

  /** One pass of the overlay loop: `result[id]` raises `KeyError` for an id
      the XML phase did not produce. */
  function OverlayLine(d: Dict, line: string): Result<Dict> {
    match ParseLine(line)
    case BlankLine => Ok(d)
    case NoSeparator(_) => Err(Unpack(line))
    case DataLine(prefix, id) =>
      if id !in d.entries then Err(MissingId(id)) else Ok(AppendTriple(d, id, Joined(prefix)))
  }

  /** The overlay loop over `lines`; the first failing line ends it. */
  function Overlay(d: Dict, lines: seq<string>): Result<Dict>
    decreases lines
  {
    if lines == [] then Ok(d)
    else
      match OverlayLine(d, lines[0])
      case Err(e) => Err(e)
      case Ok(d') => Overlay(d', lines[1..])
  }

  /** A parsed line the overlay gets past. */
  predicate Joins(d: Dict, p: LineParse) {
    p.BlankLine? || (p.DataLine? && p.id in d.entries)
  }

  /** A line the overlay gets past: blank, or holding a `|` and naming an id
      the dict already has (see `ParseLineCases`). */
  predicate LineJoins(d: Dict, line: string) {
    Joins(d, ParseLine(line))
  }

  /** The failure a parsed line that does not join raises. */
  function ParsedError(p: LineParse): Error
    requires !p.BlankLine?
  {
    if p.DataLine? then MissingId(p.id) else Unpack(p.line)
  }

  /** The failure a line that does not join raises. */
  function LineError(d: Dict, line: string): Error
    requires !LineJoins(d, line)
  {
    ParsedError(ParseLine(line))
  }

  /** What a line appends for `k`. */
  function Collect(p: LineParse, k: string): seq<Triple> {
    if p.DataLine? && p.id == k then [Joined(p.prefix)] else []
  }

  /** The strings the overlay appends for `k`, in line order. */
  function OverlayCollected(lines: seq<string>, k: string): seq<Triple> {
    if lines == [] then [] else Collect(ParseLine(lines[0]), k) + OverlayCollected(lines[1..], k)
  }

  /** How the loop body reads a line: blank exactly when `strip()` empties it,
      failing to unpack exactly when a non-blank line has no `|`, and
      otherwise storing the text before the last `|` under the id of what
      follows it. */
  lemma ParseLineCases(line: string)
    ensures ParseLine(line).BlankLine? <==> Strip(line) == ""
    ensures ParseLine(line).NoSeparator? <==> Strip(line) != "" && '|' !in line
    ensures ParseLine(line).DataLine? ==>
      '|' in line && ParseLine(line) == DataLine(LinePrefix(line), LineId(line))
  {
  }

  /** One line passes exactly when it joins, and fails with its own error
      otherwise. */
  lemma OverlayLineOk(d: Dict, line: string)
    ensures OverlayLine(d, line).Ok? <==> LineJoins(d, line)
    ensures !LineJoins(d, line) ==> OverlayLine(d, line) == Err(LineError(d, line))
  {
  }

  /** The dict after a line that joins. */
  function JoinParsed(d: Dict, p: LineParse): Dict
    requires Joins(d, p)
  {
    if p.BlankLine? then d else AppendTriple(d, p.id, Joined(p.prefix))
  }

  /** A blank line leaves the dict as it is; a data line that joins appends
      its prefix to its id's entry. */
  lemma OverlayLineJoins(d: Dict, line: string)
    requires LineJoins(d, line)
    ensures OverlayLine(d, line) == Ok(JoinParsed(d, ParseLine(line)))
  {
  }

  /** A line that joins only appends to an entry that was there: the keys,
      their order and each entry's `"xml"` stay as they were. */
  lemma JoinParsedKeeps(d: Dict, p: LineParse, k: string)
    requires d.WellFormed() && Joins(d, p)
    ensures JoinParsed(d, p).WellFormed()
    ensures JoinParsed(d, p).ids == d.ids
    ensures JoinParsed(d, p).entries.Keys == d.entries.Keys
    ensures k in d.entries ==> JoinParsed(d, p).entries[k].xml == d.entries[k].xml
  {
    if p.DataLine? {
      AppendToExisting(d, p.id, Joined(p.prefix), k);
    }
  }

  /** A line that joins appends what it collects for `k` to `k`'s triples. */
  lemma JoinParsedTriples(d: Dict, p: LineParse, k: string)
    requires d.WellFormed() && Joins(d, p)
    ensures TriplesOf(JoinParsed(d, p), k) == TriplesOf(d, k) + Collect(p, k)
  {
    if p.DataLine? {
      AppendToExisting(d, p.id, Joined(p.prefix), k);
    } else {
      assert TriplesOf(d, k) + [] == TriplesOf(d, k);
    }
  }

  /** One turn of the loop runs the overlay on the line at `i`. */
  lemma OverlayUnfold(d: Dict, lines: seq<string>, i: int)
    requires 0 <= i < |lines|
    ensures Overlay(d, lines[i..]) ==
      match OverlayLine(d, lines[i])
      case Err(e) => Err(e)
      case Ok(d') => Overlay(d', lines[i + 1..])
  {
    assert lines[i..][1..] == lines[i + 1..];
  }

  /** The loop body of `alpino_treebank_triples` on one line, updating
      `result` in place; a line that fails is reported and changes nothing. */
  method OverlayLineInto(result: ResultDict, line: string) returns (failure: Option<Error>)
    requires result.Valid()
    modifies result
    ensures result.Valid()
    ensures failure.None? <==> OverlayLine(old(result.Value()), line).Ok?
    ensures failure.None? ==> result.Value() == OverlayLine(old(result.Value()), line).value
    ensures failure.Some? ==> failure.value == OverlayLine(old(result.Value()), line).error
    ensures failure.Some? ==> result.Value() == old(result.Value())
  {
    var p := ParseLine(line);
    if p.BlankLine? {
      failure := None;
    } else if p.NoSeparator? {
      failure := Some(Unpack(line));
    } else if p.id !in result.entries {
      failure := Some(MissingId(p.id));
    } else {
      result.SetDefaultAppend(p.id, Joined(p.prefix));
      failure := None;
    }
  }

  /** The loop of `alpino_treebank_triples` over the `-treebank_triples`
      output `triples`, updating `result` in place; the failure that ends it
      early, if any, is returned. */
  method OverlayTriplesInto(result: ResultDict, triples: string) returns (failure: Option<Error>)
    requires result.Valid()
    modifies result
    ensures result.Valid()
    ensures failure.None? <==> Overlay(old(result.Value()), Split(triples, '\n')).Ok?
    ensures failure.None? ==> result.Value() == Overlay(old(result.Value()), Split(triples, '\n')).value
    ensures failure.Some? ==> failure.value == Overlay(old(result.Value()), Split(triples, '\n')).error
  {
    var lines := Split(triples, '\n');
    ghost var d0 := result.Value();
    var i := 0;
    while i < |lines|
      invariant 0 <= i <= |lines|
      invariant result.Valid()
      invariant Overlay(result.Value(), lines[i..]) == Overlay(d0, lines)
    {
      OverlayUnfold(result.Value(), lines, i);
      failure := OverlayLineInto(result, lines[i]);
      if failure.Some? {
        return;
      }
      i := i + 1;
    }
    return None;
  }

  /** The index of the first line that does not join, `|lines|` when every
      line does: a reference definition that judges every line against the
      dict it started from. */
  function FirstFailing(d: Dict, lines: seq<string>): (i: nat)
    ensures i <= |lines|
  {
    if lines == [] || !LineJoins(d, lines[0]) then 0 else 1 + FirstFailing(d, lines[1..])
  }

  // The definitions below restate `Overlay`, `FirstFailing`, `LineJoins` and
  // `LineError` over parsed lines. They add no behaviour: they exist so that
  // the proofs about the first failure never unfold the string functions
  // behind `ParseLine`. `OverlayIsParsed` and `FirstFailingIsParsed` tie the
  // two layers together.

  /** The overlay loop over lines already parsed: a parsed line that does
      not join ends it with its failure. */
  function OverlayParsed(d: Dict, ps: seq<LineParse>): Result<Dict>
    decreases ps
  {
    if ps == [] then Ok(d)
    else if !Joins(d, ps[0]) then Err(ParsedError(ps[0]))
    else OverlayParsed(JoinParsed(d, ps[0]), ps[1..])
  }

  /** The index of the first parsed line that does not join against `d`. */
  function FirstFailingParsed(d: Dict, ps: seq<LineParse>): (i: nat)
    ensures i <= |ps|
  {
    if ps == [] || !Joins(d, ps[0]) then 0 else 1 + FirstFailingParsed(d, ps[1..])
  }

  /** Each line parsed, in order. */
  function ParseAll(lines: seq<string>): (ps: seq<LineParse>)
    ensures |ps| == |lines|
  {
    if lines == [] then [] else [ParseLine(lines[0])] + ParseAll(lines[1..])
  }

  lemma {:induction false} ParseAllAt(lines: seq<string>, i: nat)
    requires i < |lines|
    ensures ParseAll(lines)[i] == ParseLine(lines[i])
    decreases lines
  {
    if i > 0 {
      ParseAllAt(lines[1..], i - 1);
      assert lines[1..][i - 1] == lines[i];
    }
  }

  lemma ParseAllTail(lines: seq<string>)
    requires lines != []
    ensures ParseAll(lines)[0] == ParseLine(lines[0])
    ensures ParseAll(lines)[1..] == ParseAll(lines[1..])
  {
    assert ParseAll(lines) == [ParseLine(lines[0])] + ParseAll(lines[1..]);
  }

  /** The overlay of the lines is the overlay of their parses. */
  lemma {:induction false} OverlayIsParsed(d: Dict, lines: seq<string>)
    ensures Overlay(d, lines) == OverlayParsed(d, ParseAll(lines))
    decreases lines
  {
    if lines != [] {
      var ps := ParseAll(lines);
      ParseAllTail(lines);
      OverlayLineOk(d, lines[0]);
      if LineJoins(d, lines[0]) {
        OverlayLineJoins(d, lines[0]);
        OverlayIsParsed(JoinParsed(d, ps[0]), lines[1..]);
      }
    }
  }

  /** The first failing line is the first failing parse. */
  lemma {:induction false} FirstFailingIsParsed(d: Dict, lines: seq<string>)
    ensures FirstFailing(d, lines) == FirstFailingParsed(d, ParseAll(lines))
    decreases lines
  {
    if lines != [] {
      ParseAllTail(lines);
      FirstFailingIsParsed(d, lines[1..]);
    }
  }

  /** Whether a parsed line joins depends only on the dict's keys. */
  lemma JoinsByKeys(d: Dict, d': Dict, p: LineParse)
    requires d'.entries.Keys == d.entries.Keys
    ensures Joins(d', p) == Joins(d, p)
  {
    assert forall k :: k in d'.entries <==> k in d.entries;
  }

  /** The first failing parse is the same for dicts with the same keys. */
  lemma {:induction false} FirstFailingByKeys(d: Dict, d': Dict, ps: seq<LineParse>)
    requires d'.entries.Keys == d.entries.Keys
    ensures FirstFailingParsed(d', ps) == FirstFailingParsed(d, ps)
    decreases ps
  {
    if ps != [] {
      JoinsByKeys(d, d', ps[0]);
      FirstFailingByKeys(d, d', ps[1..]);
    }
  }

  /** The overlay of parsed lines fails exactly when some parse does not
      join, and then with the failure of the first such parse. */
  lemma {:induction false} ParsedFailure(d: Dict, ps: seq<LineParse>)
    requires d.WellFormed()
    ensures OverlayParsed(d, ps).Ok? <==> FirstFailingParsed(d, ps) == |ps|
    ensures OverlayParsed(d, ps).Err? ==>
      && FirstFailingParsed(d, ps) < |ps| && !Joins(d, ps[FirstFailingParsed(d, ps)])
      && OverlayParsed(d, ps).error == ParsedError(ps[FirstFailingParsed(d, ps)])
    decreases ps
  {
    if ps != [] && Joins(d, ps[0]) {
      var d' := JoinParsed(d, ps[0]);
      JoinParsedKeeps(d, ps[0], "");
      ParsedFailure(d', ps[1..]);
      FirstFailingByKeys(d, d', ps[1..]);
      var i := FirstFailingParsed(d, ps[1..]);
      if i < |ps| - 1 {
        assert ps[1..][i] == ps[i + 1];
        JoinsByKeys(d, d', ps[i + 1]);
      }
    }
  }

  /** The overlay fails exactly when some line does not join, and then with
      the failure of the first such line. */
  lemma OverlayFailure(d: Dict, lines: seq<string>)
    requires d.WellFormed()
    ensures Overlay(d, lines).Ok? <==> FirstFailing(d, lines) == |lines|
    ensures Overlay(d, lines).Err? ==>
      && FirstFailing(d, lines) < |lines| && !LineJoins(d, lines[FirstFailing(d, lines)])
      && Overlay(d, lines).error == LineError(d, lines[FirstFailing(d, lines)])
  {
    OverlayIsParsed(d, lines);
    FirstFailingIsParsed(d, lines);
    ParsedFailure(d, ParseAll(lines));
    var i := FirstFailing(d, lines);
    if i < |lines| {
      ParseAllAt(lines, i);
    }
  }

  /** The first failing line does not join. */
  lemma {:induction false} FirstFailingFails(d: Dict, lines: seq<string>)
    requires FirstFailing(d, lines) < |lines|
    ensures !LineJoins(d, lines[FirstFailing(d, lines)])
  {
    FirstFailingIsParsed(d, lines);
    ParsedFirstFails(d, ParseAll(lines));
    ParseAllAt(lines, FirstFailing(d, lines));
  }

  lemma {:induction false} ParsedFirstFails(d: Dict, ps: seq<LineParse>)
    requires FirstFailingParsed(d, ps) < |ps|
    ensures !Joins(d, ps[FirstFailingParsed(d, ps)])
    decreases ps
  {
    if Joins(d, ps[0]) {
      ParsedFirstFails(d, ps[1..]);
      assert ps[1..][FirstFailingParsed(d, ps[1..])] == ps[FirstFailingParsed(d, ps)];
    }
  }

  /** Every line before the first failing one joins. */
  lemma {:induction false} FirstFailingIsFirst(d: Dict, lines: seq<string>)
    ensures forall j | 0 <= j < FirstFailing(d, lines) :: LineJoins(d, lines[j])
    decreases lines
  {
    if lines != [] && LineJoins(d, lines[0]) {
      FirstFailingIsFirst(d, lines[1..]);
      assert forall j | 1 <= j < |lines| :: lines[j] == lines[1..][j - 1];
    }
  }

  /** The overlay succeeds exactly when every line joins, and otherwise
      fails with the failure of the first line that does not. */
  lemma OverlayOkIff(d: Dict, lines: seq<string>)
    requires d.WellFormed()
    ensures Overlay(d, lines).Ok? <==> forall i | 0 <= i < |lines| :: LineJoins(d, lines[i])
    ensures Overlay(d, lines).Err? ==>
      var i := FirstFailing(d, lines);
      && i < |lines| && !LineJoins(d, lines[i]) && Overlay(d, lines).error == LineError(d, lines[i])
      && forall j | 0 <= j < i :: LineJoins(d, lines[j])
  {
    OverlayFailure(d, lines);
    FirstFailingIsFirst(d, lines);
  }

  /** On success the overlay keeps the ids, their order and their `"xml"`. */
  lemma {:induction false} OverlayKeeps(d: Dict, lines: seq<string>, k: string)
    requires d.WellFormed()
    requires Overlay(d, lines).Ok?
    ensures Overlay(d, lines).value.WellFormed()
    ensures Overlay(d, lines).value.ids == d.ids
    ensures Overlay(d, lines).value.entries.Keys == d.entries.Keys
    ensures k in d.entries ==> Overlay(d, lines).value.entries[k].xml == d.entries[k].xml
    decreases lines
  {
    if lines != [] {
      OverlayLineOk(d, lines[0]);
      var p := ParseLine(lines[0]);
      OverlayLineJoins(d, lines[0]);
      JoinParsedKeeps(d, p, k);
      OverlayKeeps(JoinParsed(d, p), lines[1..], k);
    }
  }

  /** On success the overlay appends to each id the strings of its lines, in
      line order. */
  lemma {:induction false} OverlayTriples(d: Dict, lines: seq<string>, k: string)
    requires d.WellFormed()
    requires Overlay(d, lines).Ok?
    ensures TriplesOf(Overlay(d, lines).value, k) == TriplesOf(d, k) + OverlayCollected(lines, k)
    decreases lines
  {
    if lines != [] {
      OverlayLineOk(d, lines[0]);
      var p := ParseLine(lines[0]);
      var d' := JoinParsed(d, p);
      OverlayLineJoins(d, lines[0]);
      assert Overlay(d, lines) == Overlay(d', lines[1..]);
      JoinParsedKeeps(d, p, k);
      JoinParsedTriples(d, p, k);
      OverlayTriples(d', lines[1..], k);
      var rest := OverlayCollected(lines[1..], k);
      assert OverlayCollected(lines, k) == Collect(p, k) + rest;
      AppendAssoc(TriplesOf(d, k), Collect(p, k), rest);
    } else {
      assert TriplesOf(d, k) + [] == TriplesOf(d, k);
    }
  }

  /** What the overlay appends is the whole text before the last `|`: the
      fields `read_triples_into_dict` would have stored as a list, joined
      back into one string. */
  lemma OverlayAppendsWholePrefix(line: string)
    requires '|' in line
    ensures LinePrefix(line) == Join(AllButLast(Split(line, '|')), '|')
    ensures LinePrefix(line) + "|" + RSplitOnce(line, '|')[1] == line
  {
    RSplitOnceIsSplit(line, '|');
  }

  /** A path the treebank command was given names an XML-phase id that has
      neither `.` nor `/`, so its line joins on that id. */
  lemma PathNamesId(dir: string, ids: seq<string>, p: string)
    requires forall i | 0 <= i < |ids| :: '/' !in ids[i] && '.' !in ids[i]
    requires p in TreebankPaths(dir, ids)
    ensures TreebankId(p) in ids
  {
    var ps := XmlPaths(dir, ids);
    assert p in ps;
    var i :| 0 <= i < |ps| && ps[i] == p;
    TreebankIdRoundTrip(dir, ids[i]);
  }

  /** When the XML-phase ids have neither `.` nor `/` and every data line of
      the `-treebank_triples` output ends in one of the paths the command was
      given, the overlay succeeds and keeps every XML-phase id. */
  lemma OverlayOfGeneratedPaths(d: Dict, dir: string, lines: seq<string>)
    requires d.WellFormed()
    requires forall i | 0 <= i < |d.ids| :: '/' !in d.ids[i] && '.' !in d.ids[i]
    requires forall i | 0 <= i < |lines| :: Strip(lines[i]) != "" ==>
      '|' in lines[i] && RSplitOnce(lines[i], '|')[1] in TreebankPaths(dir, d.ids)
    ensures Overlay(d, lines).Ok? && Overlay(d, lines).value.ids == d.ids
  {
    forall i | 0 <= i < |lines| ensures LineJoins(d, lines[i]) {
      if Strip(lines[i]) != "" {
        PathNamesId(dir, d.ids, RSplitOnce(lines[i], '|')[1]);
      }
    }
    OverlayOkIff(d, lines);
    OverlayKeeps(d, lines, "");
  }
}
