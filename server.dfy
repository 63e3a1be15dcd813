/** The parse pipeline of the server: the tokenizer, the three output kinds
    and the `parse` dispatch between them, over an Alpino installation that is
    a parameter (what each process it starts prints). */
module Server {
  import opened PyStrings
  import opened Paths
  import opened Outcomes
  import opened ResultDicts
  import opened Triples
  import opened Treebank

  /** What a finished process wrote, decoded: stdout and stderr. */
  datatype Output = Output(out: string, err: string)

  /** One process the server started: its command line and its stdin. */
  datatype Call = Call(command: seq<string>, input: string)

  /** The Alpino installation as the server sees it: the output of each
      command on each input, the files the XML run leaves in the treebank
      directory it is given, and the name of the temporary directory. */
  datatype Alpino = Alpino(
    run: (seq<string>, string) -> Output,
    written: (seq<string>, string) -> seq<File>,
    tempDir: string)

  /** An outcome with the processes started on the way, in order. */
  datatype Run<T> = Run(result: Result<T>, calls: seq<Call>)

  const TokenizerCommand: seq<string> := ["Tokenization/tok"]
  const DependenciesCommand: seq<string> := ["bin/Alpino", "end_hook=dependencies", "-parse"]

  /** The XML run, writing one file per sentence into `treebank`. */
  function XmlCommand(treebank: string): seq<string> {
    ["bin/Alpino", "end_hook=xml", "-parse", "-flag", "treebank", treebank]
  }

  /** `call_alpino_stdout(command, input)`: the process's stdout, which must
      not be empty. */
  function CallAlpinoStdout(a: Alpino, command: seq<string>, input: string): Run<string> {
    var o := a.run(command, input);
    Run(if o.out == "" then Err(EmptyOutput(command, o.err)) else Ok(o.out), [Call(command, input)])
  }

  /** `tokenize(text)`: the tokenizer's output with every `|` removed. */
  function Tokenize(a: Alpino, text: string): Run<string> {
    var r := CallAlpinoStdout(a, TokenizerCommand, text);
    match r.result
    case Err(e) => Run(Err(e), r.calls)
    case Ok(out) => Run(Ok(RemoveAll(out, '|')), r.calls)
  }

  /** `alpino_dependencies(tokens)` */
  function Dependencies(a: Alpino, tokens: string): Run<Dict> {
    var r := CallAlpinoStdout(a, DependenciesCommand, tokens);
    match r.result
    case Err(e) => Run(Err(e), r.calls)
    case Ok(triples) => Run(Ok(ReadTriples(EmptyDict, triples, false)), r.calls)
  }

  /** `alpino_xml_raw(input, treebank)`: the dict built from the files the XML
      run wrote; an empty directory is a failure reporting the run's stderr. */
  function XmlRaw(a: Alpino, input: string, treebank: string): Run<Dict> {
    var command := XmlCommand(treebank);
    var o := a.run(command, input);
    var d := XmlDict(a.written(command, input));
    Run(if d.ids == [] then Err(EmptyOutput(command, o.err)) else Ok(d), [Call(command, input)])
  }

  /** `alpino_xml(input)`, in the temporary directory. */
  function Xml(a: Alpino, input: string): Run<Dict> {
    XmlRaw(a, input, a.tempDir)
  }

  /** `alpino_treebank_triples(input)`: the XML phase, then the
      `-treebank_triples` run on its files (with no input), overlaid on the
      XML phase's dict. */
  function TreebankTriples(a: Alpino, input: string): Run<Dict> {
    var x := XmlRaw(a, input, a.tempDir);
    match x.result
    case Err(e) => x
    case Ok(d) =>
      var t := CallAlpinoStdout(a, TreebankCommand(a.tempDir, d.ids), "");
      match t.result
      case Err(e) => Run(Err(e), x.calls + t.calls)
      case Ok(triples) => Run(Overlay(d, Split(triples, '\n')), x.calls + t.calls)
  }

  /** The three output kinds `parse` knows. */
  predicate KnownOutput(output: string) {
    output == "dependencies" || output == "xml" || output == "treebank_triples"
  }

  /** The `if`/`elif` chain of `parse` on tokens. */
  function Dispatch(a: Alpino, tokens: string, output: string): Run<Dict> {
    if output == "dependencies" then Dependencies(a, tokens)
    else if output == "xml" then Xml(a, tokens)
    else if output == "treebank_triples" then TreebankTriples(a, tokens)
    else Run(Err(UnknownOutput(output)), [])
  }

  /** `parse(text, output, tokenized)`: tokenize unless the text already is,
      then dispatch on the output kind. */
  function Parse(a: Alpino, text: string, output: string, tokenized: bool): Run<Dict> {
    var tok := if tokenized then Run(Ok(text), []) else Tokenize(a, text);
    match tok.result
    case Err(e) => Run(Err(e), tok.calls)
    case Ok(tokens) =>
      var r := Dispatch(a, tokens, output);
      Run(r.result, tok.calls + r.calls)
  }

  /** `alpino_dependencies(tokens)` as the server runs it: a fresh dict filled
      in place by `read_triples_into_dict`. */
  method AlpinoDependencies(a: Alpino, tokens: string) returns (r: Result<ResultDict>)
    ensures r.Ok? <==> Dependencies(a, tokens).result.Ok?
    ensures r.Ok? ==> fresh(r.value) && r.value.Valid() && r.value.Value() == Dependencies(a, tokens).result.value
    ensures r.Err? ==> r.error == Dependencies(a, tokens).result.error
  {
    var c := CallAlpinoStdout(a, DependenciesCommand, tokens);
    if c.result.Err? {
      return Err(c.result.error);
    }
    var result := new ResultDict.Empty();
    var filled := ReadTriplesIntoDict(c.result.value, result, false);
    return Ok(filled);
  }

  /** `alpino_treebank_triples(input)` as the server runs it: the XML phase's
      dict, then the overlay loop updating it in place. */
  method AlpinoTreebankTriples(a: Alpino, input: string) returns (r: Result<ResultDict>)
    ensures r.Ok? <==> TreebankTriples(a, input).result.Ok?
    ensures r.Ok? ==> fresh(r.value) && r.value.Valid() && r.value.Value() == TreebankTriples(a, input).result.value
    ensures r.Err? ==> r.error == TreebankTriples(a, input).result.error
  {
    var x := XmlRaw(a, input, a.tempDir);
    if x.result.Err? {
      return Err(x.result.error);
    }
    var d := x.result.value;
    XmlRawOutcome(a, input, a.tempDir, "");
    var result := new ResultDict.Of(d);
    var t := CallAlpinoStdout(a, TreebankCommand(a.tempDir, d.ids), "");
    if t.result.Err? {
      return Err(t.result.error);
    }
    var failure := OverlayTriplesInto(result, t.result.value);
    if failure.Some? {
      return Err(failure.value);
    }
    return Ok(result);
  }

  /** `call_alpino_stdout` never returns empty output: empty stdout is a
      failure naming the command and carrying stderr. Each call starts one
      process. */
  lemma CallAlpinoStdoutOutcome(a: Alpino, command: seq<string>, input: string)
    ensures CallAlpinoStdout(a, command, input).calls == [Call(command, input)]
    ensures CallAlpinoStdout(a, command, input).result.Ok? <==> a.run(command, input).out != ""
    ensures CallAlpinoStdout(a, command, input).result.Ok? ==>
      CallAlpinoStdout(a, command, input).result.value == a.run(command, input).out
    ensures CallAlpinoStdout(a, command, input).result.Err? ==>
      CallAlpinoStdout(a, command, input).result.error == EmptyOutput(command, a.run(command, input).err)
  {
  }

  /** The tokens never hold `|`, and every other character of the tokenizer's
      output is kept, as often and in the same order. */
  lemma TokenizeOutcome(a: Alpino, text: string)
    ensures Tokenize(a, text).calls == [Call(TokenizerCommand, text)]
    ensures Tokenize(a, text).result.Ok? <==> a.run(TokenizerCommand, text).out != ""
    ensures Tokenize(a, text).result.Ok? ==> '|' !in Tokenize(a, text).result.value
    ensures Tokenize(a, text).result.Ok? ==>
      Tokenize(a, text).result.value == Concat(Split(a.run(TokenizerCommand, text).out, '|'))
    ensures Tokenize(a, text).result.Ok? ==> forall x | x != '|' ::
      multiset(Tokenize(a, text).result.value)[x] == multiset(a.run(TokenizerCommand, text).out)[x]
    ensures Tokenize(a, text).result.Err? ==>
      Tokenize(a, text).result.error == EmptyOutput(TokenizerCommand, a.run(TokenizerCommand, text).err)
  {
    var out := a.run(TokenizerCommand, text).out;
    RemoveAllIsConcatOfSplit(out, '|');
    forall x | x != '|' ensures multiset(RemoveAll(out, '|'))[x] == multiset(out)[x] {
      RemoveAllCounts(out, '|', x);
    }
  }

  /** A process of Alpino proper, given `tokens` or nothing. */
  predicate AlpinoCall(c: Call, tokens: string) {
    |c.command| >= 1 && c.command[0] == "bin/Alpino" && (c.input == tokens || c.input == "")
  }

  lemma TreebankTriplesCalls(a: Alpino, tokens: string)
    ensures forall i | 0 <= i < |TreebankTriples(a, tokens).calls| :: AlpinoCall(TreebankTriples(a, tokens).calls[i], tokens)
  {
    var x := XmlRaw(a, tokens, a.tempDir);
    assert AlpinoCall(x.calls[0], tokens);
    if x.result.Ok? {
      var t := CallAlpinoStdout(a, TreebankCommand(a.tempDir, x.result.value.ids), "");
      assert AlpinoCall(t.calls[0], tokens);
      assert TreebankTriples(a, tokens).calls == [x.calls[0], t.calls[0]];
    }
  }

  /** Every process a dispatch starts is Alpino proper, and is given the
      tokens or nothing. */
  lemma DispatchCalls(a: Alpino, tokens: string, output: string)
    ensures forall i | 0 <= i < |Dispatch(a, tokens, output).calls| :: AlpinoCall(Dispatch(a, tokens, output).calls[i], tokens)
  {
    if output == "treebank_triples" {
      TreebankTriplesCalls(a, tokens);
    }
  }

  /** The tokenizer runs exactly when the text is not declared tokenized: then
      it is the first process, and no later process is the tokenizer. */
  lemma ParseTokenizes(a: Alpino, text: string, output: string, tokenized: bool)
    ensures !tokenized ==>
      |Parse(a, text, output, tokenized).calls| >= 1 && Parse(a, text, output, tokenized).calls[0] == Call(TokenizerCommand, text)
    ensures forall i | (if tokenized then 0 else 1) <= i < |Parse(a, text, output, tokenized).calls| ::
      Parse(a, text, output, tokenized).calls[i].command != TokenizerCommand
  {
    var tok := if tokenized then Run(Ok(text), []) else Tokenize(a, text);
    if tok.result.Ok? {
      var r := Dispatch(a, tok.result.value, output);
      DispatchCalls(a, tok.result.value, output);
      assert Parse(a, text, output, tokenized).calls == tok.calls + r.calls;
      assert forall i | 0 <= i < |r.calls| :: r.calls[i].command != TokenizerCommand by {
        forall i | 0 <= i < |r.calls| ensures r.calls[i].command != TokenizerCommand {
          assert AlpinoCall(r.calls[i], tok.result.value);
        }
      }
    }
  }

  /** Untokenized text is parsed as its tokens: the tokenizer's processes,
      then those of parsing the tokens as tokenized text. In particular no
      later process is given a `|`. */
  lemma ParseAfterTokenize(a: Alpino, text: string, output: string)
    requires Tokenize(a, text).result.Ok?
    ensures Parse(a, text, output, false).result == Parse(a, Tokenize(a, text).result.value, output, true).result
    ensures Parse(a, text, output, false).calls ==
      Tokenize(a, text).calls + Parse(a, Tokenize(a, text).result.value, output, true).calls
    ensures forall i | 1 <= i < |Parse(a, text, output, false).calls| :: '|' !in Parse(a, text, output, false).calls[i].input
  {
    var tokens := Tokenize(a, text).result.value;
    assert '|' !in tokens;
    DispatchCalls(a, tokens, output);
    assert Parse(a, tokens, output, true).calls == [] + Dispatch(a, tokens, output).calls;
    var r := Dispatch(a, tokens, output);
    assert forall i | 0 <= i < |r.calls| :: '|' !in r.calls[i].input;
  }

  /** An output kind other than the three known ones fails with
      `UnknownOutput`, after the tokenizer when the text is not tokenized
      (whose own failure then comes first), and starts no Alpino process. */
  lemma ParseUnknownOutput(a: Alpino, text: string, output: string, tokenized: bool)
    requires !KnownOutput(output)
    ensures Parse(a, text, output, tokenized).calls == if tokenized then [] else [Call(TokenizerCommand, text)]
    ensures Parse(a, text, output, tokenized).result ==
      if !tokenized && a.run(TokenizerCommand, text).out == ""
      then Err(EmptyOutput(TokenizerCommand, a.run(TokenizerCommand, text).err))
      else Err(UnknownOutput(output))
  {
    TokenizeOutcome(a, text);
  }

  /** A known output kind on tokenized text is exactly the matching
      operation. */
  lemma ParseKnownOutput(a: Alpino, tokens: string)
    ensures Parse(a, tokens, "dependencies", true) == Dependencies(a, tokens)
    ensures Parse(a, tokens, "xml", true) == Xml(a, tokens)
    ensures Parse(a, tokens, "treebank_triples", true) == TreebankTriples(a, tokens)
  {
    assert [] + Dependencies(a, tokens).calls == Dependencies(a, tokens).calls;
    assert [] + Xml(a, tokens).calls == Xml(a, tokens).calls;
    assert [] + TreebankTriples(a, tokens).calls == TreebankTriples(a, tokens).calls;
  }

  /** The dependencies of tokens are the triples of Alpino's output: ids in
      order of first appearance, each with the triples of its lines in order
      and no `"xml"`. */
  lemma DependenciesOutcome(a: Alpino, tokens: string, k: string)
    ensures Dependencies(a, tokens).calls == [Call(DependenciesCommand, tokens)]
    ensures Dependencies(a, tokens).result.Err? <==> a.run(DependenciesCommand, tokens).out == ""
    ensures Dependencies(a, tokens).result.Err? ==>
      Dependencies(a, tokens).result.error == EmptyOutput(DependenciesCommand, a.run(DependenciesCommand, tokens).err)
    ensures Dependencies(a, tokens).result.Ok? ==>
      var rows := Split(a.run(DependenciesCommand, tokens).out, '\n');
      var d := Dependencies(a, tokens).result.value;
      && d.WellFormed()
      && d.ids == Dedup(RowIds(rows, false))
      && TriplesOf(d, k) == Collected(rows, k, false)
      && (k in d.entries ==> d.entries[k].xml.None?)
  {
    ReadIntoEmpty(a.run(DependenciesCommand, tokens).out, k);
  }

  /** `alpino_xml_raw` fails exactly when the XML run left no file, reporting
      the run's stderr; otherwise each id that a file carries holds the
      contents of the last such file, in listing order of first appearance. */
  lemma XmlRawOutcome(a: Alpino, input: string, treebank: string, k: string)
    ensures XmlRaw(a, input, treebank).calls == [Call(XmlCommand(treebank), input)]
    ensures XmlRaw(a, input, treebank).result.Err? <==> a.written(XmlCommand(treebank), input) == []
    ensures XmlRaw(a, input, treebank).result.Err? ==>
      XmlRaw(a, input, treebank).result.error == EmptyOutput(XmlCommand(treebank), a.run(XmlCommand(treebank), input).err)
    ensures XmlRaw(a, input, treebank).result.Ok? ==>
      var files := a.written(XmlCommand(treebank), input);
      var d := XmlRaw(a, input, treebank).result.value;
      && d.WellFormed()
      && d.ids == Dedup(FileIds(files))
      && (k in d.entries <==> k in FileIds(files))
      && (k in d.entries ==> d.entries[k] == Entry(LastContents(files, k), None))
  {
    var files := a.written(XmlCommand(treebank), input);
    XmlDictIds(files);
    PutFilesEntries(EmptyDict, files, k);
  }

  /** A file name `<stem>.xml` whose stem is not empty and has neither `.`
      nor `/`, as Alpino names the files of its treebank. */
  predicate SentenceFile(name: string) {
    |name| > 4 && name[|name| - 4..] == ".xml" && '.' !in name[..|name| - 4] && '/' !in name[..|name| - 4]
  }

  lemma SentenceFileId(name: string)
    requires SentenceFile(name)
    ensures XmlId(name) == name[..|name| - 4]
    ensures '.' !in XmlId(name) && '/' !in XmlId(name)
  {
    var stem := name[..|name| - 4];
    assert name == stem + ".xml";
    assert stem[0] != '.';
    XmlIdOfXmlName(stem);
  }

  lemma {:induction false} SentenceFileIds(files: seq<File>)
    requires forall i | 0 <= i < |files| :: SentenceFile(files[i].name)
    ensures forall i | 0 <= i < |FileIds(files)| :: '.' !in FileIds(files)[i] && '/' !in FileIds(files)[i]
    decreases files
  {
    if files != [] {
      SentenceFileId(files[0].name);
      SentenceFileIds(files[1..]);
      assert FileIds(files) == [XmlId(files[0].name)] + FileIds(files[1..]);
    }
  }

  /** The two phases of `alpino_treebank_triples` agree: when the XML run
      names its files `<stem>.xml` and every line of the `-treebank_triples`
      output ends in one of the paths that run was given, every line finds
      its sentence, and the result keeps the XML phase's ids. */
  lemma TreebankTriplesJoins(a: Alpino, input: string)
    requires a.written(XmlCommand(a.tempDir), input) != []
    requires forall i | 0 <= i < |a.written(XmlCommand(a.tempDir), input)| ::
      SentenceFile(a.written(XmlCommand(a.tempDir), input)[i].name)
    requires
      var command := TreebankCommand(a.tempDir, XmlDict(a.written(XmlCommand(a.tempDir), input)).ids);
      && a.run(command, "").out != ""
      && forall line | line in Split(a.run(command, "").out, '\n') :: Strip(line) != "" ==>
           '|' in line && RSplitOnce(line, '|')[1] in TreebankPaths(a.tempDir, XmlDict(a.written(XmlCommand(a.tempDir), input)).ids)
    ensures TreebankTriples(a, input).result.Ok?
    ensures TreebankTriples(a, input).result.value.ids == Dedup(FileIds(a.written(XmlCommand(a.tempDir), input)))
  {
    var files := a.written(XmlCommand(a.tempDir), input);
    var d := XmlDict(files);
    XmlDictIds(files);
    SentenceFileIds(files);
    forall i | 0 <= i < |d.ids| ensures '/' !in d.ids[i] && '.' !in d.ids[i] {
      assert d.ids[i] in FileIds(files);
    }
    var lines := Split(a.run(TreebankCommand(a.tempDir, d.ids), "").out, '\n');
    assert forall i | 0 <= i < |lines| :: lines[i] in lines;
    OverlayOfGeneratedPaths(d, a.tempDir, lines);
  }
}
