/** `get_parsed_naf`: the NAF entry point returns a body that already holds
    dependencies as it is, and otherwise has it parsed. The NAF reader and
    `parse_naf` are parameters. */
module Naf {

  /** A dependency layer element: the two terms it links and its relation. */
  datatype Dependency = Dependency(from: string, to: string, relation: string)

  /** The part of a read NAF document `get_parsed_naf` looks at. */
  datatype NafDocument = NafDocument(dependencies: seq<Dependency>)

  /** What the NAF reader makes of a request body: not XML at all
      (`XMLSyntaxError`), or a document. */
  datatype Reading = NotXml | Document(doc: NafDocument)

  /** What `parse_naf` is given: the document already read, or the raw body
      as text. */
  datatype NafInput = ParsedDocument(doc: NafDocument) | RawText(body: seq<bv8>)

  /** The collaborators of `get_parsed_naf`: the reader and `parse_naf`. */
  datatype Naf = Naf(read: seq<bv8> -> Reading, parseNaf: NafInput -> seq<bv8>)

  function GetParsedNaf(n: Naf, body: seq<bv8>): seq<bv8> {
    match n.read(body)
    case NotXml => n.parseNaf(RawText(body))
    case Document(doc) =>
      if doc.dependencies != [] then body else n.parseNaf(ParsedDocument(doc))
  }

  /** A body is already parsed when it reads as a document with dependencies. */
  predicate AlreadyParsed(n: Naf, body: seq<bv8>) {
    n.read(body).Document? && n.read(body).doc.dependencies != []
  }

  /** An already-parsed body comes back unchanged, and only such a body is
      returned without calling `parse_naf` (unless `parse_naf` happens to
      give the body back). */
  lemma GetParsedNafKeepsParsed(n: Naf, body: seq<bv8>)
    ensures AlreadyParsed(n, body) ==> GetParsedNaf(n, body) == body
    ensures !AlreadyParsed(n, body) ==>
      GetParsedNaf(n, body) == n.parseNaf(if n.read(body).NotXml? then RawText(body) else ParsedDocument(n.read(body).doc))
  {
  }

  /** When every output of `parse_naf` reads as a document with
      dependencies, the result is already parsed, so resubmitting it returns
      it unchanged: the entry point is idempotent. */
  lemma GetParsedNafIdempotent(n: Naf, body: seq<bv8>)
    requires forall x :: AlreadyParsed(n, n.parseNaf(x))
    ensures AlreadyParsed(n, GetParsedNaf(n, body))
    ensures GetParsedNaf(n, GetParsedNaf(n, body)) == GetParsedNaf(n, body)
  {
    if !AlreadyParsed(n, body) {
      var x := if n.read(body).NotXml? then RawText(body) else ParsedDocument(n.read(body).doc);
      assert GetParsedNaf(n, body) == n.parseNaf(x);
      assert AlreadyParsed(n, n.parseNaf(x));
    }
    GetParsedNafKeepsParsed(n, GetParsedNaf(n, body));
  }
}
