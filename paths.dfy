/** The POSIX `os.path` operations used to turn file names into sentence ids
    and back, and the three id derivations the server uses. */
module Paths {
  import opened PyStrings

  /** `os.path.basename(p)`: what follows the last `/`. */
  function Basename(p: string): (r: string)
    ensures '/' !in r
    ensures |r| <= |p| && r == p[|p| - |r|..]
    ensures |r| < |p| ==> p[|p| - |r| - 1] == '/'
  {
    p[RFind(p, '/') + 1..]
  }

  /** Every character of `s` is a dot. */
  predicate AllDots(s: string) {
    s == [] || (s[0] == '.' && AllDots(s[1..]))
  }

  /** `os.path.splitext(p)`: the last `.` of the final path component starts
      the extension, unless only dots precede it in that component (so
      `.bashrc` has no extension). */
  function Splitext(p: string): (r: (string, string))
    ensures r.0 + r.1 == p
    ensures r.1 == [] || (r.1[0] == '.' && '.' !in r.1[1..] && '/' !in r.1)
  {
    var sepIndex := RFind(p, '/');
    var dotIndex := RFind(p, '.');
    if dotIndex > sepIndex && !AllDots(p[sepIndex + 1..dotIndex]) then
      TailAfterLast(p, dotIndex, '.', '/');
      (p[..dotIndex], p[dotIndex..])
    else
      (p, "")
  }

  /** The tail from the last `c` on holds no other `c`, and no `d` when the
      last `d` comes before it. */
  lemma TailAfterLast(p: string, i: int, c: char, d: char)
    requires 0 <= i < |p| && i == RFind(p, c) && RFind(p, d) < i
    ensures p[i..][0] == c && c !in p[i..][1..] && d !in p[i..]
  {
    var ext := p[i..];
    forall k | 0 <= k < |ext| ensures ext[k] == p[i + k] && ext[k] != d && (k > 0 ==> ext[k] != c) {
    }
    assert forall k | 0 <= k < |ext[1..]| :: ext[1..][k] == ext[k + 1];
  }

  /** Together with the ensures of `Splitext` this pins `splitext` down: an
      extension follows a stem whose final component is not all dots, and
      when there is none every dot of the final component has only dots
      before it (`.bashrc`, `..`). */
  lemma SplitextSpec(p: string)
    ensures Splitext(p).1 != [] ==> !AllDots(Basename(Splitext(p).0))
    ensures Splitext(p).1 == [] ==>
      forall i | 0 <= i < |Basename(p)| && Basename(p)[i] == '.' :: AllDots(Basename(p)[..i])
  {
    var sep := RFind(p, '/');
    var dot := RFind(p, '.');
    if dot > sep && !AllDots(p[sep + 1..dot]) {
      StemBasename(p, sep, dot);
    } else {
      OnlyDotsBeforeDots(p, sep, dot);
    }
  }

  /** Cutting at the last dot, when it follows the last `/`, leaves the
      final component's part before that dot. */
  lemma StemBasename(p: string, sep: int, dot: int)
    requires sep == RFind(p, '/') && dot == RFind(p, '.') && sep < dot
    ensures Basename(p[..dot]) == p[sep + 1..dot]
  {
    TailAfterLast(p, dot, '.', '/');
    RFindPrefix(p, dot, '/');
    assert p[..dot][sep + 1..] == p[sep + 1..dot];
  }

  /** Cutting off a `c`-free tail does not move the last `c`. */
  lemma {:induction false} RFindPrefix(p: string, i: nat, c: char)
    requires i <= |p| && c !in p[i..]
    ensures RFind(p[..i], c) == RFind(p, c)
    decreases |p| - i
  {
    if i < |p| {
      var q := p[..|p| - 1];
      assert p[|p| - 1] == p[i..][|p| - 1 - i];
      assert q[i..] == p[i..][..|p| - 1 - i];
      RFindPrefix(q, i, c);
      assert q[..i] == p[..i];
    } else {
      assert p[..i] == p;
    }
  }

  /** When the last dot does not follow the last `/`, or only dots precede it
      in the final component, every dot of that component has only dots
      before it. */
  lemma OnlyDotsBeforeDots(p: string, sep: int, dot: int)
    requires sep == RFind(p, '/') && dot == RFind(p, '.')
    requires !(dot > sep && !AllDots(p[sep + 1..dot]))
    ensures forall i | 0 <= i < |Basename(p)| && Basename(p)[i] == '.' :: AllDots(Basename(p)[..i])
  {
    var b := Basename(p);
    assert b == p[sep + 1..];
    forall i | 0 <= i < |b| && b[i] == '.' ensures AllDots(b[..i]) {
      assert p[sep + 1 + i] == b[i];
      DotInFinalComponent(p, sep, dot, i);
    }
  }

  lemma DotInFinalComponent(p: string, sep: int, dot: int, i: nat)
    requires sep == RFind(p, '/') && dot == RFind(p, '.')
    requires !(dot > sep && !AllDots(p[sep + 1..dot]))
    requires sep + 1 + i < |p| && p[sep + 1 + i] == '.'
    ensures AllDots(p[sep + 1..][..i])
  {
    assert dot >= sep + 1 + i;
    DotsSlicePrefix(p, sep + 1, dot, i);
  }

  /** A prefix of a run of dots is dots. */
  lemma DotsSlicePrefix(p: string, lo: nat, hi: nat, i: nat)
    requires lo + i <= hi <= |p| && AllDots(p[lo..hi])
    ensures AllDots(p[lo..][..i])
  {
    AllDotsPrefix(p[lo..hi], i);
    assert p[lo..hi][..i] == p[lo..][..i];
  }

  /** A prefix of dots is dots. */
  lemma {:induction false} AllDotsPrefix(s: string, n: nat)
    requires AllDots(s) && n <= |s|
    ensures AllDots(s[..n])
  {
    if n > 0 {
      AllDotsPrefix(s[1..], n - 1);
      assert s[..n][1..] == s[1..][..n - 1];
    }
  }

  /** `os.path.join(a, b)` for two components. */
  function PathJoin(a: string, b: string): string {
    if |b| > 0 && b[0] == '/' then b
    else if a == "" || a[|a| - 1] == '/' then a + b
    else a + "/" + b
  }

  /** The file an XML-phase id names in the treebank directory:
      `os.path.join(d, "{id}.xml".format(id=id))`. */
  function XmlPath(dir: string, id: string): string {
    PathJoin(dir, id + ".xml")
  }

  /** Id of a file in the treebank directory: `os.path.splitext(fn)[0]`. */
  function XmlId(fn: string): string {
    Splitext(fn).0
  }

  /** Id with `strip_id` set: `os.path.splitext(os.path.basename(id))[0]`. */
  function StripId(raw: string): string {
    Splitext(Basename(raw)).0
  }

  /** Id of a treebank-triples line's file: `os.path.basename(fn).split(".")[0]`. */
  function TreebankId(fn: string): string {
    Split(Basename(fn), '.')[0]
  }

  /** Appending a `c`-free tail does not move the last `c`. */
  lemma {:induction false} RFindAppend(x: string, y: string, c: char)
    requires c !in y
    ensures RFind(x + y, c) == RFind(x, c)
  {
    if y != [] {
      var y' := y[..|y| - 1];
      assert (x + y)[..|x + y| - 1] == x + y';
      RFindAppend(x, y', c);
    } else {
      assert x + y == x;
    }
  }

  /** A separator-free name joined onto a directory is that path's basename. */
  lemma BasenameOfJoin(dir: string, name: string)
    requires '/' !in name
    ensures Basename(PathJoin(dir, name)) == name
  {
    var x := if dir == "" || dir[|dir| - 1] == '/' then dir else dir + "/";
    assert PathJoin(dir, name) == x + name;
    RFindAppend(x, name, '/');
    assert RFind(x, '/') == |x| - 1;
    assert (x + name)[|x|..] == name;
  }

  /** `splitext` removes exactly one extension from a file name whose stem is
      not all dots. */
  lemma SplitextOfName(stem: string, ext: string)
    requires '/' !in stem && !AllDots(stem)
    requires |ext| >= 1 && ext[0] == '.' && '/' !in ext && '.' !in ext[1..]
    ensures Splitext(stem + ext) == (stem, ext)
  {
    NameParts(stem, ext);
  }

  /** Where the last `.` and the last `/` of `stem + ext` are, and the two
      parts either side of that dot. */
  lemma NameParts(stem: string, ext: string)
    requires '/' !in stem
    requires |ext| >= 1 && ext[0] == '.' && '/' !in ext && '.' !in ext[1..]
    ensures RFind(stem + ext, '.') == |stem|
    ensures RFind(stem + ext, '/') == -1
    ensures (stem + ext)[0..|stem|] == stem
    ensures (stem + ext)[..|stem|] == stem
    ensures (stem + ext)[|stem|..] == ext
  {
    var dot := stem + ext[..1];
    assert stem + ext == dot + ext[1..];
    RFindAppend(dot, ext[1..], '.');
    assert RFind(dot, '.') == |stem|;
    RFindAppend(dot, ext[1..], '/');
    RFindAppend(stem, ext[..1], '/');
    assert RFind(stem, '/') == -1;
  }

  /** A directory entry `<stem>.xml` gets id `<stem>` in the XML phase. */
  lemma XmlIdOfXmlName(stem: string)
    requires '/' !in stem && !AllDots(stem)
    ensures XmlId(stem + ".xml") == stem
  {
    SplitextOfName(stem, ".xml");
  }

  /** The treebank-phase derivation undoes `XmlPath` for ids with neither `.`
      nor `/`: the join with the XML-phase entry finds its key. */
  lemma TreebankIdRoundTrip(dir: string, id: string)
    requires '/' !in id && '.' !in id
    ensures TreebankId(XmlPath(dir, id)) == id
  {
    var name := id + ".xml";
    assert name == id + ['.'] + "xml";
    assert '/' !in name;
    BasenameOfJoin(dir, name);
    SplitAtSeparator(id, '.', "xml");
  }

  /** The `strip_id` derivation undoes `XmlPath` for every id without `/`
      whose characters are not all dots, dotted ids included. */
  lemma StripIdRoundTrip(dir: string, id: string)
    requires '/' !in id && !AllDots(id)
    ensures StripId(XmlPath(dir, id)) == id
  {
    BasenameOfJoin(dir, id + ".xml");
    XmlIdOfXmlName(id);
  }

  /** On a dotted id `a.b` the treebank-phase derivation cuts at the first
      dot, so it does not give the XML-phase id back (compare
      `StripIdRoundTrip`, which does). */
  lemma TreebankIdCutsDottedId(dir: string, a: string, b: string)
    requires '/' !in a && '.' !in a && '/' !in b
    ensures TreebankId(XmlPath(dir, a + "." + b)) == a
  {
    var name := a + "." + b + ".xml";
    assert name == a + ['.'] + (b + ".xml");
    assert '/' !in name by {
      forall k | 0 <= k < |name| ensures name[k] != '/' {
        if k < |a| { assert name[k] == a[k]; } else if k > |a| { assert name[k] == (b + ".xml")[k - |a| - 1]; }
      }
    }
    BasenameOfJoin(dir, name);
    SplitAtSeparator(a, '.', b + ".xml");
  }
}
