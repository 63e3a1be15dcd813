/** The handful of Python `str` operations the server relies on, written out on
    `seq<char>`: `split` and `rsplit` with a one-character separator, `join`,
    `replace(c, "")`, `rfind` and `strip()`. */
module PyStrings {

  /** `c.isspace()`: the characters that a bare `str.strip()` removes. */
  predicate IsSpace(c: char) {
    || ('\t' <= c <= '\r')
    || ('\U{1c}' <= c <= '\U{1f}')
    || c == ' '
    || c == '\U{85}'
    || c == '\U{a0}'
    || c == '\U{1680}'
    || ('\U{2000}' <= c <= '\U{200a}')
    || c == '\U{2028}'
    || c == '\U{2029}'
    || c == '\U{202f}'
    || c == '\U{205f}'
    || c == '\U{3000}'
  }

  /** Every character of `s` is white space. */
  predicate Blank(s: string) {
    forall i | 0 <= i < |s| :: IsSpace(s[i])
  }

  /** `s.lstrip()` */
  function LStrip(s: string): (r: string)
    ensures |r| <= |s| && r == s[|s| - |r|..]
    ensures r == [] || !IsSpace(r[0])
    ensures Blank(s[..|s| - |r|])
  {
    if s == [] || !IsSpace(s[0]) then s
    else
      var r := LStrip(s[1..]);
      assert s[..|s| - |r|] == [s[0]] + s[1..][..|s| - 1 - |r|];
      r
  }

  /** `s.rstrip()` */
  function RStrip(s: string): (r: string)
    ensures |r| <= |s| && r == s[..|r|]
    ensures r == [] || !IsSpace(r[|r| - 1])
    ensures Blank(s[|r|..])
  {
    if s == [] || !IsSpace(s[|s| - 1]) then s
    else
      var r := RStrip(s[..|s| - 1]);
      assert s[|r|..] == s[..|s| - 1][|r|..] + [s[|s| - 1]];
      r
  }

  /** `s.strip()` */
  function Strip(s: string): string {
    LStrip(RStrip(s))
  }

  /** A line passes the source's `if line.strip()` filter exactly when it is
      not all white space. */
  lemma StripEmptyIffBlank(s: string)
    ensures Strip(s) == [] <==> Blank(s)
  {
    var t := RStrip(s);
    if Strip(s) == [] {
      // LStrip(t) is empty, so t is white space, and RStrip leaves no white
      // space at its end: t is empty and s[0..] is blank.
      assert t == [];
      assert s[|t|..] == s;
    } else {
      var r := Strip(s);
      var k := |t| - |r|;
      assert t[k] == r[0];
      assert s[k] == t[k];
    }
  }

  /** `s.rfind(c)`: the last index holding `c`, or -1. */
  function RFind(s: string, c: char): (r: int)
    ensures -1 <= r < |s|
    ensures r >= 0 ==> s[r] == c
    ensures forall k | r < k < |s| :: s[k] != c
  {
    if s == [] then -1
    else if s[|s| - 1] == c then |s| - 1
    else RFind(s[..|s| - 1], c)
  }

  /** `s.split(c)` for a one-character separator `c`. Python returns at least
      one piece, and no piece holds the separator. */
  function Split(s: string, c: char): (r: seq<string>)
    ensures |r| >= 1
    ensures forall i | 0 <= i < |r| :: c !in r[i]
  {
    if s == [] then [""]
    else
      var rest := Split(s[1..], c);
      if s[0] == c then [""] + rest
      else [[s[0]] + rest[0]] + rest[1..]
  }

  /** `c.join(ps)` for a one-character separator. */
  function Join(ps: seq<string>, c: char): string {
    if |ps| == 0 then ""
    else if |ps| == 1 then ps[0]
    else ps[0] + [c] + Join(ps[1..], c)
  }

  /** The last piece of a split (Python's `fields[-1]`). */
  function Last(ps: seq<string>): string
    requires |ps| >= 1
  {
    ps[|ps| - 1]
  }

  /** All pieces but the last (Python's `fields[:-1]`). */
  function AllButLast(ps: seq<string>): seq<string>
    requires |ps| >= 1
  {
    ps[..|ps| - 1]
  }

  lemma {:induction false} JoinPrepend(a: char, p: string, t: seq<string>, c: char)
    ensures Join([[a] + p] + t, c) == [a] + Join([p] + t, c)
  {
    if |t| > 0 {
      assert ([[a] + p] + t)[1..] == t;
      assert ([p] + t)[1..] == t;
    }
  }

  /** Joining the pieces of a split gives back the string. */
  lemma {:induction false} JoinSplit(s: string, c: char)
    ensures Join(Split(s, c), c) == s
  {
    if s != [] {
      var rest := Split(s[1..], c);
      JoinSplit(s[1..], c);
      if s[0] == c {
        assert ([""] + rest)[1..] == rest;
      } else {
        JoinPrepend(s[0], rest[0], rest[1..], c);
        assert [rest[0]] + rest[1..] == rest;
      }
    }
  }

  /** A string without the separator splits into itself alone. */
  lemma {:induction false} SplitNoSeparator(p: string, c: char)
    requires c !in p
    ensures Split(p, c) == [p]
  {
    if p != [] {
      SplitNoSeparator(p[1..], c);
      assert [p[0]] + p[1..] == p;
    }
  }

  /** The first piece is everything before the first separator. */
  lemma {:induction false} SplitAtSeparator(p: string, c: char, t: string)
    requires c !in p
    ensures Split(p + [c] + t, c) == [p] + Split(t, c)
  {
    var s := p + [c] + t;
    if p == [] {
      assert s[0] == c && s[1..] == t;
    } else {
      assert s[1..] == p[1..] + [c] + t;
      SplitAtSeparator(p[1..], c, t);
      assert [p[0]] + p[1..] == p;
    }
  }

  /** Splitting a join of separator-free pieces gives back the pieces. */
  lemma {:induction false} SplitJoin(ps: seq<string>, c: char)
    requires |ps| >= 1
    requires forall i | 0 <= i < |ps| :: c !in ps[i]
    ensures Split(Join(ps, c), c) == ps
  {
    if |ps| == 1 {
      SplitNoSeparator(ps[0], c);
    } else {
      SplitJoin(ps[1..], c);
      SplitAtSeparator(ps[0], c, Join(ps[1..], c));
      assert [ps[0]] + ps[1..] == ps;
    }
  }

  /** `s.rsplit(c, 1)`: the string itself when it holds no separator, else the
      part before the last separator and the part after it. */
  function RSplitOnce(s: string, c: char): (r: seq<string>)
    ensures |r| == 1 <==> c !in s
    ensures |r| == 1 ==> r == [s]
    ensures |r| != 1 ==> |r| == 2 && r[0] + [c] + r[1] == s && c !in r[1]
  {
    var i := RFind(s, c);
    if i < 0 then [s]
    else
      assert s == s[..i] + [c] + s[i + 1..];
      [s[..i], s[i + 1..]]
  }

  /** `rsplit(c, 1)` agrees with `split(c)`: the tail is the last field, the
      head is the other fields joined back with the separator. */
  lemma RSplitOnceIsSplit(s: string, c: char)
    requires c in s
    ensures RSplitOnce(s, c) == [Join(AllButLast(Split(s, c)), c), Last(Split(s, c))]
  {
    var r := RSplitOnce(s, c);
    var ps := Split(r[0], c);
    SplitAtSeparatorEnd(r[0], c, r[1]);
    JoinSplit(r[0], c);
    assert AllButLast(ps + [r[1]]) == ps;
  }

  /** Splitting `h + c + t` with `c` absent from `t` splits `h` and puts `t` last. */
  lemma {:induction false} SplitAtSeparatorEnd(h: string, c: char, t: string)
    requires c !in t
    ensures Split(h + [c] + t, c) == Split(h, c) + [t]
  {
    if h == [] {
      SplitAtSeparator([], c, t);
      SplitNoSeparator(t, c);
    } else {
      var s := h + [c] + t;
      assert s[1..] == h[1..] + [c] + t;
      SplitAtSeparatorEnd(h[1..], c, t);
      var rest := Split(h[1..], c);
      assert Split(s[1..], c) == rest + [t];
      if h[0] != c {
        assert (rest + [t])[0] == rest[0];
        assert (rest + [t])[1..] == rest[1..] + [t];
      }
    }
  }

  /** `s.replace(c, "")` */
  function RemoveAll(s: string, c: char): (r: string)
    ensures c !in r
  {
    if s == [] then []
    else if s[0] == c then RemoveAll(s[1..], c)
    else [s[0]] + RemoveAll(s[1..], c)
  }

  /** The concatenation of a sequence of strings (`"".join(ps)`). */
  function Concat(ps: seq<string>): string {
    if ps == [] then [] else ps[0] + Concat(ps[1..])
  }

  /** Removing every `c` leaves the other characters with their multiplicities. */
  lemma {:induction false} RemoveAllCounts(s: string, c: char, x: char)
    ensures multiset(RemoveAll(s, c))[x] == if x == c then 0 else multiset(s)[x]
  {
    if s != [] {
      RemoveAllCounts(s[1..], c, x);
      assert s == [s[0]] + s[1..];
    }
  }

  /** Removing every `c` is concatenating the pieces of the split on `c`: the
      other characters keep their order. */
  lemma {:induction false} RemoveAllIsConcatOfSplit(s: string, c: char)
    ensures RemoveAll(s, c) == Concat(Split(s, c))
  {
    if s != [] {
      RemoveAllIsConcatOfSplit(s[1..], c);
      var rest := Split(s[1..], c);
      if s[0] == c {
        assert ([""] + rest)[1..] == rest;
      } else {
        var ps := [[s[0]] + rest[0]] + rest[1..];
        assert ps[1..] == rest[1..];
        assert Concat(rest) == rest[0] + Concat(rest[1..]);
      }
    }
  }

  /** A string free of `c` is left alone, so removing twice is removing once. */
  lemma {:induction false} RemoveAllIdentity(s: string, c: char)
    requires c !in s
    ensures RemoveAll(s, c) == s
  {
    if s != [] {
      RemoveAllIdentity(s[1..], c);
      assert [s[0]] + s[1..] == s;
    }
  }
}
