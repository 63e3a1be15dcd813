/** The result mapping `{id: {"xml": ..., "triples": [...]}}`: a Python dict,
    so its ids keep insertion order. `Dict` is its value; `ResultDict` is the
    object the server updates in place. */
module ResultDicts {
  import opened Outcomes

  /** One element of a `"triples"` list: the list of fields that
      `read_triples_into_dict` stores, or the whole string the treebank
      overlay stores. */
  datatype Triple = Fields(fields: seq<string>) | Joined(text: string)

  /** The inner dict of one sentence; a key the source never set is `None`. */
  datatype Entry = Entry(xml: Option<string>, triples: Option<seq<Triple>>)

  /** `{}`, what `setdefault(id, {})` inserts. */
  const NewEntry := Entry(None, None)

  predicate Distinct(s: seq<string>) {
    forall i, j | 0 <= i < j < |s| :: s[i] != s[j]
  }

  /** An insertion-ordered dict: `ids` lists the keys of `entries`, each once,
      in insertion order. */
  datatype Dict = Dict(ids: seq<string>, entries: map<string, Entry>) {
    ghost predicate WellFormed() {
      && Distinct(ids)
      && (forall k :: k in entries <==> k in ids)
    }
  }

  const EmptyDict := Dict([], map[])

  /** Key order after assigning `k`: a new key goes last, an old one stays put. */
  function Insert(ids: seq<string>, k: string): seq<string> {
    if k in ids then ids else ids + [k]
  }

  /** Key order after assigning each of `ks` in turn. */
  function InsertAll(ids: seq<string>, ks: seq<string>): seq<string>
    decreases ks
  {
    if ks == [] then ids else InsertAll(Insert(ids, ks[0]), ks[1..])
  }

  /** `s` without any `x`. */
  function Without(s: seq<string>, x: string): (r: seq<string>)
    ensures |r| <= |s|
    ensures forall y :: y in r <==> y in s && y != x
  {
    if s == [] then []
    else if s[0] == x then Without(s[1..], x)
    else [s[0]] + Without(s[1..], x)
  }

  /** The elements of `s` that are not in `ks`, in order. */
  function Absent(s: seq<string>, ks: seq<string>): (r: seq<string>)
    ensures forall y :: y in r <==> y in s && y !in ks
  {
    if s == [] then []
    else if s[0] in ks then Absent(s[1..], ks)
    else [s[0]] + Absent(s[1..], ks)
  }

  /** The distinct elements of `s` in order of first occurrence. */
  function Dedup(s: seq<string>): (r: seq<string>)
    ensures Distinct(r)
    ensures forall y :: y in r <==> y in s
    decreases |s|
  {
    if s == [] then []
    else
      var r := [s[0]] + Dedup(Without(s[1..], s[0]));
      assert forall j | 1 <= j < |r| :: r[j] in Without(s[1..], s[0]);
      r
  }

  /** Nothing to leave out leaves everything. */
  lemma {:induction false} AbsentOfNothing(s: seq<string>)
    ensures Absent(s, []) == s
  {
    if s != [] {
      AbsentOfNothing(s[1..]);
    }
  }

  lemma {:induction false} AbsentSnoc(s: seq<string>, ks: seq<string>, x: string)
    ensures Absent(s, ks + [x]) == Without(Absent(s, ks), x)
  {
    if s != [] {
      AbsentSnoc(s[1..], ks, x);
    }
  }

  /** Assigning keys one after another appends the new ones in order of first
      assignment, each once. */
  lemma {:induction false} InsertAllIsDedup(ids: seq<string>, ks: seq<string>)
    ensures InsertAll(ids, ks) == ids + Dedup(Absent(ks, ids))
    decreases ks
  {
    if ks != [] {
      var x := ks[0];
      if x in ids {
        InsertAllIsDedup(ids, ks[1..]);
      } else {
        InsertAllIsDedup(ids + [x], ks[1..]);
        AbsentSnoc(ks[1..], ids, x);
        assert Absent(ks, ids) == [x] + Absent(ks[1..], ids);
      }
    }
  }

  /** `d.get(k, {})` */
  function Get(d: Dict, k: string): Entry {
    if k in d.entries then d.entries[k] else NewEntry
  }

  /** `d[k] = e` */
  function Put(d: Dict, k: string, e: Entry): (r: Dict)
    ensures d.WellFormed() ==> r.WellFormed()
  {
    Dict(Insert(d.ids, k), d.entries[k := e])
  }

  /** The `"triples"` list of `k`, empty when `k` or its list is absent. */
  function TriplesOf(d: Dict, k: string): seq<Triple> {
    Get(d, k).triples.GetOr([])
  }

  /** `d.setdefault(k, {}).setdefault("triples", []).append(t)` */
  function AppendTriple(d: Dict, k: string, t: Triple): (r: Dict)
    ensures d.WellFormed() ==> r.WellFormed()
    ensures r.ids == Insert(d.ids, k)
    ensures k in r.entries && r.entries == d.entries[k := r.entries[k]]
    ensures r.entries[k] == Get(d, k).(triples := Some(TriplesOf(d, k) + [t]))
  {
    var e := Get(d, k);
    Put(d, k, e.(triples := Some(e.triples.GetOr([]) + [t])))
  }

  /** Appending `t` under `id` extends `id`'s list by `t` and no other. */
  lemma AppendTriplesOf(d: Dict, id: string, t: Triple, k: string)
    ensures TriplesOf(AppendTriple(d, id, t), k) == TriplesOf(d, k) + if k == id then [t] else []
  {
    if k != id {
      assert TriplesOf(d, k) + [] == TriplesOf(d, k);
    }
  }

  lemma AppendAssoc(a: seq<Triple>, b: seq<Triple>, c: seq<Triple>)
    ensures (a + b) + c == a + (b + c)
  {
  }

  /** Appending to an entry that is already there changes only its
      `"triples"` list, and neither the keys nor their order. */
  lemma AppendToExisting(d: Dict, id: string, t: Triple, k: string)
    requires d.WellFormed() && id in d.entries
    ensures AppendTriple(d, id, t).WellFormed()
    ensures AppendTriple(d, id, t).ids == d.ids
    ensures AppendTriple(d, id, t).entries.Keys == d.entries.Keys
    ensures k in d.entries ==> AppendTriple(d, id, t).entries[k].xml == d.entries[k].xml
    ensures TriplesOf(AppendTriple(d, id, t), k) == TriplesOf(d, k) + if k == id then [t] else []
  {
    AppendTriplesOf(d, id, t, k);
  }

  /** The result dict as an object that the server updates in place. */
  class ResultDict {
    var ids: seq<string>
    var entries: map<string, Entry>

    function Value(): Dict
      reads this
    {
      Dict(ids, entries)
    }

    ghost predicate Valid()
      reads this
    {
      Value().WellFormed()
    }

    /** `{}` */
    constructor Empty()
      ensures Valid() && Value() == EmptyDict
    {
      ids, entries := [], map[];
    }

    /** The dict a comprehension built. */
    constructor Of(d: Dict)
      requires d.WellFormed()
      ensures Valid() && Value() == d
    {
      ids, entries := d.ids, d.entries;
    }

    /** `self.setdefault(k, {}).setdefault("triples", []).append(t)` */
    method SetDefaultAppend(k: string, t: Triple)
      requires Valid()
      modifies this
      ensures Valid() && Value() == AppendTriple(old(Value()), k, t)
    {
      var e := if k in entries then entries[k] else NewEntry;
      var ts := if e.triples.Some? then e.triples.value else [];
      if k !in entries {
        ids := ids + [k];
      }
      entries := entries[k := e.(triples := Some(ts + [t]))];
    }
  }
}
