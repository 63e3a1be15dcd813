/** `read_triples_into_dict`: reading `|`-separated parser output, one
    dependency triple per non-blank line, into the result dict. */
module Triples {
  import opened PyStrings
  import opened Paths
  import opened ResultDicts

  /** The id a line's triple is stored under: its last `|` field, reduced by
      `StripId` when `strip_id` is set. */
  function RowId(row: string, stripId: bool): string {
    var id := Last(Split(row, '|'));
    if stripId then StripId(id) else id
  }

  /** The triple a line stores: `fields[:-1]`. */
  function RowTriple(row: string): seq<string> {
    AllButLast(Split(row, '|'))
  }

  /** A line the `if d.strip()` filter keeps. */
  predicate IsDataRow(row: string) {
    Strip(row) != ""
  }

  /** One pass of the loop body over `row`. */
  function ReadRow(d: Dict, row: string, stripId: bool): Dict {
    if IsDataRow(row) then AppendTriple(d, RowId(row, stripId), Fields(RowTriple(row)))
    else d
  }

  /** The loop over `rows`, first row first. */
  function ReadRows(d: Dict, rows: seq<string>, stripId: bool): (r: Dict)
    ensures d.WellFormed() ==> r.WellFormed()
    decreases rows
  {
    if rows == [] then d else ReadRows(ReadRow(d, rows[0], stripId), rows[1..], stripId)
  }

  /** `read_triples_into_dict(triples, d, strip_id)` as a value. */
  function ReadTriples(d: Dict, triples: string, stripId: bool): Dict {
    ReadRows(d, Split(triples, '\n'), stripId)
  }

  /** The ids of the data rows, in line order, repeats kept. */
  function RowIds(rows: seq<string>, stripId: bool): seq<string> {
    if rows == [] then []
    else (if IsDataRow(rows[0]) then [RowId(rows[0], stripId)] else []) + RowIds(rows[1..], stripId)
  }

  /** The triples of the data rows whose id is `k`, in line order: a reference
      definition independent of the dict. */
  function Collected(rows: seq<string>, k: string, stripId: bool): seq<Triple> {
    if rows == [] then [] else RowCollected(rows[0], k, stripId) + Collected(rows[1..], k, stripId)
  }

  /** The triple one line contributes to `k`. */
  function RowCollected(row: string, k: string, stripId: bool): seq<Triple> {
    if IsDataRow(row) && RowId(row, stripId) == k then [Fields(RowTriple(row))] else []
  }

  /** `read_triples_into_dict`: updates `result` in place and returns it. */
  method ReadTriplesIntoDict(triples: string, result: ResultDict, stripId: bool) returns (r: ResultDict)
    requires result.Valid()
    modifies result
    ensures r == result && result.Valid()
    ensures result.Value() == ReadTriples(old(result.Value()), triples, stripId)
  {
    var rows := Split(triples, '\n');
    ghost var d0 := result.Value();
    var i := 0;
    while i < |rows|
      invariant 0 <= i <= |rows|
      invariant result.Valid()
      invariant ReadRows(result.Value(), rows[i..], stripId) == ReadRows(d0, rows, stripId)
    {
      assert rows[i..][1..] == rows[i + 1..];
      var row := rows[i];
      if Strip(row) != "" {
        var fields := Split(row, '|');
        var id := fields[|fields| - 1];
        if stripId {
          id := StripId(id);
        }
        result.SetDefaultAppend(id, Fields(fields[..|fields| - 1]));
      }
      i := i + 1;
    }
    r := result;
  }

  /** Read into an empty dict: the ids in order of first appearance, each with
      the triples of its lines in line order and no `"xml"`. */
  lemma ReadIntoEmpty(triples: string, k: string)
    ensures ReadTriples(EmptyDict, triples, false).WellFormed()
    ensures ReadTriples(EmptyDict, triples, false).ids == Dedup(RowIds(Split(triples, '\n'), false))
    ensures TriplesOf(ReadTriples(EmptyDict, triples, false), k) == Collected(Split(triples, '\n'), k, false)
    ensures k in ReadTriples(EmptyDict, triples, false).entries ==> ReadTriples(EmptyDict, triples, false).entries[k].xml.None?
  {
    var rows := Split(triples, '\n');
    ReadRowsIntoEmpty(rows, k);
  }

  lemma ReadRowsIntoEmpty(rows: seq<string>, k: string)
    ensures ReadRows(EmptyDict, rows, false).WellFormed()
    ensures ReadRows(EmptyDict, rows, false).ids == Dedup(RowIds(rows, false))
    ensures TriplesOf(ReadRows(EmptyDict, rows, false), k) == Collected(rows, k, false)
    ensures k in ReadRows(EmptyDict, rows, false).entries ==> ReadRows(EmptyDict, rows, false).entries[k].xml.None?
  {
    ReadRowsIds(EmptyDict, rows, false);
    AbsentOfNothing(RowIds(rows, false));
    ReadRowsTriples(EmptyDict, rows, k, false);
    ReadRowsEntries(EmptyDict, rows, k, false);
  }

  /** A line built from fields joined by `|` stores all fields but the last
      under the last one. */
  lemma RowOfFields(fields: seq<string>)
    requires |fields| >= 1
    requires forall i | 0 <= i < |fields| :: '|' !in fields[i]
    ensures RowTriple(Join(fields, '|')) == AllButLast(fields)
    ensures RowId(Join(fields, '|'), false) == Last(fields)
  {
    SplitJoin(fields, '|');
  }

  /** Every line is its triple and its raw id joined by `|`, and no stored
      field contains `|`. */
  lemma RowShape(row: string)
    ensures Join(RowTriple(row) + [RowId(row, false)], '|') == row
    ensures forall i | 0 <= i < |RowTriple(row)| :: '|' !in RowTriple(row)[i]
  {
    var fs := Split(row, '|');
    assert RowTriple(row) + [RowId(row, false)] == fs;
    JoinSplit(row, '|');
  }

  /** A line without `|` is stored whole as the id, with an empty triple. */
  lemma SeparatorFreeRow(row: string)
    requires '|' !in row
    ensures RowId(row, false) == row && RowTriple(row) == []
  {
    SplitNoSeparator(row, '|');
  }

  /** Each data line appends exactly one triple, and a blank line nothing. */
  lemma {:induction false} ReadRowsSnoc(d: Dict, rows: seq<string>, row: string, stripId: bool)
    ensures ReadRows(d, rows + [row], stripId) ==
      if Blank(row) then ReadRows(d, rows, stripId)
      else AppendTriple(ReadRows(d, rows, stripId), RowId(row, stripId), Fields(RowTriple(row)))
    decreases rows
  {
    if rows == [] {
      StripEmptyIffBlank(row);
      assert ([] + [row])[1..] == [];
    } else {
      assert (rows + [row])[1..] == rows[1..] + [row];
      ReadRowsSnoc(ReadRow(d, rows[0], stripId), rows[1..], row, stripId);
    }
  }

  /** Ids already present keep their place; new ids follow in first-seen order. */
  lemma {:induction false} ReadRowsIds(d: Dict, rows: seq<string>, stripId: bool)
    ensures ReadRows(d, rows, stripId).ids == d.ids + Dedup(Absent(RowIds(rows, stripId), d.ids))
  {
    ReadRowsInsertAll(d, rows, stripId);
    InsertAllIsDedup(d.ids, RowIds(rows, stripId));
  }

  lemma {:induction false} ReadRowsInsertAll(d: Dict, rows: seq<string>, stripId: bool)
    ensures ReadRows(d, rows, stripId).ids == InsertAll(d.ids, RowIds(rows, stripId))
    decreases rows
  {
    if rows != [] {
      ReadRowsInsertAll(ReadRow(d, rows[0], stripId), rows[1..], stripId);
      var ks := RowIds(rows, stripId);
      if IsDataRow(rows[0]) {
        assert ks == [RowId(rows[0], stripId)] + RowIds(rows[1..], stripId);
        assert ks[1..] == RowIds(rows[1..], stripId);
        assert ReadRow(d, rows[0], stripId).ids == Insert(d.ids, ks[0]);
      } else {
        assert ks == RowIds(rows[1..], stripId);
      }
    }
  }

  /** The triples of each id are its old triples followed by those of its
      lines, in line order. */
  lemma {:induction false} ReadRowsTriples(d: Dict, rows: seq<string>, k: string, stripId: bool)
    ensures TriplesOf(ReadRows(d, rows, stripId), k) == TriplesOf(d, k) + Collected(rows, k, stripId)
    decreases rows
  {
    if rows != [] {
      var d' := ReadRow(d, rows[0], stripId);
      ReadRowsTriples(d', rows[1..], k, stripId);
      ReadRowTriples(d, rows[0], k, stripId);
      AppendAssoc(TriplesOf(d, k), RowCollected(rows[0], k, stripId), Collected(rows[1..], k, stripId));
    } else {
      assert TriplesOf(d, k) + [] == TriplesOf(d, k);
    }
  }

  lemma ReadRowTriples(d: Dict, row: string, k: string, stripId: bool)
    ensures TriplesOf(ReadRow(d, row, stripId), k) == TriplesOf(d, k) + RowCollected(row, k, stripId)
  {
    if IsDataRow(row) {
      AppendTriplesOf(d, RowId(row, stripId), Fields(RowTriple(row)), k);
    } else {
      assert TriplesOf(d, k) + [] == TriplesOf(d, k);
    }
  }

  /** Which ids the dict holds afterwards, and that entries keep their other
      keys (such as `"xml"`): an entry no line names is untouched. */
  lemma {:induction false} ReadRowsEntries(d: Dict, rows: seq<string>, k: string, stripId: bool)
    ensures k in ReadRows(d, rows, stripId).entries <==> k in d.entries || k in RowIds(rows, stripId)
    ensures k in d.entries ==> ReadRows(d, rows, stripId).entries[k].xml == d.entries[k].xml
    ensures k !in d.entries && k in RowIds(rows, stripId) ==> ReadRows(d, rows, stripId).entries[k].xml.None?
    ensures k in RowIds(rows, stripId) ==> ReadRows(d, rows, stripId).entries[k].triples.Some?
    ensures k in d.entries && k !in RowIds(rows, stripId) ==> ReadRows(d, rows, stripId).entries[k] == d.entries[k]
    decreases rows
  {
    if rows != [] {
      var d' := ReadRow(d, rows[0], stripId);
      ReadRowsEntries(d', rows[1..], k, stripId);
      var tail := RowIds(rows[1..], stripId);
      if IsDataRow(rows[0]) {
        assert RowIds(rows, stripId) == [RowId(rows[0], stripId)] + tail;
        if RowId(rows[0], stripId) == k {
          assert k in d'.entries && d'.entries[k].triples.Some?;
          assert d'.entries[k].xml == Get(d, k).xml;
          ReadRowsKeepsTriples(d', rows[1..], k, stripId);
        }
      } else {
        assert RowIds(rows, stripId) == tail;
      }
    }
  }

  /** Once an id has a triples list it keeps one. */
  lemma {:induction false} ReadRowsKeepsTriples(d: Dict, rows: seq<string>, k: string, stripId: bool)
    requires k in d.entries && d.entries[k].triples.Some?
    ensures k in ReadRows(d, rows, stripId).entries && ReadRows(d, rows, stripId).entries[k].triples.Some?
    decreases rows
  {
    if rows != [] {
      ReadRowsKeepsTriples(ReadRow(d, rows[0], stripId), rows[1..], k, stripId);
    }
  }

  /** An id gains triples exactly when some data line names it. */
  lemma {:induction false} CollectedNonEmptyIffNamed(rows: seq<string>, k: string, stripId: bool)
    ensures Collected(rows, k, stripId) != [] <==> k in RowIds(rows, stripId)
    decreases rows
  {
    if rows != [] {
      CollectedNonEmptyIffNamed(rows[1..], k, stripId);
    }
  }
}
