/**
 The SET clauses of an UPDATE. SQL reads all their values from the row as it was; the executor of
 `src/Core/QueryExecutionContext.cpp` makes one node per clause, and each reads the row that the ones before it left.
 */
module SetClauses {
  import opened RecordLayout
  import opened RecordStore
  import opened TableStore

  /** A row after the first n assignments, all of them reading the row as it was. */
  function AllAtOnce(row: Row, sets: seq<Assignment>, types: seq<ColumnType>, n: nat): (r: Row)
    requires RowFits(row, types) && AssignmentsFit(sets, types) && n <= |sets|
    ensures |r| == |row|
  {
    if n == 0 then row
    else AllAtOnce(row, sets, types, n - 1)[sets[n - 1].column := SourceValue(sets[n - 1].source, row)]
  }

  // ---------- Where a column comes from ----------

  /** The source written for column c by the last of the first n clauses that sets it; the column itself if none does. */
  function LastSource(c: nat, sets: seq<Assignment>, n: nat): Source
    requires n <= |sets|
  {
    if n == 0 then Column(c)
    else if sets[n - 1].column == c then sets[n - 1].source
    else LastSource(c, sets, n - 1)
  }

  /** The same source, resolved through the clauses before it to a constant or a column of the row as it was. */
  function Resolved(c: nat, sets: seq<Assignment>, n: nat): Source
    requires n <= |sets|
    decreases n
  {
    if n == 0 then Column(c)
    else if sets[n - 1].column != c then Resolved(c, sets, n - 1)
    else if sets[n - 1].source.Column? then Resolved(sets[n - 1].source.index, sets, n - 1)
    else sets[n - 1].source
  }

  lemma {:induction false} SourcesFit(c: nat, sets: seq<Assignment>, types: seq<ColumnType>, n: nat)
    requires AssignmentsFit(sets, types) && n <= |sets| && c < |types|
    ensures SourceFits(LastSource(c, sets, n), types, c) && SourceFits(Resolved(c, sets, n), types, c)
    decreases n
  {
    if n > 0 {
      SourcesFit(c, sets, types, n - 1);
      if sets[n - 1].source.Column? {
        assert SourceFits(sets[n - 1].source, types, sets[n - 1].column);
        SourcesFit(sets[n - 1].source.index, sets, types, n - 1);
      }
    }
  }

  /** Clauses all at once give every column its last source. */
  lemma {:induction false} AtOnceReads(row: Row, sets: seq<Assignment>, types: seq<ColumnType>, n: nat, c: nat)
    requires RowFits(row, types) && AssignmentsFit(sets, types) && n <= |sets| && c < |types|
    ensures var s := LastSource(c, sets, n); s.Column? ==> s.index < |row|
    ensures AllAtOnce(row, sets, types, n)[c] == SourceValue(LastSource(c, sets, n), row)
  {
    SourcesFit(c, sets, types, n);
    if n > 0 {
      AtOnceReads(row, sets, types, n - 1, c);
    }
  }

  /** Clauses one by one give every column its resolved source. */
  lemma {:induction false} OneByOneReads(row: Row, sets: seq<Assignment>, types: seq<ColumnType>, n: nat, c: nat)
    requires RowFits(row, types) && AssignmentsFit(sets, types) && n <= |sets| && c < |types|
    ensures var s := Resolved(c, sets, n); s.Column? ==> s.index < |row|
    ensures OneByOne(row, sets, types, n)[c] == SourceValue(Resolved(c, sets, n), row)
    decreases n
  {
    SourcesFit(c, sets, types, n);
    if n > 0 {
      var s := sets[n - 1];
      assert SourceFits(s.source, types, s.column);
      if s.column != c {
        OneByOneReads(row, sets, types, n - 1, c);
      } else if s.source.Column? {
        OneByOneReads(row, sets, types, n - 1, s.source.index);
      }
    }
  }

  // ---------- Rows that tell sources apart ----------

  /** Two values of every column type. */
  function Sample(t: ColumnType, second: bool): (v: Value)
    requires Creatable(t)
    ensures Fits(v, t)
  {
    var n := if second then 1 else 0;
    match t
    case INTEGER => Int(n)
    case TEXT => Text(n, seq(TEXT_SIZE - 1, _ => 0))
    case PNG => Image(seq(PNG_SIZE, _ => n))
  }

  lemma SamplesDiffer(t: ColumnType)
    requires Creatable(t)
    ensures Sample(t, false) != Sample(t, true)
  {
    if t == PNG {
      assert Sample(t, false).handle[0] != Sample(t, true).handle[0];
    }
  }

  /** Different sources of a column give different values for some row of the table. */
  lemma SourcesApart(a: Source, b: Source, types: seq<ColumnType>, c: nat) returns (row: Row)
    requires forall i :: 0 <= i < |types| ==> Creatable(types[i])
    requires SourceFits(a, types, c) && SourceFits(b, types, c) && a != b
    ensures RowFits(row, types) && SourceValue(a, row) != SourceValue(b, row)
  {
    row := seq(|types|, i requires 0 <= i < |types| => Sample(types[i], false));
    SamplesDiffer(types[c]);
    if SourceValue(a, row) == SourceValue(b, row) {
      var d := if a.Column? then a.index else b.index;
      row := row[d := Sample(types[d], true)];
    }
  }

  // ---------- When the order does not show ----------

  /** Every column that is set gets what was written for it, whatever the clauses before it did. */
  predicate OrderDoesNotShow(sets: seq<Assignment>) {
    forall k :: 0 <= k < |sets| ==> Resolved(sets[k].column, sets, |sets|) == LastSource(sets[k].column, sets, |sets|)
  }

  lemma {:induction false} UnsetColumn(c: nat, sets: seq<Assignment>, n: nat)
    requires n <= |sets| && forall k :: 0 <= k < n ==> sets[k].column != c
    ensures LastSource(c, sets, n) == Resolved(c, sets, n) == Column(c)
  {
    if n > 0 {
      UnsetColumn(c, sets, n - 1);
    }
  }

  /**
   For any list of SET clauses: done one by one they mean what SQL says, all at once, for every row of the table, if and
   only if for every column that is set, the source of its last clause, resolved through the clauses before it, is the
   source as it is written.
   */
  lemma OneByOneMeansAtOnceIff(sets: seq<Assignment>, types: seq<ColumnType>)
    requires AssignmentsFit(sets, types) && forall i :: 0 <= i < |types| ==> Creatable(types[i])
    ensures (forall row | RowFits(row, types) :: OneByOne(row, sets, types, |sets|) == AllAtOnce(row, sets, types, |sets|))
            <==> OrderDoesNotShow(sets)
  {
    hide OneByOne, AllAtOnce, LastSource, Resolved, SourceValue, RowFits;
    var n := |sets|;
    if OrderDoesNotShow(sets) {
      forall row | RowFits(row, types)
        ensures OneByOne(row, sets, types, n) == AllAtOnce(row, sets, types, n)
      {
        SameForRow(row, sets, types);
      }
    } else {
      var k :| 0 <= k < n && Resolved(sets[k].column, sets, n) != LastSource(sets[k].column, sets, n);
      var c := sets[k].column;
      assert SourceFits(sets[k].source, types, c);
      SourcesFit(c, sets, types, n);
      var row := SourcesApart(Resolved(c, sets, n), LastSource(c, sets, n), types, c);
      OneByOneReads(row, sets, types, n, c);
      AtOnceReads(row, sets, types, n, c);
      assert RowFits(row, types) && OneByOne(row, sets, types, n) != AllAtOnce(row, sets, types, n);
    }
  }

  lemma SameForRow(row: Row, sets: seq<Assignment>, types: seq<ColumnType>)
    requires RowFits(row, types) && AssignmentsFit(sets, types) && OrderDoesNotShow(sets)
    ensures OneByOne(row, sets, types, |sets|) == AllAtOnce(row, sets, types, |sets|)
  {
    hide OneByOne, AllAtOnce, LastSource, Resolved, SourceValue;
    var n := |sets|;
    forall c | 0 <= c < |types|
      ensures OneByOne(row, sets, types, n)[c] == AllAtOnce(row, sets, types, n)[c]
    {
      OneByOneReads(row, sets, types, n, c);
      AtOnceReads(row, sets, types, n, c);
      SameSource(c, sets);
    }
  }

  lemma SameSource(c: nat, sets: seq<Assignment>)
    requires OrderDoesNotShow(sets)
    ensures Resolved(c, sets, |sets|) == LastSource(c, sets, |sets|)
  {
    hide LastSource, Resolved;
    if forall k :: 0 <= k < |sets| ==> sets[k].column != c {
      UnsetColumn(c, sets, |sets|);
    }
  }

  /** No clause reads a column that an earlier one sets. */
  predicate Independent(sets: seq<Assignment>) {
    forall j, k :: 0 <= j < k < |sets| ==> sets[k].source != Column(sets[j].column)
  }

  lemma {:induction false} IndependentResolves(sets: seq<Assignment>, n: nat, c: nat)
    requires Independent(sets) && n <= |sets|
    ensures Resolved(c, sets, n) == LastSource(c, sets, n)
  {
    if n > 0 {
      IndependentResolves(sets, n - 1, c);
      var s := sets[n - 1].source;
      if s.Column? {
        UnsetColumn(s.index, sets, n - 1);
      }
    }
  }

  /** Then the order does not show. */
  lemma IndependentMeansAtOnce(row: Row, sets: seq<Assignment>, types: seq<ColumnType>)
    requires RowFits(row, types) && AssignmentsFit(sets, types) && Independent(sets)
    ensures OneByOne(row, sets, types, |sets|) == AllAtOnce(row, sets, types, |sets|)
  {
    forall k | 0 <= k < |sets|
      ensures Resolved(sets[k].column, sets, |sets|) == LastSource(sets[k].column, sets, |sets|)
    {
      IndependentResolves(sets, |sets|, sets[k].column);
    }
    SameForRow(row, sets, types);
  }

  /** Nor does it for some other lists: `SET a = a, b = a`, and `SET a = v, b = a, b = v`. */
  lemma DependentExamples(v: Value)
    ensures var one, two := [Assignment(0, Column(0)), Assignment(1, Column(0))],
                            [Assignment(0, Constant(v)), Assignment(1, Column(0)), Assignment(1, Constant(v))];
            OrderDoesNotShow(one) && !Independent(one) && OrderDoesNotShow(two) && !Independent(two)
  {
    var one := [Assignment(0, Column(0)), Assignment(1, Column(0))];
    var two := [Assignment(0, Constant(v)), Assignment(1, Column(0)), Assignment(1, Constant(v))];
    assert one[0].column == 0 && one[1].source == Column(0) && two[0].column == 0 && two[1].source == Column(0);
    assert Resolved(0, one, 1) == Column(0) && LastSource(0, one, 1) == Column(0);
    assert Resolved(0, one, 2) == LastSource(0, one, 2) && Resolved(1, one, 2) == LastSource(1, one, 2);
    assert Resolved(0, two, 1) == Constant(v) && LastSource(0, two, 1) == Constant(v);
    assert Resolved(0, two, 2) == Constant(v) && LastSource(0, two, 2) == Constant(v);
    assert Resolved(0, two, 3) == LastSource(0, two, 3) && Resolved(1, two, 3) == LastSource(1, two, 3);
  }

  /** `SET a = b, b = a` does not swap: it does exactly for rows in which the two are equal already. */
  lemma SwapIff(row: Row, types: seq<ColumnType>)
    requires |types| == 2 && types[0] == types[1] && RowFits(row, types)
    ensures var sets := [Assignment(0, Column(1)), Assignment(1, Column(0))];
            && AssignmentsFit(sets, types)
            && (OneByOne(row, sets, types, 2) == AllAtOnce(row, sets, types, 2) <==> row[0] == row[1])
  {
    var sets := [Assignment(0, Column(1)), Assignment(1, Column(0))];
    assert sets[0] == Assignment(0, Column(1)) && sets[1] == Assignment(1, Column(0));
    assert AllAtOnce(row, sets, types, 1) == row[0 := row[1]];
    assert OneByOne(row, sets, types, 1) == row[0 := row[1]];
    assert AllAtOnce(row, sets, types, 2) == row[0 := row[1]][1 := row[0]];
    assert OneByOne(row, sets, types, 2)[1] == row[1];
  }
}
