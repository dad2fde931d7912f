/** PRIMARY KEY and UNIQUE columns (src/constraints.rs): no two rows share a non-NULL value
    (ISO/IEC 9075:1992, section 8.9, for the NULL rule). */
module Constraints {
  import opened Options
  import opened KeyCodec
  import opened Expressions

  type Tuple = seq<Value>

  datatype Violation = PrimaryKeyViolation(column: nat, value: Value) | UniqueViolation(column: nat, value: Value)

  predicate Constrained(c: Column) {
    c.primaryKey || c.unique
  }

  predicate RowOk(schema: Schema, t: Tuple) {
    && |t| == |schema|
    && forall i :: 0 <= i < |t| ==> if t[i] == Null then schema[i].nullable else t[i].Type() == Some(schema[i].dataType)
  }

  ghost predicate RowsOk(schema: Schema, rows: seq<Tuple>) {
    forall i :: 0 <= i < |rows| ==> RowOk(schema, rows[i])
  }

  /** Two rows that no unique column keeps apart. */
  predicate Clash(c: nat, a: Tuple, b: Tuple) {
    c < |a| && c < |b| && a[c] != Null && a[c] == b[c]
  }

  ghost predicate ColumnUnique(rows: seq<Tuple>, c: nat) {
    forall i, j :: 0 <= i < j < |rows| ==> !Clash(c, rows[i], rows[j])
  }

  /** No unique column repeats a value other than NULL. */
  ghost predicate UniqueOk(schema: Schema, rows: seq<Tuple>) {
    forall c :: 0 <= c < |schema| && Constrained(schema[c]) ==> ColumnUnique(rows, c)
  }

  /** The candidates may be added to the others, as far as this column goes. */
  ghost predicate ColumnFree(others: seq<Tuple>, candidates: seq<Tuple>, c: nat) {
    && ColumnUnique(candidates, c)
    && forall i, j :: 0 <= i < |others| && 0 <= j < |candidates| ==> !Clash(c, others[i], candidates[j])
  }

  /** A value other than NULL that a new row has in common with another row. */
  ghost predicate Shared(others: seq<Tuple>, candidates: seq<Tuple>, c: nat, v: Value) {
    exists a, b :: Clash(c, a, b) && a[c] == v && b in candidates && (a in others || TwoOf(candidates, a, b))
  }

  ghost predicate TwoOf(rows: seq<Tuple>, a: Tuple, b: Tuple) {
    exists i, j :: 0 <= i < j < |rows| && rows[i] == a && rows[j] == b
  }

  /** Uniqueness in the terms of SQL: in a PRIMARY KEY or UNIQUE column two rows have different values, or NULL. */
  lemma UniqueMeans(schema: Schema, rows: seq<Tuple>)
    requires RowsOk(schema, rows)
    ensures UniqueOk(schema, rows) <==>
      forall c, i, j :: 0 <= c < |schema| && (schema[c].primaryKey || schema[c].unique) && 0 <= i < j < |rows| ==>
        |rows[i]| == |rows[j]| == |schema| && (rows[i][c] == rows[j][c] ==> rows[i][c] == Null)
  {
    Wide(schema, rows);
    forall c | 0 <= c < |schema|
      ensures ColumnUnique(rows, c) <==>
        forall i, j :: 0 <= i < j < |rows| ==>
          |rows[i]| == |rows[j]| == |schema| && (rows[i][c] == rows[j][c] ==> rows[i][c] == Null)
    {
      assert forall i, j :: 0 <= i < j < |rows| ==> rows[i] in rows && rows[j] in rows;
    }
  }

  /** The error names the first column with a clash, its kind, and a value that clashes there. */
  ghost predicate FirstViolation(schema: Schema, others: seq<Tuple>, candidates: seq<Tuple>, error: Violation) {
    && error.column < |schema| && Shared(others, candidates, error.column, error.value)
    && (error.PrimaryKeyViolation? <==> schema[error.column].primaryKey)
    && (schema[error.column].primaryKey || schema[error.column].unique)
    && forall b :: 0 <= b < error.column && (schema[b].primaryKey || schema[b].unique) ==>
         ColumnFree(others, candidates, b)
  }

  /** `check_uniqueness`: reports the first column with a clash, if there is one. */
  method CheckUniqueness(schema: Schema, others: seq<Tuple>, candidates: seq<Tuple>) returns (error: Option<Violation>)
    requires RowsOk(schema, others) && RowsOk(schema, candidates)
    ensures error.None? <==> forall c :: 0 <= c < |schema| && Constrained(schema[c]) ==>
      ColumnFree(others, candidates, c)
    ensures error.Some? ==> FirstViolation(schema, others, candidates, error.value)
  {
    hide RowOk;
    Wide(schema, others);
    Wide(schema, candidates);
    var c := 0;
    while c < |schema|
      invariant c <= |schema|
      invariant forall b :: 0 <= b < c && Constrained(schema[b]) ==> ColumnFree(others, candidates, b)
    {
      if Constrained(schema[c]) {
        var clash := FindClash(others, candidates, c);
        if clash.Some? {
          return Some(if schema[c].primaryKey then PrimaryKeyViolation(c, clash.value)
                      else UniqueViolation(c, clash.value));
        }
      }
      c := c + 1;
    }
    error := None;
  }

  lemma Wide(schema: Schema, rows: seq<Tuple>)
    requires RowsOk(schema, rows)
    ensures forall t :: t in rows ==> |t| == |schema|
  {
  }

  /** A value of this column that two rows share. */
  method FindClash(others: seq<Tuple>, candidates: seq<Tuple>, c: nat) returns (value: Option<Value>)
    requires forall t :: t in others ==> c < |t|
    requires forall t :: t in candidates ==> c < |t|
    ensures value.None? <==> ColumnFree(others, candidates, c)
    ensures value.Some? ==> Shared(others, candidates, c, value.value)
  {
    var j := 0;
    while j < |candidates|
      invariant j <= |candidates|
      invariant forall i, k :: 0 <= i < |others| && 0 <= k < j ==> !Clash(c, others[i], candidates[k])
    {
      var i := 0;
      while i < |others| && candidates[j][c] != Null
        invariant i <= |others|
        invariant forall k :: 0 <= k < i ==> !Clash(c, others[k], candidates[j])
      {
        if others[i][c] == candidates[j][c] {
          assert Clash(c, others[i], candidates[j]);
          return Some(candidates[j][c]);
        }
        i := i + 1;
      }
      j := j + 1;
    }
    j := 0;
    while j < |candidates|
      invariant j <= |candidates|
      invariant forall i, k :: 0 <= i < j && i < k < |candidates| ==> !Clash(c, candidates[i], candidates[k])
    {
      var k := j + 1;
      while k < |candidates| && candidates[j][c] != Null
        invariant j < k <= |candidates|
        invariant forall m :: j < m < k ==> !Clash(c, candidates[j], candidates[m])
      {
        if candidates[k][c] != Null && candidates[k][c] == candidates[j][c] {
          assert Clash(c, candidates[j], candidates[k]) && TwoOf(candidates, candidates[j], candidates[k]);
          return Some(candidates[j][c]);
        }
        k := k + 1;
      }
      j := j + 1;
    }
    value := None;
  }

  /** Rows that are kept and rows that are new make a unique table exactly if the kept rows do and the check passes. */
  lemma CheckedIsUnique(schema: Schema, others: seq<Tuple>, candidates: seq<Tuple>)
    ensures UniqueOk(schema, others + candidates) <==>
      UniqueOk(schema, others) && forall c :: 0 <= c < |schema| && Constrained(schema[c]) ==>
        ColumnFree(others, candidates, c)
  {
    forall c | 0 <= c < |schema|
      ensures ColumnUnique(others + candidates, c) <==> ColumnUnique(others, c) && ColumnFree(others, candidates, c)
    {
      JoinedUnique(others, candidates, c);
    }
  }

  lemma JoinedUnique(others: seq<Tuple>, candidates: seq<Tuple>, c: nat)
    ensures ColumnUnique(others + candidates, c) <==> ColumnUnique(others, c) && ColumnFree(others, candidates, c)
  {
    var all := others + candidates;
    assert forall i :: 0 <= i < |others| ==> all[i] == others[i];
    assert forall i :: 0 <= i < |candidates| ==> all[|others|+i] == candidates[i];
  }

  // ---- Uniqueness does not depend on the order of the rows

  ghost predicate UniqueRows(schema: Schema, m: multiset<Tuple>) {
    forall c, a, b :: 0 <= c < |schema| && Constrained(schema[c]) && a in m && b in m && Clash(c, a, b) ==>
      a == b && m[a] == 1
  }

  lemma UniqueByCount(schema: Schema, rows: seq<Tuple>)
    ensures UniqueOk(schema, rows) <==> UniqueRows(schema, multiset(rows))
  {
    var m := multiset(rows);
    if UniqueOk(schema, rows) {
      forall c, a, b | 0 <= c < |schema| && Constrained(schema[c]) && a in m && b in m &&
          Clash(c, a, b) ensures a == b && m[a] == 1 {
        assert ColumnUnique(rows, c);
        var i :| 0 <= i < |rows| && rows[i] == a;
        var j :| 0 <= j < |rows| && rows[j] == b;
        assert i == j;
        Once(rows, i);
      }
    }
    if UniqueRows(schema, m) {
      forall c | 0 <= c < |schema| && Constrained(schema[c]) ensures ColumnUnique(rows, c) {
        forall i, j | 0 <= i < j < |rows| ensures !Clash(c, rows[i], rows[j]) {
          Twice(rows, i, j);
          assert rows[i] in m && rows[j] in m;
        }
      }
    }
  }

  /** A row that appears at one index only counts once. */
  lemma Once(rows: seq<Tuple>, i: nat)
    requires i < |rows| && forall j :: 0 <= j < |rows| && rows[j] == rows[i] ==> j == i
    ensures multiset(rows)[rows[i]] == 1
  {
    assert rows == rows[..i] + [rows[i]] + rows[i+1..];
    assert rows[i] !in rows[..i] && rows[i] !in rows[i+1..];
  }

  lemma Twice(rows: seq<Tuple>, i: nat, j: nat)
    requires i < j < |rows|
    ensures rows[i] == rows[j] ==> multiset(rows)[rows[i]] >= 2
  {
    assert rows == rows[..j] + [rows[j]] + rows[j+1..];
    assert rows[..j][i] in rows[..j];
  }
}
