/**
 * Table preparation before training: `clean_data` drops duplicate rows,
 * then rows with a missing value, then the `timestamp` column;
 * `feature_extraction` replaces the `protocol` column by integer labels.
 *
 * A table is a list of column names and a list of rows; a cell is a number,
 * a string, or missing (`None`).
 */
module Preprocess {
  import opened Common

  datatype Cell = Num(n: int) | Text(s: string)

  type Row = seq<Option<Cell>>

  datatype Table = Table(columns: seq<string>, rows: seq<Row>)

  /** Every row has one cell per column. */
  predicate WellFormed(t: Table)
  {
    forall r | r in t.rows :: |r| == |t.columns|
  }

  /** A row with no missing cell. */
  predicate Complete(r: Row)
  {
    forall c | c in r :: c.Some?
  }

  /** No value occurs twice. */
  ghost predicate Distinct<T>(xs: seq<T>)
  {
    forall i, j :: 0 <= i < j < |xs| ==> xs[i] != xs[j]
  }

  /** xs can be obtained from ys by deleting elements, so xs keeps the order of ys. */
  ghost predicate Subsequence<T>(xs: seq<T>, ys: seq<T>)
    decreases |ys|
  {
    || xs == []
    || (&& ys != []
        && (|| (xs[|xs| - 1] == ys[|ys| - 1] && Subsequence(xs[..|xs| - 1], ys[..|ys| - 1]))
            || Subsequence(xs, ys[..|ys| - 1])))
  }

  // ---------------------------------------------------------------------
  // The three steps of clean_data

  /** `drop_duplicates()`: every row that equals an earlier row is dropped; the first one stays. */
  function DropDuplicates<T(==)>(rows: seq<T>): (r: seq<T>)
    ensures forall x | x in r :: x in rows
  {
    if rows == [] then []
    else
      var init := rows[..|rows| - 1];
      DropDuplicates(init) + (if rows[|rows| - 1] in init then [] else [rows[|rows| - 1]])
  }

  /** `dropna()`: rows with a missing cell are dropped. */
  function DropMissing(rows: seq<Row>): (r: seq<Row>)
    ensures forall x | x in r :: x in rows && Complete(x)
  {
    if rows == [] then []
    else
      var last := rows[|rows| - 1];
      DropMissing(rows[..|rows| - 1]) + (if Complete(last) then [last] else [])
  }

  /** The entries of xs whose column is not `timestamp`, in order. */
  function WithoutTimestamp<T>(columns: seq<string>, xs: seq<T>): (r: seq<T>)
    requires |xs| == |columns|
    ensures |r| <= |xs|
  {
    if columns == [] then []
    else
      var n := |columns| - 1;
      WithoutTimestamp(columns[..n], xs[..n]) + (if columns[n] == "timestamp" then [] else [xs[n]])
  }

  /** `drop(columns=['timestamp'])` applied to every row. */
  function ProjectRows(columns: seq<string>, rows: seq<Row>): (r: seq<Row>)
    requires forall x | x in rows :: |x| == |columns|
    ensures |r| == |rows|
    ensures forall i :: 0 <= i < |rows| ==> r[i] == WithoutTimestamp(columns, rows[i])
  {
    seq(|rows|, i requires 0 <= i < |rows| => WithoutTimestamp(columns, rows[i]))
  }

  /** The rows clean_data keeps, before the column is dropped. */
  function SurvivingRows(t: Table): (r: seq<Row>)
    requires WellFormed(t)
    ensures forall x | x in r :: |x| == |t.columns|
  {
    DropMissing(DropDuplicates(t.rows))
  }

  /** `clean_data(df)`, in the order the code applies its steps. */
  function CleanData(t: Table): Table
    requires WellFormed(t)
  {
    var rows := SurvivingRows(t);
    if "timestamp" in t.columns then
      Table(WithoutTimestamp(t.columns, t.columns), ProjectRows(t.columns, rows))
    else
      Table(t.columns, rows)
  }

  // ---------------------------------------------------------------------
  // Subsequences

  /** A subsequence stays one when the longer list grows. */
  lemma SubsequenceExtend<T>(xs: seq<T>, ys: seq<T>, y: T)
    requires Subsequence(xs, ys)
    ensures Subsequence(xs, ys + [y])
  {
    assert (ys + [y])[..|ys|] == ys;
  }

  /** Matching the last elements extends a subsequence of the prefixes. */
  lemma SubsequenceMatchLast<T>(xs: seq<T>, ys: seq<T>)
    requires xs != [] && ys != [] && xs[|xs| - 1] == ys[|ys| - 1]
    requires Subsequence(xs[..|xs| - 1], ys[..|ys| - 1])
    ensures Subsequence(xs, ys)
  {
  }

  /** A subsequence of all of ys but its last element is a subsequence of ys. */
  lemma SubsequenceSkipLast<T>(xs: seq<T>, ys: seq<T>)
    requires ys != [] && Subsequence(xs, ys[..|ys| - 1])
    ensures Subsequence(xs, ys)
  {
  }

  lemma {:induction false} SubsequenceReflexive<T>(xs: seq<T>)
    ensures Subsequence(xs, xs)
    decreases |xs|
  {
    if xs != [] {
      SubsequenceReflexive(xs[..|xs| - 1]);
    }
  }

  /** Every element of a subsequence is an element of the longer list. */
  lemma {:induction false} SubsequenceMembers<T>(xs: seq<T>, ys: seq<T>)
    requires Subsequence(xs, ys)
    ensures forall x | x in xs :: x in ys
    decreases |ys|
  {
    if xs != [] {
      var n := |ys| - 1;
      assert ys == ys[..n] + [ys[n]];
      if xs[|xs| - 1] == ys[n] && Subsequence(xs[..|xs| - 1], ys[..n]) {
        SubsequenceMembers(xs[..|xs| - 1], ys[..n]);
        assert xs == xs[..|xs| - 1] + [ys[n]];
      } else {
        SubsequenceMembers(xs, ys[..n]);
      }
    }
  }

  lemma {:induction false} SubsequenceTransitive<T>(xs: seq<T>, ys: seq<T>, zs: seq<T>)
    requires Subsequence(xs, ys) && Subsequence(ys, zs)
    ensures Subsequence(xs, zs)
    decreases |zs|
  {
    if xs != [] {
      var n := |zs| - 1;
      assert zs == zs[..n] + [zs[n]];
      if ys[|ys| - 1] == zs[n] && Subsequence(ys[..|ys| - 1], zs[..n]) {
        if xs[|xs| - 1] == ys[|ys| - 1] && Subsequence(xs[..|xs| - 1], ys[..|ys| - 1]) {
          SubsequenceTransitive(xs[..|xs| - 1], ys[..|ys| - 1], zs[..n]);
        } else {
          SubsequenceTransitive(xs, ys[..|ys| - 1], zs[..n]);
          SubsequenceExtend(xs, zs[..n], zs[n]);
        }
      } else {
        SubsequenceTransitive(xs, ys, zs[..n]);
        SubsequenceExtend(xs, zs[..n], zs[n]);
      }
    }
  }

  // ---------------------------------------------------------------------
  // What each step keeps

  /** Dropping duplicates keeps every distinct row, adds none, leaves no two equal rows, and keeps order. */
  lemma DropDuplicatesKeepsRows<T>(rows: seq<T>)
    ensures forall x :: x in DropDuplicates(rows) <==> x in rows
    ensures Distinct(DropDuplicates(rows))
    ensures Subsequence(DropDuplicates(rows), rows)
  {
    DropDuplicatesMembers(rows);
    DropDuplicatesDistinct(rows);
    DropDuplicatesOrder(rows);
  }

  lemma {:induction false} DropDuplicatesMembers<T>(rows: seq<T>)
    ensures forall x :: x in DropDuplicates(rows) <==> x in rows
    decreases |rows|
  {
    if rows != [] {
      var init := rows[..|rows| - 1];
      DropDuplicatesMembers(init);
      assert rows == init + [rows[|rows| - 1]];
    }
  }

  lemma {:induction false} DropDuplicatesDistinct<T>(rows: seq<T>)
    ensures Distinct(DropDuplicates(rows))
    decreases |rows|
  {
    if rows != [] {
      var init := rows[..|rows| - 1];
      DropDuplicatesDistinct(init);
      DropDuplicatesMembers(init);
    }
  }

  lemma {:induction false} DropDuplicatesOrder<T>(rows: seq<T>)
    ensures Subsequence(DropDuplicates(rows), rows)
    decreases |rows|
  {
    if rows != [] {
      var init := rows[..|rows| - 1];
      var last := rows[|rows| - 1];
      DropDuplicatesOrder(init);
      assert rows == init + [last];
      var d := DropDuplicates(rows);
      if last in init {
        assert d == DropDuplicates(init);
        SubsequenceExtend(DropDuplicates(init), init, last);
      } else {
        assert d[..|d| - 1] == DropDuplicates(init);
      }
    }
  }

  /** Dropping a list with no two equal rows leaves it as it is. */
  lemma {:induction false} DropDuplicatesOfDistinct<T>(rows: seq<T>)
    requires Distinct(rows)
    ensures DropDuplicates(rows) == rows
    decreases |rows|
  {
    if rows != [] {
      var init := rows[..|rows| - 1];
      assert Distinct(init);
      DropDuplicatesOfDistinct(init);
      assert rows[|rows| - 1] !in init;
      assert rows == init + [rows[|rows| - 1]];
    }
  }

  /** Dropping missing values keeps exactly the complete rows, in order, and adds no duplicate. */
  lemma DropMissingKeepsRows(rows: seq<Row>)
    ensures forall x :: x in DropMissing(rows) <==> x in rows && Complete(x)
    ensures Subsequence(DropMissing(rows), rows)
    ensures Distinct(rows) ==> Distinct(DropMissing(rows))
  {
    DropMissingMembers(rows);
    DropMissingOrder(rows);
    if Distinct(rows) {
      DropMissingDistinct(rows);
    }
  }

  lemma {:induction false} DropMissingMembers(rows: seq<Row>)
    ensures forall x :: x in DropMissing(rows) <==> x in rows && Complete(x)
    decreases |rows|
  {
    if rows != [] {
      var init := rows[..|rows| - 1];
      DropMissingMembers(init);
      assert rows == init + [rows[|rows| - 1]];
    }
  }

  lemma {:induction false} DropMissingOrder(rows: seq<Row>)
    ensures Subsequence(DropMissing(rows), rows)
    decreases |rows|
  {
    if rows != [] {
      var init := rows[..|rows| - 1];
      var last := rows[|rows| - 1];
      DropMissingOrder(init);
      if Complete(last) {
        var d := DropMissing(rows);
        assert d[..|d| - 1] == DropMissing(init);
      } else {
        assert DropMissing(rows) == DropMissing(init);
        SubsequenceExtend(DropMissing(init), init, last);
      }
    }
  }

  lemma {:induction false} DropMissingDistinct(rows: seq<Row>)
    requires Distinct(rows)
    ensures Distinct(DropMissing(rows))
    decreases |rows|
  {
    if rows != [] {
      var init := rows[..|rows| - 1];
      var last := rows[|rows| - 1];
      assert Distinct(init);
      DropMissingDistinct(init);
      DropMissingMembers(init);
      assert last !in init;
    }
  }

  /** A list of complete rows passes `dropna()` unchanged. */
  lemma {:induction false} DropMissingOfComplete(rows: seq<Row>)
    requires forall x | x in rows :: Complete(x)
    ensures DropMissing(rows) == rows
    decreases |rows|
  {
    if rows != [] {
      var init := rows[..|rows| - 1];
      assert rows == init + [rows[|rows| - 1]];
      DropMissingOfComplete(init);
    }
  }

  /** Only entries of non-timestamp columns are kept, and every such entry is kept. */
  lemma {:induction false} WithoutTimestampKeeps<T>(columns: seq<string>, xs: seq<T>)
    requires |xs| == |columns|
    ensures forall x :: x in WithoutTimestamp(columns, xs) ==> x in xs
    ensures forall i :: 0 <= i < |xs| && columns[i] != "timestamp" ==> xs[i] in WithoutTimestamp(columns, xs)
    ensures "timestamp" !in columns ==> WithoutTimestamp(columns, xs) == xs
    ensures |WithoutTimestamp(columns, xs)| == |WithoutTimestamp(columns, columns)|
    decreases |columns|
  {
    if columns != [] {
      var n := |columns| - 1;
      WithoutTimestampKeeps(columns[..n], xs[..n]);
      WithoutTimestampKeeps(columns[..n], columns[..n]);
      assert columns[..n] + [columns[n]] == columns;
      assert xs[..n] + [xs[n]] == xs;
      forall i | 0 <= i < |xs| && columns[i] != "timestamp"
        ensures xs[i] in WithoutTimestamp(columns, xs)
      {
        if i < n {
          assert xs[..n][i] == xs[i];
        }
      }
    }
  }

  lemma {:induction false} WithoutTimestampNoTimestamp(columns: seq<string>)
    ensures "timestamp" !in WithoutTimestamp(columns, columns)
    decreases |columns|
  {
    if columns != [] {
      WithoutTimestampNoTimestamp(columns[..|columns| - 1]);
    }
  }

  lemma {:induction false} WithoutTimestampOrder<T>(columns: seq<string>, xs: seq<T>)
    requires |xs| == |columns|
    ensures Subsequence(WithoutTimestamp(columns, xs), xs)
    decreases |columns|
  {
    if columns != [] {
      var n := |columns| - 1;
      WithoutTimestampOrder(columns[..n], xs[..n]);
      assert xs[..n] + [xs[n]] == xs;
      var w := WithoutTimestamp(columns, xs);
      if columns[n] == "timestamp" {
        assert w == WithoutTimestamp(columns[..n], xs[..n]);
        SubsequenceExtend(WithoutTimestamp(columns[..n], xs[..n]), xs[..n], xs[n]);
      } else {
        assert w[..|w| - 1] == WithoutTimestamp(columns[..n], xs[..n]);
      }
    }
  }

  /** The names of the columns that remain: all but `timestamp`, in order. */
  lemma WithoutTimestampColumns(columns: seq<string>)
    ensures "timestamp" !in WithoutTimestamp(columns, columns)
    ensures forall c :: c in WithoutTimestamp(columns, columns) <==> c in columns && c != "timestamp"
    ensures Subsequence(WithoutTimestamp(columns, columns), columns)
  {
    WithoutTimestampKeeps(columns, columns);
    WithoutTimestampNoTimestamp(columns);
    WithoutTimestampOrder(columns, columns);
  }

  /** Projecting a subsequence of rows gives a subsequence of the projected rows. */
  lemma {:induction false} ProjectSubsequence(columns: seq<string>, xs: seq<Row>, ys: seq<Row>)
    requires forall x | x in ys :: |x| == |columns|
    requires forall x | x in xs :: |x| == |columns|
    requires Subsequence(xs, ys)
    ensures Subsequence(ProjectRows(columns, xs), ProjectRows(columns, ys))
    decreases |ys|
  {
    if xs != [] {
      assert ys != [];
      var n := |ys| - 1;
      var m := |xs| - 1;
      ProjectPrefix(columns, ys);
      if xs[m] == ys[n] && Subsequence(xs[..m], ys[..n]) {
        ProjectPrefix(columns, xs);
        ProjectSubsequence(columns, xs[..m], ys[..n]);
        ProjectMatchLast(columns, xs, ys);
      } else {
        ProjectSubsequence(columns, xs, ys[..n]);
        ProjectSkipLast(columns, xs, ys);
      }
    }
  }

  /** When the last rows are the same, projecting keeps them paired. */
  lemma ProjectMatchLast(columns: seq<string>, xs: seq<Row>, ys: seq<Row>)
    requires forall x | x in ys :: |x| == |columns|
    requires forall x | x in xs :: |x| == |columns|
    requires xs != [] && ys != [] && xs[|xs| - 1] == ys[|ys| - 1]
    requires forall x | x in xs[..|xs| - 1] :: |x| == |columns|
    requires forall x | x in ys[..|ys| - 1] :: |x| == |columns|
    requires Subsequence(ProjectRows(columns, xs[..|xs| - 1]), ProjectRows(columns, ys[..|ys| - 1]))
    ensures Subsequence(ProjectRows(columns, xs), ProjectRows(columns, ys))
  {
    var px := ProjectRows(columns, xs);
    var py := ProjectRows(columns, ys);
    ProjectPrefix(columns, xs);
    ProjectPrefix(columns, ys);
    assert px[|xs| - 1] == py[|ys| - 1];
    SubsequenceMatchLast(px, py);
  }

  /** Projecting a subsequence of all rows but the last gives a subsequence of all projected rows. */
  lemma ProjectSkipLast(columns: seq<string>, xs: seq<Row>, ys: seq<Row>)
    requires forall x | x in ys :: |x| == |columns|
    requires forall x | x in xs :: |x| == |columns|
    requires ys != []
    requires forall x | x in ys[..|ys| - 1] :: |x| == |columns|
    requires Subsequence(ProjectRows(columns, xs), ProjectRows(columns, ys[..|ys| - 1]))
    ensures Subsequence(ProjectRows(columns, xs), ProjectRows(columns, ys))
  {
    ProjectPrefix(columns, ys);
    SubsequenceSkipLast(ProjectRows(columns, xs), ProjectRows(columns, ys));
  }

  /** Projecting all rows but the last gives all projected rows but the last. */
  lemma ProjectPrefix(columns: seq<string>, rows: seq<Row>)
    requires forall x | x in rows :: |x| == |columns|
    requires rows != []
    ensures forall x | x in rows[..|rows| - 1] :: |x| == |columns|
    ensures ProjectRows(columns, rows[..|rows| - 1]) == ProjectRows(columns, rows)[..|rows| - 1]
  {
    assert forall x | x in rows[..|rows| - 1] :: x in rows;
  }

  /** Projecting without a timestamp column changes nothing. */
  lemma ProjectIdentity(columns: seq<string>, rows: seq<Row>)
    requires "timestamp" !in columns
    requires forall x | x in rows :: |x| == |columns|
    ensures ProjectRows(columns, rows) == rows
  {
    forall i | 0 <= i < |rows|
      ensures ProjectRows(columns, rows)[i] == rows[i]
    {
      WithoutTimestampKeeps(columns, rows[i]);
    }
  }

  // ---------------------------------------------------------------------
  // What clean_data promises

  /**
   * The output is a well-formed table with no missing cell and no
   * `timestamp` column; it keeps every other column, in order.
   */
  lemma CleanDataShape(t: Table)
    requires WellFormed(t)
    ensures WellFormed(CleanData(t))
    ensures forall r | r in CleanData(t).rows :: Complete(r)
    ensures "timestamp" !in CleanData(t).columns
    ensures forall c :: c in CleanData(t).columns <==> c in t.columns && c != "timestamp"
    ensures Subsequence(CleanData(t).columns, t.columns)
  {
    var rows := SurvivingRows(t);
    DropDuplicatesKeepsRows(t.rows);
    DropMissingKeepsRows(DropDuplicates(t.rows));
    WithoutTimestampColumns(t.columns);
    if "timestamp" in t.columns {
      forall r | r in CleanData(t).rows
        ensures |r| == |CleanData(t).columns| && Complete(r)
      {
        var i :| 0 <= i < |rows| && r == ProjectRows(t.columns, rows)[i];
        assert rows[i] in rows;
        WithoutTimestampKeeps(t.columns, rows[i]);
      }
    } else {
      assert WithoutTimestamp(t.columns, t.columns) == t.columns by {
        WithoutTimestampKeeps(t.columns, t.columns);
      }
      SubsequenceReflexive(t.columns);
    }
  }

  /** In both branches, the output rows are the surviving rows without their timestamp cells. */
  lemma CleanDataProjects(t: Table)
    requires WellFormed(t)
    ensures CleanData(t).rows == ProjectRows(t.columns, SurvivingRows(t))
  {
    if "timestamp" !in t.columns {
      ProjectIdentity(t.columns, SurvivingRows(t));
    }
  }

  /** The output rows keep the order of the input rows. */
  lemma CleanDataKeepsOrder(t: Table)
    requires WellFormed(t)
    ensures Subsequence(CleanData(t).rows, ProjectRows(t.columns, t.rows))
  {
    var rows := SurvivingRows(t);
    DropDuplicatesKeepsRows(t.rows);
    DropMissingKeepsRows(DropDuplicates(t.rows));
    SubsequenceTransitive(rows, DropDuplicates(t.rows), t.rows);
    ProjectSubsequence(t.columns, rows, t.rows);
    CleanDataProjects(t);
  }

  /**
   * Every output row is a complete input row without its timestamp cell,
   * and every complete input row appears that way: rows are lost only to
   * a missing value or as duplicates.
   */
  lemma CleanDataRows(t: Table)
    requires WellFormed(t)
    ensures forall x :: x in CleanData(t).rows <==>
      exists r :: r in t.rows && Complete(r) && x == WithoutTimestamp(t.columns, r)
  {
    DropDuplicatesMembers(t.rows);
    DropMissingMembers(DropDuplicates(t.rows));
    CleanDataProjects(t);
    ProjectCompleteMembers(t.columns, t.rows, SurvivingRows(t));
  }

  /** The projection of a list holding exactly the complete rows holds exactly their projections. */
  lemma ProjectCompleteMembers(columns: seq<string>, rows: seq<Row>, kept: seq<Row>)
    requires forall r | r in rows :: |r| == |columns|
    requires forall r :: r in kept <==> r in rows && Complete(r)
    ensures forall x :: x in ProjectRows(columns, kept) <==>
      exists r :: r in rows && Complete(r) && x == WithoutTimestamp(columns, r)
  {
    forall x
      ensures x in ProjectRows(columns, kept) <==>
        exists r :: r in rows && Complete(r) && x == WithoutTimestamp(columns, r)
    {
      ProjectMembers(columns, kept, x);
    }
  }

  /** A row is in the projected list exactly when it is some row of the list without its timestamp cell. */
  lemma ProjectMembers(columns: seq<string>, rows: seq<Row>, x: Row)
    requires forall r | r in rows :: |r| == |columns|
    ensures x in ProjectRows(columns, rows) <==> exists r :: r in rows && x == WithoutTimestamp(columns, r)
  {
    var out := ProjectRows(columns, rows);
    if x in out {
      var i :| 0 <= i < |out| && out[i] == x;
      assert rows[i] in rows;
    }
    if exists r :: r in rows && x == WithoutTimestamp(columns, r) {
      var r :| r in rows && x == WithoutTimestamp(columns, r);
      var i :| 0 <= i < |rows| && rows[i] == r;
      assert out[i] == x;
    }
  }

  /** Running clean_data on its own output only drops the duplicates the first run left. */
  lemma CleanDataTwice(t: Table)
    requires WellFormed(t)
    ensures WellFormed(CleanData(t))
    ensures CleanData(CleanData(t)) == Table(CleanData(t).columns, DropDuplicates(CleanData(t).rows))
  {
    CleanDataShape(t);
    var once := CleanData(t);
    DropDuplicatesMembers(once.rows);
    DropMissingOfComplete(DropDuplicates(once.rows));
  }

  // Small tables, one step at a time

  lemma WithoutLeadingTimestamp<T>(c: string, x: T, y: T)
    requires c != "timestamp"
    ensures WithoutTimestamp(["timestamp", c], [x, y]) == [y]
  {
    assert ["timestamp", c][..1] == ["timestamp"];
    assert [x, y][..1] == [x];
  }

  lemma DropDuplicatesOfTwo<T>(a: T, b: T)
    ensures DropDuplicates([a, b]) == if a == b then [a] else [a, b]
  {
    assert [a, b][..1] == [a];
    assert [a][..0] == [];
    assert DropDuplicates([a]) == [a];
    assert DropDuplicates([a, b]) == [a] + (if b in [a] then [] else [b]);
  }

  lemma DropMissingOfTwo(a: Row, b: Row)
    ensures DropMissing([a, b]) == (if Complete(a) then [a] else []) + (if Complete(b) then [b] else [])
  {
    assert [a, b][..1] == [a];
    assert [a][..0] == [];
    assert DropMissing([a]) == (if Complete(a) then [a] else []);
    assert DropMissing([a, b]) == DropMissing([a]) + (if Complete(b) then [b] else []);
  }

  lemma ProjectTwo(columns: seq<string>, a: Row, b: Row)
    requires |a| == |columns| && |b| == |columns|
    ensures ProjectRows(columns, [a, b]) == [WithoutTimestamp(columns, a), WithoutTimestamp(columns, b)]
  {
  }

  /** Every entry left after the drop comes from a column that is not `timestamp`. */
  lemma {:induction false} WithoutTimestampSources<T>(columns: seq<string>, xs: seq<T>)
    requires |xs| == |columns|
    ensures forall x | x in WithoutTimestamp(columns, xs) ::
      exists k :: 0 <= k < |xs| && columns[k] != "timestamp" && xs[k] == x
    decreases |columns|
  {
    if columns != [] {
      var n := |columns| - 1;
      WithoutTimestampSources(columns[..n], xs[..n]);
      forall x | x in WithoutTimestamp(columns, xs)
        ensures exists k :: 0 <= k < |xs| && columns[k] != "timestamp" && xs[k] == x
      {
        if x in WithoutTimestamp(columns[..n], xs[..n]) {
          var k :| 0 <= k < n && columns[..n][k] != "timestamp" && xs[..n][k] == x;
          assert columns[k] != "timestamp" && xs[k] == x;
        } else {
          assert columns[n] != "timestamp" && xs[n] == x;
        }
      }
    }
  }

  /**
   * A row whose missing cells all lie in timestamp columns is dropped,
   * because `dropna` runs before the column drop, although the row without
   * its timestamp would be complete.
   */
  lemma MissingTimestampDropsRow(t: Table, i: int, j: int)
    requires WellFormed(t) && 0 <= i < |t.rows| && |t.rows[i]| == |t.columns|
    requires 0 <= j < |t.columns| && t.columns[j] == "timestamp" && t.rows[i][j].None?
    requires forall k :: 0 <= k < |t.columns| && t.columns[k] != "timestamp" ==> t.rows[i][k].Some?
    ensures t.rows[i] !in SurvivingRows(t)
    ensures Complete(WithoutTimestamp(t.columns, t.rows[i]))
  {
    DropMissingKeepsRows(DropDuplicates(t.rows));
    assert t.rows[i][j] in t.rows[i];
    WithoutTimestampSources(t.columns, t.rows[i]);
  }

  /** The one-row table whose timestamp is missing cleans to the empty table. */
  lemma MissingTimestampExample()
    ensures CleanData(Table(["timestamp", "protocol"], [[None, Some(Text("TCP"))]]))
      == Table(["protocol"], [])
  {
    var a: Row := [None, Some(Text("TCP"))];
    assert a[0] in a;
    assert !Complete(a);
    assert DropMissing([a]) == DropMissing([]) + [];
    WithoutLeadingTimestamp("protocol", "timestamp", "protocol");
  }

  /** Two rows that differ only in their timestamp. */
  function TwoTimestamps(): Table
  {
    Table(["timestamp", "protocol"], [[Some(Num(1)), Some(Text("TCP"))], [Some(Num(2)), Some(Text("TCP"))]])
  }

  /** The timestamp-free row both rows of `TwoTimestamps` become. */
  function TcpRow(): Row
  {
    [Some(Text("TCP"))]
  }

  /** Both rows have two complete cells, differ in the first and agree in the second, which is the TCP row's cell. */
  lemma TwoTimestampsFacts()
    ensures var t := TwoTimestamps();
      && |t.rows| == 2 && t.columns == ["timestamp", "protocol"]
      && t.rows == [t.rows[0], t.rows[1]]
      && |t.rows[0]| == 2 && |t.rows[1]| == 2
      && t.rows[0] != t.rows[1] && t.rows[0][1] == t.rows[1][1]
      && Complete(t.rows[0]) && Complete(t.rows[1])
      && TcpRow() == [t.rows[0][1]]
  {
    var t := TwoTimestamps();
    assert t.rows[0][0] != t.rows[1][0];
  }

  /**
   * Two distinct complete rows both survive the dropping steps, and without
   * their leading timestamp cell they become the same one-cell row.
   */
  lemma TwoRowsSurvive(c: string, a: Row, b: Row)
    requires c != "timestamp"
    requires |a| == 2 && |b| == 2 && a != b && a[1] == b[1]
    requires Complete(a) && Complete(b)
    ensures WellFormed(Table(["timestamp", c], [a, b]))
    ensures WithoutTimestamp(["timestamp", c], ["timestamp", c]) == [c]
    ensures DropMissing([a, b]) == [a, b]
    ensures SurvivingRows(Table(["timestamp", c], [a, b])) == [a, b]
    ensures ProjectRows(["timestamp", c], [a, b]) == [[a[1]], [a[1]]]
  {
    var columns := ["timestamp", c];
    assert a == [a[0], a[1]] && b == [b[0], b[1]];
    WithoutLeadingTimestamp(c, "timestamp", c);
    WithoutLeadingTimestamp(c, a[0], a[1]);
    WithoutLeadingTimestamp(c, b[0], b[1]);
    DropDuplicatesOfTwo(a, b);
    DropMissingOfTwo(a, b);
    ProjectTwo(columns, a, b);
  }

  /** Two complete rows that differ only in a leading timestamp cell come out of clean_data as two equal rows. */
  lemma CleanDataOfTwo(c: string, a: Row, b: Row)
    requires c != "timestamp"
    requires |a| == 2 && |b| == 2 && a != b && a[1] == b[1]
    requires Complete(a) && Complete(b)
    ensures WellFormed(Table(["timestamp", c], [a, b]))
    ensures CleanData(Table(["timestamp", c], [a, b])) == Table([c], [[a[1]], [a[1]]])
  {
    TwoRowsSurvive(c, a, b);
  }

  /** With duplicates dropped last, the same two rows come out as one. */
  lemma CleanDataDeduplicatedOfTwo(c: string, a: Row, b: Row)
    requires c != "timestamp"
    requires |a| == 2 && |b| == 2 && a != b && a[1] == b[1]
    requires Complete(a) && Complete(b)
    ensures WellFormed(Table(["timestamp", c], [a, b]))
    ensures CleanDataDeduplicated(Table(["timestamp", c], [a, b])) == Table([c], [[a[1]]])
  {
    TwoRowsSurvive(c, a, b);
    DropDuplicatesOfTwo([a[1]], [a[1]]);
  }

  /**
   * Duplicates are dropped before the timestamp column is, so rows that
   * differ only in their timestamp come out as equal rows, and a second run
   * of clean_data changes the table.
   */
  lemma CleanDataLeavesDuplicates()
    ensures WellFormed(TwoTimestamps())
    ensures CleanData(TwoTimestamps()) == Table(["protocol"], [TcpRow(), TcpRow()])
    ensures !Distinct(CleanData(TwoTimestamps()).rows)
    ensures WellFormed(CleanData(TwoTimestamps()))
    ensures CleanData(CleanData(TwoTimestamps())) != CleanData(TwoTimestamps())
  {
    TwoTimestampsFacts();
    var t := TwoTimestamps();
    CleanDataOfTwo("protocol", t.rows[0], t.rows[1]);
    CleanDataTwice(t);
    DropDuplicatesOfTwo(TcpRow(), TcpRow());
  }

  // ---------------------------------------------------------------------
  // clean_data with the duplicates dropped last

  /** clean_data with `drop_duplicates()` moved after the timestamp column is dropped. */
  function CleanDataDeduplicated(t: Table): Table
    requires WellFormed(t)
  {
    var complete := DropMissing(t.rows);
    if "timestamp" in t.columns then
      Table(WithoutTimestamp(t.columns, t.columns), DropDuplicates(ProjectRows(t.columns, complete)))
    else
      Table(t.columns, DropDuplicates(complete))
  }

  /** The complete rows without their timestamp cells are the rows clean_data can output. */
  lemma ProjectedCompleteRows(t: Table)
    requires WellFormed(t)
    ensures forall x :: x in ProjectRows(t.columns, DropMissing(t.rows)) <==>
      exists r :: r in t.rows && Complete(r) && x == WithoutTimestamp(t.columns, r)
  {
    DropMissingMembers(t.rows);
    ProjectCompleteMembers(t.columns, t.rows, DropMissing(t.rows));
  }

  /** Before duplicates are dropped, the corrected cleaning holds the same rows as clean_data. */
  lemma CleanDataDeduplicatedRows(t: Table)
    requires WellFormed(t)
    ensures CleanDataDeduplicated(t).columns == CleanData(t).columns
    ensures forall x :: x in CleanDataDeduplicated(t).rows <==> x in CleanData(t).rows
  {
    CleanDataRows(t);
    ProjectedCompleteRows(t);
    var complete := DropMissing(t.rows);
    if "timestamp" in t.columns {
      DropDuplicatesMembers(ProjectRows(t.columns, complete));
    } else {
      ProjectIdentity(t.columns, complete);
      DropDuplicatesMembers(complete);
    }
  }

  /** The corrected output is clean_data's, and has no two equal rows. */
  lemma CleanDataDeduplicatedShape(t: Table)
    requires WellFormed(t)
    ensures CleanDataDeduplicated(t).columns == CleanData(t).columns
    ensures forall x :: x in CleanDataDeduplicated(t).rows <==> x in CleanData(t).rows
    ensures Distinct(CleanDataDeduplicated(t).rows)
    ensures WellFormed(CleanDataDeduplicated(t))
    ensures forall r | r in CleanDataDeduplicated(t).rows :: Complete(r)
    ensures "timestamp" !in CleanDataDeduplicated(t).columns
  {
    CleanDataShape(t);
    CleanDataDeduplicatedRows(t);
    DropDuplicatesDistinct(if "timestamp" in t.columns then ProjectRows(t.columns, DropMissing(t.rows)) else DropMissing(t.rows));
  }

  /** Cleaning a cleaned table changes nothing. */
  lemma CleanDataDeduplicatedIdempotent(t: Table)
    requires WellFormed(t)
    ensures WellFormed(CleanDataDeduplicated(t))
    ensures CleanDataDeduplicated(CleanDataDeduplicated(t)) == CleanDataDeduplicated(t)
  {
    CleanDataDeduplicatedShape(t);
    var once := CleanDataDeduplicated(t);
    DropMissingOfComplete(once.rows);
    DropDuplicatesOfDistinct(once.rows);
  }

  /** On the table that shows the duplicates, the corrected cleaning keeps one row. */
  lemma CleanDataDeduplicatedExample()
    ensures WellFormed(TwoTimestamps())
    ensures CleanDataDeduplicated(TwoTimestamps()) == Table(["protocol"], [TcpRow()])
  {
    TwoTimestampsFacts();
    var t := TwoTimestamps();
    CleanDataDeduplicatedOfTwo("protocol", t.rows[0], t.rows[1]);
  }

  // ---------------------------------------------------------------------
  // feature_extraction: label-encoding the protocol column

  /** Python's `<` on strings: code point by code point, a proper prefix first. */
  predicate TextLess(a: string, b: string)
  {
    if a == [] then b != []
    else if b == [] then false
    else if a[0] != b[0] then a[0] < b[0]
    else TextLess(a[1..], b[1..])
  }

  /** The order the encoder sorts its classes in: numbers by value, strings as Python compares them. */
  predicate CellLess(a: Cell, b: Cell)
  {
    match (a, b)
    case (Num(x), Num(y)) => x < y
    case (Text(x), Text(y)) => TextLess(x, y)
    case _ => false
  }

  lemma {:induction false} TextLessIrreflexive(a: string)
    ensures !TextLess(a, a)
    decreases |a|
  {
    if a != [] {
      TextLessIrreflexive(a[1..]);
    }
  }

  lemma {:induction false} TextLessTransitive(a: string, b: string, c: string)
    requires TextLess(a, b) && TextLess(b, c)
    ensures TextLess(a, c)
    decreases |a|
  {
    if a != [] && a[0] == b[0] && b[0] == c[0] {
      TextLessTransitive(a[1..], b[1..], c[1..]);
    }
  }

  lemma {:induction false} TextLessTotal(a: string, b: string)
    requires a != b
    ensures TextLess(a, b) || TextLess(b, a)
    decreases |a|
  {
    if a != [] && b != [] && a[0] == b[0] {
      assert a == [a[0]] + a[1..] && b == [b[0]] + b[1..];
      TextLessTotal(a[1..], b[1..]);
    }
  }

  /** Two values of one kind are ordered one way or the other; an order is strict. */
  lemma CellLessOrder(a: Cell, b: Cell, c: Cell)
    ensures !CellLess(a, a)
    ensures CellLess(a, b) && CellLess(b, c) ==> CellLess(a, c)
    ensures a != b && a.Num? == b.Num? ==> CellLess(a, b) || CellLess(b, a)
  {
    if a.Text? {
      TextLessIrreflexive(a.s);
      if b.Text? && c.Text? && CellLess(a, b) && CellLess(b, c) {
        TextLessTransitive(a.s, b.s, c.s);
      }
      if b.Text? && a != b {
        TextLessTotal(a.s, b.s);
      }
    }
  }

  /** The cells of column j. */
  function ColumnOf(rows: seq<Row>, j: nat): (column: seq<Option<Cell>>)
    requires forall r | r in rows :: j < |r|
    ensures |column| == |rows|
    ensures forall i :: 0 <= i < |rows| ==> column[i] == rows[i][j]
  {
    seq(|rows|, i requires 0 <= i < |rows| => rows[i][j])
  }

  /** The values a column holds, missing cells aside. */
  function Present(column: seq<Option<Cell>>): set<Cell>
  {
    set i | 0 <= i < |column| && column[i].Some? :: column[i].value
  }

  /** All numbers or all strings: what the encoder accepts. */
  predicate Uniform(classes: set<Cell>)
  {
    (forall c | c in classes :: c.Num?) || (forall c | c in classes :: c.Text?)
  }

  /** How many classes the encoder learns: the distinct values, and one more when a cell is missing. */
  function ClassCount(column: seq<Option<Cell>>): nat
  {
    |Present(column)| + (if None in column then 1 else 0)
  }

  /** The position of v among the sorted classes; missing values sort last. */
  function Code(classes: set<Cell>, v: Option<Cell>): nat
  {
    if v.None? then |classes|
    else |set u | u in classes && CellLess(u, v.value)|
  }

  /**
   * The first position of `name` in the columns. `df['protocol']` selects
   * every column of that name; the encoding uses this position only after a
   * second column of the name has been ruled out.
   */
  function ColumnIndex(columns: seq<string>, name: string): (j: nat)
    requires name in columns
    ensures j < |columns| && columns[j] == name
    ensures forall k :: 0 <= k < j ==> columns[k] != name
  {
    if columns[0] == name then 0 else 1 + ColumnIndex(columns[1..], name)
  }

  /** Every row with column j replaced by its label. */
  function EncodeColumn(rows: seq<Row>, j: nat): (r: seq<Row>)
    requires forall x | x in rows :: j < |x|
  {
    var classes := Present(ColumnOf(rows, j));
    seq(|rows|, i requires 0 <= i < |rows| => rows[i][j := Some(Num(Code(classes, rows[i][j])))])
  }

  /**
   * `feature_extraction(df)` as a function of the table: unchanged without a
   * `protocol` column; an error when that name is on several columns (the
   * selection is then not one column) or when the column mixes numbers and
   * strings; otherwise the column replaced by its labels.
   */
  function ExtractFeatures(columns: seq<string>, rows: seq<Row>): Outcome<seq<Row>>
    requires forall x | x in rows :: |x| == |columns|
  {
    if "protocol" !in columns then Returned(rows)
    else
      var j := ColumnIndex(columns, "protocol");
      if "protocol" in columns[j + 1..] then Raised(Error("y should be a 1d array"))
      else if !Uniform(Present(ColumnOf(rows, j))) then Raised(TypeError)
      else Returned(EncodeColumn(rows, j))
  }

  /** A set and a larger one that holds an element the first lacks. */
  lemma {:induction false} ProperSubsetSmaller<T>(a: set<T>, b: set<T>, x: T)
    requires a <= b && x in b && x !in a
    ensures |a| < |b|
    decreases |a|
  {
    if a != {} {
      var y :| y in a;
      ProperSubsetSmaller(a - {y}, b - {y}, x);
    }
  }

  /** A present value's label is below the number of distinct values. */
  lemma CodeBelowCount(classes: set<Cell>, v: Cell)
    requires v in classes
    ensures Code(classes, Some(v)) < |classes|
  {
    CellLessOrder(v, v, v);
    ProperSubsetSmaller((set u | u in classes && CellLess(u, v)), classes, v);
  }

  /** A smaller value gets a smaller label. */
  lemma CodeMonotone(classes: set<Cell>, u: Cell, v: Cell)
    requires u in classes && v in classes && CellLess(u, v)
    ensures Code(classes, Some(u)) < Code(classes, Some(v))
  {
    var below := set w | w in classes && CellLess(w, u);
    forall w | w in below
      ensures CellLess(w, v)
    {
      CellLessOrder(w, u, v);
    }
    CellLessOrder(u, u, u);
    ProperSubsetSmaller(below, (set w | w in classes && CellLess(w, v)), u);
  }

  /** Among values of one kind, and missing cells, two cells get the same label exactly when they are equal. */
  lemma CodeInjective(classes: set<Cell>, a: Option<Cell>, b: Option<Cell>)
    requires Uniform(classes)
    requires a.Some? ==> a.value in classes
    requires b.Some? ==> b.value in classes
    ensures Code(classes, a) == Code(classes, b) <==> a == b
  {
    if a != b {
      if a.None? {
        CodeBelowCount(classes, b.value);
      } else if b.None? {
        CodeBelowCount(classes, a.value);
      } else {
        CellLessOrder(a.value, b.value, a.value);
        if CellLess(a.value, b.value) {
          CodeMonotone(classes, a.value, b.value);
        } else {
          CodeMonotone(classes, b.value, a.value);
        }
      }
    }
  }

  /** Every cell of a column is a class of it, or missing. */
  lemma CellIsClass(column: seq<Option<Cell>>, i: nat)
    requires i < |column|
    ensures column[i].Some? ==> column[i].value in Present(column)
    ensures column[i].None? ==> None in column
  {
  }

  /** Without a `protocol` column the table is returned unchanged. */
  lemma ExtractWithoutProtocol(columns: seq<string>, rows: seq<Row>)
    requires forall x | x in rows :: |x| == |columns|
    requires "protocol" !in columns
    ensures ExtractFeatures(columns, rows) == Returned(rows)
  {
  }

  /** Encoding fails exactly for a repeated `protocol` name or a column mixing numbers and strings. */
  lemma ExtractFailures(columns: seq<string>, rows: seq<Row>)
    requires forall x | x in rows :: |x| == |columns|
    requires "protocol" in columns
    ensures var j := ColumnIndex(columns, "protocol");
      ExtractFeatures(columns, rows).Raised? <==>
        "protocol" in columns[j + 1..] || !Uniform(Present(ColumnOf(rows, j)))
  {
  }

  /** Encoding keeps the rows and every cell outside the protocol column, and puts a number in it. */
  lemma ExtractKeepsOtherCells(columns: seq<string>, rows: seq<Row>)
    requires forall x | x in rows :: |x| == |columns|
    requires ExtractFeatures(columns, rows).Returned?
    ensures var r := ExtractFeatures(columns, rows).value;
      && |r| == |rows|
      && forall i, k :: 0 <= i < |rows| && 0 <= k < |columns| ==>
        |r[i]| == |columns| && (columns[k] != "protocol" ==> r[i][k] == rows[i][k]) && (columns[k] == "protocol" ==> r[i][k].Some? && r[i][k].value.Num?)
  {
  }

  /**
   * The labels of an encoded column: each is in [0, number of classes), two
   * cells get the same label exactly when they hold the same value, and a
   * smaller value gets a smaller label.
   */
  lemma ExtractLabels(columns: seq<string>, rows: seq<Row>, i: nat, k: nat)
    requires forall x | x in rows :: |x| == |columns|
    requires "protocol" in columns
    requires ExtractFeatures(columns, rows).Returned?
    requires i < |rows| && k < |rows|
    ensures var j := ColumnIndex(columns, "protocol");
      var r := ExtractFeatures(columns, rows).value;
      var column := ColumnOf(rows, j);
      && r[i][j].Some? && r[i][j].value.Num?
      && 0 <= r[i][j].value.n < ClassCount(column)
      && (r[i][j] == r[k][j] <==> rows[i][j] == rows[k][j])
      && (rows[i][j].Some? && rows[k][j].Some? && CellLess(rows[i][j].value, rows[k][j].value) ==>
            r[i][j].value.n < r[k][j].value.n)
  {
    var j := ColumnIndex(columns, "protocol");
    var column := ColumnOf(rows, j);
    var classes := Present(column);
    CellIsClass(column, i);
    CellIsClass(column, k);
    if rows[i][j].Some? {
      CodeBelowCount(classes, rows[i][j].value);
    }
    CodeInjective(classes, rows[i][j], rows[k][j]);
    if rows[i][j].Some? && rows[k][j].Some? && CellLess(rows[i][j].value, rows[k][j].value) {
      CodeMonotone(classes, rows[i][j].value, rows[k][j].value);
    }
  }

  /**
   * The data frame `feature_extraction` updates in place: its column names
   * and rows.
   */
  class Frame {
    var columns: seq<string>
    var rows: seq<Row>

    /** Every row has one cell per column. */
    ghost predicate Valid()
      reads this
    {
      forall x | x in rows :: |x| == |columns|
    }

    constructor(t: Table)
      requires WellFormed(t)
      ensures Valid() && columns == t.columns && rows == t.rows
    {
      columns := t.columns;
      rows := t.rows;
    }

    /**
     * `feature_extraction(df)`: when the frame has a `protocol` column, it is
     * replaced by the encoder's labels; on an error the frame is left as it was.
     */
    method FeatureExtraction() returns (outcome: Outcome<()>)
      requires Valid()
      modifies this
      ensures Valid() && columns == old(columns)
      ensures ExtractFeatures(old(columns), old(rows)).Returned? ==>
        outcome == Returned(()) && rows == ExtractFeatures(old(columns), old(rows)).value
      ensures ExtractFeatures(old(columns), old(rows)).Raised? ==>
        outcome == Raised(ExtractFeatures(old(columns), old(rows)).error) && rows == old(rows)
    {
      if "protocol" in columns {
        var j := ColumnIndex(columns, "protocol");
        if "protocol" in columns[j + 1..] {
          return Raised(Error("y should be a 1d array"));
        }
        var column := ColumnOf(rows, j);
        if !Uniform(Present(column)) {
          return Raised(TypeError);
        }
        rows := EncodeColumn(rows, j);
      }
      return Returned(());
    }
  }
}
