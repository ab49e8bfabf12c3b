/** The column normalisation of one extracted table (app.py:84-92): the table
    becomes a pandas frame whose columns are named by the header row, and a
    named column becomes the list of its present cells, line breaks
    collapsed. */
module Tables {
  import opened Wrappers
  import opened Text

  /** A cell as the PDF table extractor returns it: text, or nothing. */
  type Cell = Option<string>
  type Row = seq<Cell>

  /** The header row first, then the data rows. */
  type Table = seq<Row>

  /** Why a file is abandoned. Both are exceptions raised inside the per-file
      `try` (app.py:73-121), which drop the file and go on with the next. */
  datatype FileError =
    /** pandas refuses data rows whose widest row is not as wide as the header. */
    | ShapeMismatch(headerWidth: nat, dataWidth: nat)
    /** Two columns share the looked-up name: selecting it then gives a
        frame, which has no string accessor. */
    | DuplicateColumn(name: string)

  function MaxWidth(rows: seq<Row>): (w: nat)
    ensures forall i :: 0 <= i < |rows| ==> |rows[i]| <= w
    ensures rows != [] ==> exists i :: 0 <= i < |rows| && |rows[i]| == w
  {
    if rows == [] then 0
    else
      var w := MaxWidth(rows[1..]);
      if |rows[0]| >= w then |rows[0]| else w
  }

  /** Whether building the frame from the data rows under the header row
      succeeds (app.py:85): no data rows at all, or the widest data row
      exactly as wide as the header. */
  predicate WellShaped(t: Table)
    requires t != []
  {
    |t| == 1 || MaxWidth(t[1..]) == |t[0]|
  }

  /** The cell in column `j` of a data row; pandas fills a short row with
      missing values. */
  function CellAt(row: Row, j: nat): Cell {
    if j < |row| then row[j] else None
  }

  function Column(rows: seq<Row>, j: nat): (c: seq<Cell>)
    ensures |c| == |rows|
    ensures forall i :: 0 <= i < |rows| ==> c[i] == CellAt(rows[i], j)
  {
    seq(|rows|, i requires 0 <= i < |rows| => CellAt(rows[i], j))
  }

  /** The position of the first header cell with the given name. */
  function IndexOf(header: Row, name: string): (j: nat)
    requires Some(name) in header
    ensures j < |header| && header[j] == Some(name)
    ensures forall i :: 0 <= i < j ==> header[i] != Some(name)
  {
    if header[0] == Some(name) then 0 else 1 + IndexOf(header[1..], name)
  }

  /** Dropping the missing cells of a column and listing the rest
      (app.py:89): the present cells, in order. */
  function DropNone(cells: seq<Cell>): (r: seq<string>)
    ensures |r| <= |cells|
    ensures forall v :: v in r <==> Some(v) in cells
  {
    if cells == [] then []
    else
      assert cells == [cells[0]] + cells[1..];
      match cells[0]
      case None => DropNone(cells[1..])
      case Some(v) => [v] + DropNone(cells[1..])
  }

  /** Dropping missing cells works piece by piece, so it keeps the order of
      the cells it keeps. */
  lemma {:induction false} DropNoneAppend(a: seq<Cell>, b: seq<Cell>)
    ensures DropNone(a + b) == DropNone(a) + DropNone(b)
    decreases |a|
  {
    if a == [] {
      assert a + b == b;
    } else {
      assert (a + b)[0] == a[0];
      assert (a + b)[1..] == a[1..] + b;
      DropNoneAppend(a[1..], b);
      match a[0]
      case None =>
      case Some(v) =>
        assert DropNone(a + b) == [v] + (DropNone(a[1..]) + DropNone(b));
    }
  }

  /** Exactly the columns without missing cells keep their length, and then
      they keep every cell in place. */
  lemma {:induction false} DropNoneKeepsFullColumns(cells: seq<Cell>)
    ensures |DropNone(cells)| == |cells| <==> forall i :: 0 <= i < |cells| ==> cells[i].Some?
    ensures (forall i :: 0 <= i < |cells| ==> cells[i].Some?) ==>
              forall i :: 0 <= i < |cells| ==> DropNone(cells)[i] == cells[i].value
  {
    if cells != [] {
      DropNoneKeepsFullColumns(cells[1..]);
      if cells[0].None? {
        assert |DropNone(cells)| < |cells|;
      } else {
        forall i | 1 <= i < |cells| ensures cells[i] == cells[1..][i - 1] { }
      }
    }
  }

  /** The column's values as the converter uses them: missing cells dropped,
      every line break in the rest replaced by a space (app.py:89, 92). */
  function Normalize(cells: seq<Cell>): (r: seq<string>)
    ensures |r| == |DropNone(cells)|
    ensures forall i :: 0 <= i < |r| ==> r[i] == CollapseBreaks(DropNone(cells)[i])
  {
    if cells == [] then []
    else
      match cells[0]
      case None => Normalize(cells[1..])
      case Some(v) => [CollapseBreaks(v)] + Normalize(cells[1..])
  }

  /** What a normalised value looks like: no line break, same length as the
      cell it came from, and equal to it when that cell had no line break. */
  lemma NormalizedValues(cells: seq<Cell>)
    ensures forall i :: 0 <= i < |Normalize(cells)| ==>
              '\n' !in Normalize(cells)[i] && |Normalize(cells)[i]| == |DropNone(cells)[i]|
    ensures forall i :: 0 <= i < |Normalize(cells)| && '\n' !in DropNone(cells)[i] ==>
              Normalize(cells)[i] == DropNone(cells)[i]
  {
    forall i | 0 <= i < |Normalize(cells)| {
      CollapseBreaksFixesUnbroken(DropNone(cells)[i]);
    }
  }

  /** The values of the column called `name` (app.py:88-89, 91-92):
      `Ok(None)` when the header has no such column, an error when it has two. */
  function ColumnValues(t: Table, name: string): (r: Result<Option<seq<string>>, FileError>)
    requires t != []
    ensures r == Ok(None) <==> Some(name) !in t[0]
    ensures r.Err? <==> multiset(t[0])[Some(name)] > 1
    ensures r.Ok? && r.value.Some? ==>
              exists j :: 0 <= j < |t[0]| && t[0][j] == Some(name) &&
                r.value.value == Normalize(Column(t[1..], j))
  {
    if Some(name) !in t[0] then Ok(None)
    else if multiset(t[0])[Some(name)] > 1 then Err(DuplicateColumn(name))
    else Ok(Some(Normalize(Column(t[1..], IndexOf(t[0], name)))))
  }

  /** No value taken from a column contains a line break. */
  lemma ColumnValuesUnbroken(t: Table, name: string)
    requires t != []
    ensures ColumnValues(t, name).Ok? && ColumnValues(t, name).value.Some? ==>
              forall k :: 0 <= k < |ColumnValues(t, name).value.value| ==>
                '\n' !in ColumnValues(t, name).value.value[k]
  {
    if Some(name) in t[0] {
      NormalizedValues(Column(t[1..], IndexOf(t[0], name)));
    }
  }

  /** The frame's shape rule in terms of the rows themselves: every data row
      is at most as wide as the header, and some data row is exactly as wide. */
  lemma WellShapedMeaning(t: Table)
    requires t != []
    ensures WellShaped(t) <==>
              |t| == 1 ||
              ((forall i :: 1 <= i < |t| ==> |t[i]| <= |t[0]|) &&
               (exists i :: 1 <= i < |t| && |t[i]| == |t[0]|))
  {
    if |t| > 1 {
      var w := MaxWidth(t[1..]);
      if WellShaped(t) {
        var i :| 0 <= i < |t[1..]| && |t[1..][i]| == w;
        assert |t[i + 1]| == |t[0]|;
        forall i | 1 <= i < |t| ensures |t[i]| <= |t[0]| {
          assert t[i] == t[1..][i - 1];
        }
      } else if forall i :: 1 <= i < |t| ==> |t[i]| <= |t[0]| {
        var i :| 0 <= i < |t[1..]| && |t[1..][i]| == w;
        assert t[i + 1] == t[1..][i];
        assert w < |t[0]|;
        forall i | 1 <= i < |t| ensures |t[i]| < |t[0]| {
          assert t[i] == t[1..][i - 1];
        }
      }
    }
  }

  /** A value occurring at two positions of a list occurs at least twice. */
  lemma {:induction false} TwoPositions<T>(s: seq<T>, i: nat, j: nat)
    requires i < j < |s| && s[i] == s[j]
    ensures multiset(s)[s[i]] >= 2
  {
    assert s == s[..j] + [s[j]] + s[j + 1..];
    assert s[i] in multiset(s[..j]) by { assert s[..j][i] == s[i]; }
    assert multiset(s) == multiset(s[..j]) + multiset([s[j]]) + multiset(s[j + 1..]);
  }

  /** Whichever header cell carries the name, a successful lookup yields that
      cell's column: the header can name a looked-up column only once. */
  lemma ColumnValuesAt(t: Table, name: string, j: nat)
    requires t != [] && j < |t[0]| && t[0][j] == Some(name)
    ensures ColumnValues(t, name).Ok? ==> ColumnValues(t, name) == Ok(Some(Normalize(Column(t[1..], j))))
  {
    var i := IndexOf(t[0], name);
    if ColumnValues(t, name).Ok? && i != j {
      TwoPositions(t[0], i, j);
      assert false;
    }
  }

  /** The looked-up values are exactly the cleaned present cells of the
      named column, over all data rows. */
  lemma ColumnValuesMembers(t: Table, name: string, j: nat)
    requires t != [] && j < |t[0]| && t[0][j] == Some(name)
    ensures ColumnValues(t, name).Ok? ==>
              forall v :: v in ColumnValues(t, name).value.value <==>
                exists i :: 1 <= i < |t| && CellAt(t[i], j).Some? && v == CollapseBreaks(CellAt(t[i], j).value)
  {
    if ColumnValues(t, name).Ok? {
      ColumnValuesAt(t, name, j);
      var col := Column(t[1..], j);
      var vs := Normalize(col);
      forall v ensures v in vs <==>
                exists i :: 1 <= i < |t| && CellAt(t[i], j).Some? && v == CollapseBreaks(CellAt(t[i], j).value)
      {
        if v in vs {
          var k :| 0 <= k < |vs| && vs[k] == v;
          var w := DropNone(col)[k];
          assert Some(w) in col;
          var i :| 0 <= i < |col| && col[i] == Some(w);
          assert CellAt(t[i + 1], j) == Some(w);
        }
        if exists i :: 1 <= i < |t| && CellAt(t[i], j).Some? && v == CollapseBreaks(CellAt(t[i], j).value) {
          var i :| 1 <= i < |t| && CellAt(t[i], j).Some? && v == CollapseBreaks(CellAt(t[i], j).value);
          var w := CellAt(t[i], j).value;
          assert col[i - 1] == Some(w);
          assert w in DropNone(col);
          var k :| 0 <= k < |DropNone(col)| && DropNone(col)[k] == w;
          assert vs[k] == v;
        }
      }
    }
  }
}
