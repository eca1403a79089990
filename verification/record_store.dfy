/** The CSV files of both scripts: `csv_path`, which names a file, and
    `append_row`, which adds one row to it. The file system is the `data`
    directory's map from path to lines; a path is present exactly when
    `path.exists()` holds. CSV quoting and encoding are not modelled: a line
    is either the header or one row. */
module RecordStore {
  import opened Text
  import opened Offers

  /** The header both scripts write, in column order. */
  const Columns: seq<string> := [
    "collected_at_utc", "travel_date", "origin", "dest", "airline",
    "flight_no", "dep_time", "arr_time", "stops", "duration", "price", "currency"]

  datatype Line = Header(columns: seq<string>) | Data(row: Row)

  type Path = string

  /** `csv_path(origin, dest)` of month_cheapest.py: one file per route. */
  function MonthlyPath(origin: string, dest: string): (p: Path)
    ensures |p| == |origin| + |dest| + 24
    ensures p[..11] == "data/month_" && p[|p| - 12..] == "_monthly.csv"
  {
    "data/month_" + Lower(origin) + "-" + Lower(dest) + "_monthly.csv"
  }

  /** `csv_path(origin, dest, airline)` of flight_search.py: one file per
      route and airline. */
  function AirlinePath(origin: string, dest: string, airline: string): (p: Path)
    ensures |p| == |origin| + |dest| + |airline| + 18
    ensures p[..12] == "data/prices_" && p[|p| - 4..] == ".csv"
  {
    "data/prices_" + Lower(origin) + "-" + Lower(dest) + "_" + Lower(airline) + ".csv"
  }

  /** Codes are lower-cased in the file name, so two airline codes share a
      file exactly when they differ at most in letter case. */
  lemma AirlinePathSameFile(origin: string, dest: string, a: string, b: string)
    ensures AirlinePath(origin, dest, a) == AirlinePath(origin, dest, b) <==> Lower(a) == Lower(b)
  {
    var prefix := "data/prices_" + Lower(origin) + "-" + Lower(dest) + "_";
    var pa := AirlinePath(origin, dest, a);
    var pb := AirlinePath(origin, dest, b);
    assert pa == prefix + Lower(a) + ".csv";
    assert pb == prefix + Lower(b) + ".csv";
    if pa == pb {
      assert |Lower(a)| == |Lower(b)|;
      assert Lower(a) == pa[|prefix|..|prefix| + |Lower(a)|];
      assert Lower(b) == pb[|prefix|..|prefix| + |Lower(b)|];
    }
  }

  /** Route codes are lower-cased in the file name, so two routes whose
      origins hold no `-` share the monthly file exactly when they differ
      at most in letter case. */
  lemma MonthlyPathSameFile(o1: string, d1: string, o2: string, d2: string)
    requires '-' !in o1 && '-' !in o2
    ensures MonthlyPath(o1, d1) == MonthlyPath(o2, d2) <==> Lower(o1) == Lower(o2) && Lower(d1) == Lower(d2)
  {
    var p1, p2 := MonthlyPath(o1, d1), MonthlyPath(o2, d2);
    var l1, l2 := Lower(o1), Lower(o2);
    assert p1 == "data/month_" + l1 + "-" + Lower(d1) + "_monthly.csv";
    assert p2 == "data/month_" + l2 + "-" + Lower(d2) + "_monthly.csv";
    if p1 == p2 {
      LowerKeepsDash(o1);
      LowerKeepsDash(o2);
      assert p1[11 + |l1|] == '-' && p2[11 + |l2|] == '-';
      if |l1| < |l2| {
        assert false;
      } else if |l2| < |l1| {
        assert false;
      }
      assert l1 == p1[11..11 + |l1|] && l2 == p2[11..11 + |l2|];
      assert Lower(d1) == p1[12 + |l1|..|p1| - 12];
      assert Lower(d2) == p2[12 + |l2|..|p2| - 12];
    }
  }

  /** Lower-casing neither removes nor introduces a `-`. */
  lemma LowerKeepsDash(s: string)
    ensures '-' in Lower(s) <==> '-' in s
  {
    if '-' in s {
      var i :| 0 <= i < |s| && s[i] == '-';
      assert Lower(s)[i] == '-';
    }
    if '-' in Lower(s) {
      var i :| 0 <= i < |Lower(s)| && Lower(s)[i] == '-';
      assert s[i] == '-';
    }
  }

  /** With a `-` inside a code the file name no longer tells the route:
      `A-B` to `C` and `A` to `B-C` share one file. */
  lemma MonthlyPathDashClash()
    ensures MonthlyPath("A-B", "C") == MonthlyPath("A", "B-C")
  {
    assert Lower("A-B") == "a-b" && Lower("C") == "c";
    assert Lower("A") == "a" && Lower("B-C") == "b-c";
  }

  /** The lines of a file as both scripts leave it: the header first and
      only there, then rows. */
  predicate IsLog(lines: seq<Line>)
  {
    |lines| >= 1 && lines[0] == Header(Columns) && forall i :: 1 <= i < |lines| ==> lines[i].Data?
  }

  /** The rows a reader of the file gets back: its data lines in order. */
  function DataRows(lines: seq<Line>): (rows: seq<Row>)
    ensures |rows| <= |lines|
  {
    if lines == [] then []
    else DataRows(lines[..|lines| - 1]) + (if lines[|lines| - 1].Data? then [lines[|lines| - 1].row] else [])
  }

  function DataLines(rows: seq<Row>): (lines: seq<Line>)
    ensures |lines| == |rows|
    ensures forall i :: 0 <= i < |rows| ==> lines[i] == Data(rows[i])
  {
    seq(|rows|, i requires 0 <= i < |rows| => Data(rows[i]))
  }

  /** What a file holds before anything is appended to it: its lines if it
      exists, otherwise the header `append_row` writes first. */
  function Initial(files: map<Path, seq<Line>>, path: Path): seq<Line>
  {
    if path in files then files[path] else [Header(Columns)]
  }

  /** The file system after `append_row(path, row)`. */
  function Appended(files: map<Path, seq<Line>>, path: Path, row: Row): map<Path, seq<Line>>
  {
    files[path := Initial(files, path) + [Data(row)]]
  }

  datatype Write = Write(path: Path, row: Row)

  /** The file system after a sequence of `append_row` calls, in order. */
  function AppendAll(files: map<Path, seq<Line>>, writes: seq<Write>): (after: map<Path, seq<Line>>)
    ensures files.Keys <= after.Keys
    ensures forall i :: 0 <= i < |writes| ==> writes[i].path in after
    decreases |writes|
  {
    if writes == [] then files
    else AppendAll(Appended(files, writes[0].path, writes[0].row), writes[1..])
  }

  /** The rows a sequence of writes sends to one path, in order. */
  function RowsTo(writes: seq<Write>, path: Path): (rows: seq<Row>)
    ensures |rows| <= |writes|
  {
    if writes == [] then []
    else (if writes[0].path == path then [writes[0].row] else []) + RowsTo(writes[1..], path)
  }

  /** The `data` directory the scripts append to. */
  class DataDir {
    var files: map<Path, seq<Line>>

    /** Every file holds one header followed by rows. */
    ghost predicate Valid()
      reads this
    {
      forall p :: p in files ==> IsLog(files[p])
    }

    constructor (existing: map<Path, seq<Line>>)
      ensures files == existing
    {
      files := existing;
    }

    /** `append_row(path, row)`: the header goes first only when the file
        did not exist; then exactly one row is added at the end, and no
        other file changes. */
    method AppendRow(path: Path, row: Row)
      modifies this
      ensures files == Appended(old(files), path, row)
      ensures old(Valid()) ==> Valid()
    {
      var isNew := path !in files;
      var lines := if isNew then [] else files[path];
      if isNew {
        lines := lines + [Header(Columns)];
      }
      assert lines == Initial(old(files), path);
      files := files[path := lines + [Data(row)]];
      AppendedKeepsLogs(old(files), path, row);
    }
  }

  /** One append keeps every file a header followed by rows: a new file
      gets exactly one header, an existing one gets none. */
  lemma AppendedKeepsLogs(files: map<Path, seq<Line>>, path: Path, row: Row)
    ensures (forall p :: p in files ==> IsLog(files[p])) ==>
              forall p :: p in Appended(files, path, row) ==> IsLog(Appended(files, path, row)[p])
    ensures path !in files ==> Appended(files, path, row)[path] == [Header(Columns), Data(row)]
    ensures path in files ==> Appended(files, path, row)[path][..|files[path]|] == files[path]
  {
  }

  lemma {:induction false} DataRowsAppend(lines: seq<Line>, rows: seq<Row>)
    ensures DataRows(lines + DataLines(rows)) == DataRows(lines) + rows
    decreases |rows|
  {
    if rows != [] {
      var n := |rows|;
      var init := rows[..n - 1];
      assert DataLines(rows) == DataLines(init) + [Data(rows[n - 1])];
      assert lines + DataLines(rows) == (lines + DataLines(init)) + [Data(rows[n - 1])];
      DataRowsAppend(lines, init);
      assert (lines + DataLines(rows))[..|lines + DataLines(rows)| - 1] == lines + DataLines(init);
      assert init + [rows[n - 1]] == rows;
    } else {
      assert lines + DataLines(rows) == lines;
    }
  }

  /** The effect of a sequence of appends on each file: a file that received
      no row is as it was (present or absent); one that did holds its old
      lines (or the header, when it is new) followed by exactly the rows sent
      to it, in order. */
  lemma AppendAllAt(files: map<Path, seq<Line>>, writes: seq<Write>, path: Path)
    ensures path in AppendAll(files, writes) <==> path in files || RowsTo(writes, path) != []
    ensures path in AppendAll(files, writes) ==>
              AppendAll(files, writes)[path] == Initial(files, path) + DataLines(RowsTo(writes, path))
  {
    AppendAllPresent(files, writes, path);
    if path in AppendAll(files, writes) {
      AppendAllContent(files, writes, path);
    }
  }

  lemma {:induction false} AppendAllPresent(files: map<Path, seq<Line>>, writes: seq<Write>, path: Path)
    ensures path in AppendAll(files, writes) <==> path in files || RowsTo(writes, path) != []
    decreases |writes|
  {
    if writes != [] {
      var w := writes[0];
      AppendAllPresent(Appended(files, w.path, w.row), writes[1..], path);
    }
  }

  lemma {:induction false} AppendAllContent(files: map<Path, seq<Line>>, writes: seq<Write>, path: Path)
    requires path in AppendAll(files, writes)
    ensures AppendAll(files, writes)[path] == Initial(files, path) + DataLines(RowsTo(writes, path))
    decreases |writes|
  {
    if writes == [] {
      assert DataLines([]) == [];
    } else {
      var w := writes[0];
      var next := Appended(files, w.path, w.row);
      assert AppendAll(files, writes) == AppendAll(next, writes[1..]);
      AppendAllContent(next, writes[1..], path);
      AppendedContent(files, w, writes[1..], path, AppendAll(next, writes[1..])[path]);
      assert writes == [w] + writes[1..];
    }
  }

  /** One step of `AppendAllContent`: the first write's row comes first. */
  lemma AppendedContent(files: map<Path, seq<Line>>, w: Write, rest: seq<Write>, path: Path, lines: seq<Line>)
    requires lines == Initial(Appended(files, w.path, w.row), path) + DataLines(RowsTo(rest, path))
    ensures lines == Initial(files, path) + DataLines(RowsTo([w] + rest, path))
  {
    var head := if w.path == path then [w.row] else [];
    var tail := RowsTo(rest, path);
    InitialAfterAppend(files, w.path, w.row, path);
    DataLinesConcat(head, tail);
    assert ([w] + rest)[1..] == rest;
    assert RowsTo([w] + rest, path) == head + tail;
  }

  lemma InitialAfterAppend(files: map<Path, seq<Line>>, written: Path, row: Row, path: Path)
    ensures Initial(Appended(files, written, row), path)
              == Initial(files, path) + DataLines(if written == path then [row] else [])
  {
    if written == path {
      assert DataLines([row]) == [Data(row)];
    } else {
      assert DataLines([]) == [];
    }
  }

  lemma DataLinesConcat(a: seq<Row>, b: seq<Row>)
    ensures DataLines(a + b) == DataLines(a) + DataLines(b)
  {
  }

  /** Reading a file back after a sequence of appends gives the rows it had
      followed by exactly the rows appended to it, in append order. */
  lemma ReadAfterAppends(files: map<Path, seq<Line>>, writes: seq<Write>, path: Path)
    requires path in AppendAll(files, writes)
    ensures DataRows(AppendAll(files, writes)[path]) == DataRows(Initial(files, path)) + RowsTo(writes, path)
  {
    AppendAllAt(files, writes, path);
    DataRowsAppend(Initial(files, path), RowsTo(writes, path));
  }

  /** Appends keep every file a single header followed by rows. */
  lemma {:induction false} AppendAllKeepsLogs(files: map<Path, seq<Line>>, writes: seq<Write>)
    requires forall p :: p in files ==> IsLog(files[p])
    ensures forall p :: p in AppendAll(files, writes) ==> IsLog(AppendAll(files, writes)[p])
    decreases |writes|
  {
    if writes != [] {
      AppendedKeepsLogs(files, writes[0].path, writes[0].row);
      AppendAllKeepsLogs(Appended(files, writes[0].path, writes[0].row), writes[1..]);
    }
  }

  lemma {:induction false} AppendAllConcat(files: map<Path, seq<Line>>, a: seq<Write>, b: seq<Write>)
    ensures AppendAll(files, a + b) == AppendAll(AppendAll(files, a), b)
    decreases |a|
  {
    if a != [] {
      assert (a + b)[0] == a[0];
      assert (a + b)[1..] == a[1..] + b;
      AppendAllConcat(Appended(files, a[0].path, a[0].row), a[1..], b);
    } else {
      assert a + b == b;
    }
  }

  /** The rows sent to a path by two runs of writes are those of the first
      followed by those of the second. */
  lemma {:induction false} RowsToConcat(a: seq<Write>, b: seq<Write>, path: Path)
    ensures RowsTo(a + b, path) == RowsTo(a, path) + RowsTo(b, path)
    decreases |a|
  {
    if a != [] {
      assert (a + b)[0] == a[0];
      assert (a + b)[1..] == a[1..] + b;
      RowsToConcat(a[1..], b, path);
    } else {
      assert a + b == b;
    }
  }
}
