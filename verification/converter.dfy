/** The per-file conversion (app.py:74-118) and the batch over uploaded files
    (app.py:70-121): tables to module names, names to a sorted distinct list,
    the list to a report text and log lines. */
module Converter {
  import opened Wrappers
  import opened Text
  import opened SortedNames
  import opened Catalog
  import opened Tables
  import opened Gateway
  import opened Resolution

  /** The module names one table contributes (app.py:84-102); a skipped table
      contributes none. */
  function TableModules(t: Table): (r: Result<seq<string>, FileError>)
    ensures t == [] ==> r == Ok([])
    ensures r.Err? <==>
              t != [] &&
              (!WellShaped(t) ||
               multiset(t[0])[Some(ChannelHeader)] > 1 ||
               multiset(t[0])[Some(ModuleHeader)] > 1)
    ensures t != [] && Some(ModuleHeader) !in t[0] && r.Ok? ==> r.value == []
    ensures t != [] && Some(ModuleHeader) in t[0] && r.Ok? ==>
              |r.value| == |DropNone(Column(t[1..], IndexOf(t[0], ModuleHeader)))|
    ensures r.Ok? ==> forall k :: 0 <= k < |r.value| ==> '\n' !in r.value[k]
  {
    if t == [] then Ok([])
    else if !WellShaped(t) then Err(ShapeMismatch(|t[0]|, MaxWidth(t[1..])))
    else
      match ColumnValues(t, ChannelHeader)
      case Err(e) => Err(e)
      case Ok(channels) =>
        match ColumnValues(t, ModuleHeader)
        case Err(e) => Err(e)
        case Ok(None) => Ok([])
        case Ok(Some(modules)) =>
          ColumnValuesUnbroken(t, ModuleHeader);
          ColumnValuesUnbroken(t, ChannelHeader);
          QualifyKeepsUnbroken(modules, channels);
          Ok(Qualify(modules, channels))
  }

  /** Entry `k` of a table without a channel-type column is the `k`-th present
      module cell with its line breaks collapsed; a gateway stays bare
      (app.py:88-92, 94-100). */
  lemma TableModulesWithoutChannels(t: Table, jm: nat)
    requires t != [] && jm < |t[0]| && t[0][jm] == Some(ModuleHeader)
    requires Some(ChannelHeader) !in t[0]
    requires TableModules(t).Ok?
    ensures |TableModules(t).value| == |DropNone(Column(t[1..], jm))|
    ensures forall k :: 0 <= k < |TableModules(t).value| ==>
              TableModules(t).value[k] == CollapseBreaks(DropNone(Column(t[1..], jm))[k])
  {
    ColumnValuesAt(t, ModuleHeader, jm);
  }

  /** Entry `k` of a table with both columns is the `k`-th present module
      cell with its line breaks collapsed; when that is the gateway label and
      the channel column has a `k`-th present cell, the cleaned channel value
      is appended to it. Both `k`s count present cells, not rows
      (app.py:88-92, 94-100). */
  lemma TableModulesWithChannels(t: Table, jm: nat, jc: nat)
    requires t != [] && jm < |t[0]| && t[0][jm] == Some(ModuleHeader)
    requires jc < |t[0]| && t[0][jc] == Some(ChannelHeader)
    requires TableModules(t).Ok?
    ensures |TableModules(t).value| == |DropNone(Column(t[1..], jm))|
    ensures forall k :: 0 <= k < |TableModules(t).value| ==>
              var m := CollapseBreaks(DropNone(Column(t[1..], jm))[k]);
              var chs := DropNone(Column(t[1..], jc));
              TableModules(t).value[k] ==
                if m == GatewayLabel && k < |chs| then GatewayLabel + " " + CollapseBreaks(chs[k]) else m
  {
    ColumnValuesAt(t, ModuleHeader, jm);
    ColumnValuesAt(t, ChannelHeader, jc);
  }

  /** The module lists of a file's tables, in table order, concatenated
      (`module_types` flattened, app.py:102, 105); the first failing table
      abandons the whole file. */
  function CollectModules(tables: seq<Table>): (r: Result<seq<string>, FileError>)
    ensures r.Ok? <==> forall t :: t in tables ==> TableModules(t).Ok?
    ensures r.Ok? ==> forall x :: x in r.value <==>
              exists t :: t in tables && TableModules(t).Ok? && x in TableModules(t).value
  {
    if tables == [] then Ok([])
    else
      assert tables == [tables[0]] + tables[1..];
      match TableModules(tables[0])
      case Err(e) => Err(e)
      case Ok(m) =>
        match CollectModules(tables[1..])
        case Err(e) => Err(e)
        case Ok(rest) => Ok(m + rest)
  }

  /** The tables of all pages, page by page (app.py:81-83). */
  function AllTables(pages: seq<seq<Table>>): (r: seq<Table>)
    ensures forall t :: t in r <==> exists p :: p in pages && t in p
  {
    if pages == [] then []
    else
      assert pages == [pages[0]] + pages[1..];
      pages[0] + AllTables(pages[1..])
  }

  /** One uploaded file: its name, its name without extension, and the tables
      extracted from each of its pages. */
  datatype Upload = Upload(name: string, stem: string, pages: seq<seq<Table>>)

  /** What one successfully converted file yields: the archive entry name and
      text, the sorted distinct module names, and the names it logs. */
  datatype FileReport = FileReport(entry: string, text: string, modules: seq<string>, missing: seq<string>)

  function ProcessFile(catalog: Lookup, f: Upload): (r: Result<FileReport, FileError>)
    ensures r.Ok? <==> CollectModules(AllTables(f.pages)).Ok?
    ensures r.Ok? ==> r.value.entry == f.stem + ".txt"
    ensures r.Ok? ==> StrictlyIncreasing(r.value.modules)
    ensures r.Ok? ==> Elems(r.value.modules) == Elems(CollectModules(AllTables(f.pages)).value)
    ensures r.Ok? ==> r.value.text == Emit(Parts(catalog, r.value.modules))
    ensures r.Ok? ==> forall x :: x in r.value.missing <==> x in r.value.modules && Reported(catalog, x)
  {
    match CollectModules(AllTables(f.pages))
    case Err(e) => Err(e)
    case Ok(all) =>
      var names := SortedUnique(all);
      Ok(FileReport(f.stem + ".txt", Emit(Parts(catalog, names)), names, Missing(catalog, names)))
  }

  /** The per-file output depends only on which tables the file holds, not on
      their order across pages or their repetition. Reordering the rows inside
      one table is another matter, because gateways are paired by position
      (`Scenarios.RowOrderMovesTheChannel`). */
  lemma ReportIgnoresTableOrder(catalog: Lookup, f: Upload, g: Upload)
    requires f.stem == g.stem
    requires forall t :: t in AllTables(f.pages) <==> t in AllTables(g.pages)
    ensures ProcessFile(catalog, f).Ok? <==> ProcessFile(catalog, g).Ok?
    ensures ProcessFile(catalog, f).Ok? ==> ProcessFile(catalog, f) == ProcessFile(catalog, g)
  {
    var a := CollectModules(AllTables(f.pages));
    var b := CollectModules(AllTables(g.pages));
    if a.Ok? {
      assert Elems(a.value) == Elems(b.value);
      SortedUniqueCanonical(a.value, b.value);
    }
  }

  /** The report text and log of a file are functions of its set of module
      names alone. */
  lemma ReportDependsOnNameSet(catalog: Lookup, f: Upload, g: Upload)
    requires f.stem == g.stem
    requires ProcessFile(catalog, f).Ok? && ProcessFile(catalog, g).Ok?
    requires forall x :: x in CollectModules(AllTables(f.pages)).value <==> x in CollectModules(AllTables(g.pages)).value
    ensures ProcessFile(catalog, f) == ProcessFile(catalog, g)
  {
    var a := CollectModules(AllTables(f.pages)).value;
    var b := CollectModules(AllTables(g.pages)).value;
    assert Elems(a) == Elems(b);
    SortedUniqueCanonical(a, b);
  }

  /** The batch result: archive entries (name, text), warning log, and the
      files that failed, with the reason. */
  datatype BatchOutcome = BatchOutcome(
    archive: seq<(string, string)>,
    logs: seq<string>,
    failures: seq<(string, FileError)>)

  function Join(x: BatchOutcome, y: BatchOutcome): BatchOutcome {
    BatchOutcome(x.archive + y.archive, x.logs + y.logs, x.failures + y.failures)
  }

  /** What one file adds to the batch: its archive entry and log lines, or
      its failure (app.py:114, 117, 121). */
  function FileOutcome(catalog: Lookup, f: Upload): (r: BatchOutcome)
    ensures |r.archive| + |r.failures| == 1
    ensures |r.archive| == 1 <==> ProcessFile(catalog, f).Ok?
    ensures r.failures != [] ==> r.logs == [] && r.failures[0].0 == f.name
    ensures r.archive != [] ==>
              r.archive[0].0 == f.stem + ".txt" && |r.logs| == |ProcessFile(catalog, f).value.missing|
    ensures r.archive != [] ==> r.archive[0].1 == ProcessFile(catalog, f).value.text
    ensures r.archive != [] ==>
              forall x :: LogLine(f.name, x) in r.logs <==>
                x in ProcessFile(catalog, f).value.modules && Reported(catalog, x)
  {
    match ProcessFile(catalog, f)
    case Ok(rep) =>
      LogLinesMembers(f.name, rep.missing);
      BatchOutcome([(rep.entry, rep.text)], LogLines(f.name, rep.missing), [])
    case Err(e) => BatchOutcome([], [], [(f.name, e)])
  }

  /** The loop over uploaded files (app.py:70-121): each file is converted on
      its own; a failing file adds no entry and no log line. */
  function ProcessBatch(catalog: Lookup, files: seq<Upload>): (b: BatchOutcome)
    ensures |b.archive| + |b.failures| == |files|
    ensures forall i :: 0 <= i < |files| && ProcessFile(catalog, files[i]).Ok? ==>
              (files[i].stem + ".txt", ProcessFile(catalog, files[i]).value.text) in b.archive
    ensures forall i :: 0 <= i < |files| && ProcessFile(catalog, files[i]).Err? ==>
              (files[i].name, ProcessFile(catalog, files[i]).error) in b.failures
  {
    if files == [] then BatchOutcome([], [], [])
    else
      var rest := ProcessBatch(catalog, files[1..]);
      assert forall i :: 1 <= i < |files| ==> files[i] == files[1..][i - 1];
      var h := FileOutcome(catalog, files[0]);
      assert ProcessFile(catalog, files[0]).Ok? ==>
               h.archive == [(files[0].stem + ".txt", ProcessFile(catalog, files[0]).value.text)];
      assert ProcessFile(catalog, files[0]).Err? ==>
               h.failures == [(files[0].name, ProcessFile(catalog, files[0]).error)];
      Join(h, rest)
  }

  /** Helper for `BatchSplits`. */
  lemma AppendAssociative<T>(x: seq<T>, y: seq<T>, z: seq<T>)
    ensures x + (y + z) == (x + y) + z
  {
  }

  /** Files do not influence one another: a batch is the concatenation of
      its parts' outcomes. */
  lemma {:induction false} BatchSplits(catalog: Lookup, xs: seq<Upload>, ys: seq<Upload>)
    ensures ProcessBatch(catalog, xs + ys) == Join(ProcessBatch(catalog, xs), ProcessBatch(catalog, ys))
    decreases |xs|
  {
    if xs == [] {
      assert xs + ys == ys;
    } else {
      assert (xs + ys)[0] == xs[0];
      assert (xs + ys)[1..] == xs[1..] + ys;
      BatchSplits(catalog, xs[1..], ys);
      var h := FileOutcome(catalog, xs[0]);
      var a := ProcessBatch(catalog, xs[1..]);
      var b := ProcessBatch(catalog, ys);
      assert ProcessBatch(catalog, xs + ys) == Join(h, Join(a, b));
      assert Join(h, Join(a, b)) == Join(Join(h, a), b) by {
        AppendAssociative(h.archive, a.archive, b.archive);
        AppendAssociative(h.logs, a.logs, b.logs);
        AppendAssociative(h.failures, a.failures, b.failures);
      }
    }
  }
}
