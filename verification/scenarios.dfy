/** Worked examples on the converter's own lookup table. */
module Scenarios {
  import opened Wrappers
  import opened Text
  import opened SortedNames
  import opened Catalog
  import opened Tables
  import opened Gateway
  import opened Resolution
  import opened Converter

  /** Every entry of the static table has at least one part, so for it
      "no parts" means exactly "no entry" (app.py:16-44, 109-110). */
  lemma CatalogEntriesNonEmpty()
    ensures forall name :: name in CzElements ==> CzElements[name] != []
    ensures forall name :: Unmapped(CzElements, name) <==> name !in CzElements
  {
  }

  lemma RtdLookup()
    ensures RtdTempModule in CzElements && CzElements[RtdTempModule] == RtdTempParts
  {
  }

  /** A table whose one data row is the RTD temperature module. */
  function RtdTable(): Table {
    [TwoColumnHeader, [Some(RtdTempModule), None]]
  }

  /** The header of the report tables: module type, then channel type. */
  const TwoColumnHeader: Row := [Some(ModuleHeader), Some(ChannelHeader)]

  lemma TwoColumnTableModules(t: Table)
    requires t != [] && t[0] == TwoColumnHeader
    requires |t| > 1 ==> MaxWidth(t[1..]) == 2
    ensures TableModules(t) ==
              Ok(Qualify(Normalize(Column(t[1..], 0)), Some(Normalize(Column(t[1..], 1)))))
  {
    assert ModuleHeader != ChannelHeader by {
      assert ModuleHeader[0] != ChannelHeader[0];
    }
    assert IndexOf(t[0], ModuleHeader) == 0;
    assert IndexOf(t[0], ChannelHeader) == 1;
    assert multiset(t[0])[Some(ChannelHeader)] == 1;
    assert multiset(t[0])[Some(ModuleHeader)] == 1;
  }

  lemma ColumnCons(row: Row, rows: seq<Row>, j: nat)
    ensures Column([row] + rows, j) == [CellAt(row, j)] + Column(rows, j)
  {
  }

  lemma NormalizeCons(c: Cell, cells: seq<Cell>)
    ensures Normalize([c] + cells) ==
              (if c.Some? then [CollapseBreaks(c.value)] else []) + Normalize(cells)
  {
    assert ([c] + cells)[1..] == cells;
  }

  /** A data row with a module that is not a gateway and no channel type
      contributes exactly that module. */
  lemma PlainModuleTable(m: string)
    requires '\n' !in m && m != GatewayLabel
    ensures TableModules([TwoColumnHeader, [Some(m), None]]) == Ok([m])
  {
    var t: Table := [TwoColumnHeader, [Some(m), None]];
    assert t[1..] == [[Some(m), None]];
    assert MaxWidth(t[1..]) == 2;
    TwoColumnTableModules(t);
    assert Normalize(Column(t[1..], 0)) == [m] by {
      assert Column(t[1..], 0) == [Some(m)] + [];
      NormalizeCons(Some(m), []);
      CollapseBreaksFixesUnbroken(m);
    }
    assert Normalize(Column(t[1..], 1)) == [] by {
      assert Column(t[1..], 1) == [None] + [];
      NormalizeCons(None, []);
    }
    assert Qualify([m], Some([])) == [m];
  }

  lemma RtdNameIsPlain()
    ensures '\n' !in RtdTempModule && RtdTempModule != GatewayLabel
  {
  }

  lemma RtdTableModules()
    ensures TableModules(RtdTable()) == Ok([RtdTempModule])
  {
    RtdNameIsPlain();
    PlainModuleTable(RtdTempModule);
  }

  lemma RtdReportText()
    ensures Emit(RtdTempParts) ==
              "CZ-0919800-100-705 - 3500/60-01-00 KMPL.\n" +
              "CZ-0919800-100-765 - 163179-01 PRZÓD\n" +
              "CZ-0919800-100-766 - 133843-01 TYŁ\n"
  {
    var p := RtdTempParts;
    assert p[1..][1..][1..] == [];
  }

  /** A file with one table that names one module reports that module alone. */
  lemma OneTable(t: Table)
    ensures AllTables([[t]]) == [t]
    ensures CollectModules([t]) == (match TableModules(t) case Ok(m) => Ok(m + []) case Err(e) => Err(e))
  {
    assert [[t]][1..] == [];
    assert [t][1..] == [];
  }

  lemma OneModuleFile(catalog: Lookup, f: Upload, t: Table, m: string)
    requires f.pages == [[t]]
    requires TableModules(t) == Ok([m])
    ensures ProcessFile(catalog, f) ==
              Ok(FileReport(f.stem + ".txt", Emit(Parts(catalog, [m])), [m], Missing(catalog, [m])))
  {
    OneTable(t);
    assert [m] + [] == [m];
    SortedUniqueCharacterised([m], [m]);
  }

  lemma RtdResolves()
    ensures Parts(CzElements, [RtdTempModule]) == RtdTempParts
    ensures Missing(CzElements, [RtdTempModule]) == []
  {
    assert [RtdTempModule][1..] == [];
    RtdLookup();
  }

  /** A file whose only module is the RTD temperature module yields its three
      codes, in their listed order, and logs nothing (app.py:31-35). */
  lemma RtdFileReport(name: string, stem: string)
    ensures ProcessFile(CzElements, Upload(name, stem, [[RtdTable()]])) ==
              Ok(FileReport(stem + ".txt",
                 "CZ-0919800-100-705 - 3500/60-01-00 KMPL.\n" +
                 "CZ-0919800-100-765 - 163179-01 PRZÓD\n" +
                 "CZ-0919800-100-766 - 133843-01 TYŁ\n",
                 [RtdTempModule], []))
  {
    RtdTableModules();
    OneModuleFile(CzElements, Upload(name, stem, [[RtdTable()]]), RtdTable(), RtdTempModule);
    RtdResolves();
    RtdReportText();
  }

  const Rs485: string := "RS-485"
  const GatewayRs485: string := "3500/92 Communication Gateway RS-485"

  lemma GatewayRs485Lookup()
    ensures GatewayRs485 == GatewayLabel + " " + Rs485
    ensures GatewayRs485 in CzElements
    ensures CzElements[GatewayRs485] == ["CZ-0919800-100-711 - 3500/92-02-01-00 - RS485"]
  {
  }

  lemma GatewayLabelUnbroken()
    ensures '\n' !in GatewayLabel
  {
  }

  lemma GatewayRowColumns(c: string)
    requires '\n' !in c
    ensures Normalize(Column([[Some(GatewayLabel), Some(c)]], 0)) == [GatewayLabel]
    ensures Normalize(Column([[Some(GatewayLabel), Some(c)]], 1)) == [c]
  {
    ColumnCons([Some(GatewayLabel), Some(c)], [], 0);
    ColumnCons([Some(GatewayLabel), Some(c)], [], 1);
    NormalizeCons(Some(GatewayLabel), []);
    NormalizeCons(Some(c), []);
    GatewayLabelUnbroken();
    CollapseBreaksFixesUnbroken(GatewayLabel);
    CollapseBreaksFixesUnbroken(c);
  }

  lemma QualifyOneGateway(c: string)
    ensures Qualify([GatewayLabel], Some([c])) == [GatewayLabel + " " + c]
  {
    assert HasChannel(Some([c]), 0);
    var q := Qualify([GatewayLabel], Some([c]));
    assert q[0] == GatewayLabel + " " + c;
    assert q == [q[0]];
  }

  /** A gateway row whose channel type cell holds `c` becomes the gateway
      qualified by `c`. */
  lemma GatewayTakesChannelOfItsRow(c: string)
    requires '\n' !in c
    ensures TableModules([TwoColumnHeader, [Some(GatewayLabel), Some(c)]]) == Ok([GatewayLabel + " " + c])
  {
    var t: Table := [TwoColumnHeader, [Some(GatewayLabel), Some(c)]];
    assert t[1..] == [[Some(GatewayLabel), Some(c)]];
    assert MaxWidth(t[1..]) == 2;
    TwoColumnTableModules(t);
    GatewayRowColumns(c);
    QualifyOneGateway(c);
  }

  /** With channel type RS-485 that is the RS-485 gateway, which has a part. */
  lemma Rs485GatewayIsMapped()
    ensures TableModules([TwoColumnHeader, [Some(GatewayLabel), Some(Rs485)]]) == Ok([GatewayRs485])
    ensures GatewayRs485 in CzElements
  {
    assert '\n' !in Rs485;
    GatewayTakesChannelOfItsRow(Rs485);
    GatewayRs485Lookup();
  }

  lemma ShiftedModuleColumn(m: string, c: string)
    requires '\n' !in m
    ensures Normalize(Column([[Some(m), None], [Some(m), Some(c)]], 0)) == [m, m]
  {
    ColumnCons([Some(m), None], [[Some(m), Some(c)]], 0);
    ColumnCons([Some(m), Some(c)], [], 0);
    NormalizeCons(Some(m), []);
    NormalizeCons(Some(m), [Some(m)]);
    CollapseBreaksFixesUnbroken(m);
  }

  lemma ShiftedChannelColumn(c: string)
    requires '\n' !in c
    ensures Normalize(Column([[Some(GatewayLabel), None], [Some(GatewayLabel), Some(c)]], 1)) == [c]
  {
    ColumnCons([Some(GatewayLabel), None], [[Some(GatewayLabel), Some(c)]], 1);
    ColumnCons([Some(GatewayLabel), Some(c)], [], 1);
    NormalizeCons(Some(c), []);
    NormalizeCons(None, [Some(c)]);
    CollapseBreaksFixesUnbroken(c);
  }

  lemma QualifyTwoGatewaysOneChannel(c: string)
    ensures Qualify([GatewayLabel, GatewayLabel], Some([c])) == [GatewayLabel + " " + c, GatewayLabel]
  {
    assert HasChannel(Some([c]), 0);
    assert !HasChannel(Some([c]), 1);
    var q := Qualify([GatewayLabel, GatewayLabel], Some([c]));
    assert q[0] == GatewayLabel + " " + c;
    assert q[1] == GatewayLabel;
    assert q == [q[0], q[1]];
  }

  /** Positions are counted after missing cells are dropped, so a gateway
      row without a channel type takes the channel of the NEXT gateway row,
      and that row stays a bare gateway label (app.py:89, 92, 96-100). */
  lemma GatewayPairingShiftsPastMissingCells(c: string)
    requires '\n' !in c
    ensures TableModules([TwoColumnHeader, [Some(GatewayLabel), None], [Some(GatewayLabel), Some(c)]])
              == Ok([GatewayLabel + " " + c, GatewayLabel])
  {
    var t: Table := [TwoColumnHeader, [Some(GatewayLabel), None], [Some(GatewayLabel), Some(c)]];
    assert t[1..] == [[Some(GatewayLabel), None], [Some(GatewayLabel), Some(c)]];
    assert t[1..][1..] == [[Some(GatewayLabel), Some(c)]];
    assert MaxWidth(t[1..]) == 2;
    TwoColumnTableModules(t);
    GatewayLabelUnbroken();
    ShiftedModuleColumn(GatewayLabel, c);
    ShiftedChannelColumn(c);
    QualifyTwoGatewaysOneChannel(c);
  }

  lemma TwoRowColumn(r1: Row, r2: Row, j: nat)
    ensures Column([r1, r2], j) == [CellAt(r1, j), CellAt(r2, j)]
  {
  }

  lemma NormalizeTwoPresent(x: string, y: string)
    requires '\n' !in x && '\n' !in y
    ensures Normalize([Some(x), Some(y)]) == [x, y]
  {
    NormalizeCons(Some(y), []);
    NormalizeCons(Some(x), [Some(y)]);
    CollapseBreaksFixesUnbroken(x);
    CollapseBreaksFixesUnbroken(y);
  }

  lemma NormalizeOnePresent(c: string)
    requires '\n' !in c
    ensures Normalize([Some(c), None]) == [c]
    ensures Normalize([None, Some(c)]) == [c]
  {
    NormalizeCons(None, []);
    NormalizeCons(Some(c), []);
    NormalizeCons(Some(c), [None]);
    NormalizeCons(None, [Some(c)]);
    CollapseBreaksFixesUnbroken(c);
  }

  lemma GatewayAboveModuleColumns(m: string, c: string)
    requires '\n' !in m && '\n' !in c
    ensures Normalize(Column([[Some(GatewayLabel), None], [Some(m), Some(c)]], 0)) == [GatewayLabel, m]
    ensures Normalize(Column([[Some(GatewayLabel), None], [Some(m), Some(c)]], 1)) == [c]
  {
    GatewayLabelUnbroken();
    TwoRowColumn([Some(GatewayLabel), None], [Some(m), Some(c)], 0);
    TwoRowColumn([Some(GatewayLabel), None], [Some(m), Some(c)], 1);
    NormalizeTwoPresent(GatewayLabel, m);
    NormalizeOnePresent(c);
  }

  lemma GatewayBelowModuleColumns(m: string, c: string)
    requires '\n' !in m && '\n' !in c
    ensures Normalize(Column([[Some(m), Some(c)], [Some(GatewayLabel), None]], 0)) == [m, GatewayLabel]
    ensures Normalize(Column([[Some(m), Some(c)], [Some(GatewayLabel), None]], 1)) == [c]
  {
    GatewayLabelUnbroken();
    TwoRowColumn([Some(m), Some(c)], [Some(GatewayLabel), None], 0);
    TwoRowColumn([Some(m), Some(c)], [Some(GatewayLabel), None], 1);
    NormalizeTwoPresent(m, GatewayLabel);
    NormalizeOnePresent(c);
  }

  lemma QualifyGatewayFirst(m: string, c: string)
    requires m != GatewayLabel
    ensures Qualify([GatewayLabel, m], Some([c])) == [GatewayLabel + " " + c, m]
  {
    var q := Qualify([GatewayLabel, m], Some([c]));
    assert q[0] == GatewayLabel + " " + c by { assert HasChannel(Some([c]), 0); }
    assert q == [q[0], q[1]];
  }

  lemma QualifyGatewaySecond(m: string, c: string)
    requires m != GatewayLabel
    ensures Qualify([m, GatewayLabel], Some([c])) == [m, GatewayLabel]
  {
    var q := Qualify([m, GatewayLabel], Some([c]));
    assert q[1] == GatewayLabel by { assert !HasChannel(Some([c]), 1); }
    assert q == [q[0], q[1]];
  }

  /** A gateway row without a channel type above an ordinary module row that
      has one: the gateway takes the ordinary row's channel. */
  lemma GatewayAboveModule(m: string, c: string)
    requires '\n' !in m && '\n' !in c && m != GatewayLabel
    ensures TableModules([TwoColumnHeader, [Some(GatewayLabel), None], [Some(m), Some(c)]])
              == Ok([GatewayLabel + " " + c, m])
  {
    var t: Table := [TwoColumnHeader, [Some(GatewayLabel), None], [Some(m), Some(c)]];
    assert t[1..] == [[Some(GatewayLabel), None], [Some(m), Some(c)]];
    assert t[1..][1..] == [[Some(m), Some(c)]];
    assert MaxWidth(t[1..]) == 2;
    TwoColumnTableModules(t);
    GatewayAboveModuleColumns(m, c);
    QualifyGatewayFirst(m, c);
  }

  /** The same two rows the other way round: the ordinary row comes first
      and keeps its name, and the gateway finds no second channel value. */
  lemma GatewayBelowModule(m: string, c: string)
    requires '\n' !in m && '\n' !in c && m != GatewayLabel
    ensures TableModules([TwoColumnHeader, [Some(m), Some(c)], [Some(GatewayLabel), None]])
              == Ok([m, GatewayLabel])
  {
    var t: Table := [TwoColumnHeader, [Some(m), Some(c)], [Some(GatewayLabel), None]];
    assert t[1..] == [[Some(m), Some(c)], [Some(GatewayLabel), None]];
    assert t[1..][1..] == [[Some(GatewayLabel), None]];
    assert MaxWidth(t[1..]) == 2;
    TwoColumnTableModules(t);
    GatewayBelowModuleColumns(m, c);
    QualifyGatewaySecond(m, c);
  }

  /** Swapping two rows of one table changes its module names, because a
      gateway is paired with a channel by position among the present cells
      (app.py:89, 92, 96-100): a gateway row without a channel type above an
      ordinary row takes that row's channel, below it stays bare. */
  lemma RowOrderMovesTheChannel(m: string, c: string)
    requires '\n' !in m && '\n' !in c && m != GatewayLabel
    ensures TableModules([TwoColumnHeader, [Some(GatewayLabel), None], [Some(m), Some(c)]])
              == Ok([GatewayLabel + " " + c, m])
    ensures TableModules([TwoColumnHeader, [Some(m), Some(c)], [Some(GatewayLabel), None]])
              == Ok([m, GatewayLabel])
  {
    GatewayAboveModule(m, c);
    GatewayBelowModule(m, c);
  }

  /** The bare gateway label has no entry of its own and is not a
      placeholder, so it is logged (app.py:42-43, 113-114). */
  lemma BareGatewayIsLogged()
    ensures GatewayLabel !in CzElements
    ensures Missing(CzElements, [GatewayLabel]) == [GatewayLabel]
  {
    assert GatewayLabel !in CzElements;
    assert [GatewayLabel][1..] == [];
  }

  /** Two spellings of one module share one part list, and a file naming both
      gets the list twice: nothing is deduplicated across names (app.py:21-22). */
  lemma AliasesEmitTheirPartsTwice()
    ensures Parts(CzElements, ["3500/32 Standard Relay Module", "3500/32M Standard Relay Module"])
              == RelayStandard4 + RelayStandard4
  {
    var names := ["3500/32 Standard Relay Module", "3500/32M Standard Relay Module"];
    assert names[0] in CzElements && CzElements[names[0]] == RelayStandard4;
    assert names[1] in CzElements && CzElements[names[1]] == RelayStandard4;
    assert names[1..] == [names[1]] && names[1..][1..] == [];
    assert !Unmapped(CzElements, names[0]) && !Unmapped(CzElements, names[1]);
    assert Parts(CzElements, names[1..]) == RelayStandard4 + [];
    assert RelayStandard4 + [] == RelayStandard4;
  }
}
