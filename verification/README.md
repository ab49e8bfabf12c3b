# BN3500 rack BOM converter — Dafny model

The converter reads Bently Nevada 3500 rack-configuration reports and writes a
bill of parts for each rack. Every table of the report that has a
`Module\nType` column names the modules installed in the rack. The converter
collects those names, qualifies generic "3500/92 Communication Gateway" entries
with the value of the `Channel Type` column, and sorts the distinct names. It
then looks each name up in the fixed table `cz_elements`. For every hit it
writes the part codes ("CZ" numbers) one per line. Every miss that is not a
blank slot or a power supply goes to a warning log.

The model starts from the tables the PDF extractor returns: per file, a list
of pages; per page, a list of tables; per table, a header row followed by data
rows of optional strings. It is purely functional. The loops of the source
(gateway rewrite, resolution) are also given as methods, which are proved
equal to the functional definitions.

Modules:

- `Wrappers`: `Option` and `Result`.
- `Text`: the line-break collapse pandas applies, and Python's `str` order
  (`Less`), proved to be a strict total order that matches its index-based
  description.
- `SortedNames`: deduplicate-and-sort as `SortedUnique`, proved to be the unique
  strictly increasing listing of its input's elements.
- `Catalog`: `cz_elements`, the two header texts, the gateway label and the two
  placeholder names, copied verbatim.
- `Tables`: one table as a pandas frame. It covers the shape check, column
  lookup by exact header, dropping missing cells, and replacing line breaks
  with spaces.
- `Gateway`: positional gateway qualification, as a definition (`Qualify`) and
  as the source's in-place loop (`Disambiguate`).
- `Resolution`: part lookup, report text, missing names, log lines.
- `Converter`: per-table, per-file and per-batch composition.
- `Scenarios`: worked examples on the real lookup table.

Points where the code's behaviour is easy to misread, all modelled as the
code does it:

- Gateway pairing uses indices into the two columns' lists after missing cells
  were dropped, not row indices. A missing channel cell therefore shifts later
  gateways onto the wrong channel (`Scenarios.GatewayPairingShiftsPastMissingCells`).
  For the same reason, swapping two rows of one table can change the names it
  yields (`Scenarios.RowOrderMovesTheChannel`).
- Only missing (`None`) cells are dropped. Empty strings are kept.
- A lookup whose list is empty counts as a miss, because the code tests the
  list's truthiness.
- Names are normalised only by replacing `'\n'` with a space. No other
  whitespace is collapsed.

## Model

| member | source | states |
|---|---|---|
| Text.CollapseBreaks | app.py:89-92 | the cleaned value has the cell's length, contains no line break, has a space wherever the cell had a line break and the cell's character everywhere else |
| Text.CollapseBreaksFixesUnbroken | app.py:92 | a value without line breaks is unchanged, so cleaning twice equals cleaning once |
| Text.LessMatchesIndexDefinition | app.py:105 | the string order used for sorting holds exactly when one string is a proper prefix of the other or the first differing character is smaller |
| Text.LessIrreflexive | app.py:105 | no name sorts before itself |
| Text.LessTransitive | app.py:105 | the sort order is transitive |
| Text.LessTotal | app.py:105 | any two different names are ordered one way or the other |
| Text.LessAsymmetric | app.py:105 | two names are never each before the other |
| Text.LessPrefix | app.py:105 | a name sorts before every longer name that extends it, e.g. the bare gateway label before a qualified gateway |
| SortedNames.Insert | app.py:105 | adding a name to a strictly increasing list keeps it strictly increasing, with element set grown by exactly that name |
| SortedNames.SortedUnique | app.py:105 | the deduplicated list is strictly increasing and holds exactly the names of the input |
| SortedNames.IncreasingUnique | app.py:105 | two strictly increasing lists with the same elements are equal |
| SortedNames.SortedUniqueCanonical | app.py:105 | the sorted distinct list depends only on which names occur, not on their order or repetition |
| SortedNames.SortedUniqueCharacterised | app.py:105 | any strictly increasing list of exactly the input's names is the result of the sort-and-dedupe |
| Tables.DropNone | app.py:89-92 | dropping missing cells keeps at most as many values, and a value is kept iff some cell holds it, empty strings included |
| Tables.DropNoneAppend | app.py:92 | dropping missing cells distributes over concatenation, so kept values stay in row order |
| Tables.DropNoneKeepsFullColumns | app.py:92 | the list is as long as the column iff no cell is missing, and then each value sits at its row's index |
| Tables.Normalize | app.py:89-92 | the column's value list has one entry per present cell, in order, each the cleaned cell |
| Tables.NormalizedValues | app.py:92 | every column value is free of line breaks, as long as its cell, and equal to it when the cell had no break |
| Tables.WellShapedMeaning | app.py:85 | building the frame succeeds iff there are no data rows, or no data row is wider than the header and some data row is exactly as wide |
| Tables.ColumnValues | app.py:88-92 | a column is absent iff no header cell has exactly the name; looking it up fails iff two header cells have it; otherwise the values are the cleaned present cells of a header position that carries the name |
| Tables.ColumnValuesAt | app.py:88-92 | whichever header position carries the name, a successful lookup yields exactly that column's cleaned present cells, since the name can head only one column |
| Tables.ColumnValuesMembers | app.py:88-92 | a successful lookup holds a value iff some data row has a present cell in that column which, with line breaks replaced by spaces, is that value |
| Tables.ColumnValuesUnbroken | app.py:88-92 | no value taken from a named column contains a line break |
| Gateway.Qualify | app.py:94-100 | disambiguation keeps one entry per module name; an entry that differs from its name was the bare gateway label with a channel list reaching its index, and is that label, a space and the channel value at that index; every such gateway entry does change |
| Gateway.QualifyChangesOnlyGateways | app.py:94-100 | disambiguation keeps the list length and every non-gateway entry; a gateway entry at k becomes label + " " + channel[k] iff the channel list exists, is non-empty and longer than k, and stays bare otherwise |
| Gateway.QualifyIdempotent | app.py:94-100 | disambiguating an already disambiguated list changes nothing |
| Gateway.QualifyKeepsUnbroken | app.py:94-100 | names and channels without line breaks give qualified names without line breaks |
| Gateway.PositionsOf | app.py:96 | the gateway index list is strictly increasing, in range, and holds exactly the positions equal to the label |
| Gateway.Disambiguate | app.py:95-100 | the in-place rewrite loop over the gateway positions yields exactly the position-wise qualified list |
| Resolution.Parts | app.py:108-112 | every written code belongs to the list of some name with parts, and a mapped name's whole list fits in the output |
| Resolution.PartsAppend | app.py:108-112 | the codes of a concatenation of name lists are the concatenated codes: names contribute independently and in order |
| Resolution.Emit | app.py:111-112 | the report is empty iff there are no codes, and a non-empty report ends with a line break |
| Resolution.EmitLinesRoundTrip | app.py:111-112 | splitting the report into lines returns exactly the written codes, in order, when no code contains a line break |
| Resolution.Missing | app.py:108-114 | a name is logged iff it occurs, its lookup is absent or empty, and it is not one of the two placeholders; the logged names stay sorted |
| Resolution.LogLines | app.py:114 | one warning line per logged name, in order, each naming the file and the module |
| Resolution.LogLineInjective | app.py:114 | two names give the same warning line of a file only if they are the same name |
| Resolution.LogLinesMembers | app.py:113-114 | a file's log holds the warning line for a name exactly when that name is missing |
| Resolution.WriteCodes | app.py:111-112 | the inner loop appends exactly the codes of one name, each followed by a line break |
| Resolution.Resolve | app.py:106-114 | the resolution loop produces the report text of the parts of all names and the warning lines of the missing names |
| Resolution.NeverReported | app.py:113 | the blank slot and power supply are never logged, whatever the lookup table (even empty); names with parts are never logged; with an empty table nothing else escapes the log |
| Converter.TableModules | app.py:84-102 | an empty table contributes nothing; a table fails iff pandas rejects its shape or a looked-up header is duplicated; a table without the module header contributes nothing; otherwise one name per present module cell, none with a line break |
| Converter.TableModulesWithoutChannels | app.py:88-100 | without a channel-type column, entry k of a table's names is the k-th present module cell with line breaks replaced, gateways left bare |
| Converter.TableModulesWithChannels | app.py:88-100 | with both columns, entry k is the k-th present module cell, cleaned; if that is the gateway label and the channel column has a k-th present cell, the cleaned channel value is appended after a space; k counts present cells, not rows |
| Converter.CollectModules | app.py:81-102 | the file's names succeed iff every table succeeds, and a name is collected iff some table contributes it |
| Converter.AllTables | app.py:81-83 | the file's tables are exactly the tables of its pages |
| Converter.ProcessFile | app.py:74-117 | a file converts iff all its tables do; its entry is stem + ".txt", its names are strictly increasing with exactly the collected elements, its text is the parts of those names and its missing names are the reported ones |
| Converter.ReportIgnoresTableOrder | app.py:105 | reordering or repeating tables across pages changes neither success nor the report |
| Converter.ReportDependsOnNameSet | app.py:105-114 | two files with the same collected name set give identical reports |
| Converter.FileOutcome | app.py:73-121 | each file yields exactly one archive entry or one failure; the entry exists iff the file converts, is named after the file's stem with ".txt", carries the file's report text, and comes with one log line per missing name; the log holds the line "[file] Nie znaleziono: x" exactly for the file's names x that are reported; a failed file logs nothing |
| Converter.ProcessBatch | app.py:70-121 | every file either adds one archive entry with its report text or one failure naming the file |
| Converter.BatchSplits | app.py:70-121 | a batch's outcome is the concatenation of the outcomes of its parts: files do not influence one another |
| Scenarios.CatalogEntriesNonEmpty | app.py:16-44 | every entry of the static lookup table has at least one part, so a miss there means the name has no entry |
| Scenarios.RtdLookup | app.py:31-35 | the RTD temperature module maps to its three codes in order |
| Scenarios.PlainModuleTable | app.py:91-102 | a table row holding a non-gateway module without line breaks contributes exactly that name |
| Scenarios.OneModuleFile | app.py:105-114 | a file with one table naming one module reports just that module's parts and log |
| Scenarios.RtdFileReport | app.py:31-35 | a file whose only module is the RTD temperature module yields exactly its three codes, each on its own line, and no log |
| Scenarios.GatewayTakesChannelOfItsRow | app.py:94-100 | a gateway row with channel type c becomes the gateway qualified by c |
| Scenarios.Rs485GatewayIsMapped | app.py:42 | the gateway with channel RS-485 becomes a name that has a part |
| Scenarios.GatewayPairingShiftsPastMissingCells | app.py:89-100 | with the first gateway's channel missing, the first gateway takes the second row's channel and the second stays bare |
| Scenarios.RowOrderMovesTheChannel | app.py:89-100 | a gateway row without a channel above an ordinary row takes that row's channel, while the same rows swapped leave the gateway bare, so row order inside a table matters |
| Scenarios.BareGatewayIsLogged | app.py:113-114 | the bare gateway label has no entry and is logged |
| Scenarios.AliasesEmitTheirPartsTwice | app.py:21-22 | two spellings sharing one part list each write it, so the list appears twice |

## Left out

- PDF parsing (`pdfplumber`, app.py:80-82): the model takes the extracted tables as input. A document that cannot be parsed is therefore not represented.
- pandas, beyond what a column lookup needs (app.py:85). The model keeps four things. Short rows are padded with missing cells. A non-empty set of data rows whose widest row is not exactly as wide as the header is refused (`ShapeMismatch`). A header is matched by exact text. A looked-up name that heads two columns fails (`DuplicateColumn`), because selecting that name then gives a frame, which has no string accessor. app.py does not show the shape rule; it follows pandas' list-of-lists constructor.
- Streamlit UI (app.py:47-56, 62-63, 71, 121-141): upload, buttons, status text, error display, expander and download. `Converter.ProcessBatch` records each failure with the file's name and the reason instead of displaying it.
- ZIP writing (app.py:59, 68, 117): the archive is a sequence of (entry name, text) pairs. Compression and encoding are not modelled.
- `os.path.splitext` (app.py:75): each upload carries its stem as an input field.
- The progress fraction (app.py:124) and the success count message (app.py:127). The processed count equals the number of archive entries.
- Exceptions other than the two pandas failures above are not modelled.
- Python strings may contain lone surrogate code points; Dafny characters cannot. Ordering is otherwise the same code-point order.
- The aggregate matched-parts and missing-modules summaries, the spreadsheet-backed mapping editor and the semicolon-joined part-list encoding are not in app.py. They are not part of this model.
