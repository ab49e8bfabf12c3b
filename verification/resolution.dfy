/** Part resolution and the per-file report (app.py:106-114): each sorted
    module name is looked up, its part codes are written one per line, and a
    name without parts is logged unless it is a known placeholder. */
module Resolution {
  import opened Catalog
  import opened SortedNames
  import opened Text

  type Lookup = map<string, seq<string>>

  /** The lookup finds no parts: no entry, or an empty list (app.py:109-110). */
  predicate Unmapped(catalog: Lookup, name: string) {
    name !in catalog || catalog[name] == []
  }

  /** A name that ends up in the log (app.py:113-114). */
  predicate Reported(catalog: Lookup, name: string) {
    Unmapped(catalog, name) && name !in Sentinels
  }

  /** Every part code of the mapped names, name by name, each list in its own
      order; nothing is deduplicated across names. */
  function Parts(catalog: Lookup, names: seq<string>): (r: seq<string>)
    ensures forall c :: c in r ==>
              exists i :: 0 <= i < |names| && !Unmapped(catalog, names[i]) && c in catalog[names[i]]
    ensures forall i :: 0 <= i < |names| && names[i] in catalog ==> |catalog[names[i]]| <= |r|
  {
    if names == [] then []
    else
      var rest := Parts(catalog, names[1..]);
      assert forall c :: c in rest ==>
               exists i :: 1 <= i < |names| && !Unmapped(catalog, names[i]) && c in catalog[names[i]] by {
        forall c | c in rest
          ensures exists i :: 1 <= i < |names| && !Unmapped(catalog, names[i]) && c in catalog[names[i]]
        {
          var i :| 0 <= i < |names[1..]| && !Unmapped(catalog, names[1..][i]) && c in catalog[names[1..][i]];
          assert names[i + 1] == names[1..][i];
        }
      }
      (if Unmapped(catalog, names[0]) then [] else catalog[names[0]]) + rest
  }

  lemma {:induction false} PartsAppend(catalog: Lookup, a: seq<string>, b: seq<string>)
    ensures Parts(catalog, a + b) == Parts(catalog, a) + Parts(catalog, b)
    decreases |a|
  {
    if a == [] {
      assert a + b == b;
    } else {
      assert (a + b)[0] == a[0];
      assert (a + b)[1..] == a[1..] + b;
      PartsAppend(catalog, a[1..], b);
    }
  }

  /** The report text: every code followed by a line break (app.py:111-112). */
  function Emit(codes: seq<string>): (r: string)
    ensures codes == [] <==> r == []
    ensures r != [] ==> r[|r| - 1] == '\n'
  {
    if codes == [] then [] else codes[0] + "\n" + Emit(codes[1..])
  }

  lemma {:induction false} EmitAppend(a: seq<string>, b: seq<string>)
    ensures Emit(a + b) == Emit(a) + Emit(b)
    decreases |a|
  {
    if a == [] {
      assert a + b == b;
    } else {
      assert (a + b)[0] == a[0];
      assert (a + b)[1..] == a[1..] + b;
      EmitAppend(a[1..], b);
    }
  }

  lemma EmitOne(c: string)
    ensures Emit([c]) == c + "\n"
  {
    assert [c][1..] == [];
  }

  /** The length of the first line of `s`: the index of its first line break,
      or `|s|` when there is none. */
  function LineEnd(s: string): (n: nat)
    ensures n <= |s|
    ensures forall i :: 0 <= i < n ==> s[i] != '\n'
    ensures n < |s| ==> s[n] == '\n'
  {
    if s == [] || s[0] == '\n' then 0 else 1 + LineEnd(s[1..])
  }

  /** The lines of a text: each line break ends one line, and text after the
      last break forms one more. */
  function Lines(s: string): seq<string>
    decreases |s|
  {
    if s == [] then []
    else
      var n := LineEnd(s);
      [s[..n]] + (if n < |s| then Lines(s[n + 1..]) else [])
  }

  /** Reading the report back line by line gives the codes, in order, as long
      as no code contains a line break itself. */
  lemma {:induction false} EmitLinesRoundTrip(codes: seq<string>)
    requires forall i :: 0 <= i < |codes| ==> '\n' !in codes[i]
    ensures Lines(Emit(codes)) == codes
    decreases |codes|
  {
    if codes != [] {
      var s := Emit(codes);
      var c := codes[0];
      assert s == c + "\n" + Emit(codes[1..]);
      assert forall i :: 0 <= i < |c| ==> s[i] == c[i];
      assert s[|c|] == '\n';
      var n := LineEnd(s);
      assert n == |c|;
      assert s[..n] == c;
      assert s[n + 1..] == Emit(codes[1..]);
      EmitLinesRoundTrip(codes[1..]);
      assert codes == [c] + codes[1..];
    }
  }

  /** The names that are logged, in the order they are met. */
  function Missing(catalog: Lookup, names: seq<string>): (r: seq<string>)
    ensures forall n :: n in r <==> n in names && Reported(catalog, n)
    ensures |r| <= |names|
    ensures StrictlyIncreasing(names) ==> StrictlyIncreasing(r)
  {
    if names == [] then []
    else
      var rest := Missing(catalog, names[1..]);
      assert names == [names[0]] + names[1..];
      if Reported(catalog, names[0]) then
        assert StrictlyIncreasing(names) ==> StrictlyIncreasing([names[0]] + rest) by {
          if StrictlyIncreasing(names) {
            forall z | z in rest ensures Less(names[0], z) {
              var j :| 0 <= j < |names[1..]| && names[1..][j] == z;
              assert names[j + 1] == z;
            }
            ConsIncreasing(names[0], rest);
          }
        }
        [names[0]] + rest
      else rest
  }

  /** The log message for one name of one file (app.py:114). */
  function LogLine(fileName: string, name: string): string {
    "[" + fileName + "] Nie znaleziono: " + name
  }

  /** Different names give different log lines of one file. */
  lemma LogLineInjective(fileName: string, x: string, y: string)
    requires LogLine(fileName, x) == LogLine(fileName, y)
    ensures x == y
  {
    var prefix := "[" + fileName + "] Nie znaleziono: ";
    assert LogLine(fileName, x)[|prefix|..] == x;
    assert LogLine(fileName, y)[|prefix|..] == y;
  }

  /** The log lines of one file, in the order of its missing names. */
  function LogLines(fileName: string, missing: seq<string>): (r: seq<string>)
    ensures |r| == |missing|
    ensures forall i :: 0 <= i < |r| ==> r[i] == LogLine(fileName, missing[i])
  {
    if missing == [] then [] else [LogLine(fileName, missing[0])] + LogLines(fileName, missing[1..])
  }

  lemma LogLinesAppend(fileName: string, a: seq<string>, b: seq<string>)
    ensures LogLines(fileName, a + b) == LogLines(fileName, a) + LogLines(fileName, b)
  {
  }

  /** The inner loop of the resolution (app.py:111-112): each code of one
      name, followed by a line break, added to the report. */
  method WriteCodes(text: string, cz: seq<string>) returns (out: string)
    ensures out == text + Emit(cz)
  {
    out := text;
    var j := 0;
    while j < |cz|
      invariant 0 <= j <= |cz|
      invariant out == text + Emit(cz[..j])
    {
      assert cz[..j + 1] == cz[..j] + [cz[j]];
      EmitAppend(cz[..j], [cz[j]]);
      EmitOne(cz[j]);
      ghost var before := out;
      out := out + cz[j] + "\n";
      assert out == before + (cz[j] + "\n");
      j := j + 1;
    }
    assert cz[..j] == cz;
  }

  /** The resolution loop as the source writes it (app.py:106-114), building
      the report text and the log together. */
  method Resolve(catalog: Lookup, fileName: string, names: seq<string>) returns (text: string, logs: seq<string>)
    ensures text == Emit(Parts(catalog, names))
    ensures logs == LogLines(fileName, Missing(catalog, names))
  {
    text := "";
    logs := [];
    ghost var seen: seq<string> := [];
    var i := 0;
    while i < |names|
      invariant 0 <= i <= |names|
      invariant seen == names[..i]
      invariant text == Emit(Parts(catalog, seen))
      invariant logs == LogLines(fileName, Missing(catalog, seen))
    {
      var name := names[i];
      assert names[..i + 1] == seen + [name];
      if name in catalog && catalog[name] != [] {
        ResolveMapped(catalog, fileName, seen, name);
        text := WriteCodes(text, catalog[name]);
      } else if name !in Sentinels {
        ResolveReported(catalog, fileName, seen, name);
        logs := logs + [LogLine(fileName, name)];
      } else {
        ResolveSentinel(catalog, fileName, seen, name);
      }
      seen := seen + [name];
      i := i + 1;
    }
    assert names[..i] == names;
  }

  lemma ResolveMapped(catalog: Lookup, fileName: string, seen: seq<string>, name: string)
    requires !Unmapped(catalog, name)
    ensures Emit(Parts(catalog, seen + [name])) == Emit(Parts(catalog, seen)) + Emit(catalog[name])
    ensures LogLines(fileName, Missing(catalog, seen + [name])) == LogLines(fileName, Missing(catalog, seen))
  {
    ResolveStep(catalog, seen, name);
  }

  lemma ResolveReported(catalog: Lookup, fileName: string, seen: seq<string>, name: string)
    requires Reported(catalog, name)
    ensures Emit(Parts(catalog, seen + [name])) == Emit(Parts(catalog, seen))
    ensures LogLines(fileName, Missing(catalog, seen + [name])) ==
              LogLines(fileName, Missing(catalog, seen)) + [LogLine(fileName, name)]
  {
    ResolveStep(catalog, seen, name);
    LogLinesAppend(fileName, Missing(catalog, seen), [name]);
  }

  lemma ResolveSentinel(catalog: Lookup, fileName: string, seen: seq<string>, name: string)
    requires Unmapped(catalog, name) && name in Sentinels
    ensures Emit(Parts(catalog, seen + [name])) == Emit(Parts(catalog, seen))
    ensures LogLines(fileName, Missing(catalog, seen + [name])) == LogLines(fileName, Missing(catalog, seen))
  {
    ResolveStep(catalog, seen, name);
  }

  /** What one more name adds to the report and to the log. */
  lemma ResolveStep(catalog: Lookup, done: seq<string>, name: string)
    ensures Emit(Parts(catalog, done + [name])) ==
              Emit(Parts(catalog, done)) + (if Unmapped(catalog, name) then [] else Emit(catalog[name]))
    ensures Missing(catalog, done + [name]) ==
              Missing(catalog, done) + (if Reported(catalog, name) then [name] else [])
  {
    PartsAppend(catalog, done, [name]);
    MissingAppend(catalog, done, [name]);
    assert [name][1..] == [];
    assert Parts(catalog, [name]) == (if Unmapped(catalog, name) then [] else catalog[name]);
    EmitAppend(Parts(catalog, done), Parts(catalog, [name]));
  }

  /** A file's log holds the line for a name exactly when that name is missing. */
  lemma LogLinesMembers(fileName: string, missing: seq<string>)
    ensures forall x :: LogLine(fileName, x) in LogLines(fileName, missing) <==> x in missing
  {
    var r := LogLines(fileName, missing);
    forall x ensures LogLine(fileName, x) in r <==> x in missing {
      if LogLine(fileName, x) in r {
        var i :| 0 <= i < |r| && r[i] == LogLine(fileName, x);
        LogLineInjective(fileName, missing[i], x);
      }
      if x in missing {
        var i :| 0 <= i < |missing| && missing[i] == x;
        assert r[i] == LogLine(fileName, x);
      }
    }
  }

  lemma {:induction false} MissingAppend(catalog: Lookup, a: seq<string>, b: seq<string>)
    ensures Missing(catalog, a + b) == Missing(catalog, a) + Missing(catalog, b)
    decreases |a|
  {
    if a == [] {
      assert a + b == b;
    } else {
      assert (a + b)[0] == a[0];
      assert (a + b)[1..] == a[1..] + b;
      MissingAppend(catalog, a[1..], b);
    }
  }

  /** The placeholders are never logged, whatever the lookup table holds, even
      when it is empty; neither is any name that has parts. */
  lemma NeverReported(catalog: Lookup, names: seq<string>)
    ensures BlankSlot !in Missing(catalog, names) && PowerSupply !in Missing(catalog, names)
    ensures forall n :: n in catalog && catalog[n] != [] ==> n !in Missing(catalog, names)
    ensures Missing(map[], names) == [] <==> forall n :: n in names ==> n in Sentinels
  {
  }
}
