/**
 Properties of whole runs of the importer: table-name derivation, the
 fetch skip, fatal fetch failures, when extraction happens, replace
 semantics of loads, the FRE loop's warnings and writes, and cleanup.
 */
module ImporterProperties {
  import opened Wrappers
  import opened Strings
  import opened Tables
  import opened Importer

  // ---------------------------------------------------------------- table names

  /** An FRE file named prefix + stem + ".csv" is loaded into table `stem`,
      provided the stem has no dot and does not itself contain the prefix. */
  lemma TableNameOfStem(stem: string)
    requires '.' !in stem && !Occurs(stem, FrePrefix)
    ensures TableName(FrePrefix + stem + CsvSuffix) == stem
  {
    var base := FrePrefix + stem;
    assert '.' !in FrePrefix;
    assert '.' !in base;
    assert CsvSuffix[0] == '.';
    ReplaceSkipsFreePrefix(base, CsvSuffix, CsvSuffix, "");
    ReplaceLeadingMatch(CsvSuffix, "", "");
    assert CsvSuffix + "" == CsvSuffix;
    assert base + "" == base;
    assert RemoveAll(FrePrefix + stem + CsvSuffix, CsvSuffix) == base;
    ReplaceLeadingMatch(FrePrefix, stem, "");
    NoOccurrenceUnchanged(stem, FrePrefix, "");
  }

  /** The three wanted CSVs land in the tables the display layer reads. */
  lemma FreTableNames()
    ensures TableName(FreCsvFiles[0]) == "faixa_etaria_2024"
    ensures TableName(FreCsvFiles[1]) == "declaracao_raca_2024"
    ensures TableName(FreCsvFiles[2]) == "declaracao_genero_2024"
  {
    NamedStem(FreCsvFiles[0], "faixa_etaria_2024");
    NamedStem(FreCsvFiles[1], "declaracao_raca_2024");
    NamedStem(FreCsvFiles[2], "declaracao_genero_2024");
  }

  /** One instance of `TableNameOfStem` for a stem shorter than the prefix. */
  lemma NamedStem(file: string, stem: string)
    requires '.' !in stem && |stem| < |FrePrefix|
    requires file == FrePrefix + stem + CsvSuffix
    ensures TableName(file) == stem
  {
    ShorterHasNoOccurrence(stem, FrePrefix);
    TableNameOfStem(stem);
  }

  /** The four tables a run writes are pairwise distinct, so no load of a
      run overwrites another load of the same run. */
  lemma RunTablesDistinct()
    ensures forall i, j :: 0 <= i < j < |FreCsvFiles| ==> TableName(FreCsvFiles[i]) != TableName(FreCsvFiles[j])
    ensures forall i :: 0 <= i < |FreCsvFiles| ==> TableName(FreCsvFiles[i]) != CiaTable
  {
    var lens := [17, 20, 22];
    assert |CiaTable| == 18;
    forall i | 0 <= i < |FreCsvFiles|
      ensures |TableName(FreCsvFiles[i])| == lens[i]
    {
      FreTableNames();
    }
  }

  // ---------------------------------------------------------------- fetch phase

  /** `env` with the download of `url` answered by `alt` instead. */
  function WithAnswer(env: Env, url: string, alt: Option<Bytes>): (e: Env)
    ensures e.fetch(url) == alt
    ensures forall u :: u != url ==> e.fetch(u) == env.fetch(u)
    ensures e.openZip == env.openZip && e.parse == env.parse
  {
    env.(fetch := u => if u == url then alt else env.fetch(u))
  }

  /** The archive step only consults the network for the archive URL. */
  lemma FetchFreOnlyAsksArchiveUrl(env: Env, env': Env, w: World)
    requires env'.fetch(UrlFreZip) == env.fetch(UrlFreZip) && env'.openZip == env.openZip
    ensures FetchFre(env', w) == FetchFre(env, w)
  {
  }

  /** A registry CSV already staged is not downloaded: no answer the network
      could give for its URL changes the run. */
  lemma StagedRegistryNotFetched(env: Env, w: World, alt: Option<Bytes>)
    requires CiaFile in w.staging
    ensures Main(WithAnswer(env, UrlCia, alt), w) == Main(env, w)
  {
    var env' := WithAnswer(env, UrlCia, alt);
    assert FetchPhase(env', w) == FetchPhase(env, w) by {
      StagedNamesDistinct();
      assert FetchCia(env'.fetch, w) == Ok(w) == FetchCia(env.fetch, w);
      FetchFreOnlyAsksArchiveUrl(env, env', w);
    }
    SameFetchPhaseSameRun(env, env', w);
  }

  /** An archive already staged is not downloaded: no answer the network
      could give for its URL changes the run. */
  lemma StagedArchiveNotFetched(env: Env, w: World, alt: Option<Bytes>)
    requires FreZipFile in w.staging
    ensures Main(WithAnswer(env, UrlFreZip, alt), w) == Main(env, w)
  {
    var env' := WithAnswer(env, UrlFreZip, alt);
    assert FetchPhase(env', w) == FetchPhase(env, w) by {
      StagedNamesDistinct();
      assert FetchCia(env'.fetch, w) == FetchCia(env.fetch, w);
    }
    SameFetchPhaseSameRun(env, env', w);
  }

  /** After the fetch phase a run depends on the parser only. */
  lemma SameFetchPhaseSameRun(env: Env, env': Env, w: World)
    requires FetchPhase(env', w) == FetchPhase(env, w) && env'.parse == env.parse
    ensures Main(env', w) == Main(env, w)
  {
    var p := FetchPhase(env, w);
    if p.Ok? {
      var l := Load(env.parse, p.world, CiaFile, CiaTable);
      assert Load(env'.parse, p.world, CiaFile, CiaTable) == l;
      if l.Ok? {
        assert LoadFre(env'.parse, l.world, FreCsvFiles) == LoadFre(env.parse, l.world, FreCsvFiles);
      }
    }
  }

  /** A staged download keeps its contents through the fetch phase, whether
      the phase completes or aborts. */
  lemma StagedDownloadsUnchanged(env: Env, w: World)
    ensures var r := FetchPhase(env, w);
            && (CiaFile in w.staging ==> CiaFile in r.world.staging && r.world.staging[CiaFile] == w.staging[CiaFile])
            && (FreZipFile in w.staging ==> FreZipFile in r.world.staging && r.world.staging[FreZipFile] == w.staging[FreZipFile])
  {
    StagedNamesDistinct();
  }

  /** With the archive already staged nothing is extracted, even when the
      wanted CSVs are missing: only the registry CSV can appear. */
  lemma StagedArchiveSkipsExtraction(env: Env, w: World)
    requires FreZipFile in w.staging
    ensures SameOutside(w.staging, FetchPhase(env, w).world.staging, {CiaFile})
  {
    StagedNamesDistinct();
  }

  /** A freshly downloaded archive that opens yields exactly the wanted
      members it lists; wanted names it lacks are skipped without error. */
  lemma FreshArchiveExtractsListedMembers(env: Env, w: World)
    requires FreZipFile !in w.staging && FetchPhase(env, w).Ok?
    ensures env.fetch(UrlFreZip).Some? && env.openZip(env.fetch(UrlFreZip).value).Some?
    ensures var arc := env.openZip(env.fetch(UrlFreZip).value).value;
            var staged := FetchPhase(env, w).world.staging;
            forall n :: n in FreCsvFiles ==>
              && (n in staged <==> n in w.staging || n in arc.names)
              && (n in arc.names ==> staged[n] == arc.member(n))
  {
    StagedNamesDistinct();
    var w1 := FetchCia(env.fetch, w).world;
    var w2 := Fetch(env.fetch, w1, UrlFreZip, FreZipFile).world;
    assert forall n :: n in FreCsvFiles ==> (n in w1.staging <==> n in w.staging);
  }

  /** A failed registry download aborts the run at once: nothing is staged,
      written, logged or cleaned. */
  lemma RegistryFetchFailureAborts(env: Env, w: World)
    requires CiaFile !in w.staging && env.fetch(UrlCia).None?
    ensures Main(env, w) == Abort(FetchFailed(UrlCia), w)
  {
  }

  /** A failed archive download aborts the run before any table is written,
      before any extraction and without cleanup. */
  lemma ArchiveFetchFailureAborts(env: Env, w: World)
    requires FreZipFile !in w.staging && env.fetch(UrlFreZip).None?
    requires CiaFile in w.staging || env.fetch(UrlCia).Some?
    ensures var r := Main(env, w);
            && r == Abort(FetchFailed(UrlFreZip), r.world)
            && r.world.store == w.store && r.world.log == w.log
            && w.staging.Keys <= r.world.staging.Keys
            && SameOutside(w.staging, r.world.staging, {CiaFile})
  {
    StagedNamesDistinct();
  }

  // ---------------------------------------------------------------- loads

  /** Loading the same file into the same table twice leaves the store as one
      load does: replace semantics, no accumulation. */
  lemma LoadIdempotent(parse: Bytes -> Option<Table>, w: World, file: string, table: string)
    ensures var once := Load(parse, w, file, table).world;
            Load(parse, once, file, table).world.store == once.store
  {
    var once := Load(parse, w, file, table);
    if once.Ok? {
      var twice := Load(parse, once.world, file, table);
      assert twice.world.store == once.world.store[table := Prepared(parse, w.staging[file]).value];
    }
  }

  /** What a load writes does not depend on what the table held before. */
  lemma LoadIgnoresPriorContents(parse: Bytes -> Option<Table>, w: World, prior: map<string, Table>, file: string, table: string)
    requires Load(parse, w, file, table).Ok?
    ensures var other := Load(parse, w.(store := prior), file, table);
            && other.Ok?
            && other.world.store[table] == Load(parse, w, file, table).world.store[table]
  {
  }

  /** The FRE loop completes exactly when every staged file parses into a
      table without an `id` column. */
  lemma {:induction false} LoadFreCompletesIff(parse: Bytes -> Option<Table>, w: World, files: seq<string>)
    ensures LoadFre(parse, w, files).Ok? <==>
              forall f :: f in files && f in w.staging ==> Prepared(parse, w.staging[f]).Some?
    decreases |files|
  {
    if |files| > 0 {
      assert forall f :: f in files <==> f == files[0] || f in files[1..] by {
        assert files == [files[0]] + files[1..];
      }
      if files[0] in w.staging {
        var s := Load(parse, w, files[0], TableName(files[0]));
        if s.Ok? {
          LoadFreCompletesIff(parse, s.world, files[1..]);
        }
      } else {
        LoadFreCompletesIff(parse, w.(log := w.log + [Missing(files[0])]), files[1..]);
      }
    }
  }

  /** When the files map to distinct tables, a completed FRE loop leaves each
      staged file's keyed contents in its table. */
  lemma {:induction false} LoadFreWrites(parse: Bytes -> Option<Table>, w: World, files: seq<string>)
    requires forall i, j :: 0 <= i < j < |files| ==> TableName(files[i]) != TableName(files[j])
    ensures var r := LoadFre(parse, w, files);
            r.Ok? ==> forall i :: 0 <= i < |files| && files[i] in w.staging ==>
              && Prepared(parse, w.staging[files[i]]).Some?
              && TableName(files[i]) in r.world.store
              && r.world.store[TableName(files[i])] == Prepared(parse, w.staging[files[i]]).value
    decreases |files|
  {
    if |files| > 0 && LoadFre(parse, w, files).Ok? {
      var rest := files[1..];
      assert forall i, j :: 0 <= i < j < |rest| ==> TableName(rest[i]) != TableName(rest[j]) by {
        forall i, j | 0 <= i < j < |rest| ensures TableName(rest[i]) != TableName(rest[j]) {
          assert rest[i] == files[i + 1] && rest[j] == files[j + 1];
        }
      }
      var w' := if files[0] in w.staging then Load(parse, w, files[0], TableName(files[0])).world
                else w.(log := w.log + [Missing(files[0])]);
      assert LoadFre(parse, w, files) == LoadFre(parse, w', rest);
      LoadFreWrites(parse, w', rest);
      if files[0] in w.staging {
        var t0 := TableName(files[0]);
        LoadFreTablesOnly(parse, w', rest);
        assert t0 !in FreTables(w'.staging, rest) by {
          forall f | f in rest && f in w'.staging ensures TableName(f) != t0 {
            var j :| 0 <= j < |rest| && rest[j] == f;
            assert files[j + 1] == f;
          }
        }
      }
    }
  }

  // ---------------------------------------------------------------- whole runs

  /** A completed run removes exactly the five staged paths and keeps every
      other staging entry; an aborted run deletes nothing. */
  lemma MainCleanup(env: Env, w: World)
    ensures var r := Main(env, w);
            && (r.Ok? ==> r.world.staging == w.staging - StagedSet)
            && (r.Abort? ==> w.staging.Keys <= r.world.staging.Keys)
            && SameOutside(w.staging, r.world.staging, StagedSet)
  {
    var p := FetchPhase(env, w);
    if p.Ok? {
      var l := Load(env.parse, p.world, CiaFile, CiaTable);
      if l.Ok? {
        var f := LoadFre(env.parse, l.world, FreCsvFiles);
        if f.Ok? {
          assert f.world.staging == p.world.staging;
          CleanupAfterConfinedChanges(w.staging, p.world.staging);
        }
      }
    }
  }

  /** Cleanup after changes confined to the staged paths restores the
      original staging directory minus those paths. */
  lemma CleanupAfterConfinedChanges(m0: map<string, Bytes>, m1: map<string, Bytes>)
    requires SameOutside(m0, m1, StagedSet)
    ensures RemoveFiles(m1, StagedPaths) == m0 - StagedSet
  {
    var c := RemoveFiles(m1, StagedPaths);
    assert c.Keys == (m0 - StagedSet).Keys;
    forall k | k in c ensures c[k] == (m0 - StagedSet)[k] {
      assert k !in StagedSet;
    }
  }

  /** A run completes exactly when the fetch phase does and every CSV then
      staged, the registry and each FRE CSV present, parses into a table
      without an `id` column; any other parse failure aborts the whole run. */
  lemma MainCompletesIff(env: Env, w: World)
    ensures Main(env, w).Ok? <==>
              && FetchPhase(env, w).Ok?
              && var staged := FetchPhase(env, w).world.staging;
                 && Prepared(env.parse, staged[CiaFile]).Some?
                 && forall f :: f in FreCsvFiles && f in staged ==> Prepared(env.parse, staged[f]).Some?
  {
    var p := FetchPhase(env, w);
    if p.Ok? {
      var l := Load(env.parse, p.world, CiaFile, CiaTable);
      if l.Ok? {
        LoadFreCompletesIff(env.parse, l.world, FreCsvFiles);
      }
    }
  }

  /** A run, completed or aborted, writes no table other than the registry
      table and the tables of the FRE CSVs that were staged. */
  lemma MainTablesOnly(env: Env, w: World)
    ensures SameOutside(w.store, Main(env, w).world.store,
                              {CiaTable} + FreTables(FetchPhase(env, w).world.staging, FreCsvFiles))
  {
    var p := FetchPhase(env, w);
    if p.Ok? {
      var l := Load(env.parse, p.world, CiaFile, CiaTable);
      if l.Ok? {
        LoadFreTablesOnly(env.parse, l.world, FreCsvFiles);
      }
    }
  }

  /** A completed run logs the registry load, then one event per FRE file in
      list order: a replacement for each staged file, one warning for each
      missing one. */
  lemma MainLog(env: Env, w: World)
    ensures var r := Main(env, w);
            r.Ok? ==> r.world.log == w.log + [Replaced(CiaTable)] + FreEvents(FetchPhase(env, w).world.staging, FreCsvFiles)
  {
    var p := FetchPhase(env, w);
    if p.Ok? {
      var l := Load(env.parse, p.world, CiaFile, CiaTable);
      if l.Ok? {
        LoadFreLog(env.parse, l.world, FreCsvFiles);
      }
    }
  }

  /** After a completed run every table written holds the keyed contents of
      the file staged for it. */
  lemma MainStore(env: Env, w: World)
    ensures var r := Main(env, w);
            var staged := FetchPhase(env, w).world.staging;
            r.Ok? ==>
              && CiaFile in staged && Prepared(env.parse, staged[CiaFile]).Some?
              && CiaTable in r.world.store
              && r.world.store[CiaTable] == Prepared(env.parse, staged[CiaFile]).value
              && forall f :: f in FreCsvFiles && f in staged ==>
                   && Prepared(env.parse, staged[f]).Some?
                   && TableName(f) in r.world.store
                   && r.world.store[TableName(f)] == Prepared(env.parse, staged[f]).value
  {
    var p := FetchPhase(env, w);
    if p.Ok? {
      var l := Load(env.parse, p.world, CiaFile, CiaTable);
      if l.Ok? && Main(env, w).Ok? {
        RunTablesDistinct();
        LoadFreWrites(env.parse, l.world, FreCsvFiles);
        LoadFreTablesOnly(env.parse, l.world, FreCsvFiles);
        assert CiaTable !in FreTables(p.world.staging, FreCsvFiles);
        forall f | f in FreCsvFiles && f in p.world.staging
          ensures Prepared(env.parse, p.world.staging[f]).Some?
          ensures TableName(f) in Main(env, w).world.store
          ensures Main(env, w).world.store[TableName(f)] == Prepared(env.parse, p.world.staging[f]).value
        {
          var i :| 0 <= i < |FreCsvFiles| && FreCsvFiles[i] == f;
        }
      }
    }
  }

  /** An FRE CSV that is not staged when loading starts leaves its table, stale
      or absent, exactly as it was before the run. */
  lemma MissingCsvKeepsTable(env: Env, w: World, i: int)
    requires 0 <= i < |FreCsvFiles| && FreCsvFiles[i] !in FetchPhase(env, w).world.staging
    ensures var t, store := TableName(FreCsvFiles[i]), Main(env, w).world.store;
            && (t in store <==> t in w.store)
            && (t in w.store ==> store[t] == w.store[t])
  {
    var staged := FetchPhase(env, w).world.staging;
    var written := {CiaTable} + FreTables(staged, FreCsvFiles);
    var store := Main(env, w).world.store;
    assert SameOutside(w.store, store, written) by {
      MainTablesOnly(env, w);
    }
    UnstagedTableNotWritten(staged, i);
    TableKept(w.store, store, written, TableName(FreCsvFiles[i]));
  }

  /** The table of an unstaged FRE CSV is none of the tables a run writes. */
  lemma UnstagedTableNotWritten(staged: map<string, Bytes>, i: int)
    requires 0 <= i < |FreCsvFiles| && FreCsvFiles[i] !in staged
    ensures TableName(FreCsvFiles[i]) !in {CiaTable} + FreTables(staged, FreCsvFiles)
  {
    RunTablesDistinct();
    forall f | f in FreCsvFiles && f in staged ensures TableName(f) != TableName(FreCsvFiles[i]) {
      var j :| 0 <= j < |FreCsvFiles| && FreCsvFiles[j] == f;
      assert j != i;
    }
  }

  /** A table outside the written set is kept. */
  lemma TableKept(s: map<string, Table>, s': map<string, Table>, tables: set<string>, t: string)
    requires SameOutside(s, s', tables) && t !in tables
    ensures (t in s' <==> t in s) && (t in s ==> s'[t] == s[t])
  {
  }

  /** After a completed run the registry table holds the keyed contents of the
      registry CSV: the file already staged, or else the body just downloaded. */
  lemma RegistryTableSource(env: Env, w: World)
    ensures var r := Main(env, w);
            r.Ok? ==>
              && (CiaFile in w.staging || env.fetch(UrlCia).Some?)
              && var src := if CiaFile in w.staging then w.staging[CiaFile] else env.fetch(UrlCia).value;
                 && Prepared(env.parse, src).Some?
                 && CiaTable in r.world.store
                 && r.world.store[CiaTable] == Prepared(env.parse, src).value
  {
    if Main(env, w).Ok? {
      StagedNamesDistinct();
      var c := FetchCia(env.fetch, w);
      var staged := FetchPhase(env, w).world.staging;
      assert c.Ok? && CiaFile in c.world.staging;
      assert staged[CiaFile] == c.world.staging[CiaFile] by {
        assert CiaFile !in {FreZipFile} + FreSet;
        assert SameOutside(c.world.staging, FetchFre(env, c.world).world.staging, {FreZipFile} + FreSet);
      }
      MainStore(env, w);
    }
  }

  /** A fresh archive that lists every wanted CSV except the `k`-th, with no
      FRE CSV staged beforehand: the run loads the registry and the other two
      tables and warns exactly once, for the missing CSV, in list order. */
  lemma OneMissingMemberOneWarning(env: Env, w: World, k: int)
    requires 0 <= k < |FreCsvFiles|
    requires FreZipFile !in w.staging
    requires forall f :: f in FreCsvFiles ==> f !in w.staging
    requires env.fetch(UrlFreZip).Some? && env.openZip(env.fetch(UrlFreZip).value).Some?
    requires var names := env.openZip(env.fetch(UrlFreZip).value).value.names;
             forall j :: 0 <= j < |FreCsvFiles| ==> (FreCsvFiles[j] in names <==> j != k)
    requires CiaFile in w.staging || env.fetch(UrlCia).Some?
    requires forall b :: Prepared(env.parse, b).Some?
    ensures Main(env, w).Ok?
    ensures Main(env, w).world.log ==
              w.log + [Replaced(CiaTable)]
                    + seq(|FreCsvFiles|, j requires 0 <= j < |FreCsvFiles| =>
                            if j == k then Missing(FreCsvFiles[j]) else Replaced(TableName(FreCsvFiles[j])))
  {
    assert Main(env, w).Ok? by {
      StagedNamesDistinct();
      var p := FetchPhase(env, w);
      assert p.Ok?;
      var l := Load(env.parse, p.world, CiaFile, CiaTable);
      assert l.Ok?;
      LoadFreCompletesIff(env.parse, l.world, FreCsvFiles);
    }
    var staged := FetchPhase(env, w).world.staging;
    assert forall j :: 0 <= j < |FreCsvFiles| ==> (FreCsvFiles[j] in staged <==> j != k) by {
      FreshArchiveExtractsListedMembers(env, w);
    }
    FreEventsAllButOne(staged, k);
    assert Main(env, w).world.log == w.log + [Replaced(CiaTable)] + FreEvents(staged, FreCsvFiles) by {
      MainLog(env, w);
    }
  }

  /** The FRE events when every wanted CSV but the `k`-th is staged. */
  lemma FreEventsAllButOne(staged: map<string, Bytes>, k: int)
    requires 0 <= k < |FreCsvFiles|
    requires forall j :: 0 <= j < |FreCsvFiles| ==> (FreCsvFiles[j] in staged <==> j != k)
    ensures FreEvents(staged, FreCsvFiles) ==
              seq(|FreCsvFiles|, j requires 0 <= j < |FreCsvFiles| =>
                    if j == k then Missing(FreCsvFiles[j]) else Replaced(TableName(FreCsvFiles[j])))
  {
  }
}
