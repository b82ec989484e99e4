/**
 The import pipeline of `importar.py` over an abstract world.

 The staging directory is a map from file name (inside the data directory)
 to contents, the relational store is a map from table name to table, and
 the two kinds of console message that matter (a table saved, a CSV not
 found) are kept in an event log. The network, the ZIP decoder and the
 CSV parser are oracles gathered in `Env`. Every step returns a `Step`:
 either the new world, or the exception that aborts `main` together with
 the world as it stood when the exception was raised.
 */
module Importer {
  import opened Wrappers
  import opened Strings
  import opened Tables

  type Bytes = seq<bv8>

  // ---------------------------------------------------------------- constants

  const UrlCia: string := "https://dados.cvm.gov.br/dados/CIA_ABERTA/CAD/DADOS/cad_cia_aberta.csv"
  const UrlFreZip: string := "https://dados.cvm.gov.br/dados/CIA_ABERTA/DOC/FRE/DADOS/fre_cia_aberta_2024.zip"

  /** `CSV_FILES["companhias_abertas"]` and `CSV_FILES["fre_zip"]`, relative to the data directory. */
  const CiaFile: string := "cad_cia_aberta.csv"
  const FreZipFile: string := "fre_cia_aberta_2024.zip"

  /** Table the registry CSV is loaded into. */
  const CiaTable: string := "companhias_abertas"

  /** The prefix and extension shared by the wanted archive members. */
  const FrePrefix: string := "fre_cia_aberta_empregado_local_"
  const CsvSuffix: string := ".csv"

  /** `FRE_CSV_FILES` of `importar.py`: the archive members wanted, in
      processing order. Each name is built as `FrePrefix + stem + CsvSuffix`;
      the values are identical to the three literals of that list. */
  const FreCsvFiles: seq<string> := [
    FrePrefix + "faixa_etaria_2024" + CsvSuffix,
    FrePrefix + "declaracao_raca_2024" + CsvSuffix,
    FrePrefix + "declaracao_genero_2024" + CsvSuffix
  ]

  /** Every path cleanup deletes, in deletion order: the two downloads, then the FRE CSVs. */
  const StagedPaths: seq<string> := [CiaFile, FreZipFile] + FreCsvFiles

  /** The wanted archive members, and every staged path, as sets. */
  const FreSet: set<string> := set n | n in FreCsvFiles
  const StagedSet: set<string> := set p | p in StagedPaths

  // ---------------------------------------------------------------- state

  /** What aborts `main`: the exceptions the code lets escape. */
  datatype Error =
    | FetchFailed(url: string)       // requests error or raise_for_status
    | BadArchive(path: string)       // zipfile.BadZipFile
    | FileNotFound(path: string)     // opening a staged file that is absent
    | ParseFailed(path: string)      // pandas read_csv error
    | DuplicateId(path: string)      // df.insert of an "id" column that already exists

  /** Console messages kept by the model. */
  datatype Event =
    | Replaced(table: string)        // a table was written with replace semantics
    | Missing(file: string)          // warning: an FRE CSV was not found in staging

  datatype World = World(staging: map<string, Bytes>, store: map<string, Table>, log: seq<Event>)

  /** An opened ZIP archive: its member names and an opaque content lookup. */
  datatype Archive = Archive(names: seq<string>, member: string -> Bytes)

  /** The external collaborators: `requests.get` followed by `raise_for_status`,
      `zipfile.ZipFile`, and `pandas.read_csv` with the fixed dialect. */
  datatype Env = Env(
    fetch: string -> Option<Bytes>,
    openZip: Bytes -> Option<Archive>,
    parse: Bytes -> Option<Table>)

  /** Outcome of a step; `Abort` carries the world left behind by the exception. */
  datatype Step = Ok(world: World) | Abort(error: Error, world: World) {
    predicate IsFailure() { Abort? }
    function PropagateFailure(): Step requires Abort? { this }
    function Extract(): World requires Ok? { world }
  }

  // ---------------------------------------------------------------- helpers

  /** The entries of two maps agree outside `keys`: the same keys are present
      and they map to the same values. Used for staging and for the store. */
  ghost predicate SameOutside<V>(m: map<string, V>, m': map<string, V>, keys: set<string>) {
    (forall k :: k !in keys ==> (k in m <==> k in m'))
    && (forall k :: k !in keys && k in m ==> m'[k] == m[k])
  }

  /** Changes confined to `a` followed by changes confined to `b` are confined to both. */
  lemma SameOutsideTrans<V>(m1: map<string, V>, m2: map<string, V>, m3: map<string, V>, a: set<string>, b: set<string>)
    requires SameOutside(m1, m2, a) && SameOutside(m2, m3, b)
    ensures SameOutside(m1, m3, a + b)
  {
  }

  /** The keyed table a load of `bytes` writes, when parsing and keying succeed. */
  function Prepared(parse: Bytes -> Option<Table>, bytes: Bytes): Option<Table> {
    match parse(bytes)
    case None => None
    case Some(t) => AddIdColumn(t)
  }

  // ---------------------------------------------------------------- steps

  /** `baixar_dados`: download `url` and write the body to `dest`. A failed request
      raises before anything is written. */
  function Fetch(fetch: string -> Option<Bytes>, w: World, url: string, dest: string): (r: Step)
    ensures r.Ok? <==> fetch(url).Some?
    ensures r.Abort? ==> r == Abort(FetchFailed(url), w)
    ensures r.Ok? ==> dest in r.world.staging && r.world.staging[dest] == fetch(url).value
    ensures SameOutside(w.staging, r.world.staging, {dest})
    ensures r.world.store == w.store && r.world.log == w.log
  {
    match fetch(url)
    case None => Abort(FetchFailed(url), w)
    case Some(body) => Ok(w.(staging := w.staging[dest := body]))
  }

  /** The loop of `extrair_arquivos_zip`: each wanted name the archive lists is
      extracted into staging; the others are skipped silently. */
  function ExtractMembers(arc: Archive, w: World, wanted: seq<string>): (r: World)
    ensures forall p :: p in r.staging <==> p in w.staging || (p in wanted && p in arc.names)
    ensures forall p :: p in r.staging ==>
              r.staging[p] == (if p in wanted && p in arc.names then arc.member(p) else w.staging[p])
    ensures r.store == w.store && r.log == w.log
    decreases |wanted|
  {
    if |wanted| == 0 then w
    else
      var name := wanted[0];
      var w' := if name in arc.names then w.(staging := w.staging[name := arc.member(name)]) else w;
      ExtractMembers(arc, w', wanted[1..])
  }

  /** Extraction touches only staging entries named in `wanted`. */
  lemma ExtractConfined(arc: Archive, w: World, wanted: seq<string>)
    ensures SameOutside(w.staging, ExtractMembers(arc, w, wanted).staging, set n | n in wanted)
  {
  }

  /** `extrair_arquivos_zip`: open the staged archive, then extract the wanted members. */
  function ExtractZip(openZip: Bytes -> Option<Archive>, w: World, zipPath: string, wanted: seq<string>): (r: Step)
    ensures r.Ok? <==> zipPath in w.staging && openZip(w.staging[zipPath]).Some?
    ensures r.Abort? ==> r.world == w
    ensures r.Abort? ==> r.error == (if zipPath in w.staging then BadArchive(zipPath) else FileNotFound(zipPath))
    ensures r.Ok? ==> r.world == ExtractMembers(openZip(w.staging[zipPath]).value, w, wanted)
  {
    if zipPath !in w.staging then Abort(FileNotFound(zipPath), w)
    else match openZip(w.staging[zipPath])
      case None => Abort(BadArchive(zipPath), w)
      case Some(arc) => Ok(ExtractMembers(arc, w, wanted))
  }

  /** `processar_csv_para_sqlite`: parse the staged CSV, prepend the 1-based `id`
      column and replace table `table` with the result. */
  function Load(parse: Bytes -> Option<Table>, w: World, file: string, table: string): (r: Step)
    ensures r.Ok? <==> file in w.staging && Prepared(parse, w.staging[file]).Some?
    ensures r.Abort? ==> r.world == w
    ensures r.Abort? && file !in w.staging ==> r.error == FileNotFound(file)
    ensures r.Abort? && file in w.staging && parse(w.staging[file]).None? ==> r.error == ParseFailed(file)
    ensures r.Abort? && file in w.staging && parse(w.staging[file]).Some? ==>
              IdColumn in parse(w.staging[file]).value.columns && r.error == DuplicateId(file)
    ensures r.Ok? ==>
              var src := parse(w.staging[file]).value;
              && table in r.world.store
              && r.world.store[table].columns == [IdColumn] + src.columns
              && |r.world.store[table].rows| == |src.rows|
              && (forall i :: 0 <= i < |src.rows| ==>
                    r.world.store[table].rows[i] == [Int(i + 1)] + src.rows[i])
    ensures r.Ok? ==> SameOutside(w.store, r.world.store, {table})
    ensures r.Ok? ==> r.world.log == w.log + [Replaced(table)]
    ensures r.world.staging == w.staging
  {
    if file !in w.staging then Abort(FileNotFound(file), w)
    else match parse(w.staging[file])
      case None => Abort(ParseFailed(file), w)
      case Some(src) =>
        match AddIdColumn(src)
        case None => Abort(DuplicateId(file), w)
        case Some(keyed) =>
          Ok(w.(store := w.store[table := keyed], log := w.log + [Replaced(table)]))
  }

  /** The table an FRE file is loaded into: every ".csv" removed from the file
      name, then every occurrence of the shared prefix removed. */
  function TableName(csvFile: string): (r: string)
    ensures |r| <= |csvFile|
  {
    RemoveAll(RemoveAll(csvFile, CsvSuffix), FrePrefix)
  }

  /** The event one FRE file contributes to the log when loading goes through. */
  function FreEvent(staging: map<string, Bytes>, file: string): Event {
    if file in staging then Replaced(TableName(file)) else Missing(file)
  }

  /** The events of a completed FRE loop, one per file, in list order. */
  function FreEvents(staging: map<string, Bytes>, files: seq<string>): (es: seq<Event>)
    ensures |es| == |files|
  {
    seq(|files|, i requires 0 <= i < |files| => FreEvent(staging, files[i]))
  }

  /** The tables an FRE loop over `files` may write: those of the files that
      are staged. An absent file's table is left alone. */
  function FreTables(staging: map<string, Bytes>, files: seq<string>): set<string> {
    set f | f in files && f in staging :: TableName(f)
  }

  lemma FreEventsCons(staging: map<string, Bytes>, files: seq<string>)
    requires |files| > 0
    ensures FreEvents(staging, files) == [FreEvent(staging, files[0])] + FreEvents(staging, files[1..])
    ensures FreTables(staging, files) ==
              (if files[0] in staging then {TableName(files[0])} else {}) + FreTables(staging, files[1..])
  {
    assert forall f :: f in files <==> f == files[0] || f in files[1..] by {
      assert files == [files[0]] + files[1..];
    }
  }

  /** The loop over `FRE_CSV_FILES`: load each staged file into its derived table,
      warn once for each absent one; a failing load aborts the loop. */
  function LoadFre(parse: Bytes -> Option<Table>, w: World, files: seq<string>): (r: Step)
    ensures r.world.staging == w.staging
    decreases |files|
  {
    if |files| == 0 then Ok(w)
    else if files[0] in w.staging then
      var w' :- Load(parse, w, files[0], TableName(files[0]));
      LoadFre(parse, w', files[1..])
    else
      LoadFre(parse, w.(log := w.log + [Missing(files[0])]), files[1..])
  }

  /** A completed FRE loop logs one event per file, in list order: a table
      replacement for a staged file, a warning for an absent one. */
  lemma {:induction false} LoadFreLog(parse: Bytes -> Option<Table>, w: World, files: seq<string>)
    ensures var r := LoadFre(parse, w, files);
            r.Ok? ==> r.world.log == w.log + FreEvents(w.staging, files)
    decreases |files|
  {
    if |files| > 0 {
      FreEventsCons(w.staging, files);
      var e, rest := FreEvent(w.staging, files[0]), FreEvents(w.staging, files[1..]);
      var w' := if files[0] in w.staging then Load(parse, w, files[0], TableName(files[0])).world
                else w.(log := w.log + [Missing(files[0])]);
      if LoadFre(parse, w, files).Ok? {
        assert w'.log == w.log + [e] && w'.staging == w.staging;
        assert LoadFre(parse, w, files) == LoadFre(parse, w', files[1..]);
        LoadFreLog(parse, w', files[1..]);
        assert w.log + [e] + rest == w.log + ([e] + rest);
      }
    }
  }

  /** The FRE loop writes no table other than those derived from its staged
      files, whether it completes or aborts: a missing file's table, stale or
      absent, stays as it was. */
  lemma {:induction false} LoadFreTablesOnly(parse: Bytes -> Option<Table>, w: World, files: seq<string>)
    ensures SameOutside(w.store, LoadFre(parse, w, files).world.store, FreTables(w.staging, files))
    decreases |files|
  {
    if |files| > 0 {
      FreEventsCons(w.staging, files);
      if files[0] in w.staging {
        var s := Load(parse, w, files[0], TableName(files[0]));
        if s.Ok? {
          LoadFreTablesOnly(parse, s.world, files[1..]);
        }
      } else {
        LoadFreTablesOnly(parse, w.(log := w.log + [Missing(files[0])]), files[1..]);
      }
    }
  }

  /** The deletion loops at the end of `main`: delete each path that exists;
      absent paths are skipped. */
  function RemoveFiles(staging: map<string, Bytes>, paths: seq<string>): (r: map<string, Bytes>)
    ensures r.Keys == staging.Keys - (set p | p in paths)
    ensures forall p :: p in r ==> r[p] == staging[p]
    decreases |paths|
  {
    if |paths| == 0 then staging
    else
      var rest := if paths[0] in staging then staging - {paths[0]} else staging;
      RemoveFiles(rest, paths[1..])
  }

  /** The cleanup phase of `main`. */
  function Cleanup(w: World): (r: World)
    ensures forall p :: p in StagedPaths ==> p !in r.staging
    ensures SameOutside(w.staging, r.staging, StagedSet)
    ensures r.store == w.store && r.log == w.log
  {
    w.(staging := RemoveFiles(w.staging, StagedPaths))
  }

  /** Facts about the constant names that the phases rely on. */
  lemma StagedNamesDistinct()
    ensures CiaFile != FreZipFile
    ensures CiaFile !in FreCsvFiles && FreZipFile !in FreCsvFiles
    ensures UrlCia != UrlFreZip
    ensures StagedSet == {CiaFile, FreZipFile} + FreSet
  {
  }

  /** The first fetch step of `main`: download the registry CSV unless it is
      already staged. */
  function FetchCia(fetch: string -> Option<Bytes>, w: World): (r: Step)
    ensures CiaFile in w.staging ==> r == Ok(w)
    ensures CiaFile !in w.staging ==> (r.Ok? <==> fetch(UrlCia).Some?)
    ensures CiaFile !in w.staging && r.Abort? ==> r == Abort(FetchFailed(UrlCia), w)
    ensures CiaFile !in w.staging && r.Ok? ==>
              CiaFile in r.world.staging && r.world.staging[CiaFile] == fetch(UrlCia).value
    ensures r.Ok? ==> CiaFile in r.world.staging
    ensures SameOutside(w.staging, r.world.staging, {CiaFile})
    ensures w.staging.Keys <= r.world.staging.Keys
    ensures r.world.store == w.store && r.world.log == w.log
  {
    if CiaFile !in w.staging then Fetch(fetch, w, UrlCia, CiaFile) else Ok(w)
  }

  /** The second fetch step of `main`: download the archive unless it is
      already staged, and extract the wanted CSVs only right after such a
      download. */
  function FetchFre(env: Env, w: World): (r: Step)
    ensures FreZipFile in w.staging ==> r == Ok(w)
    ensures FreZipFile !in w.staging && env.fetch(UrlFreZip).None? ==> r == Abort(FetchFailed(UrlFreZip), w)
    ensures FreZipFile !in w.staging && env.fetch(UrlFreZip).Some? ==>
              var body := env.fetch(UrlFreZip).value;
              var downloaded := w.(staging := w.staging[FreZipFile := body]);
              && (r.Ok? <==> env.openZip(body).Some?)
              && (r.Abort? ==> r == Abort(BadArchive(FreZipFile), downloaded))
              && (r.Ok? ==> r.world == ExtractMembers(env.openZip(body).value, downloaded, FreCsvFiles))
    ensures r.Ok? ==> FreZipFile in r.world.staging
    ensures SameOutside(w.staging, r.world.staging, {FreZipFile} + FreSet)
    ensures w.staging.Keys <= r.world.staging.Keys
    ensures r.world.store == w.store && r.world.log == w.log
  {
    if FreZipFile !in w.staging then
      var w2 :- Fetch(env.fetch, w, UrlFreZip, FreZipFile);
      var r := ExtractZip(env.openZip, w2, FreZipFile, FreCsvFiles);
      assert SameOutside(w.staging, r.world.staging, {FreZipFile} + FreSet) by {
        if r.Ok? {
          ExtractConfined(env.openZip(w2.staging[FreZipFile]).value, w2, FreCsvFiles);
          SameOutsideTrans(w.staging, w2.staging, r.world.staging, {FreZipFile}, FreSet);
        }
      }
      r
    else Ok(w)
  }

  /** The fetch phase of `main`: fetch each download whose destination is absent; extract the
      wanted CSVs only when the archive was downloaded in this run. */
  function FetchPhase(env: Env, w: World): (r: Step)
    ensures r.world.store == w.store && r.world.log == w.log
    ensures SameOutside(w.staging, r.world.staging, StagedSet)
    ensures w.staging.Keys <= r.world.staging.Keys
    ensures r.Ok? ==> CiaFile in r.world.staging && FreZipFile in r.world.staging
  {
    StagedNamesDistinct();
    var w1 :- FetchCia(env.fetch, w);
    var r := FetchFre(env, w1);
    assert SameOutside(w.staging, r.world.staging, StagedSet) by {
      SameOutsideTrans(w.staging, w1.staging, r.world.staging, {CiaFile}, {FreZipFile} + FreSet);
    }
    r
  }

  /** `main`: fetch, load the registry CSV, load the FRE CSVs, clean up. An
      exception in any step aborts the run before cleanup. */
  function Main(env: Env, w: World): (r: Step)
    ensures r.Ok? ==> forall p :: p in StagedPaths ==> p !in r.world.staging
  {
    var w1 :- FetchPhase(env, w);
    var w2 :- Load(env.parse, w1, CiaFile, CiaTable);
    var w3 :- LoadFre(env.parse, w2, FreCsvFiles);
    Ok(Cleanup(w3))
  }
}
