# CVM open-company data importer — Dafny model

This project models the import script `importar.py` of a small dashboard
project. The script downloads two public data sets from the CVM, the
Brazilian securities commission:

- the registry of publicly held companies, a CSV file;
- the 2024 FRE archive (*Formulário de Referência*), a ZIP file.

It extracts three employee-statistics CSVs from the archive. It then loads
the registry CSV and each extracted CSV into a SQLite table, prepending a
1-based `id` column, and finally deletes the two downloads and the three extracted CSVs. A display
layer (`app.py`) reads the four tables back.

The model is functional. A run is `Importer.Main(env, w)`, where:

- **`World`** is the state the script sees. It has three parts:
  - `staging`: the data directory, mapping file names to bytes;
  - `store`: the SQLite database, mapping table names to tables;
  - `log`: the two kinds of message the script prints that carry
    information. `Replaced(table)` is printed after a table is written and
    `Missing(file)` is the warning for an absent FRE CSV.
- **`Env`** gathers the three external collaborators as oracles:
  - `fetch`: an HTTP GET followed by the status check;
  - `openZip`: opening an archive, which yields its name list and member
    contents;
  - `parse`: the CSV reader with its fixed dialect.
- **`Step`** is the outcome of a step. `Ok(world)` means the step finished.
  `Abort(error, world)` means an exception escaped `main`; the world is
  left as it was at that point, with no rollback and no cleanup.

The constants of `importar.py` keep their values:

- the two URLs;
- `cad_cia_aberta.csv` and `fre_cia_aberta_2024.zip`;
- the three FRE member names of `FRE_CSV_FILES`, built in the model as `FrePrefix + stem + CsvSuffix` with values identical to the listed literals;
- the table `companhias_abertas`.

Table names for FRE files are derived with a full model of Python's
`str.replace`, including its behaviour on an empty pattern
(`Strings.ReplaceAll`).

The modules are:

- `Wrappers`: `Option`.
- `Strings`: `str.replace` and its lemmas.
- `Tables`: cells, tables and the `id` key column.
- `Importer`: the steps and `main`.
- `ImporterProperties`: whole-run properties.

## Model

| member | source | states |
|---|---|---|
| Strings.ReplaceAll | importar.py:89 | Python's `str.replace`; its own contract is only a length bound (a pattern replaced by nothing longer never lengthens the string), and its meaning is stated by the `Strings` lemmas below |
| Strings.NoOccurrenceUnchanged | importar.py:89 | replacing a non-empty pattern that does not occur returns the string unchanged |
| Strings.RemovalIsIdentityIff | importar.py:89 | removing a non-empty pattern leaves the string unchanged if and only if the pattern does not occur |
| Strings.RemovalShrinks | importar.py:89 | removing a pattern that occurs strictly shortens the string |
| Strings.ReplaceSkipsFreePrefix | importar.py:89 | a prefix not containing the pattern's first character is copied through unchanged, and replacement continues on the rest |
| Strings.ReplaceLeadingMatch | importar.py:89 | a leading occurrence is rewritten and the scan resumes right after it (leftmost, non-overlapping) |
| Tables.AddIdColumn | importar.py:61 | keying succeeds if and only if there is no `id` column yet; the result has header `id` + the source header, the same row count, and row i is key i+1 followed by source row i |
| Tables.WithIds | importar.py:61 | every row gets its position-based key prepended; nothing else changes |
| Tables.StripKeysAfterWithIds | importar.py:61 | dropping the key column gives back exactly the source rows (inverse of keying) |
| Tables.KeysAreOneToN | importar.py:61 | the key column of a loaded table is exactly 1, 2, ..., N |
| Tables.KeysStrictlyIncrease | importar.py:61 | keys strictly increase down the table, so they are unique |
| Importer.Fetch | importar.py:34-41 | succeeds if and only if the request succeeds; a failed request aborts with FetchFailed(url) before anything is written; on success the destination holds the response body and no other file, table or log entry changes |
| Importer.ExtractMembers | importar.py:49-52 | after extraction, a file is staged if and only if it was staged before or it is wanted and listed in the archive; listed wanted files hold the member's bytes, others keep their old contents; wanted names missing from the archive are skipped without error |
| Importer.ExtractConfined | importar.py:49-52 | extraction changes no staging entry outside the wanted names |
| Importer.ExtractZip | importar.py:45-53 | succeeds if and only if the archive is staged and opens; a failure leaves the world untouched and reports a missing file or a bad archive; on success the result is the member extraction |
| Importer.Load | importar.py:57-65 | succeeds if and only if the file is staged, parses, and has no `id` column; each failure aborts with its own error and leaves the world untouched; on success the table holds `id` + source columns with row i keyed i+1, no other table changes, one Replaced event is logged, staging is untouched |
| Importer.TableName | importar.py:89 | the table name of an FRE file; its own contract is only a length bound, and the derived names are stated by `ImporterProperties.TableNameOfStem` and `ImporterProperties.FreTableNames` |
| Importer.LoadFre | importar.py:86-92 | the FRE loop never changes the staged files |
| Importer.LoadFreLog | importar.py:86-92 | a completed FRE loop logs one event per file in list order: a replacement for a staged file, a warning for an absent one |
| Importer.LoadFreTablesOnly | importar.py:86-92 | the FRE loop, whether it completes or aborts, writes only the tables of the files that are staged; an absent file's table, stale or missing, is left as it was |
| Importer.RemoveFiles | importar.py:96-105 | deletion removes exactly the listed paths that exist and keeps every other entry's contents; absent paths are skipped |
| Importer.Cleanup | importar.py:94-105 | after cleanup none of the five downloaded or extracted paths is staged; every other file, the database and the log are unchanged |
| Importer.StagedNamesDistinct | importar.py:10-31 | the two downloads have distinct paths and URLs, and neither coincides with an FRE member name |
| Importer.FetchCia | importar.py:71-74 | an already staged registry CSV is kept as is; otherwise the step succeeds if and only if the download succeeds, then holds the downloaded body, and a failed download aborts with FetchFailed and the world unchanged; only that path can change |
| Importer.FetchFre | importar.py:76-80 | an already staged archive is kept as is, with no download and no extraction; otherwise a failed download aborts with FetchFailed and the world unchanged, an archive that does not open aborts with BadArchive after the download is written, and an archive that opens gives exactly the extraction of the wanted members into the world holding the download; only the archive and the FRE member paths can change |
| Importer.FetchPhase | importar.py:71-80 | the fetch phase touches neither the database nor the log, only adds or overwrites the five staged paths, and on success both downloads are staged |
| Importer.Main | importar.py:69-107 | a completed run leaves none of the five staged paths in the data directory |
| ImporterProperties.TableNameOfStem | importar.py:89 | a file named prefix + stem + `.csv` loads into table `stem` when the stem has no dot and does not contain the prefix |
| ImporterProperties.FreTableNames | importar.py:27-31 | the three FRE CSVs load into `faixa_etaria_2024`, `declaracao_raca_2024` and `declaracao_genero_2024`, the names the display layer reads |
| ImporterProperties.RunTablesDistinct | importar.py:83-90 | the four tables a run writes are pairwise distinct, so no load in a run overwrites another |
| ImporterProperties.FetchFreOnlyAsksArchiveUrl | importar.py:76-78 | the archive step consults the network only for the archive URL |
| ImporterProperties.StagedRegistryNotFetched | importar.py:71-74 | with the registry CSV already staged, no answer the network gives for its URL changes the run |
| ImporterProperties.StagedArchiveNotFetched | importar.py:76-80 | with the archive already staged, no answer the network gives for its URL changes the run |
| ImporterProperties.StagedDownloadsUnchanged | importar.py:71-80 | a staged download keeps its contents through the fetch phase |
| ImporterProperties.StagedArchiveSkipsExtraction | importar.py:76-80 | with the archive already staged, nothing is extracted, even if the wanted CSVs are missing; only the registry CSV can appear |
| ImporterProperties.FreshArchiveExtractsListedMembers | importar.py:76-78 | after a fresh archive download, each wanted CSV is staged if and only if it was staged before or the archive lists it; listed ones hold the archive's bytes |
| ImporterProperties.RegistryFetchFailureAborts | importar.py:71-72 | a failed registry download aborts the run with the world unchanged |
| ImporterProperties.ArchiveFetchFailureAborts | importar.py:76-77 | a failed archive download aborts the run before any table is written, any extraction or cleanup; only the registry CSV may have been added |
| ImporterProperties.LoadIdempotent | importar.py:63 | loading the same file into the same table twice leaves the database as one load does (replace, not append) |
| ImporterProperties.LoadIgnoresPriorContents | importar.py:63 | what a load writes does not depend on what the database held before |
| ImporterProperties.LoadFreCompletesIff | importar.py:86-92 | the FRE loop completes if and only if every staged FRE file parses into a table without an `id` column |
| ImporterProperties.LoadFreWrites | importar.py:86-92 | with distinct table names, a completed FRE loop leaves each staged file's keyed contents in its table |
| ImporterProperties.MainCompletesIff | importar.py:69-92 | a run completes if and only if the fetch phase completes and the registry CSV and every FRE CSV then staged parse into tables without an `id` column; a parse failure of any of them aborts the whole run |
| ImporterProperties.MainCleanup | importar.py:94-105 | a completed run removes exactly the five staged paths and keeps every other file; an aborted run deletes nothing |
| ImporterProperties.MainTablesOnly | importar.py:69-92 | a run, whether it completes or aborts, writes no table other than the registry table and the tables of the FRE CSVs staged after the fetch phase |
| ImporterProperties.MissingCsvKeepsTable | importar.py:86-92 | an FRE CSV that is not staged when loading starts leaves its table, stale or absent, exactly as it was before the run |
| ImporterProperties.RegistryTableSource | importar.py:71-83 | after a completed run the registry table holds the keyed contents of the registry CSV that was already staged, or else of the body just downloaded |
| ImporterProperties.MainLog | importar.py:83-92 | a completed run logs the registry load, then one event per FRE file in list order, with exactly one warning per missing file |
| ImporterProperties.MainStore | importar.py:83-90 | after a completed run each written table holds the keyed contents of the file staged for it |
| ImporterProperties.OneMissingMemberOneWarning | importar.py:76-92 | with no FRE CSV staged beforehand, a registry that is staged or downloads, and a parser that always succeeds, a freshly downloaded archive that lists every wanted CSV except one (any of the three) makes the run complete, with the registry load, the two other table loads and exactly one warning, for the missing CSV, in list order |

## Left out

- The display layer `app.py` is not part of this model. Only the table names it reads are checked against the importer's.
- The data directory path and creating it are not modelled. The directory is a hard-coded Windows path; the model's staging map is keyed by file name within it.
- The database file `database.db` lives in the same data directory, but it is modelled as `store`, not as a staging entry. Every load rewrites that file, so "staging" means the downloaded and extracted files only, and `database.db` is assumed never to be one of the staged names.
- HTTP transport, status codes and the response object are not modelled. `fetch` returns either the body or a failure.
- ZIP decoding is not modelled. `openZip` returns a name list and member contents, or a failure for a corrupt archive.
- CSV parsing is not modelled: the `;` separator, Latin-1 decoding and column type inference. `parse` returns a table or a failure, and cells are abstracted to integers, text and null.
- SQLite connection handling and the `to_sql` type mapping are not modelled, and nor are write failures. The database is a map from table name to table, and a write replaces the table.
- Console output is modelled only as the two log events above. Progress messages carry no information.
- File deletion errors are not modelled: a path is deleted if and only if it exists.
- Writes to the data directory (download bodies, extracted members) are modelled as atomic and infallible. In the code a failed write raises and may leave a truncated file at its path, which the next run's skip of already present files then keeps and uses.
- Per-file error handling: the code catches nothing, so a parse failure of any CSV aborts the whole run before cleanup. The model follows the code.
- Concurrency with other processes on the data directory is not modelled.
- Importer.LoadFre: its own contract states only that staging is unchanged. Its log, writes and completion condition are stated in `Importer.LoadFreLog`, `Importer.LoadFreTablesOnly`, `ImporterProperties.LoadFreWrites` and `ImporterProperties.LoadFreCompletesIff`.
- Importer.Main: its own contract states only the cleanup guarantee. Its completion condition, log, writes, frame and cleanup are stated in `ImporterProperties.MainCompletesIff`, `MainLog`, `MainStore`, `MainTablesOnly` and `MainCleanup`.
