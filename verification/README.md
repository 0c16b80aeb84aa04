# Meter-reading extraction pipeline, modelled in Dafny

This project models the data pipeline of a small Flask application that
reads meter readings out of an uploaded SQLite database. The pipeline has five steps:

1. **Extraction query** (`QUERY_BASE`). `LectClientes` is inner-joined to
   `LectLectura` on `TomaId`. The result is then left-outer-joined to
   `LectIncidencia` on `IdIncidencia = Id` and to `LectObservacion` on
   `IdObservacion = Id`.
2. **Timestamp coercion.** `FechaHora` holds epoch seconds. It becomes a
   timestamp, and a value that does not parse becomes null.
3. **Statistics** (`calcular_estadisticas`). Three counts: distinct non-null
   account numbers, rows with an incident description, and rows with an
   observation description.
4. **Preview and export.** Both drop `TomaId` and `BarrioId`. The preview
   shows the first 50 rows. The export writes all rows.
5. **Export file name.** A missing or empty name becomes
   `lecturas_exportadas.xlsx`. The upload handler appends `.xlsx` unless the
   name already ends with it in any letter case.

Tables are sequences of immutable records (`Tables`). Each step is a pure
function in its own module: `Join`, `Coercion`, `Statistics`, `Columns` and `Projection`,
`ExcelName`. `Pipeline` composes them into what the two handlers compute.
SQL join semantics follow ISO/IEC 9075-2, subclause 7.7 `<joined table>`. A
comparison with NULL never matches (`Tables.Matches`).

SQL does not fix the row order of a join. The model uses nested-loop order:
clients outermost, then readings, then lookup rows in table order. Both
handlers run the same `Pipeline.Transformed`, so the preview is a prefix of
the export in whatever order the query produces.

The two handlers treat the file name differently. The upload handler
normalises it (app.py:43-45). The export handler only applies the default
(app.py:73) and does not append `.xlsx`. `ExcelName.OrDefault` models the
export side. `ExcelName.ExportKeepsNormalisedName` shows that a name the
upload handler produced passes through the export handler unchanged.

## Model

| member | source | states |
|---|---|---|
| `Join.InnerJoin` | app.py:19-20 | A pair is in the inner join iff its client and its reading come from the two tables and their `TomaId`s are equal and non-NULL. So a reading whose `TomaId` matches no client is in no pair. |
| `Join.InnerJoinMultiplicity` | app.py:19-20 | A client/reading pair with equal non-NULL `TomaId`s occurs in the inner join exactly as many times as the client occurs in its table times the reading occurs in its table. A pair whose `TomaId`s do not match never occurs. So without duplicate rows each matching pair occurs exactly once. |
| `Join.Hits` | app.py:21-22 | No lookup row matches a key iff no lookup `Id` equals it. |
| `Join.HitsSound` | app.py:21-22 | Every lookup row matched for a key is a table row whose `Id` equals the key. |
| `Join.HitsComplete` | app.py:21-22 | Every table row whose `Id` equals the key is matched. |
| `Join.LeftJoin` | app.py:21-22 | A left outer join is never shorter than its input. |
| `Join.HitsMultiplicity` | app.py:21-22 | A lookup row is matched once per copy of it in the table when its `Id` equals the key, and never otherwise. |
| `Join.LeftJoinAppend` | app.py:21-22 | The left outer join of two concatenated inputs is the concatenation of their left outer joins. |
| `Join.LeftJoinBlock` | app.py:21-22 | Input row `i` contributes exactly one block of output, between the blocks of the rows before and after it. The block has one row per matching lookup row, copies included, or a single NULL-extended row when nothing matches. |
| `Join.LeftJoinDescriptions` | app.py:21-22 | Each output description is NULL when no lookup `Id` matches the row's foreign key. Otherwise it is the description of a matching lookup row. |
| `Join.LeftJoinRowsFromInput` | app.py:21-22 | Every output row of a left outer join extends some input row. |
| `Join.LeftJoinKeepsEveryRow` | app.py:21-22 | A left outer join drops no input row, matched or not. |
| `Join.LeftJoinKeepsEveryHit` | app.py:21-22 | Every lookup row whose `Id` matches an input row's key produces an output row with that row and that description. |
| `Join.UniqueIdsAtMostOneHit` | app.py:21-22 | When lookup `Id`s are unique, a key matches at most one lookup row. |
| `Join.LeftJoinUniqueIdsKeepsRows` | app.py:21-22 | When lookup `Id`s are unique, the left outer join returns exactly the input rows, one each, in order. |
| `Join.Select` | app.py:15-18 | A result row takes `TomaId`, `CuentaNro`, `NombreCliente`, `Direccion` and `BarrioId` from the client. It takes `FechaHora`, `Lectura` and `Consumo` from the reading. Its two descriptions come from the incident join and the observation join. |
| `Join.Extract` | app.py:14-23 | The query returns at least as many rows as the inner join of clients and readings. |
| `Join.ExtractedRowSource` | app.py:14-23 | Each result row comes from a client and a reading with equal non-NULL `TomaId`. It carries their columns. Its two descriptions are what the left outer joins assign to the reading's `IdIncidencia` and `IdObservacion`. |
| `Join.ExtractRowsComeFromMatchingPairs` | app.py:14-23 | Every row of the query result has such a source pair. |
| `Join.ExtractKeepsEveryMatch` | app.py:19-22 | Every client and reading with equal non-NULL `TomaId` appear together in some result row. The left joins never remove it. |
| `Join.ExtractRowCount` | app.py:19-22 | When both lookup tables have unique `Id`s, the query returns exactly as many rows as the inner join. |
| `Coercion.CoerceFechaHora` | app.py:52 | Coercion keeps the row count and every column except `FechaHora`. `FechaHora` becomes the parser's answer, so a value that does not parse becomes null and its row stays. |
| `Statistics.CountNonNull` | app.py:27-28 | `notna().sum()` equals the number of positions holding a non-null cell. It is at most the column length. |
| `Statistics.DistinctNonNull` | app.py:26 | The values collected while scanning are exactly the column's non-null values. There are no more of them than non-null cells. |
| `Statistics.NUnique` | app.py:26 | `nunique()` is the number of distinct non-null values. It is at most the non-null count, which is at most the length. |
| `Statistics.CalcularEstadisticas` | app.py:25-29 | `total_cuentas` is the size of the set of non-null `CuentaNro` values. `total_incidencias` and `total_observaciones` count the rows whose `IncidenciaDsc` or `LectObservacionDsc` is non-null. Each count is at most the number of rows. |
| `Statistics.StatisticsIgnoreFechaHora` | app.py:52-53 | Rows that agree outside `FechaHora` have the same statistics. |
| `Projection.Project` | app.py:54 | An exported row's cells are exactly the cells the by-name drop of `TomaId` and `BarrioId` keeps, in query order. |
| `Projection.ProjectRows` | app.py:81 | The drop keeps the row count, and every row is projected that way. |
| `Columns.DropColumns` | app.py:54 | Dropping columns by name returns as many cells as there are positions whose column is not dropped. |
| `Columns.DropColumnsKeepsCell` | app.py:54 | The cell of every kept column is in the result, at the position equal to the number of kept columns before it. With the length above, the result is exactly the kept cells, each once, in their original order. |
| `Columns.DropColumnsAppend` | app.py:54 | Dropping from a header and row split in two gives the drop of the first part followed by the drop of the second. |
| `Columns.DropIdColumns` | app.py:54 | On a full query row, dropping `TomaId` and `BarrioId` leaves the second to ninth cells. |
| `Columns.DroppedHeaderIsExportColumns` | app.py:15-18 | The header after the drop is the select list without `TomaId` and `BarrioId`. The other eight columns stay in query order. |
| `Projection.Head` | app.py:54 | `head(n)` returns `min(n, len)` rows and is a prefix of its input. |
| `ExcelName.OrDefault` | app.py:73 | The form fallback returns a non-empty value. It is the given value when that is non-empty, otherwise `lecturas_exportadas.xlsx`. |
| `ExcelName.AppendedExtension` | app.py:44-45 | Appending `.xlsx` makes the lower-cased name end with `.xlsx`. |
| `ExcelName.NormaliseExcelName` | app.py:43-45 | The normalised name always ends with `.xlsx`, ignoring case. A missing or empty field gives `lecturas_exportadas.xlsx`. A given name is kept unchanged iff it already ends with `.xlsx` in some case. Otherwise it gains `.xlsx`. |
| `ExcelName.NormaliseIdempotent` | app.py:43-45 | Normalising a normalised name returns it unchanged. |
| `ExcelName.ExportKeepsNormalisedName` | app.py:73 | The export handler keeps a name the upload handler normalised, so that name still ends with `.xlsx`. |
| `Pipeline.Transformed` | app.py:49-52 | Query plus coercion returns one row per query row. |
| `Pipeline.Index` | app.py:43-63 | The preview has `min(50, n)` rows for `n` query rows. The statistics are `calcular_estadisticas` of all `n` coerced rows, not of the preview, and each is at most `n`. The carried export name is the normalised form value, so it ends with `.xlsx`. |
| `Pipeline.Export` | app.py:73-83 | The export has one row per query row. Row `i` is the coerced query row `i` with `TomaId` and `BarrioId` dropped by name. The header is the eight user-visible columns. The file name is the form value, or `lecturas_exportadas.xlsx` when the field is missing or empty. |
| `Pipeline.PreviewIsPrefixOfExport` | app.py:77-81 | The preview rows are a prefix of the rows the export writes for the same database, whatever names the forms carry. |
| `Scenario.ScenarioStatistics` | app.py:25-29 | Take the five result rows of three clients and five readings, two with an incident and none with an observation. Their statistics are 3 accounts, 2 incidents and 0 observations. |
| `Pipeline.UnparseableTimestampsKeepRows` | app.py:52-53 | Which timestamps fail to parse changes neither the statistics nor the number of exported rows. |

## Left out

- HTTP handling is not modelled. This covers routing, form access, `flash`, `redirect`, `render_template`, `send_file` and the server start (app.py:31-37, 57-68, 83-91).
- The file upload and the `uploads` directory (app.py:11-12, 39-41) are not modelled. They are filesystem I/O.
- `secure_filename` (app.py:39) is not modelled. It is a library call outside this model.
- The SQLite connection and query execution (app.py:48-50, 76-78) are replaced by the relational functions in `Join` over an abstract `Database`. A missing table or a corrupt file is not modelled.
- The broad `except Exception` handlers (app.py:64-66, 84-86) are not modelled. They only turn failures into a message and a redirect.
- `df.to_excel` (app.py:82) is not modelled. `Pipeline.Export` stops at the file name, header and rows it would write.
- `pd.to_datetime` is a parameter `parse: SqlValue -> Option<Timestamp>`. Its epoch-to-calendar arithmetic is floating-point library code.
- SQLite REAL values and type affinity are not modelled. `SqlValue` has NULL, integers and text only. Join keys compare by value equality.
- `ExcelName.LowerChar` lowers only ASCII letters. Python's `str.lower` also lowers other letters, but no non-ASCII character lowers to `.`, `x`, `l` or `s`. The `.xlsx` suffix test is therefore the same.
- Statistics.CalcularEstadisticas: pandas reads an integer column that holds a NULL as 64-bit floating point (app.py:49). Distinct integers above 2^53 can then round to the same value, so `nunique()` may count them as one, and the export writes them rounded. The model compares exact integers.
- Join row order is fixed to the nested-loop order. SQL leaves it unspecified.
- Join.InnerJoin: the contract states which client/reading pairs occur, in both directions. How often each pair occurs is stated separately by `Join.InnerJoinMultiplicity`.
- Pipeline.Export: models only a successful export. The handler passes the name to `to_excel` without adding `.xlsx` (app.py:73, 82). A name without a spreadsheet extension, such as `report`, makes pandas fail to choose a writer, and the handler then only flashes the error and redirects (app.py:84-86). This relies on library behaviour outside this model.
- Scenario.ScenarioStatistics: starts from the five result rows, not from the three source tables. `Join.ExtractRowsComeFromMatchingPairs` and `Join.ExtractRowCount` cover the join in general.
- Login, sessions and credentials are not modelled. The source has none.
