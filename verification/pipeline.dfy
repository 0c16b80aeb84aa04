/**
 * The two request handlers' data work, without HTTP, files or SQLite:
 * `index` (POST) extracts, coerces, computes the statistics and previews;
 * `export` extracts and coerces again and writes every row.
 */
module Pipeline {

  import opened Wrappers
  import opened Tables
  import opened Join
  import opened Coercion
  import opened Statistics
  import opened Columns
  import opened Projection
  import opened ExcelName

  /** What the upload handler renders: preview rows, the export name to carry forward, the statistics. */
  datatype IndexPage = IndexPage(data: seq<ExportRow>, excelName: string, counts: Counts)

  /** What the export handler writes and sends: file name, header row and data rows. */
  datatype Download = Download(fileName: string, columns: seq<string>, rows: seq<ExportRow>)

  /** The extraction query followed by the timestamp coercion; both handlers run exactly this. */
  function Transformed(db: Database, parse: SqlValue -> Option<Timestamp>): (rows: seq<Record>)
    ensures |rows| == |Extract(db)|
  {
    CoerceFechaHora(Extract(db), parse)
  }

  /** The successful POST of the upload form. */
  function Index(db: Database, parse: SqlValue -> Option<Timestamp>, excelField: Option<string>): (page: IndexPage)
    ensures |page.data| == if |Extract(db)| < PreviewLimit then |Extract(db)| else PreviewLimit
    ensures HasXlsxExtension(page.excelName)
    ensures page.counts.totalCuentas <= |Extract(db)|
    ensures page.counts.totalIncidencias <= |Extract(db)|
    ensures page.counts.totalObservaciones <= |Extract(db)|
    ensures page.counts == CalcularEstadisticas(CoerceFechaHora(Extract(db), parse))
    ensures page.excelName == NormaliseExcelName(excelField)
  {
    var df := Transformed(db, parse);
    IndexPage(Head(ProjectRows(df), PreviewLimit), NormaliseExcelName(excelField), CalcularEstadisticas(df))
  }

  /** The successful POST of the export form. */
  function Export(db: Database, parse: SqlValue -> Option<Timestamp>, excelField: Option<string>): (d: Download)
    ensures |d.rows| == |Extract(db)|
    ensures forall i | 0 <= i < |d.rows| ::
      ExportCells(d.rows[i]) == DropColumns(QueryColumns, RecordCells(CoerceFechaHora(Extract(db), parse)[i]), DroppedColumns)
    ensures d.columns == Labels(ExportColumns)
    ensures d.fileName != ""
    ensures d.fileName == OrDefault(excelField)
  {
    DroppedHeaderIsExportColumns();
    var df := Transformed(db, parse);
    Download(OrDefault(excelField), Labels(DropColumns(QueryColumns, QueryColumns, DroppedColumns)), ProjectRows(df))
  }

  /**
   * The preview is the first `min(50, n)` rows of the export of the same
   * database, whatever names the two forms carry.
   */
  lemma PreviewIsPrefixOfExport(db: Database, parse: SqlValue -> Option<Timestamp>, f1: Option<string>, f2: Option<string>)
    ensures Index(db, parse, f1).data == Export(db, parse, f2).rows[..|Index(db, parse, f1).data|]
  {
  }

  /**
   * A timestamp that cannot be parsed costs nothing but its own cell: with
   * any parser, even one that rejects every value, the statistics and the
   * number of exported rows are the same.
   */
  lemma UnparseableTimestampsKeepRows(db: Database, p1: SqlValue -> Option<Timestamp>, p2: SqlValue -> Option<Timestamp>, f: Option<string>)
    ensures Index(db, p1, f).counts == Index(db, p2, f).counts
    ensures |Export(db, p1, f).rows| == |Export(db, p2, f).rows|
  {
    var xs := Transformed(db, p1);
    var ys := Transformed(db, p2);
    StatisticsIgnoreFechaHora(xs, ys);
  }
}
