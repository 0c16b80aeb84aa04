/**
 * Removing the two identifier columns by name, and keeping the first fifty
 * rows: the columns the user sees, and the rows the preview shows.
 */
module Projection {

  import opened Wrappers
  import opened Tables
  import opened Coercion
  import opened Columns

  /** The number of rows the preview shows. */
  const PreviewLimit: nat := 50

  /** A row of the preview table and of the exported sheet. */
  datatype ExportRow = ExportRow(
    cuentaNro: SqlValue,
    nombreCliente: SqlValue,
    direccion: SqlValue,
    fechaHora: Option<Timestamp>,
    lectura: SqlValue,
    consumo: SqlValue,
    incidenciaDsc: SqlValue,
    lectObservacionDsc: SqlValue)

  /** A cell of a data frame, whatever its column's type. */
  datatype Cell = Value(v: SqlValue) | Time(t: Option<Timestamp>)

  /** The cells of a coerced row, one per entry of `QueryColumns`. */
  function RecordCells(r: Record): (cells: seq<Cell>)
    ensures |cells| == |QueryColumns|
  {
    [Value(r.tomaId), Value(r.cuentaNro), Value(r.nombreCliente), Value(r.direccion),
     Time(r.fechaHora), Value(r.lectura), Value(r.consumo), Value(r.incidenciaDsc),
     Value(r.lectObservacionDsc), Value(r.barrioId)]
  }

  /** The cells of an exported row, one per entry of `ExportColumns`. */
  function ExportCells(e: ExportRow): (cells: seq<Cell>)
    ensures |cells| == |ExportColumns|
  {
    [Value(e.cuentaNro), Value(e.nombreCliente), Value(e.direccion), Time(e.fechaHora),
     Value(e.lectura), Value(e.consumo), Value(e.incidenciaDsc), Value(e.lectObservacionDsc)]
  }

  /**
   * One coerced row without its `TomaId` and `BarrioId`: its cells are
   * exactly those the by-name drop keeps, in query order.
   */
  function Project(r: Record): (e: ExportRow)
    ensures ExportCells(e) == DropColumns(QueryColumns, RecordCells(r), DroppedColumns)
  {
    DropIdColumns(RecordCells(r));
    ExportRow(r.cuentaNro, r.nombreCliente, r.direccion, r.fechaHora,
              r.lectura, r.consumo, r.incidenciaDsc, r.lectObservacionDsc)
  }

  /** The drop applied to every row; the row count is unchanged. */
  function ProjectRows(rows: seq<Record>): (out: seq<ExportRow>)
    ensures |out| == |rows|
    ensures forall i | 0 <= i < |rows| ::
      ExportCells(out[i]) == DropColumns(QueryColumns, RecordCells(rows[i]), DroppedColumns)
  {
    seq(|rows|, i requires 0 <= i < |rows| => Project(rows[i]))
  }

  /** `DataFrame.head(n)`: the first `n` rows, or all of them when there are fewer. */
  function Head<T>(rows: seq<T>, n: nat): (out: seq<T>)
    ensures |out| == if |rows| < n then |rows| else n
    ensures out == rows[..|out|]
  {
    if |rows| <= n then rows else rows[..n]
  }
}
