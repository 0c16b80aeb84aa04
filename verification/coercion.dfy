/**
 * The FechaHora column is converted from epoch seconds to timestamps, and
 * a cell that cannot be converted becomes null instead of raising an
 * error. The conversion of one cell is library code and is taken as a
 * parameter `parse`: `None` stands for the null timestamp.
 */
module Coercion {

  import opened Wrappers
  import opened Tables

  /** A pandas timestamp: nanoseconds since the Unix epoch. */
  datatype Timestamp = Timestamp(nanos: int)

  /** The rows after coercion: `FechaHora` is a nullable timestamp. */
  type Record = Row<Option<Timestamp>>

  /** `a` and `b` agree on every column except `FechaHora`. */
  predicate SameExceptFechaHora<A, B>(a: Row<A>, b: Row<B>)
  {
    && a.tomaId == b.tomaId
    && a.cuentaNro == b.cuentaNro
    && a.nombreCliente == b.nombreCliente
    && a.direccion == b.direccion
    && a.lectura == b.lectura
    && a.consumo == b.consumo
    && a.incidenciaDsc == b.incidenciaDsc
    && a.lectObservacionDsc == b.lectObservacionDsc
    && a.barrioId == b.barrioId
  }

  function CoerceRow(r: Row<SqlValue>, parse: SqlValue -> Option<Timestamp>): (c: Record)
    ensures SameExceptFechaHora(r, c)
  {
    Row(r.tomaId, r.cuentaNro, r.nombreCliente, r.direccion, parse(r.fechaHora),
        r.lectura, r.consumo, r.incidenciaDsc, r.lectObservacionDsc, r.barrioId)
  }

  /**
   * Column-wise coercion of `FechaHora`. No row is dropped, added or
   * reordered, no other column changes, and a cell that does not parse
   * becomes null instead of failing the whole transform.
   */
  function CoerceFechaHora(rows: seq<Row<SqlValue>>, parse: SqlValue -> Option<Timestamp>): (out: seq<Record>)
    ensures |out| == |rows|
    ensures forall i | 0 <= i < |rows| :: SameExceptFechaHora(rows[i], out[i])
    ensures forall i | 0 <= i < |rows| :: out[i].fechaHora == parse(rows[i].fechaHora)
  {
    seq(|rows|, i requires 0 <= i < |rows| => CoerceRow(rows[i], parse))
  }
}
