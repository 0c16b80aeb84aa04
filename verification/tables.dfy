/**
 * The four SQLite tables read by the extraction query, and the shape of one
 * row of its result. SQLite columns are untyped, so every column that the
 * pipeline only carries along is an `SqlValue`.
 */
module Tables {

  /** A value stored in an SQLite cell. Floating-point values are not modelled. */
  datatype SqlValue = Null | Integer(i: int) | Text(t: string)

  /**
   * The comparison `a = b` of a join's ON clause. A comparison involving NULL
   * is unknown, and an ON clause treats unknown as "no match".
   */
  predicate Matches(a: SqlValue, b: SqlValue)
  {
    !a.Null? && !b.Null? && a == b
  }

  /** The columns of `LectClientes` that the query reads. */
  datatype Cliente = Cliente(
    tomaId: SqlValue,
    cuentaNro: SqlValue,
    nombreCliente: SqlValue,
    direccion: SqlValue,
    barrioId: SqlValue)

  /** The columns of `LectLectura` that the query reads; `fechaHora` holds epoch seconds. */
  datatype Lectura = Lectura(
    tomaId: SqlValue,
    fechaHora: SqlValue,
    lectura: SqlValue,
    consumo: SqlValue,
    idIncidencia: SqlValue,
    idObservacion: SqlValue)

  /**
   * A row of a description lookup table: `LectIncidencia(Id, IncidenciaDsc)`
   * or `LectObservacion(Id, LectObservacionDsc)`.
   */
  datatype Lookup = Lookup(id: SqlValue, dsc: SqlValue)

  /** The uploaded database file, reduced to the tables the query reads. */
  datatype Database = Database(
    clientes: seq<Cliente>,
    lecturas: seq<Lectura>,
    incidencias: seq<Lookup>,
    observaciones: seq<Lookup>)

  /**
   * One row of the query result, columns in the order of the select list.
   * `T` is the type of `FechaHora`: the raw cell before coercion, a nullable
   * timestamp after it.
   */
  datatype Row<T> = Row(
    tomaId: SqlValue,
    cuentaNro: SqlValue,
    nombreCliente: SqlValue,
    direccion: SqlValue,
    fechaHora: T,
    lectura: SqlValue,
    consumo: SqlValue,
    incidenciaDsc: SqlValue,
    lectObservacionDsc: SqlValue,
    barrioId: SqlValue)
}
