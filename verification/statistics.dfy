/**
 * `calcular_estadisticas`: the three counts shown next to the preview,
 * computed over the whole coerced result.
 */
module Statistics {

  import opened Tables
  import opened Coercion

  /** The three totals: accounts, rows with an incident, rows with an observation. */
  datatype Counts = Counts(totalCuentas: nat, totalIncidencias: nat, totalObservaciones: nat)

  /** The positions of the non-null cells of a column. */
  function NonNullIndices(col: seq<SqlValue>): set<nat>
  {
    set i: nat | i < |col| && !col[i].Null?
  }

  /** The distinct non-null values of a column. */
  function NonNullValues(col: seq<SqlValue>): set<SqlValue>
  {
    set v | v in col && !v.Null?
  }

  /** `Series.notna().sum()`: the non-null cells, counted by splitting off the last cell. */
  function CountNonNull(col: seq<SqlValue>): (n: nat)
    ensures n == |NonNullIndices(col)|
    ensures n <= |col|
  {
    if col == [] then 0
    else
      var init := col[..|col| - 1];
      var last := col[|col| - 1];
      assert NonNullIndices(col) == NonNullIndices(init) + (if last.Null? then {} else {|col| - 1}) by {
        forall i: nat | i < |init| ensures init[i] == col[i] { }
      }
      CountNonNull(init) + (if last.Null? then 0 else 1)
  }

  /** The set of non-null values, collected by splitting off the last cell; never larger than the non-null count. */
  function DistinctNonNull(col: seq<SqlValue>): (s: set<SqlValue>)
    ensures s == NonNullValues(col)
    ensures |s| <= CountNonNull(col)
  {
    if col == [] then {}
    else
      var init := col[..|col| - 1];
      var last := col[|col| - 1];
      assert col == init + [last];
      var seen := DistinctNonNull(init);
      if last.Null? then seen
      else
        assert |seen + {last}| <= |seen| + 1;
        seen + {last}
  }

  /** `Series.nunique()`: the number of distinct values, nulls not counted. */
  function NUnique(col: seq<SqlValue>): (n: nat)
    ensures n == |NonNullValues(col)|
    ensures n <= CountNonNull(col) <= |col|
  {
    |DistinctNonNull(col)|
  }

  function CuentaNroColumn<T>(rows: seq<Row<T>>): (col: seq<SqlValue>)
    ensures |col| == |rows| && forall i | 0 <= i < |rows| :: col[i] == rows[i].cuentaNro
  {
    seq(|rows|, i requires 0 <= i < |rows| => rows[i].cuentaNro)
  }

  function IncidenciaDscColumn<T>(rows: seq<Row<T>>): (col: seq<SqlValue>)
    ensures |col| == |rows| && forall i | 0 <= i < |rows| :: col[i] == rows[i].incidenciaDsc
  {
    seq(|rows|, i requires 0 <= i < |rows| => rows[i].incidenciaDsc)
  }

  function LectObservacionDscColumn<T>(rows: seq<Row<T>>): (col: seq<SqlValue>)
    ensures |col| == |rows| && forall i | 0 <= i < |rows| :: col[i] == rows[i].lectObservacionDsc
  {
    seq(|rows|, i requires 0 <= i < |rows| => rows[i].lectObservacionDsc)
  }

  /**
   * The three statistics: the number of distinct non-null account numbers,
   * and the number of rows whose incident, respectively observation,
   * description is non-null. Each is at most the number of rows.
   */
  function CalcularEstadisticas<T>(rows: seq<Row<T>>): (c: Counts)
    ensures c.totalCuentas == |set i | 0 <= i < |rows| && !rows[i].cuentaNro.Null? :: rows[i].cuentaNro|
    ensures c.totalIncidencias == |set i: nat | i < |rows| && !rows[i].incidenciaDsc.Null?|
    ensures c.totalObservaciones == |set i: nat | i < |rows| && !rows[i].lectObservacionDsc.Null?|
    ensures c.totalCuentas <= |rows| && c.totalIncidencias <= |rows| && c.totalObservaciones <= |rows|
  {
    var cuentas := CuentaNroColumn(rows);
    var incidencias := IncidenciaDscColumn(rows);
    var observaciones := LectObservacionDscColumn(rows);
    assert NonNullValues(cuentas) == set i | 0 <= i < |rows| && !rows[i].cuentaNro.Null? :: rows[i].cuentaNro by {
      forall v | v in NonNullValues(cuentas)
        ensures v in set i | 0 <= i < |rows| && !rows[i].cuentaNro.Null? :: rows[i].cuentaNro
      {
        var i :| 0 <= i < |cuentas| && cuentas[i] == v;
      }
    }
    assert NonNullIndices(incidencias) == set i: nat | i < |rows| && !rows[i].incidenciaDsc.Null?;
    assert NonNullIndices(observaciones) == set i: nat | i < |rows| && !rows[i].lectObservacionDsc.Null?;
    Counts(NUnique(cuentas), CountNonNull(incidencias), CountNonNull(observaciones))
  }

  /**
   * The statistics read no timestamp: rows that agree outside `FechaHora`
   * have the same statistics. So the coercion of unparseable timestamps to
   * null never changes a count.
   */
  lemma StatisticsIgnoreFechaHora<A, B>(xs: seq<Row<A>>, ys: seq<Row<B>>)
    requires |xs| == |ys|
    requires forall i | 0 <= i < |xs| :: SameExceptFechaHora(xs[i], ys[i])
    ensures CalcularEstadisticas(xs) == CalcularEstadisticas(ys)
  {
    assert CuentaNroColumn(xs) == CuentaNroColumn(ys);
    assert IncidenciaDscColumn(xs) == IncidenciaDscColumn(ys);
    assert LectObservacionDscColumn(xs) == LectObservacionDscColumn(ys);
  }
}
