/**
 * A worked instance of the statistics: the five rows that three clients,
 * five readings (two of them with an incident) and no observations give,
 * yield 3 accounts, 2 incidents and 0 observations.
 */
module Scenario {

  import opened Wrappers
  import opened Tables
  import opened Coercion
  import opened Statistics

  /** A coerced result row with the given `TomaId`, `CuentaNro` and incident description, every other column null. */
  function ResultRow(toma: int, cuenta: int, incidencia: SqlValue): Record
  {
    Row(Integer(toma), Integer(cuenta), Null, Null, None, Null, Null, incidencia, Null, Null)
  }

  const Rows: seq<Record> := [
    ResultRow(1, 100, Text("medidor roto")),
    ResultRow(1, 100, Null),
    ResultRow(2, 200, Text("sin acceso")),
    ResultRow(3, 300, Null),
    ResultRow(3, 300, Null)]

  /** The three account numbers are distinct, so the rows hold three of them. */
  lemma ScenarioAccounts()
    ensures (set i | 0 <= i < |Rows| && !Rows[i].cuentaNro.Null? :: Rows[i].cuentaNro)
         == {Integer(100), Integer(200), Integer(300)}
  {
    assert Rows[0].cuentaNro == Integer(100);
    assert Rows[2].cuentaNro == Integer(200);
    assert Rows[3].cuentaNro == Integer(300);
  }

  /** Only the first and third rows carry an incident, and no row an observation. */
  lemma ScenarioDescriptions()
    ensures (set i: nat | i < |Rows| && !Rows[i].incidenciaDsc.Null?) == {0, 2}
    ensures (set i: nat | i < |Rows| && !Rows[i].lectObservacionDsc.Null?) == {}
  {
  }

  /** The statistics of the scenario are 3 accounts, 2 incidents and 0 observations. */
  lemma ScenarioStatistics()
    ensures CalcularEstadisticas(Rows) == Counts(3, 2, 0)
  {
    ScenarioAccounts();
    ScenarioDescriptions();
    assert |{Integer(100), Integer(200), Integer(300)}| == 3;
    assert |{0, 2}| == 2;
  }
}
