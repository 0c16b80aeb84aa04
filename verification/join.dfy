/**
 * The fixed extraction query: the clients table inner-joined to the
 * readings table on the client's TomaId, then left-outer-joined to the
 * incident lookup table and to the observation lookup table on the
 * reading's two foreign keys, with the inner and left outer join semantics of ISO/IEC 9075-2,
 * subclause 7.7 <joined table>. SQL leaves the order of the result rows
 * unspecified; the model fixes the nested-loop order (clients outer,
 * readings inner, lookup rows in table order).
 */
module Join {

  import opened Tables

  /** A row of the inner join: a client and one of its readings. */
  datatype Pair = Pair(client: Cliente, reading: Lectura)

  /** A row of a left outer join: the left row and the looked-up description (NULL when nothing matched). */
  datatype Attached<R> = Attached(row: R, dsc: SqlValue)

  /** The pairs one client contributes to the inner join, in reading order. */
  function ReadingsOf(c: Cliente, ls: seq<Lectura>): (r: seq<Pair>)
    ensures forall p | p in r :: p.client == c && p.reading in ls && Matches(c.tomaId, p.reading.tomaId)
    ensures forall l | l in ls && Matches(c.tomaId, l.tomaId) :: Pair(c, l) in r
  {
    if ls == [] then []
    else (if Matches(c.tomaId, ls[0].tomaId) then [Pair(c, ls[0])] else []) + ReadingsOf(c, ls[1..])
  }

  /** The inner join of clients and readings on equal TomaId: exactly the matching pairs. */
  function InnerJoin(cs: seq<Cliente>, ls: seq<Lectura>): (r: seq<Pair>)
    ensures forall p | p in r :: p.client in cs && p.reading in ls && Matches(p.client.tomaId, p.reading.tomaId)
    ensures forall c, l | c in cs && l in ls && Matches(c.tomaId, l.tomaId) :: Pair(c, l) in r
  {
    if cs == [] then [] else ReadingsOf(cs[0], ls) + InnerJoin(cs[1..], ls)
  }

  /** No row of the lookup table has an `Id` equal to `key`. */
  predicate NoHit(key: SqlValue, lookup: seq<Lookup>)
  {
    forall m | m in lookup :: !Matches(key, m.id)
  }

  /**
   * What a left outer join puts in the description column for a left row
   * whose foreign key is `key`: NULL when no lookup row matches, otherwise
   * the description of a matching lookup row.
   */
  predicate DescribedBy(dsc: SqlValue, key: SqlValue, lookup: seq<Lookup>)
  {
    if NoHit(key, lookup) then dsc.Null?
    else exists m | m in lookup :: Matches(key, m.id) && dsc == m.dsc
  }

  /** The lookup rows whose `Id` matches `key`, in table order. */
  function Hits(key: SqlValue, lookup: seq<Lookup>): (h: seq<Lookup>)
    ensures |h| <= |lookup|
    ensures h == [] <==> NoHit(key, lookup)
  {
    if lookup == [] then []
    else (if Matches(key, lookup[0].id) then [lookup[0]] else []) + Hits(key, lookup[1..])
  }

  /** Every hit is a lookup row whose `Id` matches the key. */
  lemma {:induction false} HitsSound(key: SqlValue, lookup: seq<Lookup>, k: nat)
    requires k < |Hits(key, lookup)|
    ensures Hits(key, lookup)[k] in lookup && Matches(key, Hits(key, lookup)[k].id)
  {
    var first := if Matches(key, lookup[0].id) then [lookup[0]] else [];
    var rest := Hits(key, lookup[1..]);
    assert Hits(key, lookup) == first + rest;
    if k >= |first| {
      HitsSound(key, lookup[1..], k - |first|);
      assert (first + rest)[k] == rest[k - |first|];
    }
  }

  /** Every lookup row whose `Id` matches the key is a hit. */
  lemma {:induction false} HitsComplete(key: SqlValue, lookup: seq<Lookup>, m: Lookup)
    requires m in lookup && Matches(key, m.id)
    ensures m in Hits(key, lookup)
  {
    if m != lookup[0] {
      HitsComplete(key, lookup[1..], m);
    }
  }

  /**
   * A lookup row is a hit for the key as many times as it occurs in the
   * table when its `Id` matches, and never otherwise: a duplicated matching
   * row is matched once per copy.
   */
  lemma {:induction false} HitsMultiplicity(key: SqlValue, lookup: seq<Lookup>, m: Lookup)
    ensures multiset(Hits(key, lookup))[m] == if Matches(key, m.id) then multiset(lookup)[m] else 0
  {
    if lookup != [] {
      HitsMultiplicity(key, lookup[1..], m);
      assert lookup == [lookup[0]] + lookup[1..];
      var first := if Matches(key, lookup[0].id) then [lookup[0]] else [];
      assert Hits(key, lookup) == first + Hits(key, lookup[1..]);
    }
  }

  /** The output rows of one left row: one per hit, or a single NULL-extended row. */
  function Attach<R>(r: R, hits: seq<Lookup>): (out: seq<Attached<R>>)
    ensures |out| == if hits == [] then 1 else |hits|
    ensures forall j | 0 <= j < |out| :: out[j].row == r
    ensures forall j | 0 <= j < |out| :: out[j].dsc == if hits == [] then Null else hits[j].dsc
  {
    if hits == [] then [Attached(r, Null)]
    else seq(|hits|, j requires 0 <= j < |hits| => Attached(r, hits[j].dsc))
  }

  /**
   * `rows LEFT JOIN lookup ON key(row) = lookup.Id`: for each left row in
   * order, one output row per matching lookup row, or a single row with a
   * NULL description when nothing matches. The output is never shorter
   * than the input.
   */
  function LeftJoin<R>(rows: seq<R>, key: R -> SqlValue, lookup: seq<Lookup>): (out: seq<Attached<R>>)
    ensures |out| >= |rows|
  {
    if rows == [] then []
    else Attach(rows[0], Hits(key(rows[0]), lookup)) + LeftJoin(rows[1..], key, lookup)
  }

  /** The left outer join of a concatenation is the concatenation of the left outer joins. */
  lemma {:induction false} LeftJoinAppend<R>(a: seq<R>, b: seq<R>, key: R -> SqlValue, lookup: seq<Lookup>)
    ensures LeftJoin(a + b, key, lookup) == LeftJoin(a, key, lookup) + LeftJoin(b, key, lookup)
  {
    if a == [] {
      assert a + b == b;
    } else {
      assert (a + b)[0] == a[0];
      assert (a + b)[1..] == a[1..] + b;
      LeftJoinAppend(a[1..], b, key, lookup);
    }
  }

  /**
   * The `i`-th left row contributes one block to the output, between the
   * blocks of the rows before it and those after it: one row per hit, or a
   * single NULL-extended row when nothing matches. So a left row matched
   * by `k` lookup rows (copies included) yields exactly `k` output rows.
   */
  lemma LeftJoinBlock<R>(rows: seq<R>, key: R -> SqlValue, lookup: seq<Lookup>, i: nat)
    requires i < |rows|
    ensures LeftJoin(rows, key, lookup)
         == LeftJoin(rows[..i], key, lookup) + Attach(rows[i], Hits(key(rows[i]), lookup)) + LeftJoin(rows[i + 1..], key, lookup)
  {
    assert rows == rows[..i] + ([rows[i]] + rows[i + 1..]);
    LeftJoinAppend(rows[..i], [rows[i]] + rows[i + 1..], key, lookup);
    assert ([rows[i]] + rows[i + 1..])[1..] == rows[i + 1..];
  }

  /** Every lookup `Id` is distinct (NULL ids never match anything). */
  predicate UniqueIds(lookup: seq<Lookup>)
  {
    forall i, j | 0 <= i < j < |lookup| :: !Matches(lookup[i].id, lookup[j].id)
  }

  function IncidenciaKey(p: Pair): SqlValue { p.reading.idIncidencia }

  function ObservacionKey(a: Attached<Pair>): SqlValue { a.row.reading.idObservacion }

  /** The joined rows before the select list is applied. */
  function Joined(db: Database): seq<Attached<Attached<Pair>>>
  {
    var inner := InnerJoin(db.clientes, db.lecturas);
    LeftJoin(LeftJoin(inner, IncidenciaKey, db.incidencias), ObservacionKey, db.observaciones)
  }

  /**
   * The select list of the query, applied to one joined row: the client's
   * columns, the reading's, and the two looked-up descriptions.
   */
  function Select(a: Attached<Attached<Pair>>): (r: Row<SqlValue>)
    ensures FromPair(r, a.row.row.client, a.row.row.reading)
    ensures r.fechaHora == a.row.row.reading.fechaHora
    ensures r.incidenciaDsc == a.row.dsc && r.lectObservacionDsc == a.dsc
  {
    var p := a.row.row;
    Row(p.client.tomaId, p.client.cuentaNro, p.client.nombreCliente, p.client.direccion,
        p.reading.fechaHora, p.reading.lectura, p.reading.consumo,
        a.row.dsc, a.dsc, p.client.barrioId)
  }

  /** The result of the extraction query over an uploaded database. */
  function Extract(db: Database): (rows: seq<Row<SqlValue>>)
    ensures |rows| >= |InnerJoin(db.clientes, db.lecturas)|
  {
    var joined := Joined(db);
    seq(|joined|, i requires 0 <= i < |joined| => Select(joined[i]))
  }

  /** `row` carries the client columns of `c` and the reading columns of `l`. */
  predicate FromPair<T>(row: Row<T>, c: Cliente, l: Lectura)
  {
    && row.tomaId == c.tomaId
    && row.cuentaNro == c.cuentaNro
    && row.nombreCliente == c.nombreCliente
    && row.direccion == c.direccion
    && row.barrioId == c.barrioId
    && row.lectura == l.lectura
    && row.consumo == l.consumo
  }

  /** The output rows of the first left row. */
  function FirstBlock<R>(rows: seq<R>, key: R -> SqlValue, lookup: seq<Lookup>): seq<Attached<R>>
    requires rows != []
  {
    Attach(rows[0], Hits(key(rows[0]), lookup))
  }

  /** The left outer join of a non-empty input starts with the first row's block... */
  lemma LeftJoinHeadAt<R>(rows: seq<R>, key: R -> SqlValue, lookup: seq<Lookup>, k: nat)
    requires rows != [] && k < |FirstBlock(rows, key, lookup)|
    ensures k < |LeftJoin(rows, key, lookup)|
    ensures LeftJoin(rows, key, lookup)[k] == FirstBlock(rows, key, lookup)[k]
  {
  }

  /** ...and continues with the join of the remaining rows. */
  lemma LeftJoinTailAt<R>(rows: seq<R>, key: R -> SqlValue, lookup: seq<Lookup>, k: nat)
    requires rows != [] && k < |LeftJoin(rows[1..], key, lookup)|
    ensures |FirstBlock(rows, key, lookup)| + k < |LeftJoin(rows, key, lookup)|
    ensures LeftJoin(rows, key, lookup)[|FirstBlock(rows, key, lookup)| + k] == LeftJoin(rows[1..], key, lookup)[k]
  {
  }

  /** The output has one block per left row. */
  lemma LeftJoinLength<R>(rows: seq<R>, key: R -> SqlValue, lookup: seq<Lookup>)
    requires rows != []
    ensures |LeftJoin(rows, key, lookup)| == |FirstBlock(rows, key, lookup)| + |LeftJoin(rows[1..], key, lookup)|
  {
  }

  /** Every output row of the left outer join carries the description the join semantics assigns to it. */
  lemma {:induction false} LeftJoinDescriptions<R>(rows: seq<R>, key: R -> SqlValue, lookup: seq<Lookup>, j: nat)
    requires j < |LeftJoin(rows, key, lookup)|
    ensures DescribedBy(LeftJoin(rows, key, lookup)[j].dsc, key(LeftJoin(rows, key, lookup)[j].row), lookup)
  {
    LeftJoinLength(rows, key, lookup);
    var hits := Hits(key(rows[0]), lookup);
    var n := |FirstBlock(rows, key, lookup)|;
    if j < n {
      LeftJoinHeadAt(rows, key, lookup, j);
      if hits != [] {
        HitsSound(key(rows[0]), lookup, j);
      }
    } else {
      LeftJoinDescriptions(rows[1..], key, lookup, j - n);
      LeftJoinTailAt(rows, key, lookup, j - n);
    }
  }

  /** An output row of the remaining rows' join that extends input row `i` extends row `i + 1` of the whole input. */
  lemma LeftJoinTailRow<R>(rows: seq<R>, key: R -> SqlValue, lookup: seq<Lookup>, k: nat, i: nat)
    requires rows != [] && k < |LeftJoin(rows[1..], key, lookup)| && i < |rows| - 1
    requires LeftJoin(rows[1..], key, lookup)[k].row == rows[1..][i]
    ensures |FirstBlock(rows, key, lookup)| + k < |LeftJoin(rows, key, lookup)|
    ensures LeftJoin(rows, key, lookup)[|FirstBlock(rows, key, lookup)| + k].row == rows[i + 1]
  {
    LeftJoinTailAt(rows, key, lookup, k);
  }

  /** Every output row of the left outer join extends some input row: the `i`-th. */
  lemma {:induction false} LeftJoinRowsFromInput<R>(rows: seq<R>, key: R -> SqlValue, lookup: seq<Lookup>, j: nat) returns (i: nat)
    requires j < |LeftJoin(rows, key, lookup)|
    ensures i < |rows| && LeftJoin(rows, key, lookup)[j].row == rows[i]
  {
    LeftJoinLength(rows, key, lookup);
    var n := |FirstBlock(rows, key, lookup)|;
    if j < n {
      LeftJoinHeadAt(rows, key, lookup, j);
      i := 0;
    } else {
      var i' := LeftJoinRowsFromInput(rows[1..], key, lookup, j - n);
      LeftJoinTailRow(rows, key, lookup, j - n, i');
      i := i' + 1;
    }
  }

  /** The left outer join drops no left row: the `i`-th input row reappears as the `j`-th output row. */
  lemma {:induction false} LeftJoinKeepsEveryRow<R>(rows: seq<R>, key: R -> SqlValue, lookup: seq<Lookup>, i: nat) returns (j: nat)
    requires i < |rows|
    ensures j < |LeftJoin(rows, key, lookup)| && LeftJoin(rows, key, lookup)[j].row == rows[i]
  {
    if i == 0 {
      LeftJoinHeadAt(rows, key, lookup, 0);
      j := 0;
    } else {
      var j' := LeftJoinKeepsEveryRow(rows[1..], key, lookup, i - 1);
      LeftJoinTailAt(rows, key, lookup, j');
      j := |FirstBlock(rows, key, lookup)| + j';
    }
  }

  /** A hit among a left row's hits yields an output row carrying its description. */
  lemma AttachKeepsHit<R>(r: R, hits: seq<Lookup>, m: Lookup) returns (k: nat)
    requires m in hits
    ensures k < |Attach(r, hits)| && Attach(r, hits)[k] == Attached(r, m.dsc)
  {
    k :| k < |hits| && hits[k] == m;
  }

  /** Every lookup row matching the first left row's key contributes its description for that row. */
  lemma LeftJoinFirstRowHit<R>(rows: seq<R>, key: R -> SqlValue, lookup: seq<Lookup>, m: Lookup) returns (j: nat)
    requires rows != [] && m in lookup && Matches(key(rows[0]), m.id)
    ensures j < |LeftJoin(rows, key, lookup)| && LeftJoin(rows, key, lookup)[j] == Attached(rows[0], m.dsc)
  {
    HitsComplete(key(rows[0]), lookup, m);
    j := AttachKeepsHit(rows[0], Hits(key(rows[0]), lookup), m);
    LeftJoinHeadAt(rows, key, lookup, j);
  }

  /** An output row of the join of the remaining left rows is an output row of the whole join. */
  lemma LeftJoinFromTail<R>(rows: seq<R>, key: R -> SqlValue, lookup: seq<Lookup>, k: nat, x: Attached<R>) returns (j: nat)
    requires rows != [] && k < |LeftJoin(rows[1..], key, lookup)| && LeftJoin(rows[1..], key, lookup)[k] == x
    ensures j < |LeftJoin(rows, key, lookup)| && LeftJoin(rows, key, lookup)[j] == x
  {
    LeftJoinTailAt(rows, key, lookup, k);
    j := |FirstBlock(rows, key, lookup)| + k;
  }

  /** Every lookup row matching the `i`-th left row's key contributes its description for that row. */
  lemma {:induction false} LeftJoinKeepsEveryHit<R>(rows: seq<R>, key: R -> SqlValue, lookup: seq<Lookup>, i: nat, m: Lookup) returns (j: nat)
    requires i < |rows| && m in lookup && Matches(key(rows[i]), m.id)
    ensures j < |LeftJoin(rows, key, lookup)| && LeftJoin(rows, key, lookup)[j] == Attached(rows[i], m.dsc)
  {
    if i == 0 {
      j := LeftJoinFirstRowHit(rows, key, lookup, m);
    } else {
      assert rows[1..][i - 1] == rows[i];
      var j' := LeftJoinKeepsEveryHit(rows[1..], key, lookup, i - 1, m);
      j := LeftJoinFromTail(rows, key, lookup, j', Attached(rows[i], m.dsc));
    }
  }

  /** With unique lookup ids a key has at most one hit. */
  lemma {:induction false} UniqueIdsAtMostOneHit(key: SqlValue, lookup: seq<Lookup>)
    requires UniqueIds(lookup)
    ensures |Hits(key, lookup)| <= 1
  {
    if lookup != [] {
      var rest := lookup[1..];
      assert UniqueIds(rest) by {
        forall i, j | 0 <= i < j < |rest| ensures !Matches(rest[i].id, rest[j].id) {
          assert rest[i] == lookup[i + 1] && rest[j] == lookup[j + 1];
        }
      }
      UniqueIdsAtMostOneHit(key, rest);
      if Matches(key, lookup[0].id) {
        assert NoHit(key, rest) by {
          forall m | m in rest ensures !Matches(key, m.id) {
            var k :| 0 <= k < |rest| && rest[k] == m;
            assert !Matches(lookup[0].id, lookup[k + 1].id);
          }
        }
      }
    }
  }

  /** When lookup ids are unique the left outer join neither drops nor duplicates a row. */
  lemma {:induction false} LeftJoinUniqueIdsKeepsRows<R>(rows: seq<R>, key: R -> SqlValue, lookup: seq<Lookup>)
    requires UniqueIds(lookup)
    ensures |LeftJoin(rows, key, lookup)| == |rows|
    ensures forall i | 0 <= i < |rows| :: LeftJoin(rows, key, lookup)[i].row == rows[i]
  {
    if rows != [] {
      UniqueIdsAtMostOneHit(key(rows[0]), lookup);
      LeftJoinUniqueIdsKeepsRows(rows[1..], key, lookup);
      LeftJoinLength(rows, key, lookup);
      assert |FirstBlock(rows, key, lookup)| == 1;
      forall i | 0 <= i < |rows| ensures LeftJoin(rows, key, lookup)[i].row == rows[i] {
        if i == 0 {
          LeftJoinHeadAt(rows, key, lookup, 0);
        } else {
          LeftJoinTailAt(rows, key, lookup, i - 1);
        }
      }
    }
  }

  /** `row` is what the query makes of reading `l` of client `c`. */
  predicate ExtractedFrom(db: Database, row: Row<SqlValue>, c: Cliente, l: Lectura)
  {
    && c in db.clientes && l in db.lecturas
    && Matches(c.tomaId, l.tomaId)
    && FromPair(row, c, l)
    && row.fechaHora == l.fechaHora
    && DescribedBy(row.incidenciaDsc, l.idIncidencia, db.incidencias)
    && DescribedBy(row.lectObservacionDsc, l.idObservacion, db.observaciones)
  }

  /** Some client and reading of the database produce `row`. */
  predicate HasSource(db: Database, row: Row<SqlValue>)
  {
    exists c, l | c in db.clientes && l in db.lecturas :: ExtractedFrom(db, row, c, l)
  }

  /** The client and reading behind the `i`-th extracted row. */
  lemma ExtractedRowSource(db: Database, i: nat) returns (c: Cliente, l: Lectura)
    requires i < |Extract(db)|
    ensures ExtractedFrom(db, Extract(db)[i], c, l)
  {
    var inner := InnerJoin(db.clientes, db.lecturas);
    var withInc := LeftJoin(inner, IncidenciaKey, db.incidencias);
    var joined := LeftJoin(withInc, ObservacionKey, db.observaciones);
    var a := joined[i];
    assert Extract(db)[i] == Select(a);
    var k := LeftJoinRowsFromInput(withInc, ObservacionKey, db.observaciones, i);
    LeftJoinDescriptions(withInc, ObservacionKey, db.observaciones, i);
    var n := LeftJoinRowsFromInput(inner, IncidenciaKey, db.incidencias, k);
    LeftJoinDescriptions(inner, IncidenciaKey, db.incidencias, k);
    assert inner[n] in inner;
    c, l := inner[n].client, inner[n].reading;
    assert DescribedBy(a.dsc, ObservacionKey(a.row), db.observaciones);
    assert DescribedBy(withInc[k].dsc, IncidenciaKey(inner[n]), db.incidencias);
  }

  /**
   * Every extracted row is built from a client and a reading with equal,
   * non-NULL `TomaId`, and its two description columns hold what the left
   * outer joins assign to that reading's foreign keys. In particular a
   * reading whose `TomaId` matches no client yields no row.
   */
  lemma ExtractRowsComeFromMatchingPairs(db: Database)
    ensures forall i | 0 <= i < |Extract(db)| :: HasSource(db, Extract(db)[i])
  {
    forall i | 0 <= i < |Extract(db)|
      ensures HasSource(db, Extract(db)[i])
    {
      var c, l := ExtractedRowSource(db, i);
    }
  }

  /** Every client/reading pair with equal, non-NULL `TomaId` yields at least one extracted row. */
  lemma ExtractKeepsEveryMatch(db: Database, c: Cliente, l: Lectura)
    requires c in db.clientes && l in db.lecturas && Matches(c.tomaId, l.tomaId)
    ensures exists i | 0 <= i < |Extract(db)| :: FromPair(Extract(db)[i], c, l) && Extract(db)[i].fechaHora == l.fechaHora
  {
    var inner := InnerJoin(db.clientes, db.lecturas);
    var withInc := LeftJoin(inner, IncidenciaKey, db.incidencias);
    var joined := LeftJoin(withInc, ObservacionKey, db.observaciones);
    var n :| 0 <= n < |inner| && inner[n] == Pair(c, l);
    var k := LeftJoinKeepsEveryRow(inner, IncidenciaKey, db.incidencias, n);
    var j := LeftJoinKeepsEveryRow(withInc, ObservacionKey, db.observaciones, k);
    assert Extract(db)[j] == Select(joined[j]);
  }

  /** How often `c` occurs in `cs`, times how often `l` occurs in `ls`, when their `TomaId`s match. */
  function PairCount(cs: seq<Cliente>, ls: seq<Lectura>, c: Cliente, l: Lectura): nat
  {
    if Matches(c.tomaId, l.tomaId) then multiset(cs)[c] * multiset(ls)[l] else 0
  }

  /** One client contributes a matching reading once per copy of that reading. */
  lemma {:induction false} ReadingsOfMultiplicity(c': Cliente, ls: seq<Lectura>, c: Cliente, l: Lectura)
    ensures multiset(ReadingsOf(c', ls))[Pair(c, l)] == if c' == c && Matches(c.tomaId, l.tomaId) then multiset(ls)[l] else 0
  {
    if ls != [] {
      ReadingsOfMultiplicity(c', ls[1..], c, l);
      assert ls == [ls[0]] + ls[1..];
      var first := if Matches(c'.tomaId, ls[0].tomaId) then [Pair(c', ls[0])] else [];
      assert ReadingsOf(c', ls) == first + ReadingsOf(c', ls[1..]);
    }
  }

  /** A pair occurs in the inner join as often as in the first client's pairs and the rest together. */
  lemma InnerJoinFirstClient(cs: seq<Cliente>, ls: seq<Lectura>, p: Pair)
    requires cs != []
    ensures multiset(InnerJoin(cs, ls))[p] == multiset(ReadingsOf(cs[0], ls))[p] + multiset(InnerJoin(cs[1..], ls))[p]
  {
    assert InnerJoin(cs, ls) == ReadingsOf(cs[0], ls) + InnerJoin(cs[1..], ls);
  }

  /** The first client's share of the pair count: every copy of `l` when it is `c` and they match. */
  lemma PairCountFirstClient(cs: seq<Cliente>, ls: seq<Lectura>, c: Cliente, l: Lectura)
    requires cs != []
    ensures PairCount(cs, ls, c, l) == (if cs[0] == c && Matches(c.tomaId, l.tomaId) then multiset(ls)[l] else 0) + PairCount(cs[1..], ls, c, l)
  {
    assert cs == [cs[0]] + cs[1..];
    var here: nat := if cs[0] == c then 1 else 0;
    var others := multiset(cs[1..])[c];
    var copies := multiset(ls)[l];
    assert multiset(cs)[c] == here + others;
    assert (here + others) * copies == here * copies + others * copies;
  }

  /**
   * The inner join holds a matching client/reading pair exactly as many
   * times as the client occurs times the reading occurs, and never holds a
   * pair whose `TomaId`s do not match.
   */
  lemma {:induction false} InnerJoinMultiplicity(cs: seq<Cliente>, ls: seq<Lectura>, c: Cliente, l: Lectura)
    ensures multiset(InnerJoin(cs, ls))[Pair(c, l)] == PairCount(cs, ls, c, l)
  {
    if cs != [] {
      InnerJoinFirstClient(cs, ls, Pair(c, l));
      InnerJoinMultiplicity(cs[1..], ls, c, l);
      ReadingsOfMultiplicity(cs[0], ls, c, l);
      PairCountFirstClient(cs, ls, c, l);
    }
  }

  /** With unique lookup ids the query returns exactly one row per inner-join row. */
  lemma ExtractRowCount(db: Database)
    requires UniqueIds(db.incidencias) && UniqueIds(db.observaciones)
    ensures |Extract(db)| == |InnerJoin(db.clientes, db.lecturas)|
  {
    var inner := InnerJoin(db.clientes, db.lecturas);
    LeftJoinUniqueIdsKeepsRows(inner, IncidenciaKey, db.incidencias);
    LeftJoinUniqueIdsKeepsRows(LeftJoin(inner, IncidenciaKey, db.incidencias), ObservacionKey, db.observaciones);
  }
}
