/**
 * The column header of the data frame the query returns, and
 * `DataFrame.drop(columns=...)` on it.
 */
module Columns {

  /** The columns of the query result. */
  datatype Column =
    | TomaId | CuentaNro | NombreCliente | Direccion | FechaHora
    | Lectura | Consumo | IncidenciaDsc | LectObservacionDsc | BarrioId

  /** The label pandas gives the column, which is also the header cell written to the sheet. */
  function Label(c: Column): string
  {
    match c
    case TomaId => "TomaId"
    case CuentaNro => "CuentaNro"
    case NombreCliente => "NombreCliente"
    case Direccion => "Direccion"
    case FechaHora => "FechaHora"
    case Lectura => "Lectura"
    case Consumo => "Consumo"
    case IncidenciaDsc => "IncidenciaDsc"
    case LectObservacionDsc => "LectObservacionDsc"
    case BarrioId => "BarrioId"
  }

  function Labels(cs: seq<Column>): (ls: seq<string>)
    ensures |ls| == |cs| && forall k | 0 <= k < |cs| :: ls[k] == Label(cs[k])
  {
    seq(|cs|, k requires 0 <= k < |cs| => Label(cs[k]))
  }

  /** The columns of the query, in select-list order. */
  const QueryColumns: seq<Column> :=
    [TomaId, CuentaNro, NombreCliente, Direccion, FechaHora,
     Lectura, Consumo, IncidenciaDsc, LectObservacionDsc, BarrioId]

  /** The internal identifiers never shown to the user. */
  const DroppedColumns: set<Column> := {TomaId, BarrioId}

  /** The columns of the preview table and of the exported sheet. */
  const ExportColumns: seq<Column> :=
    [CuentaNro, NombreCliente, Direccion, FechaHora,
     Lectura, Consumo, IncidenciaDsc, LectObservacionDsc]

  /** The positions of the columns of `names` that are not in `drop`. */
  function KeptPositions(names: seq<Column>, drop: set<Column>): set<nat>
  {
    set k: nat | k < |names| && names[k] !in drop
  }

  /**
   * Dropping the columns in `drop` by name from one row with header
   * `names`: the cells of the other columns, in their original order, one
   * per position whose column is kept.
   */
  function DropColumns<T>(names: seq<Column>, cells: seq<T>, drop: set<Column>): (out: seq<T>)
    requires |names| == |cells|
    ensures |out| == |KeptPositions(names, drop)|
  {
    if names == [] then []
    else
      var n := |names| - 1;
      assert KeptPositions(names, drop) == KeptPositions(names[..n], drop) + (if names[n] in drop then {} else {n}) by {
        forall k: nat | k < n ensures names[..n][k] == names[k] { }
      }
      DropColumns(names[..n], cells[..n], drop) + (if names[n] in drop then [] else [cells[n]])
  }

  /**
   * The cell of every kept column survives the drop, at the position given
   * by the number of kept columns before it. With the length above this
   * fixes the whole result: the kept cells, each once, in their order.
   */
  lemma {:induction false} DropColumnsKeepsCell<T>(names: seq<Column>, cells: seq<T>, drop: set<Column>, k: nat)
    requires |names| == |cells| && k < |names| && names[k] !in drop
    ensures |KeptPositions(names[..k], drop)| < |DropColumns(names, cells, drop)|
    ensures DropColumns(names, cells, drop)[|KeptPositions(names[..k], drop)|] == cells[k]
  {
    var n := |names| - 1;
    var init := DropColumns(names[..n], cells[..n], drop);
    var out := DropColumns(names, cells, drop);
    assert out == init + (if names[n] in drop then [] else [cells[n]]);
    if k == n {
      assert names[..k] == names[..n];
    } else {
      assert names[..n][..k] == names[..k];
      assert names[..n][k] == names[k] && cells[..n][k] == cells[k];
      DropColumnsKeepsCell(names[..n], cells[..n], drop, k);
    }
  }

  /** The drop distributes over concatenation of headers and rows. */
  lemma {:induction false} DropColumnsAppend<T>(n1: seq<Column>, c1: seq<T>, n2: seq<Column>, c2: seq<T>, drop: set<Column>)
    requires |n1| == |c1| && |n2| == |c2|
    ensures DropColumns(n1 + n2, c1 + c2, drop) == DropColumns(n1, c1, drop) + DropColumns(n2, c2, drop)
  {
    if n2 == [] {
      assert n1 + n2 == n1 && c1 + c2 == c1;
    } else {
      var m := |n2| - 1;
      assert (n1 + n2)[..|n1| + m] == n1 + n2[..m];
      assert (c1 + c2)[..|c1| + m] == c1 + c2[..m];
      DropColumnsAppend(n1, c1, n2[..m], c2[..m], drop);
      var last := if n2[m] in drop then [] else [c2[m]];
      assert DropColumns(n1 + n2, c1 + c2, drop) == DropColumns(n1 + n2[..m], c1 + c2[..m], drop) + last;
      assert DropColumns(n2, c2, drop) == DropColumns(n2[..m], c2[..m], drop) + last;
    }
  }

  /** Cells of columns none of which is dropped are all kept. */
  lemma {:induction false} DropColumnsKeepsAll<T>(names: seq<Column>, cells: seq<T>, drop: set<Column>)
    requires |names| == |cells|
    requires forall k | 0 <= k < |names| :: names[k] !in drop
    ensures DropColumns(names, cells, drop) == cells
  {
    if names != [] {
      var n := |names| - 1;
      assert names[n] !in drop;
      assert forall k | 0 <= k < n :: names[..n][k] == names[k];
      DropColumnsKeepsAll(names[..n], cells[..n], drop);
      assert cells == cells[..n] + [cells[n]];
    }
  }

  /** Dropping from a full query row keeps exactly its second to ninth cells. */
  lemma DropIdColumns<T>(cells: seq<T>)
    requires |cells| == |QueryColumns|
    ensures DropColumns(QueryColumns, cells, DroppedColumns) == cells[1..9]
  {
    var middle := cells[1..9];
    assert QueryColumns == [TomaId] + ExportColumns + [BarrioId];
    assert cells == [cells[0]] + middle + [cells[9]];
    DropColumnsAppend([TomaId] + ExportColumns, [cells[0]] + middle, [BarrioId], [cells[9]], DroppedColumns);
    DropColumnsAppend([TomaId], [cells[0]], ExportColumns, middle, DroppedColumns);
    DropColumnsKeepsAll(ExportColumns, middle, DroppedColumns);
  }

  /** The header after the drop is the select list without `TomaId` and `BarrioId`, the rest in order. */
  lemma DroppedHeaderIsExportColumns()
    ensures DropColumns(QueryColumns, QueryColumns, DroppedColumns) == ExportColumns
  {
    DropIdColumns(QueryColumns);
  }
}
