/** The three-column item table behind the view (a QStandardItemModel): rows of cells,
    each cell either missing or an item with its text and its font weight. */
module ItemModel {

  /** The columns, in display order. */
  datatype Column = PidColumn | StatusColumn | PathColumn

  function ColumnAt(i: int): Column
    requires 0 <= i < 3
  {
    if i == 0 then PidColumn else if i == 1 then StatusColumn else PathColumn
  }

  function ColumnIndex(col: Column): (i: int)
    ensures 0 <= i < 3 && ColumnAt(i) == col
  {
    match col
    case PidColumn => 0
    case StatusColumn => 1
    case PathColumn => 2
  }

  datatype Cell = Blank | Item(text: string, bold: bool)

  datatype Row = Row(pid: Cell, status: Cell, path: Cell)

  const BlankRow: Row := Row(Blank, Blank, Blank)

  function At(r: Row, col: Column): Cell
  {
    match col
    case PidColumn => r.pid
    case StatusColumn => r.status
    case PathColumn => r.path
  }

  /** The row with one cell replaced. */
  function WithCell(r: Row, col: Column, c: Cell): (r': Row)
    ensures At(r', col) == c
    ensures forall other :: other != col ==> At(r', other) == At(r, other)
  {
    match col
    case PidColumn => r.(pid := c)
    case StatusColumn => r.(status := c)
    case PathColumn => r.(path := c)
  }

  /** The text a cell displays; a missing item reads as the empty string. */
  function CellText(c: Cell): string
  {
    match c
    case Blank => ""
    case Item(text, _) => text
  }

  /** The table after setItem(i, col, c): a row index past the end first grows the table
      with blank rows up to row i. */
  function SetCell(rows: seq<Row>, i: nat, col: Column, c: Cell): (rows': seq<Row>)
    ensures |rows'| == if i < |rows| then |rows| else i + 1
    ensures rows'[i] == WithCell(if i < |rows| then rows[i] else BlankRow, col, c)
    ensures forall k :: 0 <= k < |rows'| && k != i ==>
              rows'[k] == if k < |rows| then rows[k] else BlankRow
  {
    var grown := if i < |rows| then rows else rows + seq(i + 1 - |rows|, _ => BlankRow);
    grown[i := WithCell(grown[i], col, c)]
  }

  class StandardItemModel {
    var rows: seq<Row>

    /** A table of rowCount rows whose cells are all missing. */
    constructor (rowCount: nat)
      ensures |rows| == rowCount && forall k :: 0 <= k < rowCount ==> rows[k] == BlankRow
    {
      rows := seq(rowCount, _ => BlankRow);
    }

    function RowCount(): nat
      reads this
    {
      |rows|
    }

    method SetItem(row: nat, col: Column, c: Cell)
      modifies this
      ensures rows == SetCell(old(rows), row, col, c)
    {
      rows := SetCell(rows, row, col, c);
    }

    /** removeRows(row, count): refused, changing nothing, unless 1 <= count and the
        rows row .. row + count - 1 all exist. */
    method RemoveRows(row: int, count: int) returns (ok: bool)
      modifies this
      ensures ok <==> 1 <= count && 0 <= row && row + count <= |old(rows)|
      ensures rows == if ok then old(rows)[..row] + old(rows)[row + count..] else old(rows)
    {
      ok := 1 <= count && 0 <= row && row + count <= |rows|;
      if ok {
        rows := rows[..row] + rows[row + count..];
      }
    }
  }
}
