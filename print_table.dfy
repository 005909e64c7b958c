/**
 * The body rows handed to the table renderer when the PDF is generated:
 * the item's row followed by blank rows up to the form's fixed capacity.
 * Styled cells are represented by their content string.
 */
module PrintTable {
  import opened OrderItem

  /** The six header labels of the printed table. */
  const TableColumn: seq<string> := [
    "CODIGO", "DESCRIPCION DEL ARTICULO", "UNIDAD",
    "CANTIDAD\nPEDIDA", "CANTIDAD\nSURTIDA", "CANTIDAD SURTIDA CON LETRA/\nOBSERVACIONES"]

  /** Number of rows the paper form provides. */
  const TotalRowsOnForm: nat := 16

  /** A filler row: one empty cell per column. */
  const BlankRow: seq<string> := ["", "", "", "", "", ""]

  /** The row printed for the item, one cell per header column, in header order. */
  function ItemRow(item: Item): (row: seq<string>)
    ensures |row| == |TableColumn| == |BlankRow|
  {
    [item.codigo, item.descripcion, item.unidad, item.cantidadPedida, item.cantidadSurtida, item.observaciones]
  }

  /** The row loses no field: distinct items print distinct rows. */
  lemma ItemRowInjective(a: Item, b: Item)
    requires ItemRow(a) == ItemRow(b)
    ensures a == b
  {
  }

  /** Only the initial, all-empty item prints as a blank row. */
  lemma ItemRowBlankIffInitial(item: Item)
    ensures ItemRow(item) == BlankRow <==> item == InitialItem
  {
    if ItemRow(item) == BlankRow {
      ItemRowInjective(item, InitialItem);
    }
  }

  /**
   * Builds the table body: push the item's row, then push blank rows while
   * fewer than `TotalRowsOnForm` rows exist.
   */
  method BuildTableRows(item: Item) returns (tableRows: seq<seq<string>>)
    ensures |tableRows| == TotalRowsOnForm
    ensures tableRows[0] == ItemRow(item)
    ensures forall k :: 1 <= k < |tableRows| ==> tableRows[k] == BlankRow
    ensures forall k :: 0 <= k < |tableRows| ==> |tableRows[k]| == |TableColumn|
  {
    tableRows := [];
    tableRows := tableRows + [ItemRow(item)];
    while |tableRows| < TotalRowsOnForm
      invariant 1 <= |tableRows| <= TotalRowsOnForm
      invariant tableRows[0] == ItemRow(item)
      invariant forall k :: 1 <= k < |tableRows| ==> tableRows[k] == BlankRow
    {
      tableRows := tableRows + [BlankRow];
    }
  }
}
