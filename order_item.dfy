/**
 * The single order line edited by the form: its record, the two state
 * updaters passed to `setItem`, and the rule that enables the PDF button.
 */
module OrderItem {
  import opened Wrappers
  import opened Articles

  /** The order line. `cantidadSurtida` is read-only in the form (filled in by the warehouse). */
  datatype Item = Item(
    codigo: string,
    descripcion: string,
    unidad: string,
    cantidadPedida: string,
    cantidadSurtida: string,
    observaciones: string)

  /** The two fields the form lets the clerk type into. */
  datatype EditableField = CantidadPedida | Observaciones

  /** The state the form starts with: every field empty. */
  const InitialItem: Item := Item("", "", "", "", "", "")

  /** The article triple an item currently shows. */
  function ArticleOf(item: Item): Articulo
  {
    Articulo(item.codigo, item.descripcion, item.unidad)
  }

  /** An entry of the catalog whose description is `d`. */
  ghost predicate InCatalog(d: string)
  {
    exists i :: 0 <= i < |ArticulosDisponibles| && ArticulosDisponibles[i].descripcion == d
  }

  /**
   * The article triple is either a catalog entry, taken whole, or empty:
   * code, description and unit never come from different entries.
   */
  ghost predicate ArticleConsistent(item: Item)
  {
    ArticleOf(item) in ArticulosDisponibles || ArticleOf(item) == Articulo("", "", "")
  }

  /** The updater for a typed field: a copy of the previous item with that one field replaced. */
  function ItemWithField(prev: Item, field: EditableField, value: string): (r: Item)
    ensures field == CantidadPedida ==> r.cantidadPedida == value && r.observaciones == prev.observaciones
    ensures field == Observaciones ==> r.observaciones == value && r.cantidadPedida == prev.cantidadPedida
    ensures ArticleOf(r) == ArticleOf(prev) && r.cantidadSurtida == prev.cantidadSurtida
  {
    match field
    case CantidadPedida => prev.(cantidadPedida := value)
    case Observaciones => prev.(observaciones := value)
  }

  /**
   * The updater chosen by the article dropdown: copy the triple of the
   * catalog entry whose description was selected, or clear the triple
   * when no entry has that description.
   */
  function ItemWithArticle(prev: Item, selectedDescription: string): (r: Item)
    ensures forall i :: 0 <= i < |ArticulosDisponibles| && ArticulosDisponibles[i].descripcion == selectedDescription ==>
              ArticleOf(r) == ArticulosDisponibles[i]
    ensures !InCatalog(selectedDescription) ==> ArticleOf(r) == Articulo("", "", "")
    ensures r.cantidadPedida == prev.cantidadPedida && r.cantidadSurtida == prev.cantidadSurtida &&
            r.observaciones == prev.observaciones
  {
    CatalogEntriesDistinct();
    match Find(ArticulosDisponibles, selectedDescription)
    case Some(a) => prev.(codigo := a.codigo, descripcion := a.descripcion, unidad := a.unidad)
    case None => prev.(codigo := "", descripcion := "", unidad := "")
  }

  /**
   * The `disabled` expression of the PDF button: loading, or no article shown.
   * Read against the catalog: loading, the placeholder or a cleared triple
   * disable the button, and a real article enables it when nothing is loading.
   */
  function PdfButtonDisabled(isLoading: bool, item: Item): (disabled: bool)
    ensures isLoading ==> disabled
    ensures ArticleOf(item) == Articulo("", "", "") || ArticleOf(item) == ArticulosDisponibles[0] ==> disabled
    ensures !isLoading && ArticleOf(item) in ArticulosDisponibles[1..] ==> !disabled
  {
    // Real entries have non-empty descriptions distinct from the placeholder's.
    CatalogEntriesDistinct();
    PlaceholderIsOnlyEmptyCode();
    isLoading || item.descripcion == "" || item.descripcion == Placeholder
  }

  /** Selecting the placeholder shows it, with empty code and unit. */
  lemma SelectPlaceholder(prev: Item)
    ensures ArticleOf(ItemWithArticle(prev, Placeholder)) == Articulo("", Placeholder, "")
  {
  }

  /** Whatever was selected, the triple that results is consistent. */
  lemma ItemWithArticleConsistent(prev: Item, selectedDescription: string)
    ensures ArticleConsistent(ItemWithArticle(prev, selectedDescription))
  {
  }

  /**
   * The select re-reports the description it shows: for a consistent item
   * that selection changes nothing.
   */
  lemma ReselectShownDescription(item: Item)
    requires ArticleConsistent(item)
    ensures ItemWithArticle(item, item.descripcion) == item
  {
    // An empty description matches no entry, so a cleared item stays cleared.
    PlaceholderIsOnlyEmptyCode();
  }

  /** Of two edits to the same field the later one wins. */
  lemma LastEditWins(prev: Item, field: EditableField, v1: string, v2: string)
    ensures ItemWithField(ItemWithField(prev, field, v1), field, v2) == ItemWithField(prev, field, v2)
  {
  }

  /** Edits to the two different fields commute. */
  lemma EditsCommute(prev: Item, v1: string, v2: string)
    ensures ItemWithField(ItemWithField(prev, CantidadPedida, v1), Observaciones, v2)
         == ItemWithField(ItemWithField(prev, Observaciones, v2), CantidadPedida, v1)
  {
  }

  /**
   * On a consistent item the button rule reads as "a real article (one with
   * a code) is selected and no PDF is being generated".
   */
  lemma PdfButtonEnabledIffArticleChosen(isLoading: bool, item: Item)
    requires ArticleConsistent(item)
    ensures !PdfButtonDisabled(isLoading, item) <==> !isLoading && item.codigo != ""
  {
    PlaceholderIsOnlyEmptyCode();
    CatalogEntriesDistinct();
  }

  /**
   * Right after a dropdown selection, the button is enabled exactly when
   * nothing is loading and the selected description is one of the catalog's
   * real articles.
   */
  lemma PdfButtonAfterSelection(isLoading: bool, prev: Item, selectedDescription: string)
    ensures !PdfButtonDisabled(isLoading, ItemWithArticle(prev, selectedDescription)) <==>
            !isLoading && exists i :: 1 <= i < |ArticulosDisponibles| && ArticulosDisponibles[i].descripcion == selectedDescription
  {
    ItemWithArticleConsistent(prev, selectedDescription);
    PdfButtonEnabledIffArticleChosen(isLoading, ItemWithArticle(prev, selectedDescription));
    PlaceholderIsOnlyEmptyCode();
  }
}
