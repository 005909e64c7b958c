/**
 * The fixed article catalog of the order form and the lookup of an
 * article by its description, as `Array.prototype.find` performs it.
 */
module Articles {
  import opened Wrappers

  /** One catalog entry: article code, description shown in the dropdown, unit of measure. */
  datatype Articulo = Articulo(codigo: string, descripcion: string, unidad: string)

  /** Text of the first dropdown entry, which stands for "nothing selected". */
  const Placeholder: string := "Seleccione un artículo..."

  /** The hard-coded catalog; entry 0 is the placeholder, with empty code and unit. */
  const ArticulosDisponibles: seq<Articulo> := [
    Articulo("", Placeholder, ""),
    Articulo("0101", "Aceite de Maíz", "PZA"),
    Articulo("0102", "Arroz Super Extra", "KG"),
    Articulo("0103", "Frijol Negro", "KG"),
    Articulo("0201", "Leche Entera", "LT"),
    Articulo("0202", "Queso Panela", "KG"),
    Articulo("0301", "Manzana Golden", "KG"),
    Articulo("0302", "Pollo Entero", "KG"),
    Articulo("0303", "Huevo Blanco", "KG")
  ]

  /**
   * The first entry of `catalog` whose description is `d`, or `None` when
   * no entry has it.
   */
  function Find(catalog: seq<Articulo>, d: string): (r: Option<Articulo>)
    ensures r.None? <==> forall i :: 0 <= i < |catalog| ==> catalog[i].descripcion != d
    ensures r.Some? ==> exists i :: 0 <= i < |catalog| && catalog[i] == r.value && r.value.descripcion == d &&
                                    forall j :: 0 <= j < i ==> catalog[j].descripcion != d
  {
    if catalog == [] then None
    else if catalog[0].descripcion == d then Some(catalog[0])
    else
      var r := Find(catalog[1..], d);
      assert forall i :: 1 <= i < |catalog| ==> catalog[i] == catalog[1..][i - 1];
      r
  }

  /** No two catalog entries share a description, and no two share a code. */
  lemma CatalogEntriesDistinct()
    ensures forall i, j :: 0 <= i < j < |ArticulosDisponibles| ==>
              ArticulosDisponibles[i].descripcion != ArticulosDisponibles[j].descripcion &&
              ArticulosDisponibles[i].codigo != ArticulosDisponibles[j].codigo
  {
  }

  /** Looking up the catalog by any entry's description yields exactly that entry. */
  lemma FindCatalogEntry(i: nat)
    requires i < |ArticulosDisponibles|
    ensures Find(ArticulosDisponibles, ArticulosDisponibles[i].descripcion) == Some(ArticulosDisponibles[i])
  {
    CatalogEntriesDistinct();
  }

  /** Only the placeholder has an empty code, and every description is non-empty. */
  lemma PlaceholderIsOnlyEmptyCode()
    ensures forall i :: 0 <= i < |ArticulosDisponibles| ==>
              (ArticulosDisponibles[i].codigo == "" <==> i == 0) && ArticulosDisponibles[i].descripcion != ""
  {
  }
}
