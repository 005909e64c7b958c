# Hospital supply order form — Dafny model

A model of the order form of the Hospital Civil de Guadalajara food-warehouse
requisition ("Pedido al almacén víveres"). A clerk picks one article from a
fixed catalog, types the requested quantity and notes, fills in the service,
account and signature names, and prints a 16-row form. The model covers:

- `Articles`: the hard-coded catalog `ARTICULOS_DISPONIBLES` (first entry is
  the "Seleccione un artículo..." placeholder) and the `find` lookup by
  description.
- `OrderItem`: the item record, the two `setItem` updaters (edit one field;
  copy or clear the article triple) and the PDF button's `disabled` rule.
- `PrintTable`: the six header labels and the body rows handed to the table
  renderer: the item's row, then blank rows pushed in a `while` loop until there
  are 16.
- `OrderForm`: class `App` holding the page's state slots, one method per
  handler, and `GeneratePdf` (loading flag, data handed to the renderer).
  React state updates are modelled as synchronous field assignments.
  `Valid()` is the invariant every handler keeps: the article triple is a
  catalog entry or all empty, `cantidadSurtida` stays empty, and nothing is loading between handlers.
- `ItemList`: the list view's derivation of one card per item, with
  `isExpanded` / `isDeletable`, the empty-state branch and the
  `onExpand` / `onCollapse` callbacks (as the id they pass to the parent).

Three behaviours of the code the model keeps:

- Choosing the placeholder does not clear the description. The placeholder is a
  catalog entry, so `find` matches it and the description becomes
  "Seleccione un artículo..." with empty code and unit. Only a description that
  matches no entry clears all three.
- The quantity-supplied cell is the item's `cantidadSurtida`, which no handler
  writes and which starts empty. It is not derived from the requested quantity.
- The table always holds exactly one item row and 15 blank rows. There is no
  truncation, because the code never has more than one item.

## Model

| member | source | states |
|---|---|---|
| `Articles.Find` | App.tsx:43 | the result is the first catalog entry whose description is the one selected; it is `None` exactly when no entry has that description |
| `Articles.CatalogEntriesDistinct` | App.tsx:10-20 | no two catalog entries share a description, and no two share a code |
| `Articles.FindCatalogEntry` | App.tsx:10-20 | looking up any entry's own description returns exactly that entry, so the lookup is unambiguous |
| `Articles.PlaceholderIsOnlyEmptyCode` | App.tsx:11-19 | only the placeholder entry has an empty code, and no entry has an empty description |
| `OrderItem.ItemWithField` | App.tsx:37-39 | the named field (requested quantity or notes) takes the new value; the article triple, the other editable field and the supplied quantity are unchanged |
| `OrderItem.ItemWithArticle` | App.tsx:41-59 | a description found in the catalog sets code, description and unit to that entry's triple; an unknown one sets all three to empty; quantities and notes are unchanged |
| `OrderItem.PdfButtonDisabled` | App.tsx:222 | the button's `disabled` expression (loading, empty description or the placeholder text): loading, the placeholder or a cleared triple disable it, and a real catalog article enables it when nothing is loading; its full meaning is proved by `PdfButtonEnabledIffArticleChosen` and `PdfButtonAfterSelection` |
| `OrderItem.SelectPlaceholder` | App.tsx:11 | selecting the placeholder shows the placeholder text with empty code and unit |
| `OrderItem.ItemWithArticleConsistent` | App.tsx:41-59 | after any selection the triple is a whole catalog entry or all empty |
| `OrderItem.ReselectShownDescription` | App.tsx:264-265 | for a consistent item, re-selecting the description it shows changes nothing |
| `OrderItem.LastEditWins` | App.tsx:38 | of two edits to the same field, the later one wins |
| `OrderItem.EditsCommute` | App.tsx:38 | edits to the requested quantity and to the notes commute |
| `OrderItem.PdfButtonEnabledIffArticleChosen` | App.tsx:222 | on a consistent item the button is enabled iff nothing is loading and the selected article has a code |
| `OrderItem.PdfButtonAfterSelection` | App.tsx:222 | right after a selection the button is enabled iff nothing is loading and a real article (not the placeholder, not unknown) was chosen |
| `PrintTable.ItemRow` | App.tsx:130-140 | the item row has one cell per header column |
| `PrintTable.ItemRowInjective` | App.tsx:133-140 | the item row keeps every field: two items with equal rows are equal |
| `PrintTable.ItemRowBlankIffInitial` | App.tsx:33-35 | the item row equals a blank filler row iff the item is the initial, all-empty one |
| `PrintTable.BuildTableRows` | App.tsx:131-146 | the body has exactly 16 rows of 6 cells; row 0 is the item's row, rows 1 to 15 are blank |
| `OrderForm.App.constructor` | App.tsx:24-35 | fixed budget line and hospital unit, the given date, all other fields empty, not loading, initial item; the invariant holds |
| `OrderForm.App.HandleItemChange` | App.tsx:37-39 | the item becomes `ItemWithField` of the old item; metadata and loading flag unchanged; invariant kept |
| `OrderForm.App.HandleArticleChange` | App.tsx:41-59 | the item becomes `ItemWithArticle` of the old item; metadata and loading flag unchanged; invariant kept |
| `OrderForm.App.SetServicio` | App.tsx:247 | sets the service field only; the invariant is kept |
| `OrderForm.App.SetCuenta` | App.tsx:251 | sets the account field only; the invariant is kept |
| `OrderForm.App.SetNombreRud` | App.tsx:340 | sets the requester's name field only; the invariant is kept |
| `OrderForm.App.SetRecibidoPor` | App.tsx:344 | sets the receiver's name field only; the invariant is kept |
| `OrderForm.App.PdfDisabled` | App.tsx:222 | in a valid state the button is enabled iff nothing is loading and an article with a code is selected |
| `OrderForm.App.GeneratePdf` | App.tsx:61-204 | afterwards the loading flag is false and item and metadata are unchanged, on success and on failure; on success the renderer receives the header values, the six labels and the 16-row body |
| `OrderForm.PrintFrijolOrder` | App.tsx:37-146 | choosing "Frijol Negro", asking for 10 and printing yields first row `0103, Frijol Negro, KG, 10, "", ""` |
| `ItemList.Cards` | components/ItemList.tsx:39-52 | one card per item in list order; a card is expanded iff its id is the expanded id; every card is deletable iff there are two or more items |
| `ItemList.Render` | components/ItemList.tsx:32-54 | an empty list shows the empty-state message; otherwise the non-empty card list |
| `ItemList.ExpandedCountOfFlagged` | components/ItemList.tsx:44 | among cards with distinct ids flagged for an id, exactly one is expanded if some card has that id, none otherwise |
| `ItemList.NoneExpandedWhenNull` | components/ItemList.tsx:44 | with no expanded id no card is expanded |
| `ItemList.AtMostOneExpanded` | components/ItemList.tsx:44 | with distinct item ids, exactly one card is expanded if the expanded id is an item's, else none |
| `ItemList.SoleItemNotDeletable` | components/ItemList.tsx:48 | all cards share one deletable flag, and a sole item is not deletable |
| `ItemList.ExpandThenRender` | components/ItemList.tsx:45 | after a card's expand callback, that card and (with distinct ids) no other is expanded |
| `ItemList.CollapseThenRender` | components/ItemList.tsx:46 | after any card's collapse callback, no card is expanded |

## Left out

- PDF drawing (fonts, coordinates, boxes, lines, table styling, the page-footer hook, opening the output window): calls into the jsPDF library, which is not part of this model. Only the data handed to it is modelled; styled cells are their content string.
- The point at which the renderer throws: `GeneratePdf` takes it as a parameter and treats any failure as "no document".
- `console.error` and `alert` on failure: I/O. The model keeps only that the loading flag ends false.
- The formatted date: it depends on the clock and the locale, so it is a constructor parameter.
- The loading flag as a visible state: the PDF handler runs synchronously from the button's click and React applies both flag updates together, so no render ever shows it true. On every path the flag is false again when the handler returns; the model sets and clears it within one call, and `App.Valid()` keeps it false between handlers.
- JSX rendering and styling of all components, including the item card, header, metadata form, signature fields and logo.
- Adding and deleting items, and the ids they generate: their handlers are not in the modelled files; the list only receives them as callbacks.
- The quantity-to-words converter: not in the modelled files.
- The article shape in `types.ts` (`Codigo`, `Articulo`, `Unidad Medida`): it belongs to another revision. The list view keeps only the item's `id` beside the form's item fields.
