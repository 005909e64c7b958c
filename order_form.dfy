/**
 * The order form page: its state slots (the item, the header and signature
 * fields, the loading flag), the handlers that update them, and PDF
 * generation as far as the data handed to the document renderer.
 */
module OrderForm {
  import opened Wrappers
  import opened Articles
  import opened OrderItem
  import opened PrintTable

  /** Everything the renderer receives: header values, table head and body, signature names. */
  datatype PrintJob = PrintJob(
    partida: string,
    unidad: string,
    fecha: string,
    servicio: string,
    cuenta: string,
    head: seq<string>,
    body: seq<seq<string>>,
    nombreRud: string,
    recibidoPor: string)

  class App {
    const partida: string
    const unidad: string
    const fecha: string
    var servicio: string
    var cuenta: string
    var recibidoPor: string
    var nombreRud: string
    var isLoading: bool
    var item: Item

    /**
     * The item's article triple is consistent, the warehouse quantity is never
     * filled in, and between handlers nothing is loading.
     */
    ghost predicate Valid()
      reads this
    {
      ArticleConsistent(item) && item.cantidadSurtida == "" && !isLoading
    }

    /** The initial state; `fecha` is the formatted date of the day the page opened. */
    constructor (fecha: string)
      ensures Valid()
      ensures partida == "2212" && unidad == "Fray Antonio Alcalde" && this.fecha == fecha
      ensures servicio == "" && cuenta == "" && recibidoPor == "" && nombreRud == ""
      ensures !isLoading && item == InitialItem
    {
      partida := "2212";
      unidad := "Fray Antonio Alcalde";
      this.fecha := fecha;
      servicio, cuenta, recibidoPor, nombreRud := "", "", "", "";
      isLoading := false;
      item := InitialItem;
    }

    /** Typing into the requested-quantity or the notes input. */
    method HandleItemChange(field: EditableField, value: string)
      requires Valid()
      modifies this
      ensures Valid()
      ensures item == ItemWithField(old(item), field, value)
      ensures servicio == old(servicio) && cuenta == old(cuenta) && recibidoPor == old(recibidoPor)
      ensures nombreRud == old(nombreRud) && isLoading == old(isLoading)
    {
      item := ItemWithField(item, field, value);
    }

    /** Choosing an entry of the article dropdown, identified by its description. */
    method HandleArticleChange(selectedDescription: string)
      requires Valid()
      modifies this
      ensures Valid()
      ensures item == ItemWithArticle(old(item), selectedDescription)
      ensures servicio == old(servicio) && cuenta == old(cuenta) && recibidoPor == old(recibidoPor)
      ensures nombreRud == old(nombreRud) && isLoading == old(isLoading)
    {
      ItemWithArticleConsistent(item, selectedDescription);
      item := ItemWithArticle(item, selectedDescription);
    }

    /** Typing into the service input. */
    method SetServicio(value: string)
      requires Valid()
      modifies this
      ensures Valid()
      ensures servicio == value
      ensures item == old(item) && cuenta == old(cuenta) && recibidoPor == old(recibidoPor)
      ensures nombreRud == old(nombreRud) && isLoading == old(isLoading)
    {
      servicio := value;
    }

    /** Typing into the account input. */
    method SetCuenta(value: string)
      requires Valid()
      modifies this
      ensures Valid()
      ensures cuenta == value
      ensures item == old(item) && servicio == old(servicio) && recibidoPor == old(recibidoPor)
      ensures nombreRud == old(nombreRud) && isLoading == old(isLoading)
    {
      cuenta := value;
    }

    /** Typing into the requester's name-and-RUD input. */
    method SetNombreRud(value: string)
      requires Valid()
      modifies this
      ensures Valid()
      ensures nombreRud == value
      ensures item == old(item) && servicio == old(servicio) && cuenta == old(cuenta)
      ensures recibidoPor == old(recibidoPor) && isLoading == old(isLoading)
    {
      nombreRud := value;
    }

    /** Typing into the warehouse receiver's input. */
    method SetRecibidoPor(value: string)
      requires Valid()
      modifies this
      ensures Valid()
      ensures recibidoPor == value
      ensures item == old(item) && servicio == old(servicio) && cuenta == old(cuenta)
      ensures nombreRud == old(nombreRud) && isLoading == old(isLoading)
    {
      recibidoPor := value;
    }

    /** Whether the PDF button is disabled in the current state. */
    function PdfDisabled(): (disabled: bool)
      reads this
      requires Valid()
      ensures !disabled <==> !isLoading && item.codigo != ""
    {
      PdfButtonEnabledIffArticleChosen(isLoading, item);
      PdfButtonDisabled(isLoading, item)
    }

    /**
     * Generating the PDF. `rendererFails` stands for the document library
     * throwing; then no document is produced. Either way the loading flag
     * ends false and no other state changes.
     */
    method GeneratePdf(rendererFails: bool) returns (job: Option<PrintJob>)
      requires Valid()
      modifies this
      ensures Valid() && !isLoading
      ensures item == old(item) && servicio == old(servicio) && cuenta == old(cuenta)
      ensures recibidoPor == old(recibidoPor) && nombreRud == old(nombreRud)
      ensures job.None? <==> rendererFails
      ensures job.Some? ==> |job.value.body| == TotalRowsOnForm && job.value.body[0] == ItemRow(item)
      ensures job.Some? ==> forall k :: 1 <= k < TotalRowsOnForm ==> job.value.body[k] == BlankRow
      ensures job.Some? ==> job.value == PrintJob(partida, unidad, fecha, servicio, cuenta, TableColumn,
                                                  job.value.body, nombreRud, recibidoPor)
    {
      isLoading := true;
      if rendererFails {
        job := None;
      } else {
        var tableRows := BuildTableRows(item);
        job := Some(PrintJob(partida, unidad, fecha, servicio, cuenta, TableColumn, tableRows, nombreRud, recibidoPor));
      }
      isLoading := false;
    }
  }

  /**
   * A clerk opens the form, picks "Frijol Negro", asks for 10 and prints:
   * the first printed row carries the article, the quantity and nothing else.
   */
  method PrintFrijolOrder(fecha: string) returns (job: Option<PrintJob>)
    ensures job.Some? && |job.value.body| == TotalRowsOnForm
    ensures job.value.body[0] == ["0103", "Frijol Negro", "KG", "10", "", ""]
    ensures job.value.fecha == fecha && job.value.head == TableColumn
  {
    var app := new App(fecha);
    app.HandleArticleChange("Frijol Negro");
    app.HandleItemChange(CantidadPedida, "10");
    assert ArticulosDisponibles[3].descripcion == "Frijol Negro";
    job := app.GeneratePdf(false);
  }
}
