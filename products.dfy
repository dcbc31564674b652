/** Record shapes of the product catalog: a stored product, the body of a
    create or full-replace request, and the body of a partial update. */
module Products {

  datatype Option<T> = None | Some(value: T) {
    /** The carried value, or `default` when there is none. */
    function GetOr(default: T): T {
      match this
      case Some(v) => v
      case None => default
    }
  }

  /** Prices are floating-point values in the service, but no operation ever
      computes with them: they are only copied from requests into records. */
  type Price = real

  /** A stored record: the server-assigned `id` plus the four data fields. */
  datatype Product = Product(id: int, nombre: string, precio: Price, categoria: string, stock: int)

  /** The body of a create (POST) or full-replace (PUT) request: no id. */
  datatype ProductInput = ProductInput(nombre: string, precio: Price, categoria: string, stock: int)

  /** The body of a partial update (PATCH): every field may be absent. */
  datatype PartialProduct = PartialProduct(
    nombre: Option<string>,
    precio: Option<Price>,
    categoria: Option<string>,
    stock: Option<int>)

  /** Outcome of a lookup: the record, or the "not found" error body. */
  datatype Lookup = Found(product: Product) | NotFound

  /** The record stored for request body `input` under identifier `id`. */
  function WithId(input: ProductInput, id: int): Product {
    Product(id, input.nombre, input.precio, input.categoria, input.stock)
  }

  /** A partial update that supplies every field of `input`. */
  function FullPatch(input: ProductInput): PartialProduct {
    PartialProduct(Some(input.nombre), Some(input.precio), Some(input.categoria), Some(input.stock))
  }

  /** A partial update that supplies no field. */
  function EmptyPatch(): PartialProduct {
    PartialProduct(None, None, None, None)
  }

  /** One record after a partial update: each supplied field is overwritten,
      each absent field and the id keep their old values. */
  function ApplyPatch(p: Product, patch: PartialProduct): (r: Product)
    ensures r.id == p.id
    ensures r.nombre == (match patch.nombre case Some(v) => v case None => p.nombre)
    ensures r.precio == (match patch.precio case Some(v) => v case None => p.precio)
    ensures r.categoria == (match patch.categoria case Some(v) => v case None => p.categoria)
    ensures r.stock == (match patch.stock case Some(v) => v case None => p.stock)
  {
    p.(nombre := patch.nombre.GetOr(p.nombre),
       precio := patch.precio.GetOr(p.precio),
       categoria := patch.categoria.GetOr(p.categoria),
       stock := patch.stock.GetOr(p.stock))
  }

  /** Applying the same partial update twice is the same as applying it once. */
  lemma ApplyPatchIdempotent(p: Product, patch: PartialProduct)
    ensures ApplyPatch(ApplyPatch(p, patch), patch) == ApplyPatch(p, patch)
  {
  }

  /** A partial update with every field absent leaves the record as it was. */
  lemma ApplyEmptyPatch(p: Product)
    ensures ApplyPatch(p, EmptyPatch()) == p
  {
  }

  /** A partial update that supplies every field is a full replacement that
      keeps the id. */
  lemma ApplyFullPatch(p: Product, input: ProductInput)
    ensures ApplyPatch(p, FullPatch(input)) == WithId(input, p.id)
  {
  }
}
