/** The category endpoints: create, list and get by id. There is no update or delete. */
module CategoriasController {
  import opened Common
  import opened Models
  import opened Database

  /** POST /categoria. The controller builds the output with a fresh id and the input's
      `nome` and adds it without reading the table first; only the engine's unique `nome`
      column can turn a duplicate away, as an uncaught error, hence a 500 and not a 409.
      (As written, lines 19-22 build the output without the `pk_id`, `created_at` and
      `updated_at` the output schema requires, and pass an `id` the schema forbids as an
      extra field, so validation fails before any write; the model follows the evident
      intent, an output of `id` and `nome`.) */
  method CreateCategoria(db: Store, categoriaIn: CategoriaIn, categoriaId: Uuid, commitFails: bool)
    returns (r: Result<Categoria>)
    requires db.Valid()
    requires CategoriaById(db.categorias, categoriaId).None?  // uuid4() is fresh
    modifies db
    ensures db.Valid()
    ensures db.centros == old(db.centros) && db.atletas == old(db.atletas)
    ensures commitFails || CategoriaNamed(old(db.categorias), categoriaIn.nome).Some? ==>
      r == Err(InternalError) && db.categorias == old(db.categorias)
    ensures !commitFails && CategoriaNamed(old(db.categorias), categoriaIn.nome).None? ==>
      r == Ok(Categoria(categoriaId, categoriaIn.nome)) &&
      db.categorias == old(db.categorias) + [r.value]
    ensures r.Ok? ==> GetCategoriaById(db, categoriaId) == r
  {
    var categoriaOut := Categoria(categoriaId, categoriaIn.nome);
    var committed := db.CommitCategoria(categoriaOut, commitFails);
    if !committed {
      return Err(InternalError);
    }
    CreatedCategoriaFound(old(db.categorias), categoriaOut);
    r := Ok(categoriaOut);
  }

  /** GET /categoria: every stored category, in table order. (As written, line 33 assigns
      to `list[CategoriaOut]` and raises; the model follows the evident intent.) */
  function GetCategoria(db: Store): (r: seq<Categoria>)
    reads db
    ensures |r| == |db.categorias|
    ensures forall i :: 0 <= i < |r| ==> r[i] == db.categorias[i]
  {
    db.categorias
  }

  /** GET /categoria/{id} */
  function GetCategoriaById(db: Store, categoriaId: Uuid): (r: Result<Categoria>)
    reads db
    ensures r.Ok? ==> r.value in db.categorias && r.value.id == categoriaId
    ensures r.Err? <==> forall c :: c in db.categorias ==> c.id != categoriaId
    ensures r.Err? ==> r.error == NotFound
  {
    match CategoriaById(db.categorias, categoriaId)
    case None => Err(NotFound)
    case Some(c) => Ok(c)
  }

  /** A category appended under a fresh id is what a lookup of that id finds. */
  lemma CreatedCategoriaFound(cs: seq<Categoria>, c: Categoria)
    requires forall x :: x in cs ==> x.id != c.id
    ensures CategoriaById(cs + [c], c.id) == Some(c)
  {
  }

  /** A category is listed exactly when the lookup of its id returns it. */
  lemma ListedCategoriaFound(db: Store, c: Categoria)
    requires db.Valid()
    ensures c in GetCategoria(db) <==> GetCategoriaById(db, c.id) == Ok(c)
  {
  }
}
