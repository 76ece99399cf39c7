/** The training-centre endpoints: create, list and get by id. There is no update or delete.
    A centre row has exactly the four fields of the output shape (`id`, `nome`, `endereco`,
    `proprietario`), so projecting a row onto the output keeps the row as it is. (As written
    the controller imports `CentroTreinamentoIn`/`CentroTreinamentoOut`, which the schema
    module does not define; the model follows the evident intent.) */
module CentroTreinamentoController {
  import opened Common
  import opened Models
  import opened Database

  /** POST /centro_treinamento: a fresh id plus the input fields, added without reading the
      table first; a duplicate `nome` is refused only by the engine, as an uncaught 500. */
  method CreateCentroTreinamento(db: Store, centroIn: CentroTreinamentoIn, centroId: Uuid,
                                 commitFails: bool)
    returns (r: Result<CentroTreinamento>)
    requires db.Valid()
    requires CentroById(db.centros, centroId).None?  // uuid4() is fresh
    modifies db
    ensures db.Valid()
    ensures db.categorias == old(db.categorias) && db.atletas == old(db.atletas)
    ensures commitFails || CentroNamed(old(db.centros), centroIn.nome).Some? ==>
      r == Err(InternalError) && db.centros == old(db.centros)
    ensures !commitFails && CentroNamed(old(db.centros), centroIn.nome).None? ==>
      r == Ok(CentroTreinamento(centroId, centroIn.nome, centroIn.endereco, centroIn.proprietario)) &&
      db.centros == old(db.centros) + [r.value]
    ensures r.Ok? ==> GetCentroTreinamentoById(db, centroId) == r
  {
    var centro := CentroTreinamento(centroId, centroIn.nome, centroIn.endereco, centroIn.proprietario);
    var committed := db.CommitCentro(centro, commitFails);
    if !committed {
      return Err(InternalError);
    }
    CreatedCentroFound(old(db.centros), centro);
    r := Ok(CentroTreinamento(centroId, centroIn.nome, centroIn.endereco, centroIn.proprietario));
  }

  /** GET /centro_treinamento: every stored centre, in table order, projected onto the
      output's `id`, `nome`, `endereco` and `proprietario`. */
  function GetCentroTreinamento(db: Store): (r: seq<CentroTreinamento>)
    reads db
    ensures |r| == |db.centros|
    ensures forall i :: 0 <= i < |r| ==>
      r[i].id == db.centros[i].id && r[i].nome == db.centros[i].nome &&
      r[i].endereco == db.centros[i].endereco && r[i].proprietario == db.centros[i].proprietario
  {
    var ts := db.centros;
    seq(|ts|, i requires 0 <= i < |ts| =>
      CentroTreinamento(ts[i].id, ts[i].nome, ts[i].endereco, ts[i].proprietario))
  }

  /** GET /centro_treinamento/{id} */
  function GetCentroTreinamentoById(db: Store, centroId: Uuid): (r: Result<CentroTreinamento>)
    reads db
    ensures r.Ok? ==> r.value in db.centros && r.value.id == centroId
    ensures r.Err? <==> forall t :: t in db.centros ==> t.id != centroId
    ensures r.Err? ==> r.error == NotFound
  {
    match CentroById(db.centros, centroId)
    case None => Err(NotFound)
    case Some(t) => Ok(CentroTreinamento(t.id, t.nome, t.endereco, t.proprietario))
  }

  /** A centre appended under a fresh id is what a lookup of that id finds. */
  lemma CreatedCentroFound(ts: seq<CentroTreinamento>, t: CentroTreinamento)
    requires forall x :: x in ts ==> x.id != t.id
    ensures CentroById(ts + [t], t.id) == Some(t)
  {
  }

  /** A centre is listed exactly when the lookup of its id returns it. */
  lemma ListedCentroFound(db: Store, t: CentroTreinamento)
    requires db.Valid()
    ensures t in GetCentroTreinamento(db) <==> GetCentroTreinamentoById(db, t.id) == Ok(t)
  {
  }
}
