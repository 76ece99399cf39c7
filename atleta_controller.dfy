/** The athlete endpoints: create (with reference resolution and the cpf check), list, get,
    partial update and delete. (As written the controller imports `AtletaIn`, `AtletaOut` and
    `AtletaUpdate`, which the schema module does not define, and every output reads an
    `updated_at` the athlete row does not have; the model follows the evident intent and
    leaves `updated_at` out of the output.) */
module AtletaController {
  import opened Common
  import opened Models
  import opened Tables
  import opened Database

  /** `o` is the response for row `a`: its own fields copied, and the category and the
      centre its two foreign keys name embedded in place of the ids. */
  ghost predicate Describes(o: AtletaOut, a: Atleta, cs: seq<Categoria>, ts: seq<CentroTreinamento>)
  {
    o.id == a.id && o.nome == a.nome && o.cpf == a.cpf && o.idade == a.idade &&
    o.peso == a.peso && o.altura == a.altura && o.sexo == a.sexo && o.createdAt == a.createdAt &&
    o.categoria in cs && o.categoria.id == a.categoriaId &&
    o.centroTreinamento in ts && o.centroTreinamento.id == a.centroTreinamentoId
  }

  function ToOut(a: Atleta, c: Categoria, t: CentroTreinamento): AtletaOut
  {
    AtletaOut(a.id, a.nome, a.cpf, a.idade, a.peso, a.altura, a.sexo, a.createdAt, c, t)
  }

  /** The response for a stored athlete, its references looked up by id. */
  function Embed(db: Store, a: Atleta): (o: AtletaOut)
    reads db
    requires db.Valid() && a in db.atletas
    ensures Describes(o, a, db.categorias, db.centros)
  {
    var c := CategoriaById(db.categorias, a.categoriaId);
    var t := CentroById(db.centros, a.centroTreinamentoId);
    ToOut(a, c.value, t.value)
  }

  /** POST /atleta. The category is resolved by name first, then the centre, then the cpf
      is checked; only then is the row built and written. */
  method Post(db: Store, atletaIn: AtletaIn, atletaId: Uuid, now: Timestamp, fault: Fault)
    returns (r: Result<AtletaOut>)
    requires db.Valid()
    requires AtletaIndex(db.atletas, atletaId).None?  // uuid4() is fresh
    modifies db
    ensures db.Valid()
    ensures db.categorias == old(db.categorias) && db.centros == old(db.centros)
    ensures CategoriaNamed(db.categorias, atletaIn.categoria).None? ==>
      r == Err(BadRequest(CategoriaNome(atletaIn.categoria))) && db.atletas == old(db.atletas)
    ensures CategoriaNamed(db.categorias, atletaIn.categoria).Some? &&
            CentroNamed(db.centros, atletaIn.centroTreinamento).None? ==>
      r == Err(BadRequest(CentroTreinamentoNome(atletaIn.centroTreinamento))) &&
      db.atletas == old(db.atletas)
    ensures CategoriaNamed(db.categorias, atletaIn.categoria).Some? &&
            CentroNamed(db.centros, atletaIn.centroTreinamento).Some? &&
            AtletaWithCpf(old(db.atletas), atletaIn.cpf).Some? ==>
      r == Err(Conflict(atletaIn.cpf)) && db.atletas == old(db.atletas)
    ensures CategoriaNamed(db.categorias, atletaIn.categoria).Some? &&
            CentroNamed(db.centros, atletaIn.centroTreinamento).Some? &&
            AtletaWithCpf(old(db.atletas), atletaIn.cpf).None? ==>
      var categoria := CategoriaNamed(db.categorias, atletaIn.categoria).value;
      var centro := CentroNamed(db.centros, atletaIn.centroTreinamento).value;
      var atleta := Atleta(atletaId, atletaIn.nome, atletaIn.cpf, atletaIn.idade, atletaIn.peso,
                           atletaIn.altura, atletaIn.sexo, now, categoria.id, centro.id);
      match fault
      case CommitFails =>
        // rolled back before anything was committed
        r == Err(InternalError) && db.atletas == old(db.atletas)
      case FailsAfterCommit =>
        // the rollback comes after the commit and undoes nothing
        r == Err(InternalError) && db.atletas == old(db.atletas) + [atleta]
      case NoFault =>
        r == Ok(ToOut(atleta, categoria, centro)) && db.atletas == old(db.atletas) + [atleta]
    ensures r.Ok? ==> r.value.categoria.nome == atletaIn.categoria &&
                      r.value.centroTreinamento.nome == atletaIn.centroTreinamento &&
                      Describes(r.value, db.atletas[|db.atletas| - 1], db.categorias, db.centros) &&
                      Get(db, atletaId) == r
  {
    var categoria := CategoriaNamed(db.categorias, atletaIn.categoria);
    if categoria.None? {
      return Err(BadRequest(CategoriaNome(atletaIn.categoria)));
    }
    var centro := CentroNamed(db.centros, atletaIn.centroTreinamento);
    if centro.None? {
      return Err(BadRequest(CentroTreinamentoNome(atletaIn.centroTreinamento)));
    }
    var cpfExists := AtletaWithCpf(db.atletas, atletaIn.cpf);
    if cpfExists.Some? {
      return Err(Conflict(atletaIn.cpf));
    }

    // try:
    var atleta := Atleta(atletaId, atletaIn.nome, atletaIn.cpf, atletaIn.idade, atletaIn.peso,
                         atletaIn.altura, atletaIn.sexo, now, categoria.value.id, centro.value.id);
    if fault == CommitFails {
      return Err(InternalError);
    }
    // db_session.add + commit; the engine's unique and foreign-key constraints hold already
    InsertedAtletaValid(db.atletas, atleta);
    db.atletas := db.atletas + [atleta];
    if fault == FailsAfterCommit {
      return Err(InternalError);
    }
    // re-read the row by its id to build the response
    var k := AtletaIndex(db.atletas, atletaId);
    assert db.atletas[|db.atletas| - 1] == atleta;
    assert k.value == |db.atletas| - 1;
    var stored := db.atletas[k.value];
    r := Ok(ToOut(stored, categoria.value, centro.value));
    GetFindsStored(db, |db.atletas| - 1, r.value);
  }

  /** Appending a row whose id is fresh and whose cpf is new keeps the athlete table's
      unique columns unique. */
  lemma InsertedAtletaValid(s: seq<Atleta>, a: Atleta)
    requires AtletasUnique(s)
    requires forall x :: x in s ==> x.id != a.id && x.cpf != a.cpf
    ensures AtletasUnique(s + [a])
  {
  }

  /** GET /atleta: one response per stored athlete, in table order, each with the category
      and the centre its foreign keys name. */
  method Query(db: Store) returns (result: seq<AtletaOut>)
    requires db.Valid()
    ensures |result| == |db.atletas|
    ensures forall i :: 0 <= i < |result| ==>
      Describes(result[i], db.atletas[i], db.categorias, db.centros)
  {
    var atletas := db.atletas;
    result := [];
    for i := 0 to |atletas|
      invariant |result| == i
      invariant forall j :: 0 <= j < i ==> Describes(result[j], atletas[j], db.categorias, db.centros)
    {
      var atleta := atletas[i];
      assert atleta in db.atletas;
      var categoria := CategoriaById(db.categorias, atleta.categoriaId);
      var centro := CentroById(db.centros, atleta.centroTreinamentoId);
      result := result + [ToOut(atleta, categoria.value, centro.value)];
    }
  }

  /** GET /atleta/{id} */
  function Get(db: Store, id: Uuid): (r: Result<AtletaOut>)
    reads db
    requires db.Valid()
    ensures r.Err? <==> forall a :: a in db.atletas ==> a.id != id
    ensures r.Err? ==> r.error == NotFound
    ensures r.Ok? ==> exists i :: 0 <= i < |db.atletas| && db.atletas[i].id == id &&
                                  Describes(r.value, db.atletas[i], db.categorias, db.centros)
  {
    match AtletaIndex(db.atletas, id)
    case None => Err(NotFound)
    case Some(k) => Ok(Embed(db, db.atletas[k]))
  }

  /** Describing a stored row determines the response, and it is what `Get` of that row's
      id returns: list and get agree. */
  lemma GetFindsStored(db: Store, i: nat, o: AtletaOut)
    requires db.Valid() && i < |db.atletas|
    requires Describes(o, db.atletas[i], db.categorias, db.centros)
    ensures Get(db, db.atletas[i].id) == Ok(o)
  {
  }

  /** The value the update item for field `f` would need to leave `a` as it is. */
  function Current(a: Atleta, f: AtletaField): AtletaUpdate
  {
    match f
    case Nome => SetNome(a.nome)
    case Idade => SetIdade(a.idade)
    case Peso => SetPeso(a.peso)
    case Altura => SetAltura(a.altura)
  }

  /** The fields no update item can touch: the key, the cpf, `sexo`, the creation time and
      both foreign keys. */
  ghost predicate SameIdentity(a: Atleta, b: Atleta)
  {
    a.id == b.id && a.cpf == b.cpf && a.sexo == b.sexo && a.createdAt == b.createdAt &&
    a.categoriaId == b.categoriaId && a.centroTreinamentoId == b.centroTreinamentoId
  }

  /** `setattr(atleta, key, value)` for one update item. */
  function SetAttr(a: Atleta, u: AtletaUpdate): (r: Atleta)
    ensures Current(r, Key(u)) == u
    ensures forall f :: f != Key(u) ==> Current(r, f) == Current(a, f)
    ensures SameIdentity(a, r)
  {
    match u
    case SetNome(v) => a.(nome := v)
    case SetIdade(v) => a.(idade := v)
    case SetPeso(v) => a.(peso := v)
    case SetAltura(v) => a.(altura := v)
  }

  /** The row after the `for key, value in atleta_update.items()` loop: every item applied,
      in order. */
  function ApplyUpdates(a: Atleta, u: seq<AtletaUpdate>): (r: Atleta)
    ensures SameIdentity(a, r)
  {
    if u == [] then a else SetAttr(ApplyUpdates(a, u[..|u| - 1]), u[|u| - 1])
  }

  /** After a partial update, a field holds the supplied value when the update supplies it,
      and its old value otherwise. */
  lemma {:induction false} ApplyUpdatesField(a: Atleta, u: seq<AtletaUpdate>, f: AtletaField)
    requires DistinctKeys(u)
    ensures (forall k :: 0 <= k < |u| ==> Key(u[k]) != f) ==>
      Current(ApplyUpdates(a, u), f) == Current(a, f)
    ensures forall k :: 0 <= k < |u| && Key(u[k]) == f ==> Current(ApplyUpdates(a, u), f) == u[k]
  {
    if u != [] {
      var init := u[..|u| - 1];
      assert DistinctKeys(init) by {
        forall i, j | 0 <= i < j < |init| ensures Key(init[i]) != Key(init[j]) {
          assert init[i] == u[i] && init[j] == u[j];
        }
      }
      ApplyUpdatesField(a, init, f);
      forall k | 0 <= k < |u| - 1
        ensures Key(init[k]) == Key(u[k])
      {
        assert init[k] == u[k];
      }
    }
  }

  /** Supplying the same update twice changes nothing the first time did not. */
  lemma ApplyUpdatesIdempotent(a: Atleta, u: seq<AtletaUpdate>)
    requires DistinctKeys(u)
    ensures ApplyUpdates(ApplyUpdates(a, u), u) == ApplyUpdates(a, u)
  {
    var once := ApplyUpdates(a, u);
    var twice := ApplyUpdates(once, u);
    forall f: AtletaField ensures Current(twice, f) == Current(once, f) {
      ApplyUpdatesField(a, u, f);
      ApplyUpdatesField(once, u, f);
    }
    assert Current(twice, Nome) == Current(once, Nome);
    assert Current(twice, Idade) == Current(once, Idade);
    assert Current(twice, Peso) == Current(once, Peso);
    assert Current(twice, Altura) == Current(once, Altura);
  }

  /** PATCH /atleta/{id}: the row is fetched, each supplied item set on it in turn, and the
      result committed; no other row and no other field changes. */
  method Patch(db: Store, id: Uuid, atletaUp: seq<AtletaUpdate>, commitFails: bool)
    returns (r: Result<AtletaOut>)
    requires db.Valid()
    requires DistinctKeys(atletaUp)
    modifies db
    ensures db.Valid()
    ensures db.categorias == old(db.categorias) && db.centros == old(db.centros)
    ensures AtletaIndex(old(db.atletas), id).None? ==>
      r == Err(NotFound) && db.atletas == old(db.atletas)
    ensures AtletaIndex(old(db.atletas), id).Some? && commitFails ==>
      r == Err(InternalError) && db.atletas == old(db.atletas)
    ensures AtletaIndex(old(db.atletas), id).Some? && !commitFails ==>
      |db.atletas| == |old(db.atletas)| &&
      (forall i :: 0 <= i < |db.atletas| ==>
        db.atletas[i] == if old(db.atletas[i]).id == id
                         then ApplyUpdates(old(db.atletas[i]), atletaUp)
                         else old(db.atletas[i])) &&
      r.Ok? && Get(db, id) == r
  {
    var k := AtletaIndex(db.atletas, id);
    if k.None? {
      return Err(NotFound);
    }
    var atleta := db.atletas[k.value];
    for i := 0 to |atletaUp|
      invariant atleta == ApplyUpdates(db.atletas[k.value], atletaUp[..i])
    {
      assert atletaUp[..i + 1][..i] == atletaUp[..i];
      atleta := SetAttr(atleta, atletaUp[i]);
    }
    assert atletaUp[..|atletaUp|] == atletaUp;
    if commitFails {
      return Err(InternalError);
    }
    ghost var before := db.atletas;
    db.atletas := db.atletas[k.value := atleta];
    assert forall i :: 0 <= i < |before| && i != k.value ==> before[i].id != id;
    assert db.atletas[k.value] == atleta;
    assert atleta in db.atletas;
    r := Ok(Embed(db, atleta));
    GetFindsStored(db, k.value, r.value);
  }

  /** DELETE /atleta/{id}: the row with that id is removed and the rest kept in order. */
  method Delete(db: Store, id: Uuid, commitFails: bool) returns (r: Result<()>)
    requires db.Valid()
    modifies db
    ensures db.Valid()
    ensures db.categorias == old(db.categorias) && db.centros == old(db.centros)
    ensures AtletaIndex(old(db.atletas), id).None? ==>
      r == Err(NotFound) && db.atletas == old(db.atletas)
    ensures AtletaIndex(old(db.atletas), id).Some? && commitFails ==>
      r == Err(InternalError) && db.atletas == old(db.atletas)
    ensures AtletaIndex(old(db.atletas), id).Some? && !commitFails ==>
      r == Ok(()) && db.atletas == RemoveAt(old(db.atletas), AtletaIndex(old(db.atletas), id).value)
    ensures r.Ok? ==> Get(db, id) == Err(NotFound)
  {
    var k := AtletaIndex(db.atletas, id);
    if k.None? {
      return Err(NotFound);
    }
    if commitFails {
      return Err(InternalError);
    }
    DeletedAtletaGone(db.atletas, k.value);
    db.atletas := RemoveAt(db.atletas, k.value);
    r := Ok(());
  }

  /** Removing the row at `k` leaves the table's constraints intact and no row with its id. */
  lemma DeletedAtletaGone(s: seq<Atleta>, k: nat)
    requires AtletasUnique(s) && k < |s|
    ensures AtletasUnique(RemoveAt(s, k))
    ensures forall a :: a in RemoveAt(s, k) ==> a.id != s[k].id
    ensures forall a :: a in RemoveAt(s, k) ==> a in s
  {
  }
}
