/** The relational store the controllers work against, held in memory: three tables, each a
    sequence of rows (kept in insertion order, an order the queries themselves do not fix),
    and the lookups the controllers issue against them. */
module Database {
  import opened Common
  import opened Models
  import opened Tables

  /** `select(CategoriaModel).filter_by(nome=nome).first()` */
  function CategoriaNamed(cs: seq<Categoria>, nome: string): (r: Option<Categoria>)
    ensures r.Some? ==> r.value in cs && r.value.nome == nome
    ensures r.None? <==> forall c :: c in cs ==> c.nome != nome
  {
    FindBy(cs, (c: Categoria) => c.nome, nome)
  }

  /** `select(CategoriaModel).filter_by(id=id).first()` */
  function CategoriaById(cs: seq<Categoria>, id: Uuid): (r: Option<Categoria>)
    ensures r.Some? ==> r.value in cs && r.value.id == id
    ensures r.None? <==> forall c :: c in cs ==> c.id != id
  {
    FindBy(cs, (c: Categoria) => c.id, id)
  }

  /** `select(CentroTreinamentoModel).filter_by(nome=nome).first()` */
  function CentroNamed(ts: seq<CentroTreinamento>, nome: string): (r: Option<CentroTreinamento>)
    ensures r.Some? ==> r.value in ts && r.value.nome == nome
    ensures r.None? <==> forall t :: t in ts ==> t.nome != nome
  {
    FindBy(ts, (t: CentroTreinamento) => t.nome, nome)
  }

  /** `select(CentroTreinamentoModel).filter_by(id=id).first()` */
  function CentroById(ts: seq<CentroTreinamento>, id: Uuid): (r: Option<CentroTreinamento>)
    ensures r.Some? ==> r.value in ts && r.value.id == id
    ensures r.None? <==> forall t :: t in ts ==> t.id != id
  {
    FindBy(ts, (t: CentroTreinamento) => t.id, id)
  }

  /** `select(AtletaModel).filter_by(id=id).first()`, as the position of the row, so that
      the callers can update or delete it in place. */
  function AtletaIndex(s: seq<Atleta>, id: Uuid): (r: Option<nat>)
    ensures r.Some? ==> r.value < |s| && s[r.value].id == id
    ensures r.None? <==> forall a :: a in s ==> a.id != id
  {
    FirstWhere(s, (a: Atleta) => a.id == id)
  }

  /** `select(AtletaModel).filter_by(cpf=cpf).first()` */
  function AtletaWithCpf(s: seq<Atleta>, cpf: string): (r: Option<Atleta>)
    ensures r.Some? ==> r.value in s && r.value.cpf == cpf
    ensures r.None? <==> forall a :: a in s ==> a.cpf != cpf
  {
    FindBy(s, (a: Atleta) => a.cpf, cpf)
  }

  ghost function CategoriaIds(cs: seq<Categoria>): set<Uuid>
  {
    set c | c in cs :: c.id
  }

  ghost function CentroIds(ts: seq<CentroTreinamento>): set<Uuid>
  {
    set t | t in ts :: t.id
  }

  /** Distinct ids, and the `unique=True` column `nome` (categorias/models.py). The table's
      declared primary key is the pair (`id`, `pk_id`); with `pk_id` left out, distinct ids
      come from `uuid4()` being fresh at every insert, not from a declared constraint. */
  ghost predicate CategoriasUnique(cs: seq<Categoria>)
  {
    forall i, j :: 0 <= i < j < |cs| ==> cs[i].id != cs[j].id && cs[i].nome != cs[j].nome
  }

  /** Distinct ids, and the `unique=True` column `nome` (centro_treinamento/models.py). As for
      categories, distinct ids come from fresh `uuid4()` values, not from a declared key. */
  ghost predicate CentrosUnique(ts: seq<CentroTreinamento>)
  {
    forall i, j :: 0 <= i < j < |ts| ==> ts[i].id != ts[j].id && ts[i].nome != ts[j].nome
  }

  /** The primary key `id` (contrib/models.py) and the `unique=True` column `cpf`
      (atleta/models.py). */
  ghost predicate AtletasUnique(s: seq<Atleta>)
  {
    forall i, j :: 0 <= i < j < |s| ==> s[i].id != s[j].id && s[i].cpf != s[j].cpf
  }

  /** The database session: the three tables the controllers read and write. */
  class Store {
    var categorias: seq<Categoria>
    var centros: seq<CentroTreinamento>
    var atletas: seq<Atleta>

    /** Distinct ids in every table (fresh `uuid4()` values), the unique columns the schema
        declares (`nome`, `cpf`), and every athlete's two foreign keys naming live rows. No operation deletes a category or a centre, so
        the foreign keys, once checked at insert, stay valid. */
    ghost predicate Valid()
      reads this
    {
      CategoriasUnique(categorias) && CentrosUnique(centros) && AtletasUnique(atletas) &&
      forall a :: a in atletas ==>
        a.categoriaId in CategoriaIds(categorias) && a.centroTreinamentoId in CentroIds(centros)
    }

    /** An empty database. */
    constructor ()
      ensures Valid()
      ensures categorias == [] && centros == [] && atletas == []
    {
      categorias, centros, atletas := [], [], [];
    }

    /** `db.add(row)` then `await db.commit()` on `categorias`: the engine rejects the
        commit when it fails or when the row breaks the unique `nome` column, and then
        nothing is written. */
    method CommitCategoria(c: Categoria, fails: bool) returns (ok: bool)
      requires Valid()
      requires CategoriaById(categorias, c.id).None?
      modifies this
      ensures Valid()
      ensures ok <==> !fails && CategoriaNamed(old(categorias), c.nome).None?
      ensures categorias == if ok then old(categorias) + [c] else old(categorias)
      ensures centros == old(centros) && atletas == old(atletas)
    {
      ok := !fails && CategoriaNamed(categorias, c.nome).None?;
      if ok {
        categorias := categorias + [c];
      }
    }

    /** `db.add(row)` then `await db.commit()` on `centro_treinamento`, with the unique
        `nome` column enforced the same way. */
    method CommitCentro(t: CentroTreinamento, fails: bool) returns (ok: bool)
      requires Valid()
      requires CentroById(centros, t.id).None?
      modifies this
      ensures Valid()
      ensures ok <==> !fails && CentroNamed(old(centros), t.nome).None?
      ensures centros == if ok then old(centros) + [t] else old(centros)
      ensures categorias == old(categorias) && atletas == old(atletas)
    {
      ok := !fails && CentroNamed(centros, t.nome).None?;
      if ok {
        centros := centros + [t];
      }
    }
  }
}
