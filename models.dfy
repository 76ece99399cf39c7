/** The rows of the three tables, and the request and response shapes of the controllers. */
module Models {
  import opened Common

  /** A row of `categorias` (categorias/models.py). The integer `pk_id` column is left out:
      no controller ever supplies or reads it. */
  datatype Categoria = Categoria(id: Uuid, nome: string)

  /** A row of `centro_treinamento` (centro_treinamento/models.py), `pk_id` left out as above.
      The controllers' output shape carries exactly these four fields. */
  datatype CentroTreinamento = CentroTreinamento(
    id: Uuid, nome: string, endereco: string, proprietario: string)

  /** A row of `atletas` (atleta/models.py). `peso` and `altura` are floats in the source;
      they are only stored and copied, so `real` stands for them. */
  datatype Atleta = Atleta(
    id: Uuid,
    nome: string,
    cpf: string,
    idade: int,
    peso: real,
    altura: real,
    sexo: string,
    createdAt: Timestamp,
    categoriaId: Uuid,
    centroTreinamentoId: Uuid)

  datatype CategoriaIn = CategoriaIn(nome: string)

  datatype CentroTreinamentoIn = CentroTreinamentoIn(
    nome: string, endereco: string, proprietario: string)

  /** Athlete create body: the category and the training centre are given by NAME. */
  datatype AtletaIn = AtletaIn(
    nome: string,
    cpf: string,
    idade: int,
    peso: real,
    altura: real,
    sexo: string,
    categoria: string,
    centroTreinamento: string)

  /** Athlete response: the referenced rows are embedded, never bare foreign ids.
      `updated_at` is not here: the athlete row has no such column. */
  datatype AtletaOut = AtletaOut(
    id: Uuid,
    nome: string,
    cpf: string,
    idade: int,
    peso: real,
    altura: real,
    sexo: string,
    createdAt: Timestamp,
    categoria: Categoria,
    centroTreinamento: CentroTreinamento)

  /** The athlete fields a partial update may set. */
  datatype AtletaField = Nome | Idade | Peso | Altura

  /** One `key: value` item of `model_dump(exclude_unset=True)` of an athlete update. */
  datatype AtletaUpdate =
    | SetNome(nome: string)
    | SetIdade(idade: int)
    | SetPeso(peso: real)
    | SetAltura(altura: real)

  function Key(u: AtletaUpdate): AtletaField
  {
    match u
    case SetNome(_) => Nome
    case SetIdade(_) => Idade
    case SetPeso(_) => Peso
    case SetAltura(_) => Altura
  }

  /** The items of a dictionary: no key twice. */
  predicate DistinctKeys(u: seq<AtletaUpdate>)
  {
    forall i, j :: 0 <= i < j < |u| ==> Key(u[i]) != Key(u[j])
  }
}
