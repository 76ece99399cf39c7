# Workout API: record management, modelled in Dafny

This project models the three controllers of the workout API (a FastAPI + SQLAlchemy service).
They manage athletes (`atleta`), categories (`categorias`) and training centres (`centro_treinamento`).
The database becomes a `Database.Store` object with three tables. Each table is a sequence of
rows, kept in insertion order. Each endpoint becomes a method or function that takes the store, as the
Python endpoints take `db_session`, and returns `Result<T>`. The error variants are `BadRequest`
(400), `NotFound` (404), `Conflict` (409) and `InternalError` (500).

Files:

- `common.dfy`: ids, timestamps, `Option`, `Result`, the error taxonomy, and the storage-fault parameter.
- `tables.dfy`: `.first()` over a filtered table, a lookup by one column, and removing one row.
- `models.dfy`: the rows of the three tables (`atleta/models.py`, `categorias/models.py`,
  `centro_treinamento/models.py`, `contrib/models.py`), plus request and response shapes and
  the items of an athlete update.
- `database.dfy`: the lookups the controllers issue, and the `Store` class. `Store.Valid()` holds
  distinct ids in every table, the unique columns the schema declares (category and centre
  `nome`, athlete `cpf`), and athlete foreign keys that name live rows. Only the athlete table
  declares `id` alone as its primary key. For categories and centres the declared key is the
  pair (`id`, `pk_id`), so there distinct ids come from the fresh `uuid4()` preconditions.
  `Store` also holds the engine's insert commit for categories and centres, which enforces the
  unique `nome`.
- `categorias_controller.dfy`, `centro_treinamento_controller.dfy`, `atleta_controller.dfy`:
  one module per controller.
- `scenarios.dfy`: a client that creates a category, a centre and an athlete, repeats the cpf,
  uses an unknown category, and deletes the athlete. It uses only the endpoints' contracts.

Inputs the service takes from its surroundings become parameters:

- the fresh `uuid4()` id is a parameter, with a freshness precondition;
- `datetime.utcnow()` is an opaque `Timestamp` parameter;
- a storage failure is a parameter: `commitFails` for most endpoints, and `Fault` for athlete
  create, which can fail before or after its commit.

Athlete create checks, in this order: the category name, the centre name, and then the cpf.
Every rejection leaves all three tables unchanged. A success appends exactly one row. That row
carries the resolved ids, and the response embeds the resolved rows. A failure at or before the
commit leaves the store unchanged. A failure after the commit also returns `InternalError`, but
the row stays stored, because a rollback after a commit undoes nothing.

Two behaviours of the code worth stating directly:

- The controllers never refuse a duplicate category or centre `nome`. Only the unique column
  does, at commit, as an uncaught error. So it yields 500 (`InternalError`), not 409.
- Categories and centres have no update or delete endpoint, so none is modelled.

Several source lines cannot run as written. The model follows the evident intent of the
controller bodies and says so in comments:

- missing schema names are imported at `atleta/controller.py:6` and
  `centro_treinamento/controller.py:5`;
- `categorias/controller.py:19-22` builds the output without the `pk_id`, `created_at` and
  `updated_at` the output schema requires, and passes an `id` that the schema's
  `extra = "forbid"` (`contrib/schemas.py:8`) refuses. So every category create fails
  validation before any write;
- `categorias/controller.py:33` assigns to `list[CategoriaOut]`;
- `updated_at` is read although the athlete row has no such column.

## Model

| member | source | states |
|---|---|---|
| `Tables.FirstWhere` | workoutapi/workout_api/atleta/controller.py:29-31 | `.first()` of a filtered table: the index of a matching row with no match before it, or None exactly when no row matches |
| `Tables.RemoveAt` | workoutapi/workout_api/atleta/controller.py:251-252 | deleting one row keeps every other row, in order |
| `Tables.FindBy` | workoutapi/workout_api/atleta/controller.py:29-31 | a lookup by one column: a stored row whose column equals the key, or None exactly when no row has that value |
| `Database.CategoriaNamed` | workoutapi/workout_api/atleta/controller.py:29-31 | category lookup by `nome`: a stored row with that name, or None exactly when no category has it |
| `Database.CategoriaById` | workoutapi/workout_api/categorias/controller.py:40 | category lookup by id: a stored row with that id, or None exactly when none has it |
| `Database.CentroNamed` | workoutapi/workout_api/atleta/controller.py:39-41 | centre lookup by `nome`: a stored row with that name, or None exactly when no centre has it |
| `Database.CentroById` | workoutapi/workout_api/centro_treinamento/controller.py:49 | centre lookup by id: a stored row with that id, or None exactly when none has it |
| `Database.AtletaIndex` | workoutapi/workout_api/atleta/controller.py:153-155 | athlete lookup by id: the position of a row with that id, or None exactly when none has it |
| `Database.AtletaWithCpf` | workoutapi/workout_api/atleta/controller.py:50-52 | the cpf check: a stored athlete with that cpf, or None exactly when the cpf is unused |
| `Database.Store.CommitCategoria` | workoutapi/workout_api/categorias/controller.py:25-26 | add and commit: appends the row unless the commit fails or the `nome` is taken (the unique column); otherwise nothing changes; all constraints are kept |
| `Database.Store.CommitCentro` | workoutapi/workout_api/centro_treinamento/controller.py:25-26 | the same for centres: appends the row unless the commit fails or the `nome` is taken |
| `CategoriasController.CreateCategoria` | workoutapi/workout_api/categorias/controller.py:18-27 | the output has the fresh id and the input `nome`; exactly that row is appended and nothing else changes; the store is not read first, so a taken `nome` or a failed commit is a 500 that writes nothing; the new id is then found by get-by-id |
| `CategoriasController.CreatedCategoriaFound` | workoutapi/workout_api/categorias/controller.py:19-27 | a category appended under a fresh id is what a lookup of that id returns |
| `CategoriasController.GetCategoriaById` | workoutapi/workout_api/categorias/controller.py:39-43 | returns the stored category with the requested id; NotFound exactly when no category has that id; read-only |
| `CategoriasController.GetCategoria` | workoutapi/workout_api/categorias/controller.py:29-34 | the list holds every stored category, one per row, in store order; read-only. Its partner is `ListedCategoriaFound` |
| `CategoriasController.ListedCategoriaFound` | workoutapi/workout_api/categorias/controller.py:32-43 | list and get agree: a category is in the list exactly when get-by-id of its id returns it |
| `CentroTreinamentoController.CreateCentroTreinamento` | workoutapi/workout_api/centro_treinamento/controller.py:18-31 | the output is the fresh id with exactly the input `nome`, `endereco` and `proprietario`; exactly that row is appended, with no check beforehand; a failed commit or taken `nome` is a 500 that writes nothing |
| `CentroTreinamentoController.CreatedCentroFound` | workoutapi/workout_api/centro_treinamento/controller.py:19-31 | a centre appended under a fresh id is what a lookup of that id returns |
| `CentroTreinamentoController.GetCentroTreinamentoById` | workoutapi/workout_api/centro_treinamento/controller.py:48-57 | returns the stored centre with the requested id, fields unchanged; NotFound exactly when no centre has that id; read-only |
| `CentroTreinamentoController.GetCentroTreinamento` | workoutapi/workout_api/centro_treinamento/controller.py:33-43 | one output per stored centre, in store order, copying its `id`, `nome`, `endereco` and `proprietario`; read-only. Its partner is `ListedCentroFound` |
| `CentroTreinamentoController.ListedCentroFound` | workoutapi/workout_api/centro_treinamento/controller.py:36-57 | the list, in store order, and get-by-id agree: a centre is listed exactly when get-by-id of its id returns it |
| `AtletaController.Embed` | workoutapi/workout_api/atleta/controller.py:163-184 | the response for a stored athlete copies its fields and embeds the category and the centre its foreign keys name |
| `AtletaController.Post` | workoutapi/workout_api/atleta/controller.py:22-104 | unknown category gives 400 naming it; then unknown centre gives 400 naming it; then a used cpf gives 409; each changes nothing. Otherwise: a commit failure gives 500 with nothing written; a later failure gives 500 with the row stored; success appends exactly the input row with the fresh id and the resolved ids, embeds the resolved rows, keeps cpf unique, and get of the new id returns the same response |
| `AtletaController.InsertedAtletaValid` | workoutapi/workout_api/atleta/controller.py:49-76 | appending a row whose id is fresh and whose cpf is unused keeps ids and cpfs unique |
| `AtletaController.Query` | workoutapi/workout_api/atleta/controller.py:113-143 | one response per stored athlete, in store order, each describing that athlete with the category and centre its stored ids name |
| `AtletaController.Get` | workoutapi/workout_api/atleta/controller.py:152-184 | NotFound exactly when no athlete has the id; otherwise the response describes the athlete with that id, with its references embedded |
| `AtletaController.GetFindsStored` | workoutapi/workout_api/atleta/controller.py:113-184 | a response describing a stored athlete is exactly what get of its id returns, so list and get agree |
| `AtletaController.SetAttr` | workoutapi/workout_api/atleta/controller.py:205-206 | `setattr` of one item: that field takes the item's value, every other updatable field and the id, cpf, sex, creation time and foreign keys are kept |
| `AtletaController.ApplyUpdates` | workoutapi/workout_api/atleta/controller.py:204-206 | applying all items never changes the id, cpf, sex, creation time or foreign keys |
| `AtletaController.ApplyUpdatesField` | workoutapi/workout_api/atleta/controller.py:204-206 | after a partial update a field holds the supplied value when the update sets it, and its old value otherwise |
| `AtletaController.ApplyUpdatesIdempotent` | workoutapi/workout_api/atleta/controller.py:204-206 | applying the same partial update twice gives the same row as applying it once |
| `AtletaController.Patch` | workoutapi/workout_api/atleta/controller.py:193-232 | an unknown id gives NotFound and changes nothing; a failed commit gives 500 and changes nothing; otherwise only the row with that id becomes its partial update, all other rows are kept, the constraints are kept, and the response is what get of the id returns |
| `AtletaController.Delete` | workoutapi/workout_api/atleta/controller.py:240-252 | an unknown id gives NotFound and changes nothing; a failed commit gives 500 and changes nothing; otherwise exactly that row is removed, other rows keep their order, and get of the id then gives NotFound |
| `AtletaController.DeletedAtletaGone` | workoutapi/workout_api/atleta/controller.py:251-252 | removing a row keeps ids and cpfs unique, leaves no row with its id, and adds no row |

## Left out

- HTTP routing, FastAPI application setup, CORS and process start-up (`main.py`, `routers.py`).
  They are plumbing.
- The async session machinery: `execute`, `scalars`, `refresh` and the await points. The model
  reads and writes the tables directly. Requests run one after another, so the check-then-insert
  race between concurrent creates is not modelled.
- Input validation by the pydantic schemas, i.e. length and range limits. Inputs are taken as
  already validated. The schemas are also inconsistent with the models.
- `uuid4()` and the wall clock. They are parameters; ids are fresh by precondition.
- `peso` and `altura` are floats. They are only stored and copied, so `real` stands for them
  with no float arithmetic.
- The integer `pk_id` columns of `categorias` and `centro_treinamento`. No controller supplies
  or reads them. Dropping them replaces the declared composite key (`id`, `pk_id`) by `id`
  alone, whose distinctness comes from fresh `uuid4()` values. Not checked against the engine:
  SQLAlchemy auto-increments only a single-column integer key, so as written an insert that
  never supplies `pk_id` may fail at commit.
- Row order. The queries carry no ORDER BY, so the source leaves open the order of a list and
  which match `.first()` returns. Insertion order is the model's own choice. Under the
  uniqueness in `Store.Valid()` every lookup has at most one match, so only list order depends
  on it.
- `updated_at` in athlete responses. The athlete row has no such column, so it has no value to
  model. Categories and centres carry no timestamps either.
- The text of the HTTP `detail` messages. The model keeps only what each message names: the
  missing category or centre name, or the repeated cpf.
- Athlete list and get when a stored athlete's category or centre is missing. In the source,
  `.first()` then gives None. `Store.Valid()` rules this case out: foreign keys are checked at
  insert, and no endpoint deletes a category or a centre.
- `AtletaController.Patch`: the real athlete update schema is not in the source. The update items
  are `nome`, `idade`, `peso` and `altura`. The update cannot change `cpf`, `sexo` or the foreign
  keys, and the items are assumed to have distinct keys, as a dictionary has.
- `AtletaController.Post`: the 500 after a committed insert is modelled for any failure after the
  commit, but no particular exception is named. As written, the `updated_at` read at line 94
  would be such a failure on every create.
