/** A client of the endpoints: what a caller can conclude from their contracts alone. */
module Scenarios {
  import opened Common
  import opened Models
  import opened Database
  import CategoriasController
  import CentroTreinamentoController
  import AtletaController

  /** Category "Scale", centre "CT1", then an athlete referring to both by name: the
      response embeds both rows; a second athlete with the same cpf is refused with 409
      and leaves the table as it was; deleting the first makes its id unknown. */
  method RegisterAthlete(now: Timestamp)
  {
    var db := new Store();
    var c := CategoriasController.CreateCategoria(db, CategoriaIn("Scale"), 1, false);
    assert c == Ok(Categoria(1, "Scale"));
    var t := CentroTreinamentoController.CreateCentroTreinamento(
      db, CentroTreinamentoIn("CT1", "Rua das Flores 123", "Joao"), 2, false);
    assert t.Ok?;

    var joao := AtletaIn("Joao Silva", "12345678901", 25, 70.5, 1.75, "M", "Scale", "CT1");
    assert CategoriaNamed(db.categorias, "Scale") == Some(Categoria(1, "Scale"));
    assert CentroNamed(db.centros, "CT1").Some?;
    var a := AtletaController.Post(db, joao, 3, now, NoFault);
    assert a.Ok? && a.value.categoria.nome == "Scale" && a.value.centroTreinamento.nome == "CT1";

    var again := AtletaController.Post(db, joao.(nome := "Outro"), 4, now, NoFault);
    assert db.atletas[0].cpf == "12345678901";
    assert again == Err(Conflict("12345678901"));
    assert |db.atletas| == 1;

    var unknown := AtletaController.Post(db, joao.(cpf := "10987654321", categoria := "Unknown"), 5, now, NoFault);
    assert unknown == Err(BadRequest(CategoriaNome("Unknown")));

    var gone := AtletaController.Delete(db, 3, false);
    assert gone == Ok(());
    assert AtletaController.Get(db, 3) == Err(NotFound);
  }
}
