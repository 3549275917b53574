/** The category handlers (src/controllers/categorias.controller.js). */
module CategoriasController {
  import opened Base
  import opened JsValues
  import opened MysqlErrors
  import opened Parsing
  import opened Http
  import opened Tables
  import opened Categorias

  const MsgNomeObrigatorio: string := "Nome da categoria é obrigatório."
  const MsgNaoEncontrada: string := "Categoria não encontrada."

  method GetCategorias(table: CategoriaTable) returns (r: Response<seq<Categoria>>)
    requires table.Valid()
    ensures r.status == 200 && r.body.Json?
    ensures forall c :: c in r.body.value <==> c in table.rows.Values
    ensures forall i, j :: 0 <= i < j < |r.body.value| ==> r.body.value[i].id != r.body.value[j].id
    ensures SortedBy(r.body.value, ByNome)
  {
    var rs := table.List();
    r := Response(200, Json(rs));
  }

  method GetCategoria(table: CategoriaTable, rawId: Js) returns (r: Response<Categoria>)
    requires table.Valid()
    ensures ParseId(rawId).None? ==> r == Reply(400, MsgIdentificadorInvalido)
    ensures ParseId(rawId).Some? && ParseId(rawId).value !in table.rows ==> r == Reply(404, MsgNaoEncontrada)
    ensures ParseId(rawId).Some? && ParseId(rawId).value in table.rows ==>
              r == Response(200, Json(table.rows[ParseId(rawId).value]))
  {
    var id := ParseId(rawId);
    if id.None? {
      return Reply(400, MsgIdentificadorInvalido);
    }
    var c := table.GetById(id.value);
    if c.None? {
      return Reply(404, MsgNaoEncontrada);
    }
    r := Response(200, Json(c.value));
  }

  /** `createCategoriaHandler` before the insert: the name must be a string
      that is not blank; it is passed on trimmed. */
  function CreateRequest(body: map<string, Js>): (c: Check<string>)
    ensures c.Reject? <==> !(Get(body, "nome").Str? && Trim(Get(body, "nome").s) != "")
    ensures c.Reject? ==> c == Reject(400, MsgNomeObrigatorio)
    ensures c.Proceed? ==> c.value == Trim(Get(body, "nome").s) && c.value != ""
  {
    var nome := OrEmpty(TrimIfString(Get(body, "nome")));
    if nome == "" then Reject(400, MsgNomeObrigatorio) else Proceed(nome)
  }

  /** The name the store keeps is exactly the one the handler checked: the
      service trims again, and trimming twice changes nothing. */
  lemma CreateStoresCheckedName(body: map<string, Js>)
    requires CreateRequest(body).Proceed?
    ensures TrimOpt(Some(CreateRequest(body).value)) == Some(CreateRequest(body).value)
    ensures CreateRequest(body).value != ""
  {
    TrimIdempotent(Get(body, "nome").s);
  }

  method CreateCategoriaHandler(table: CategoriaTable, body: map<string, Js>, fault: Option<Failure>)
    returns (r: Response<Categoria>)
    requires table.Valid()
    modifies table
    ensures table.Valid()
    ensures CreateRequest(body).Reject? ==> r == Reply(400, MsgNomeObrigatorio) && table.rows == old(table.rows)
    ensures CreateRequest(body).Proceed? && fault.Some? ==>
              r == ErrorResponse(fault.value) && table.rows == old(table.rows)
    ensures CreateRequest(body).Proceed? && fault.None? ==>
              var c := Categoria(old(table.nextId), Some(CreateRequest(body).value));
              r == Response(201, Json(c)) && table.rows == old(table.rows)[c.id := c]
  {
    var c := CreateRequest(body);
    if c.Reject? {
      return Reply(c.status, c.message);
    }
    CreateStoresCheckedName(body);
    var created := table.Create(Some(c.value), fault);
    if created.Err? {
      return ErrorResponse(created.error);
    }
    r := Response(201, Json(created.value));
  }

  /** `updateCategoriaHandler` before the update: a name sent as a string
      must not be blank, and this is checked before the id. A name that was
      not a string becomes undefined, and that undefined is still passed on
      under the `nome` key. */
  function UpdateRequest(rawId: Js, body: map<string, Js>): (c: Check<(int, Option<string>)>)
    ensures TrimIfString(Get(body, "nome")) == Some("") ==> c == Reject(400, MsgNomeObrigatorio)
    ensures TrimIfString(Get(body, "nome")) != Some("") ==>
              (c.Reject? <==> ParseId(rawId).None?)
              && (c.Reject? ==> c == Reject(400, MsgIdentificadorInvalido))
    ensures c.Proceed? ==> c.value == (ParseId(rawId).value, TrimIfString(Get(body, "nome")))
  {
    var nome := TrimIfString(Get(body, "nome"));
    if nome == Some("") then Reject(400, MsgNomeObrigatorio)
    else match ParseId(rawId)
      case None => Reject(400, MsgIdentificadorInvalido)
      case Some(id) => Proceed((id, nome))
  }

  method UpdateCategoriaHandler(table: CategoriaTable, rawId: Js, body: map<string, Js>, fault: Option<Failure>)
    returns (r: Response<Categoria>)
    requires table.Valid()
    modifies table
    ensures table.Valid()
    ensures UpdateRequest(rawId, body).Reject? ==>
              r == Reply(400, UpdateRequest(rawId, body).message) && table.rows == old(table.rows)
    ensures UpdateRequest(rawId, body).Proceed? ==>
              var (id, nome) := UpdateRequest(rawId, body).value;
              if id !in old(table.rows) then
                r == Reply(404, MsgNaoEncontrada) && table.rows == old(table.rows)
              else if fault.Some? then
                r == ErrorResponse(fault.value) && table.rows == old(table.rows)
              else
                var c := Categoria(id, TrimOpt(nome));
                r == Response(200, Json(c)) && table.rows == old(table.rows)[id := c]
  {
    var c := UpdateRequest(rawId, body);
    if c.Reject? {
      return Reply(c.status, c.message);
    }
    var updated := table.Update(c.value.0, Present(c.value.1), fault);
    if updated.Err? {
      return ErrorResponse(updated.error);
    }
    if updated.value.None? {
      return Reply(404, MsgNaoEncontrada);
    }
    r := Response(200, Json(updated.value.value));
  }

  /** Because the handler always sends the `nome` key, a request without a
      string name clears the stored name instead of leaving it alone: the
      service's "no `nome` key" branch is never taken from HTTP. */
  lemma UpdateWithoutNameClears(rawId: Js, body: map<string, Js>)
    requires !Get(body, "nome").Str? && ParseId(rawId).Some?
    ensures UpdateRequest(rawId, body) == Proceed((ParseId(rawId).value, None))
    ensures TrimOpt(UpdateRequest(rawId, body).value.1) == None
  {
  }

  method DeleteCategoriaHandler(table: CategoriaTable, rawId: Js, fault: Option<Failure>) returns (r: Response<()>)
    requires table.Valid()
    modifies table
    ensures table.Valid()
    ensures ParseId(rawId).None? ==> r == Reply(400, MsgIdentificadorInvalido) && table.rows == old(table.rows)
    ensures ParseId(rawId).Some? && fault.Some? ==> r == ErrorResponse(fault.value) && table.rows == old(table.rows)
    ensures ParseId(rawId).Some? && fault.None? ==>
              var id := ParseId(rawId).value;
              table.rows == old(table.rows) - {id}
              && r == if id in old(table.rows) then Response(204, Empty) else Reply(404, MsgNaoEncontrada)
  {
    var id := ParseId(rawId);
    if id.None? {
      return Reply(400, MsgIdentificadorInvalido);
    }
    var removed := table.Delete(id.value, fault);
    if removed.Err? {
      return ErrorResponse(removed.error);
    }
    if !removed.value {
      return Reply(404, MsgNaoEncontrada);
    }
    r := Response(204, Empty);
  }
}
