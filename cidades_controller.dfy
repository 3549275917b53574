/** The city handlers (src/controllers/cidades.controller.js). */
module CidadesController {
  import opened Base
  import opened JsValues
  import opened MysqlErrors
  import opened Parsing
  import opened Http
  import opened Tables
  import opened Cidades

  const MsgEstadoInvalido: string := "Estado deve ser informado com duas letras."
  const MsgNaoEncontrada: string := "Cidade não encontrada."
  const MsgObrigatorios: string := "Nome e estado são obrigatórios."
  const MsgNomeVazio: string := "Nome não pode ser vazio."

  /** `getCidades` before the query: a state sent as a string is upper-cased
      and, when not empty, must be two letters. */
  function ListRequest(query: map<string, Js>): (c: Check<CidadeFilters>)
    ensures var e := UpperIfString(Get(query, "estado"));
            c.Reject? <==> e.Some? && e.value != "" && !IsEstadoValido(e.value)
    ensures c.Reject? ==> c == Reject(400, MsgEstadoInvalido)
    ensures c.Proceed? ==> c.value.estado == UpperIfString(Get(query, "estado"))
    ensures c.Proceed? && c.value.estado.Some? && c.value.estado.value != "" ==> IsEstadoValido(c.value.estado.value)
  {
    var estado := UpperIfString(Get(query, "estado"));
    if estado.Some? && estado.value != "" && !IsEstadoValido(estado.value) then Reject(400, MsgEstadoInvalido)
    else Proceed(CidadeFilters(estado))
  }

  /** `sp` and `SP` are the same filter. */
  lemma ListIgnoresCase(query: map<string, Js>, s: string)
    requires Get(query, "estado") == Str(s)
    ensures ListRequest(query) == ListRequest(map["estado" := Str(ToUpper(s))])
  {
    ToUpperIdempotent(s);
  }

  method GetCidades(table: CidadeTable, query: map<string, Js>) returns (r: Response<seq<Cidade>>)
    requires table.Valid()
    ensures ListRequest(query).Reject? ==> r == Reply(400, MsgEstadoInvalido)
    ensures ListRequest(query).Proceed? ==>
              r.status == 200 && r.body.Json?
              && (forall c :: c in r.body.value <==> c in table.rows.Values && Matches(ListRequest(query).value, c))
              && (forall i, j :: 0 <= i < j < |r.body.value| ==> r.body.value[i].id != r.body.value[j].id)
              && SortedBy(r.body.value, ByNome)
  {
    var c := ListRequest(query);
    if c.Reject? {
      return Reply(c.status, c.message);
    }
    var rs := table.List(c.value);
    r := Response(200, Json(rs));
  }

  method GetCidade(table: CidadeTable, rawId: Js) returns (r: Response<Cidade>)
    requires table.Valid()
    ensures ParseId(rawId).None? ==> r == Reply(400, MsgIdentificadorInvalido)
    ensures ParseId(rawId).Some? && ParseId(rawId).value !in table.rows ==> r == Reply(404, MsgNaoEncontrada)
    ensures ParseId(rawId).Some? && ParseId(rawId).value in table.rows ==>
              r == Response(200, Json(table.rows[ParseId(rawId).value]))
  {
    var id := ParseId(rawId);
    if id.None? {
      return Reply(400, MsgIdentificadorInvalido);
    }
    var c := table.GetById(id.value);
    if c.None? {
      return Reply(404, MsgNaoEncontrada);
    }
    r := Response(200, Json(c.value));
  }

  /** `createCidadeHandler` before the insert: the trimmed name and the
      upper-cased (not trimmed) state must both be non-empty, and the state
      must be two letters. */
  function CreateRequest(body: map<string, Js>): (c: Check<(string, string)>)
    ensures var nome := OrEmpty(TrimIfString(Get(body, "nome")));
            var estado := OrEmpty(UpperIfString(Get(body, "estado")));
            (nome == "" || estado == "" ==> c == Reject(400, MsgObrigatorios))
            && (nome != "" && estado != "" ==>
                  (c.Reject? <==> !IsEstadoValido(estado)) && (c.Reject? ==> c == Reject(400, MsgEstadoInvalido)))
            && (c.Proceed? ==> c.value == (nome, estado))
  {
    var nome := OrEmpty(TrimIfString(Get(body, "nome")));
    var estado := OrEmpty(UpperIfString(Get(body, "estado")));
    if nome == "" || estado == "" then Reject(400, MsgObrigatorios)
    else if !IsEstadoValido(estado) then Reject(400, MsgEstadoInvalido)
    else Proceed((nome, estado))
  }

  /** A city created through the handler stores exactly the checked values:
      a non-empty trimmed name and a two-letter upper-case state (the service
      trims and upper-cases again, which changes nothing). */
  lemma CreateStoresCheckedValues(body: map<string, Js>)
    requires CreateRequest(body).Proceed?
    ensures var (nome, estado) := CreateRequest(body).value;
            TrimOpt(Some(nome)) == Some(nome) && UpperOpt(Some(estado)) == Some(estado)
            && nome != "" && IsEstadoValido(estado) && ToUpper(estado) == estado
  {
    TrimIdempotent(Get(body, "nome").s);
    ToUpperIdempotent(Get(body, "estado").s);
  }

  method CreateCidadeHandler(table: CidadeTable, body: map<string, Js>, fault: Option<Failure>)
    returns (r: Response<Cidade>)
    requires table.Valid()
    modifies table
    ensures table.Valid()
    ensures CreateRequest(body).Reject? ==>
              r == Reply(400, CreateRequest(body).message) && table.rows == old(table.rows)
    ensures CreateRequest(body).Proceed? && fault.Some? ==>
              r == ErrorResponse(fault.value) && table.rows == old(table.rows)
    ensures CreateRequest(body).Proceed? && fault.None? ==>
              var (nome, estado) := CreateRequest(body).value;
              var c := Cidade(old(table.nextId), Some(nome), Some(estado));
              r == Response(201, Json(c)) && table.rows == old(table.rows)[c.id := c]
  {
    var c := CreateRequest(body);
    if c.Reject? {
      return Reply(c.status, c.message);
    }
    CreateStoresCheckedValues(body);
    var created := table.Create(Some(c.value.0), Some(c.value.1), fault);
    if created.Err? {
      return ErrorResponse(created.error);
    }
    r := Response(201, Json(created.value));
  }

  /** `updateCidadeHandler` before the update: the name, then the state, and
      only then the id are checked. Values that were not strings become
      undefined and are passed on under their keys all the same. */
  function UpdateRequest(rawId: Js, body: map<string, Js>): (c: Check<(int, Option<string>, Option<string>)>)
    ensures var nome := TrimIfString(Get(body, "nome"));
            var estado := UpperIfString(Get(body, "estado"));
            (nome == Some("") ==> c == Reject(400, MsgNomeVazio))
            && (nome != Some("") && estado.Some? && !IsEstadoValido(estado.value) ==> c == Reject(400, MsgEstadoInvalido))
            && (nome != Some("") && !(estado.Some? && !IsEstadoValido(estado.value)) ==>
                  (c.Reject? <==> ParseId(rawId).None?)
                  && (c.Reject? ==> c == Reject(400, MsgIdentificadorInvalido)))
            && (c.Proceed? ==> c.value == (ParseId(rawId).value, nome, estado))
  {
    var nome := TrimIfString(Get(body, "nome"));
    var estado := UpperIfString(Get(body, "estado"));
    if nome == Some("") then Reject(400, MsgNomeVazio)
    else if estado.Some? && !IsEstadoValido(estado.value) then Reject(400, MsgEstadoInvalido)
    else match ParseId(rawId)
      case None => Reject(400, MsgIdentificadorInvalido)
      case Some(id) => Proceed((id, nome, estado))
  }

  method UpdateCidadeHandler(table: CidadeTable, rawId: Js, body: map<string, Js>, fault: Option<Failure>)
    returns (r: Response<Cidade>)
    requires table.Valid()
    modifies table
    ensures table.Valid()
    ensures UpdateRequest(rawId, body).Reject? ==>
              r == Reply(400, UpdateRequest(rawId, body).message) && table.rows == old(table.rows)
    ensures UpdateRequest(rawId, body).Proceed? ==>
              var (id, nome, estado) := UpdateRequest(rawId, body).value;
              if id !in old(table.rows) then
                r == Reply(404, MsgNaoEncontrada) && table.rows == old(table.rows)
              else if fault.Some? then
                r == ErrorResponse(fault.value) && table.rows == old(table.rows)
              else
                var c := Patched(old(table.rows)[id], Present(nome), Present(estado));
                r == Response(200, Json(c)) && table.rows == old(table.rows)[id := c]
  {
    var c := UpdateRequest(rawId, body);
    if c.Reject? {
      return Reply(c.status, c.message);
    }
    var updated := table.Update(c.value.0, Present(c.value.1), Present(c.value.2), fault);
    if updated.Err? {
      return ErrorResponse(updated.error);
    }
    if updated.value.None? {
      return Reply(404, MsgNaoEncontrada);
    }
    r := Response(200, Json(updated.value.value));
  }

  /** Because the handler always sends both keys, an update that leaves a
      field out of the body clears that column: sending only a name writes
      NULL to the state, and the service's "neither key" branch is never
      taken from HTTP. */
  lemma UpdateClearsOmittedFields(row: Cidade, rawId: Js, body: map<string, Js>)
    requires UpdateRequest(rawId, body).Proceed?
    ensures var (_, nome, estado) := UpdateRequest(rawId, body).value;
            var c := Patched(row, Present(nome), Present(estado));
            c.id == row.id
            && (!Get(body, "nome").Str? ==> c.nome == None)
            && (!Get(body, "estado").Str? ==> c.estado == None)
            && (Get(body, "nome").Str? ==> c.nome.Some? && c.nome.value != "")
            && (Get(body, "estado").Str? ==> c.estado.Some? && IsEstadoValido(c.estado.value))
  {
    if Get(body, "estado").Str? {
      ToUpperIdempotent(Get(body, "estado").s);
    }
    if Get(body, "nome").Str? {
      TrimIdempotent(Get(body, "nome").s);
    }
  }

  method DeleteCidadeHandler(table: CidadeTable, rawId: Js, fault: Option<Failure>) returns (r: Response<()>)
    requires table.Valid()
    modifies table
    ensures table.Valid()
    ensures ParseId(rawId).None? ==> r == Reply(400, MsgIdentificadorInvalido) && table.rows == old(table.rows)
    ensures ParseId(rawId).Some? && fault.Some? ==> r == ErrorResponse(fault.value) && table.rows == old(table.rows)
    ensures ParseId(rawId).Some? && fault.None? ==>
              var id := ParseId(rawId).value;
              table.rows == old(table.rows) - {id}
              && r == if id in old(table.rows) then Response(204, Empty) else Reply(404, MsgNaoEncontrada)
  {
    var id := ParseId(rawId);
    if id.None? {
      return Reply(400, MsgIdentificadorInvalido);
    }
    var removed := table.Delete(id.value, fault);
    if removed.Err? {
      return ErrorResponse(removed.error);
    }
    if !removed.value {
      return Reply(404, MsgNaoEncontrada);
    }
    r := Response(204, Empty);
  }
}
