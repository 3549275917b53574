/** The user handlers (src/controllers/usuarios.controller.js): the checks
    each runs, in order, and the response it picks from the store's answer. */
module UsuariosController {
  import opened Base
  import opened JsValues
  import opened MysqlErrors
  import opened Parsing
  import opened Http
  import opened Tables
  import opened Usuarios

  const MsgTipoInvalido: string := "Tipo de usuário inválido."
  const MsgNaoEncontrado: string := "Usuário não encontrado."
  const MsgObrigatorios: string := "Nome e e-mail são obrigatórios."

  /** `tipoUsuario && !ALLOWED_USER_TYPES.has(tipoUsuario)`: a type was sent
      as a string, is not empty once lowercased, and is not allowed. */
  predicate RejectsType(tipo: Option<string>)
  {
    tipo.Some? && tipo.value != "" && tipo.value !in AllowedUserTypes
  }

  /** `getUsuarios` before the query: a type filter is lowercased and must be
      allowed; what reaches the store is empty, absent or allowed. */
  function ListRequest(query: map<string, Js>): (c: Check<UsuarioFilters>)
    ensures c.Reject? <==> RejectsType(LowerIfString(Get(query, "tipo_usuario")))
    ensures c.Reject? ==> c == Reject(400, MsgTipoInvalido)
    ensures c.Proceed? ==> c.value.tipo == LowerIfString(Get(query, "tipo_usuario"))
    ensures c.Proceed? && c.value.tipo.Some? && c.value.tipo.value != "" ==> c.value.tipo.value in AllowedUserTypes
  {
    var tipo := LowerIfString(Get(query, "tipo_usuario"));
    if RejectsType(tipo) then Reject(400, MsgTipoInvalido) else Proceed(UsuarioFilters(tipo))
  }

  /** The type filter ignores case: `ADMIN`, `Admin` and `admin` list the
      same rows. */
  lemma ListIgnoresCase(query: map<string, Js>, s: string)
    requires Get(query, "tipo_usuario") == Str(s)
    ensures ListRequest(query) == ListRequest(map["tipo_usuario" := Str(ToLower(s))])
  {
    ToLowerIdempotent(s);
  }

  method GetUsuarios(table: UsuarioTable, query: map<string, Js>) returns (r: Response<seq<Usuario>>)
    requires table.Valid()
    ensures ListRequest(query).Reject? ==> r == Reply(400, MsgTipoInvalido)
    ensures ListRequest(query).Proceed? ==>
              r.status == 200 && r.body.Json?
              && (forall u :: u in r.body.value <==> u in table.rows.Values && Matches(ListRequest(query).value, u))
              && (forall i, j :: 0 <= i < j < |r.body.value| ==> r.body.value[i].id != r.body.value[j].id)
              && SortedBy(r.body.value, Newer)
  {
    var c := ListRequest(query);
    if c.Reject? {
      return Reply(c.status, c.message);
    }
    var rs := table.List(c.value);
    r := Response(200, Json(rs));
  }

  method GetUsuario(table: UsuarioTable, rawId: Js) returns (r: Response<Usuario>)
    requires table.Valid()
    ensures ParseId(rawId).None? ==> r == Reply(400, MsgIdentificadorInvalido)
    ensures ParseId(rawId).Some? && ParseId(rawId).value !in table.rows ==> r == Reply(404, MsgNaoEncontrado)
    ensures ParseId(rawId).Some? && ParseId(rawId).value in table.rows ==>
              r == Response(200, Json(table.rows[ParseId(rawId).value]))
  {
    var id := ParseId(rawId);
    if id.None? {
      return Reply(400, MsgIdentificadorInvalido);
    }
    var u := table.GetById(id.value);
    if u.None? {
      return Reply(404, MsgNaoEncontrado);
    }
    r := Response(200, Json(u.value));
  }

  /** `createUsuarioHandler` before the insert: name and e-mail must be
      truthy (nothing is trimmed), then a type sent as a string must be
      allowed once lowercased. The store receives the body's name, e-mail
      and phone as they are. */
  function CreateRequest(body: map<string, Js>): (c: Check<NewUsuario>)
    ensures !Truthy(Get(body, "nome")) || !Truthy(Get(body, "email")) ==> c == Reject(400, MsgObrigatorios)
    ensures Truthy(Get(body, "nome")) && Truthy(Get(body, "email")) ==>
              (c.Reject? <==> RejectsType(LowerIfString(Get(body, "tipo_usuario"))))
              && (c.Reject? ==> c == Reject(400, MsgTipoInvalido))
    ensures c.Proceed? ==>
              c.value.nome == Get(body, "nome") && c.value.email == Get(body, "email")
              && c.value.telefone == Get(body, "telefone")
  {
    var tipo := LowerIfString(Get(body, "tipo_usuario"));
    if !Truthy(Get(body, "nome")) || !Truthy(Get(body, "email")) then Reject(400, MsgObrigatorios)
    else if RejectsType(tipo) then Reject(400, MsgTipoInvalido)
    else Proceed(NewUsuario(Get(body, "nome"), Get(body, "email"), Get(body, "telefone"),
                            if tipo.Some? then Str(tipo.value) else Undefined))
  }

  /** A user created through the handler gets the type it asked for,
      lowercased, and `cliente` when it sent none (or an empty one). */
  lemma CreatedType(body: map<string, Js>, id: int, now: int)
    requires CreateRequest(body).Proceed?
    ensures var t := LowerIfString(Get(body, "tipo_usuario"));
            Inserted(id, CreateRequest(body).value, now).tipo
              == if t.Some? && t.value != "" then t.value else DefaultUserType
  {
  }

  method CreateUsuarioHandler(table: UsuarioTable, body: map<string, Js>, now: int, fault: Option<Failure>)
    returns (r: Response<Usuario>)
    requires table.Valid()
    modifies table
    ensures table.Valid()
    ensures CreateRequest(body).Reject? ==>
              r == Reply(400, CreateRequest(body).message) && table.rows == old(table.rows)
    ensures CreateRequest(body).Proceed? && fault.Some? ==>
              r == ErrorResponse(fault.value) && table.rows == old(table.rows)
    ensures CreateRequest(body).Proceed? && fault.None? ==>
              var u := Inserted(old(table.nextId), CreateRequest(body).value, now);
              r == Response(201, Json(u)) && table.rows == old(table.rows)[u.id := u]
  {
    var c := CreateRequest(body);
    if c.Reject? {
      return Reply(c.status, c.message);
    }
    var created := table.Create(c.value, now, fault);
    if created.Err? {
      return ErrorResponse(created.error);
    }
    r := Response(201, Json(created.value));
  }

  /** `updateUsuarioHandler` before the update: the type is checked first,
      before the id, so a bad type wins over a bad id. The store receives
      every other key of the body unchanged, plus the lowercased type when
      one was sent as a string (any other value is dropped). */
  function UpdateRequest(rawId: Js, body: map<string, Js>): (c: Check<(int, map<string, Js>)>)
    ensures RejectsType(LowerIfString(Get(body, "tipo_usuario"))) ==> c == Reject(400, MsgTipoInvalido)
    ensures !RejectsType(LowerIfString(Get(body, "tipo_usuario"))) ==>
              (c.Reject? <==> ParseId(rawId).None?)
              && (c.Reject? ==> c == Reject(400, MsgIdentificadorInvalido))
    ensures c.Proceed? ==>
              c.value.0 == ParseId(rawId).value
              && (forall k :: k != "tipo_usuario" ==>
                    (k in c.value.1 <==> k in body) && (k in body ==> c.value.1[k] == body[k]))
              && ("tipo_usuario" in c.value.1 <==> Get(body, "tipo_usuario").Str?)
              && ("tipo_usuario" in c.value.1 ==>
                    c.value.1["tipo_usuario"] == Str(ToLower(Get(body, "tipo_usuario").s)))
  {
    var tipo := LowerIfString(Get(body, "tipo_usuario"));
    if RejectsType(tipo) then Reject(400, MsgTipoInvalido)
    else match ParseId(rawId)
      case None => Reject(400, MsgIdentificadorInvalido)
      case Some(id) =>
        var resto := body - {"tipo_usuario"};
        Proceed((id, if tipo.Some? then resto["tipo_usuario" := Str(tipo.value)] else resto))
  }

  /** Through the handler, a user's type changes only to an allowed type sent
      as a string (any case); otherwise the stored type stays. */
  lemma UpdatedType(u: Usuario, rawId: Js, body: map<string, Js>)
    requires UpdateRequest(rawId, body).Proceed?
    ensures var t := LowerIfString(Get(body, "tipo_usuario"));
            Patched(u, UpdateRequest(rawId, body).value.1).tipo
              == if t.Some? && t.value in AllowedUserTypes then t.value else u.tipo
  {
  }

  method UpdateUsuarioHandler(table: UsuarioTable, rawId: Js, body: map<string, Js>, fault: Option<Failure>)
    returns (r: Response<Usuario>)
    requires table.Valid()
    modifies table
    ensures table.Valid()
    ensures UpdateRequest(rawId, body).Reject? ==>
              r == Reply(400, UpdateRequest(rawId, body).message) && table.rows == old(table.rows)
    ensures UpdateRequest(rawId, body).Proceed? ==>
              var (id, payload) := UpdateRequest(rawId, body).value;
              if id !in old(table.rows) then
                r == Reply(404, MsgNaoEncontrado) && table.rows == old(table.rows)
              else if !Touches(payload) then
                r == Response(200, Json(old(table.rows)[id])) && table.rows == old(table.rows)
              else if fault.Some? then
                r == ErrorResponse(fault.value) && table.rows == old(table.rows)
              else
                var u := Patched(old(table.rows)[id], payload);
                r == Response(200, Json(u)) && table.rows == old(table.rows)[id := u]
  {
    var c := UpdateRequest(rawId, body);
    if c.Reject? {
      return Reply(c.status, c.message);
    }
    var updated := table.Update(c.value.0, c.value.1, fault);
    if updated.Err? {
      return ErrorResponse(updated.error);
    }
    if updated.value.None? {
      return Reply(404, MsgNaoEncontrado);
    }
    r := Response(200, Json(updated.value.value));
  }

  method DeleteUsuarioHandler(table: UsuarioTable, rawId: Js, fault: Option<Failure>) returns (r: Response<()>)
    requires table.Valid()
    modifies table
    ensures table.Valid()
    ensures ParseId(rawId).None? ==> r == Reply(400, MsgIdentificadorInvalido) && table.rows == old(table.rows)
    ensures ParseId(rawId).Some? && fault.Some? ==> r == ErrorResponse(fault.value) && table.rows == old(table.rows)
    ensures ParseId(rawId).Some? && fault.None? ==>
              var id := ParseId(rawId).value;
              table.rows == old(table.rows) - {id}
              && r == if id in old(table.rows) then Response(204, Empty) else Reply(404, MsgNaoEncontrado)
  {
    var id := ParseId(rawId);
    if id.None? {
      return Reply(400, MsgIdentificadorInvalido);
    }
    var removed := table.Delete(id.value, fault);
    if removed.Err? {
      return ErrorResponse(removed.error);
    }
    if !removed.value {
      return Reply(404, MsgNaoEncontrado);
    }
    r := Response(204, Empty);
  }
}
