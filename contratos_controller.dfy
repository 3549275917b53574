/** The contract handlers (src/controllers/contratos.controller.js). Before a
    contract is written, the property and the user it names are looked up;
    a missing property is reported before a missing user. */
module ContratosController {
  import opened Base
  import opened JsValues
  import opened MysqlErrors
  import opened Parsing
  import opened Http
  import opened Tables
  import opened Contratos
  import Imoveis
  import Usuarios

  const MsgTipoInvalido: string := "Tipo de contrato inválido."
  const MsgFiltroImovel: string := "Filtro de imóvel deve ser numérico."
  const MsgFiltroUsuario: string := "Filtro de usuário deve ser numérico."
  const MsgNaoEncontrado: string := "Contrato não encontrado."
  const MsgImovelObrigatorio: string := "Imóvel é obrigatório."
  const MsgUsuarioObrigatorio: string := "Usuário é obrigatório."
  const MsgValorObrigatorio: string := "Valor do contrato é obrigatório e deve ser válido."
  const MsgDataInicio: string := "Data de início deve estar no formato YYYY-MM-DD."
  const MsgDataFim: string := "Data de término deve estar no formato YYYY-MM-DD."
  const MsgImovelNaoExiste: string := "Imóvel informado não existe."
  const MsgUsuarioNaoExiste: string := "Usuário informado não existe."
  const MsgImovelNumerico: string := "Imóvel deve ser informado com um identificador numérico."
  const MsgUsuarioNumerico: string := "Usuário deve ser informado com um identificador numérico."
  const MsgValorInvalido: string := "Valor do contrato deve ser válido."

  // ---------------------------------------------------------------------
  // field checks

  /** `value !== undefined && value !== null && value !== ''`. */
  predicate Sent(v: Js)
  {
    v != Undefined && v != Null && v != Str("")
  }

  /** An id filter that was sent but is not a positive integer. */
  predicate BadIdFilter(v: Js)
  {
    Sent(v) && ParseId(v).None?
  }

  /** A price `parseNumber` accepts and that is not negative. */
  predicate ValidValor(v: Js)
  {
    ParseNumber(v).Some? && ParseNumber(v).value >= 0.0
  }

  /** `!(v && !isValidDate(v))`: a date is checked only when it is truthy. */
  predicate DateAcceptable(v: Js)
  {
    !Truthy(v) || IsValidDate(v)
  }

  /** `v || null` for a date that passed the check. */
  function DateOrNull(v: Js): (r: Option<string>)
    ensures DateAcceptable(v) ==> (r.Some? <==> Truthy(v))
    ensures r.Some? ==> v == Str(r.value) && r.value != ""
  {
    if Truthy(v) && v.Str? then Some(v.s) else None
  }

  /** Only the date's shape is checked: an empty date is stored as NULL, a
      month 13 passes, a date without leading zeros does not. */
  lemma DateChecks()
    ensures DateAcceptable(Str("")) && DateOrNull(Str("")).None?
    ensures DateAcceptable(Undefined) && DateOrNull(Undefined).None?
    ensures DateAcceptable(Str("2024-13-45")) && DateOrNull(Str("2024-13-45")) == Some("2024-13-45")
    ensures !DateAcceptable(Str("2024-1-01"))
  {
    assert Truthy(Str("2024-1-01"));
    assert Truthy(Str("2024-13-45"));
  }

  // ---------------------------------------------------------------------
  // getContratos

  /** The contract type in a query or body, lower-cased when it is a string. */
  function TipoOf(obj: map<string, Js>): Option<string>
  {
    LowerIfString(Get(obj, "tipo_contrato"))
  }

  /** `getContratos` before the query: a truthy type must be allowed, then a
      sent property filter and a sent user filter must be positive
      integers. */
  function ListRequest(query: map<string, Js>): (c: Check<ContratoFilters>)
    ensures Imoveis.ActiveText(TipoOf(query)) && TipoOf(query).value !in AllowedTiposContrato ==>
              c == Reject(400, MsgTipoInvalido)
    ensures !(Imoveis.ActiveText(TipoOf(query)) && TipoOf(query).value !in AllowedTiposContrato) ==>
              (BadIdFilter(Get(query, "imovel_id")) ==> c == Reject(400, MsgFiltroImovel))
              && (!BadIdFilter(Get(query, "imovel_id")) ==>
                    (c.Reject? <==> BadIdFilter(Get(query, "usuario_id")))
                    && (c.Reject? ==> c == Reject(400, MsgFiltroUsuario)))
    ensures c.Proceed? ==>
              c.value.tipo == TipoOf(query)
              && (Imoveis.ActiveText(c.value.tipo) ==> ActiveTipo(c.value.tipo))
              && c.value.imovelId == ParseId(Get(query, "imovel_id"))
              && c.value.usuarioId == ParseId(Get(query, "usuario_id"))
              && (c.value.imovelId.None? <==> !Sent(Get(query, "imovel_id")))
              && (c.value.usuarioId.None? <==> !Sent(Get(query, "usuario_id")))
  {
    var tipo := TipoOf(query);
    if Imoveis.ActiveText(tipo) && tipo.value !in AllowedTiposContrato then Reject(400, MsgTipoInvalido)
    else if BadIdFilter(Get(query, "imovel_id")) then Reject(400, MsgFiltroImovel)
    else if BadIdFilter(Get(query, "usuario_id")) then Reject(400, MsgFiltroUsuario)
    else Proceed(ContratoFilters(ParseId(Get(query, "imovel_id")), ParseId(Get(query, "usuario_id")), tipo))
  }

  /** An accepted id filter is always active: an id the controller passes on
      is positive, so the service's truthiness test never drops it. */
  lemma ListFiltersActive(query: map<string, Js>)
    requires ListRequest(query).Proceed?
    ensures var f := ListRequest(query).value;
            (f.imovelId.Some? ==> ActiveId(f.imovelId)) && (f.usuarioId.Some? ==> ActiveId(f.usuarioId))
  {
  }

  method GetContratos(table: ContratoTable, query: map<string, Js>,
                      ims: map<int, Imoveis.Imovel>, uss: map<int, Usuarios.Usuario>)
    returns (r: Response<seq<ContratoView>>)
    requires table.Valid()
    ensures ListRequest(query).Reject? ==> r == Reply(400, ListRequest(query).message)
    ensures ListRequest(query).Proceed? ==>
              r.status == 200 && r.body.Json?
              && (forall v :: v in r.body.value <==>
                    v.contrato in table.rows.Values && Linked(v.contrato, ims, uss)
                    && Matches(ListRequest(query).value, v.contrato) && v == Joined(v.contrato, ims, uss))
              && (forall i, j :: 0 <= i < j < |r.body.value| ==>
                    r.body.value[i].contrato.id != r.body.value[j].contrato.id)
              && SortedBy(r.body.value, NewerView)
  {
    var c := ListRequest(query);
    if c.Reject? {
      return Reply(c.status, c.message);
    }
    var vs := table.List(c.value, ims, uss);
    r := Response(200, Json(vs));
  }

  method GetContrato(table: ContratoTable, rawId: Js, ims: map<int, Imoveis.Imovel>, uss: map<int, Usuarios.Usuario>)
    returns (r: Response<ContratoView>)
    requires table.Valid()
    ensures ParseId(rawId).None? ==> r == Reply(400, MsgIdentificadorInvalido)
    ensures ParseId(rawId).Some? && table.GetById(ParseId(rawId).value, ims, uss).None? ==>
              r == Reply(404, MsgNaoEncontrado)
    ensures ParseId(rawId).Some? && table.GetById(ParseId(rawId).value, ims, uss).Some? ==>
              var id := ParseId(rawId).value;
              r == Response(200, Json(Joined(table.rows[id], ims, uss)))
  {
    var id := ParseId(rawId);
    if id.None? {
      return Reply(400, MsgIdentificadorInvalido);
    }
    var c := table.GetById(id.value, ims, uss);
    if c.None? {
      return Reply(404, MsgNaoEncontrado);
    }
    r := Response(200, Json(c.value));
  }

  // ---------------------------------------------------------------------
  // createContratoHandler

  /** `createContratoHandler` before any lookup: property id, user id, type,
      price, start date and end date, in that order. */
  function CreateRequest(body: map<string, Js>): (c: Check<NewContrato>)
    ensures c.Proceed? <==>
              ParseId(Get(body, "imovel_id")).Some? && ParseId(Get(body, "usuario_id")).Some?
              && LowerOrEmpty(Get(body, "tipo_contrato")) in AllowedTiposContrato
              && ValidValor(Get(body, "valor"))
              && DateAcceptable(Get(body, "data_inicio")) && DateAcceptable(Get(body, "data_fim"))
    ensures ParseId(Get(body, "imovel_id")).None? ==> c == Reject(400, MsgImovelObrigatorio)
    ensures (ParseId(Get(body, "imovel_id")).Some? && ParseId(Get(body, "usuario_id")).None?) ==>
              c == Reject(400, MsgUsuarioObrigatorio)
    ensures (ParseId(Get(body, "imovel_id")).Some? && ParseId(Get(body, "usuario_id")).Some?
             && LowerOrEmpty(Get(body, "tipo_contrato")) !in AllowedTiposContrato) ==>
              c == Reject(400, MsgTipoInvalido)
    ensures (ParseId(Get(body, "imovel_id")).Some? && ParseId(Get(body, "usuario_id")).Some?
             && LowerOrEmpty(Get(body, "tipo_contrato")) in AllowedTiposContrato
             && !ValidValor(Get(body, "valor"))) ==>
              c == Reject(400, MsgValorObrigatorio)
    ensures (ParseId(Get(body, "imovel_id")).Some? && ParseId(Get(body, "usuario_id")).Some?
             && LowerOrEmpty(Get(body, "tipo_contrato")) in AllowedTiposContrato
             && ValidValor(Get(body, "valor")) && !DateAcceptable(Get(body, "data_inicio"))) ==>
              c == Reject(400, MsgDataInicio)
    ensures (ParseId(Get(body, "imovel_id")).Some? && ParseId(Get(body, "usuario_id")).Some?
             && LowerOrEmpty(Get(body, "tipo_contrato")) in AllowedTiposContrato
             && ValidValor(Get(body, "valor")) && DateAcceptable(Get(body, "data_inicio"))
             && !DateAcceptable(Get(body, "data_fim"))) ==>
              c == Reject(400, MsgDataFim)
    ensures c.Proceed? ==>
              c.value.imovelId == ParseId(Get(body, "imovel_id")).value && c.value.imovelId >= 1
              && c.value.usuarioId == ParseId(Get(body, "usuario_id")).value && c.value.usuarioId >= 1
              && c.value.tipo == ToLower(Get(body, "tipo_contrato").s) && c.value.tipo in AllowedTiposContrato
              && c.value.valor == ParseNumber(Get(body, "valor")).value && c.value.valor >= 0.0
              && c.value.dataInicio == DateOrNull(Get(body, "data_inicio"))
              && c.value.dataFim == DateOrNull(Get(body, "data_fim"))
  {
    var imovelId := ParseId(Get(body, "imovel_id"));
    var usuarioId := ParseId(Get(body, "usuario_id"));
    var tipo := LowerOrEmpty(Get(body, "tipo_contrato"));
    if imovelId.None? then Reject(400, MsgImovelObrigatorio)
    else if usuarioId.None? then Reject(400, MsgUsuarioObrigatorio)
    else if tipo !in AllowedTiposContrato then Reject(400, MsgTipoInvalido)
    else if !ValidValor(Get(body, "valor")) then Reject(400, MsgValorObrigatorio)
    else if !DateAcceptable(Get(body, "data_inicio")) then Reject(400, MsgDataInicio)
    else if !DateAcceptable(Get(body, "data_fim")) then Reject(400, MsgDataFim)
    else Proceed(NewContrato(imovelId.value, usuarioId.value, tipo,
                             DateOrNull(Get(body, "data_inicio")), DateOrNull(Get(body, "data_fim")),
                             ParseNumber(Get(body, "valor")).value))
  }

  /** A contract created through the handler stores the type it was sent
      (the service's NULL fallback is never taken from HTTP), and each date
      is either NULL or text of the `YYYY-MM-DD` shape. */
  lemma CreateStoresPayload(body: map<string, Js>, id: int, now: int)
    requires CreateRequest(body).Proceed?
    ensures var p := CreateRequest(body).value;
            var c := Inserted(id, p, now);
            c.tipo == Some(p.tipo)
            && (c.dataInicio.Some? ==> DateShape(c.dataInicio.value))
            && (c.dataFim.Some? ==> DateShape(c.dataFim.value))
            && (c.dataInicio.None? <==> !Truthy(Get(body, "data_inicio")))
            && (c.dataFim.None? <==> !Truthy(Get(body, "data_fim")))
  {
  }

  method CreateContratoHandler(table: ContratoTable, imoveis: Imoveis.ImovelTable, usuarios: Usuarios.UsuarioTable,
                               body: map<string, Js>, now: int, fault: Option<Failure>)
    returns (r: Response<Option<ContratoView>>)
    requires table.Valid() && imoveis.Valid() && usuarios.Valid()
    modifies table
    ensures table.Valid()
    ensures CreateRequest(body).Reject? ==>
              r == Reply(400, CreateRequest(body).message) && table.rows == old(table.rows)
    ensures CreateRequest(body).Proceed? ==>
              var p := CreateRequest(body).value;
              if p.imovelId !in imoveis.rows then
                r == Reply(404, MsgImovelNaoExiste) && table.rows == old(table.rows)
              else if p.usuarioId !in usuarios.rows then
                r == Reply(404, MsgUsuarioNaoExiste) && table.rows == old(table.rows)
              else if fault.Some? then
                r == ErrorResponse(fault.value) && table.rows == old(table.rows)
              else
                var c := Inserted(old(table.nextId), p, now);
                old(table.nextId) !in old(table.rows)
                && table.rows == old(table.rows)[c.id := c]
                && r == Response(201, Json(Some(Joined(c, imoveis.rows, usuarios.rows))))
  {
    var c := CreateRequest(body);
    if c.Reject? {
      return Reply(c.status, c.message);
    }
    // `getImovelById` and `getUsuarioById` find a row exactly when the id is
    // a key of its table.
    var imovelExiste := c.value.imovelId in imoveis.rows;
    var usuario := usuarios.GetById(c.value.usuarioId);
    if !imovelExiste {
      return Reply(404, MsgImovelNaoExiste);
    }
    if usuario.None? {
      return Reply(404, MsgUsuarioNaoExiste);
    }
    var created := table.Create(c.value, now, fault, imoveis.rows, usuarios.rows);
    if created.Err? {
      return ErrorResponse(created.error);
    }
    r := Response(201, Json(created.value));
  }

  // ---------------------------------------------------------------------
  // updateContratoHandler

  /** The checks `updateContratoHandler` makes on the keys the body has; a
      key the body does not have is never checked. */
  predicate ImovelUpdateOk(body: map<string, Js>)
  {
    "imovel_id" in body ==> ParseId(body["imovel_id"]).Some?
  }

  predicate UsuarioUpdateOk(body: map<string, Js>)
  {
    "usuario_id" in body ==> ParseId(body["usuario_id"]).Some?
  }

  predicate TipoUpdateOk(body: map<string, Js>)
  {
    "tipo_contrato" in body ==> LowerOrEmpty(body["tipo_contrato"]) in AllowedTiposContrato
  }

  predicate DataInicioUpdateOk(body: map<string, Js>)
  {
    "data_inicio" in body ==> DateAcceptable(body["data_inicio"])
  }

  predicate DataFimUpdateOk(body: map<string, Js>)
  {
    "data_fim" in body ==> DateAcceptable(body["data_fim"])
  }

  predicate ValorUpdateOk(body: map<string, Js>)
  {
    "valor" in body ==> ValidValor(body["valor"])
  }

  predicate UpdateBodyOk(body: map<string, Js>)
  {
    ImovelUpdateOk(body) && UsuarioUpdateOk(body) && TipoUpdateOk(body)
    && DataInicioUpdateOk(body) && DataFimUpdateOk(body) && ValorUpdateOk(body)
  }

  /** A positive-integer id, or 0 where the check has failed already. */
  function IdOrZero(v: Js): int
  {
    if ParseId(v).Some? then ParseId(v).value else 0
  }

  function ValorOrZero(v: Js): real
  {
    if ParseNumber(v).Some? then ParseNumber(v).value else 0.0
  }

  /** The payload `updateContratoHandler` builds: one key per column key the
      body has, with the converted value. */
  function UpdatePatch(body: map<string, Js>): ContratoPatch
  {
    ContratoPatch(
      KeyOf(body, "imovel_id", IdOrZero),
      KeyOf(body, "usuario_id", IdOrZero),
      KeyOf(body, "tipo_contrato", LowerOrEmpty),
      KeyOf(body, "data_inicio", DateOrNull),
      KeyOf(body, "data_fim", DateOrNull),
      KeyOf(body, "valor", ValorOrZero))
  }

  /** `updateContratoHandler` before any lookup: the id first, then each
      present key in the order property, user, type, start date, end date,
      price. */
  function UpdateRequest(rawId: Js, body: map<string, Js>): (c: Check<(int, ContratoPatch)>)
    ensures ParseId(rawId).None? ==> c == Reject(400, MsgIdentificadorInvalido)
    ensures ParseId(rawId).Some? ==> (c.Proceed? <==> UpdateBodyOk(body))
    ensures (ParseId(rawId).Some? && !ImovelUpdateOk(body)) ==> c == Reject(400, MsgImovelNumerico)
    ensures (ParseId(rawId).Some? && ImovelUpdateOk(body) && !UsuarioUpdateOk(body)) ==>
              c == Reject(400, MsgUsuarioNumerico)
    ensures (ParseId(rawId).Some? && ImovelUpdateOk(body) && UsuarioUpdateOk(body) && !TipoUpdateOk(body)) ==>
              c == Reject(400, MsgTipoInvalido)
    ensures (ParseId(rawId).Some? && ImovelUpdateOk(body) && UsuarioUpdateOk(body) && TipoUpdateOk(body)
             && !DataInicioUpdateOk(body)) ==>
              c == Reject(400, MsgDataInicio)
    ensures (ParseId(rawId).Some? && ImovelUpdateOk(body) && UsuarioUpdateOk(body) && TipoUpdateOk(body)
             && DataInicioUpdateOk(body) && !DataFimUpdateOk(body)) ==>
              c == Reject(400, MsgDataFim)
    ensures (ParseId(rawId).Some? && ImovelUpdateOk(body) && UsuarioUpdateOk(body) && TipoUpdateOk(body)
             && DataInicioUpdateOk(body) && DataFimUpdateOk(body) && !ValorUpdateOk(body)) ==>
              c == Reject(400, MsgValorInvalido)
    ensures c.Proceed? ==> c.value == (ParseId(rawId).value, UpdatePatch(body))
  {
    if ParseId(rawId).None? then Reject(400, MsgIdentificadorInvalido)
    else if !ImovelUpdateOk(body) then Reject(400, MsgImovelNumerico)
    else if !UsuarioUpdateOk(body) then Reject(400, MsgUsuarioNumerico)
    else if !TipoUpdateOk(body) then Reject(400, MsgTipoInvalido)
    else if !DataInicioUpdateOk(body) then Reject(400, MsgDataInicio)
    else if !DataFimUpdateOk(body) then Reject(400, MsgDataFim)
    else if !ValorUpdateOk(body) then Reject(400, MsgValorInvalido)
    else Proceed((ParseId(rawId).value, UpdatePatch(body)))
  }

  /** What an accepted update writes: present ids are positive integers, a
      present type is an allowed one (so the service's "keep the current
      one" fallback is never taken from HTTP), a present price is not
      negative, and every column whose key is absent keeps its value. */
  lemma UpdateWrites(body: map<string, Js>, c: Contrato)
    requires UpdateBodyOk(body)
    ensures var n := Patched(c, UpdatePatch(body));
            n.id == c.id && n.criadoEm == c.criadoEm && (WellFormed(c) ==> WellFormed(n))
            && ("imovel_id" in body ==> n.imovelId == ParseId(body["imovel_id"]).value && n.imovelId >= 1)
            && ("imovel_id" !in body ==> n.imovelId == c.imovelId)
            && ("usuario_id" in body ==> n.usuarioId == ParseId(body["usuario_id"]).value && n.usuarioId >= 1)
            && ("usuario_id" !in body ==> n.usuarioId == c.usuarioId)
            && ("tipo_contrato" in body ==>
                  n.tipo == Some(ToLower(body["tipo_contrato"].s)) && n.tipo.value in AllowedTiposContrato)
            && ("tipo_contrato" !in body ==> n.tipo == c.tipo)
            && ("data_inicio" in body ==> n.dataInicio == DateOrNull(body["data_inicio"]))
            && ("data_inicio" !in body ==> n.dataInicio == c.dataInicio)
            && ("data_fim" in body ==> n.dataFim == DateOrNull(body["data_fim"]))
            && ("data_fim" !in body ==> n.dataFim == c.dataFim)
            && ("valor" in body ==> n.valor == ParseNumber(body["valor"]).value && n.valor >= 0.0)
            && ("valor" !in body ==> n.valor == c.valor)
  {
  }

  /** Sending `data_inicio: ""` or `null` on update clears the stored date. */
  lemma UpdateClearsEmptyDate(rawId: Js, body: map<string, Js>, c: Contrato)
    requires UpdateRequest(rawId, body).Proceed?
    requires "data_inicio" in body && !Truthy(body["data_inicio"])
    ensures Patched(c, UpdateRequest(rawId, body).value.1).dataInicio.None?
  {
  }

  method UpdateContratoHandler(table: ContratoTable, imoveis: Imoveis.ImovelTable, usuarios: Usuarios.UsuarioTable,
                               rawId: Js, body: map<string, Js>, fault: Option<Failure>)
    returns (r: Response<ContratoView>)
    requires table.Valid() && imoveis.Valid() && usuarios.Valid()
    modifies table
    ensures table.Valid()
    ensures UpdateRequest(rawId, body).Reject? ==>
              r == Reply(400, UpdateRequest(rawId, body).message) && table.rows == old(table.rows)
    ensures UpdateRequest(rawId, body).Proceed? ==>
              var (id, p) := UpdateRequest(rawId, body).value;
              var ims := imoveis.rows;
              var uss := usuarios.rows;
              if p.imovelId.Present? && p.imovelId.value !in ims then
                r == Reply(404, MsgImovelNaoExiste) && table.rows == old(table.rows)
              else if p.usuarioId.Present? && p.usuarioId.value !in uss then
                r == Reply(404, MsgUsuarioNaoExiste) && table.rows == old(table.rows)
              else if !(id in old(table.rows) && Linked(old(table.rows)[id], ims, uss)) then
                r == Reply(404, MsgNaoEncontrado) && table.rows == old(table.rows)
              else if !Touches(p) then
                r == Response(200, Json(Joined(old(table.rows)[id], ims, uss))) && table.rows == old(table.rows)
              else if fault.Some? then
                r == ErrorResponse(fault.value) && table.rows == old(table.rows)
              else
                var n := Patched(old(table.rows)[id], p);
                Linked(n, ims, uss)
                && r == Response(200, Json(Joined(n, ims, uss))) && table.rows == old(table.rows)[id := n]
  {
    var c := UpdateRequest(rawId, body);
    if c.Reject? {
      return Reply(c.status, c.message);
    }
    var (id, p) := c.value;
    if p.imovelId.Present? {
      if p.imovelId.value !in imoveis.rows {
        return Reply(404, MsgImovelNaoExiste);
      }
    }
    if p.usuarioId.Present? {
      var usuario := usuarios.GetById(p.usuarioId.value);
      if usuario.None? {
        return Reply(404, MsgUsuarioNaoExiste);
      }
    }
    var updated := table.Update(id, p, fault, imoveis.rows, usuarios.rows);
    if updated.Err? {
      return ErrorResponse(updated.error);
    }
    if updated.value.None? {
      return Reply(404, MsgNaoEncontrado);
    }
    r := Response(200, Json(updated.value.value));
  }

  /** A contract whose property has been deleted is no longer found by id
      although its row is still stored, so fetching and updating it answer
      404 while deleting it still succeeds. */
  lemma OrphanedContract(table: ContratoTable, id: int, ims: map<int, Imoveis.Imovel>, uss: map<int, Usuarios.Usuario>)
    requires table.Valid()
    requires id in table.rows && table.rows[id].imovelId !in ims
    ensures table.GetById(id, ims, uss).None?
  {
  }

  // ---------------------------------------------------------------------
  // deleteContratoHandler

  method DeleteContratoHandler(table: ContratoTable, rawId: Js, fault: Option<Failure>) returns (r: Response<()>)
    requires table.Valid()
    modifies table
    ensures table.Valid()
    ensures ParseId(rawId).None? ==> r == Reply(400, MsgIdentificadorInvalido) && table.rows == old(table.rows)
    ensures ParseId(rawId).Some? && fault.Some? ==> r == ErrorResponse(fault.value) && table.rows == old(table.rows)
    ensures ParseId(rawId).Some? && fault.None? ==>
              var id := ParseId(rawId).value;
              table.rows == old(table.rows) - {id}
              && r == if id in old(table.rows) then Response(204, Empty) else Reply(404, MsgNaoEncontrado)
  {
    var id := ParseId(rawId);
    if id.None? {
      return Reply(400, MsgIdentificadorInvalido);
    }
    var removed := table.Delete(id.value, fault);
    if removed.Err? {
      return ErrorResponse(removed.error);
    }
    if !removed.value {
      return Reply(404, MsgNaoEncontrado);
    }
    r := Response(204, Empty);
  }
}
