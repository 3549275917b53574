/** The property handlers (src/controllers/imoveis.controller.js): the
    checks each one makes on the query, the route id and the body, in the
    order it makes them, and what reaches the store. */
module ImoveisController {
  import opened Base
  import opened JsValues
  import opened MysqlErrors
  import opened Parsing
  import opened Http
  import opened Tables
  import opened Ordering
  import opened Imoveis
  import Categorias
  import Cidades
  import Fotos

  const MsgTipoInvalido: string := "Tipo de imóvel inválido."
  const MsgStatusInvalido: string := "Status de imóvel inválido."
  const MsgNaoEncontrado: string := "Imóvel não encontrado."
  const MsgTipoObrigatorio: string := "Tipo de imóvel é obrigatório e deve ser válido."
  const MsgTituloObrigatorio: string := "Título é obrigatório."
  const MsgValorObrigatorio: string := "Valor do imóvel é obrigatório e deve ser válido."
  const MsgCategoria: string := "Categoria deve ser informada com um identificador numérico."
  const MsgCidade: string := "Cidade deve ser informada com um identificador numérico."
  const MsgTituloVazio: string := "Título não pode ser vazio."
  const MsgValorInvalido: string := "Valor do imóvel deve ser válido."

  // ---------------------------------------------------------------------
  // field checks shared by create and update

  /** `value === undefined || value === null || value === ''`: a reference
      field that counts as not sent. */
  predicate Blank(v: Js)
  {
    v == Undefined || v == Null || v == Str("")
  }

  /** A category or city reference that was sent but `parseNumber` rejects. */
  predicate BadReference(v: Js)
  {
    ParseNumber(v).None? && !Blank(v)
  }

  /** A price `parseNumber` accepts and that is not negative. */
  predicate ValidValor(v: Js)
  {
    ParseNumber(v).Some? && ParseNumber(v).value >= 0.0
  }

  /** `typeof v === 'string' ? v : null` */
  function TextOrNull(v: Js): (r: Option<string>)
    ensures r.Some? <==> v.Str?
    ensures r.Some? ==> r.value == v.s
  {
    if v.Str? then Some(v.s) else None
  }

  /** A reference is refused exactly when it was sent and is not a finite
      number; an accepted one is NULL exactly when it was not sent. */
  lemma ReferenceCheck(v: Js)
    ensures BadReference(v) <==> !Blank(v) && !ToNumber(v).Finite?
    ensures !BadReference(v) ==> (ParseNumber(v).None? <==> Blank(v))
    ensures ParseNumber(v).Some? ==> ToNumber(v) == Finite(ParseNumber(v).value)
  {
  }

  /** A reference only has to be a finite number: `true` is category 1, and
      a fractional or negative number is accepted and stored although no
      row can have that id, so the stored property joins nothing. */
  lemma ReferenceLooserThanId(x: real, cats: map<int, Categorias.Categoria>)
    requires !IsIntegral(x) || x <= 0.0
    ensures !BadReference(Bool(true)) && ParseNumber(Bool(true)) == Some(1.0)
    ensures !BadReference(Number(Finite(x))) && ParseNumber(Number(Finite(x))) == Some(x)
    ensures ParseId(Number(Finite(x))).None?
    ensures !IsIntegral(x) ==> Related(cats, ParseNumber(Number(Finite(x)))).None?
  {
  }

  // ---------------------------------------------------------------------
  // getImoveis

  /** The type and status in the query, lower-cased when they are strings. */
  function QueryTipo(query: map<string, Js>): Option<string>
  {
    LowerIfString(Get(query, "tipo"))
  }

  function QueryStatus(query: map<string, Js>): Option<string>
  {
    LowerIfString(Get(query, "status"))
  }

  /** `getImoveis` before the query: a truthy type must be an allowed one,
      then a truthy status must be; every other filter is parsed and passed
      on, an unparsable number becoming no filter at all. */
  function ListRequest(query: map<string, Js>): (c: Check<ImovelFilters>)
    ensures ActiveText(QueryTipo(query)) && QueryTipo(query).value !in AllowedTypes ==>
              c == Reject(400, MsgTipoInvalido)
    ensures !(ActiveText(QueryTipo(query)) && QueryTipo(query).value !in AllowedTypes) ==>
              (c.Reject? <==> ActiveText(QueryStatus(query)) && QueryStatus(query).value !in AllowedStatus)
              && (c.Reject? ==> c == Reject(400, MsgStatusInvalido))
    ensures c.Proceed? ==>
              c.value.tipo == QueryTipo(query) && c.value.status == QueryStatus(query)
              && (ActiveText(c.value.tipo) ==> c.value.tipo.value in AllowedTypes)
              && (ActiveText(c.value.status) ==> c.value.status.value in AllowedStatus)
              && c.value.categoriaId == ParseNumber(Get(query, "categoria_id"))
              && c.value.cidadeId == ParseNumber(Get(query, "cidade_id"))
              && c.value.valorMin == ParseNumber(Get(query, "valor_min"))
              && c.value.valorMax == ParseNumber(Get(query, "valor_max"))
              && c.value.busca == TextOrNull(Get(query, "busca"))
  {
    var tipo := QueryTipo(query);
    var status := QueryStatus(query);
    if ActiveText(tipo) && tipo.value !in AllowedTypes then Reject(400, MsgTipoInvalido)
    else if ActiveText(status) && status.value !in AllowedStatus then Reject(400, MsgStatusInvalido)
    else Proceed(ImovelFilters(tipo, status,
                               ParseNumber(Get(query, "categoria_id")),
                               ParseNumber(Get(query, "cidade_id")),
                               ParseNumber(Get(query, "valor_min")),
                               ParseNumber(Get(query, "valor_max")),
                               TextOrNull(Get(query, "busca"))))
  }

  /** `CASA` and `casa` are the same filter. */
  lemma ListIgnoresTipoCase(query: map<string, Js>, s: string)
    requires Get(query, "tipo") == Str(s)
    ensures ListRequest(query) == ListRequest(query["tipo" := Str(ToLower(s))])
  {
    ToLowerIdempotent(s);
    var q := query["tipo" := Str(ToLower(s))];
    assert Get(q, "tipo") == Str(ToLower(s));
    assert forall k :: k != "tipo" ==> Get(q, k) == Get(query, k);
  }

  /** An empty type or status is no filter rather than an error; a number
      that does not parse is dropped rather than refused. */
  lemma ListLenient(query: map<string, Js>)
    requires Get(query, "tipo") == Str("") && Get(query, "status") == Str("")
    requires Get(query, "valor_min") == Str("abc")
    ensures ListRequest(query).Proceed?
    ensures ListRequest(query).value.valorMin.None?
  {
    assert StringToNumber("abc").NaN? by {
      assert Trim("abc") == "abc" by {
        TrimUnchanged("abc");
      }
      assert IndexOf("abc", '.') == 3;
      assert !IsDigit('a');
    }
  }

  method GetImoveis(table: ImovelTable, query: map<string, Js>,
                    cats: map<int, Categorias.Categoria>, cids: map<int, Cidades.Cidade>)
    returns (r: Response<seq<ImovelView>>)
    requires table.Valid()
    ensures ListRequest(query).Reject? ==> r == Reply(400, ListRequest(query).message)
    ensures ListRequest(query).Proceed? ==>
              r.status == 200 && r.body.Json?
              && (forall v :: v in r.body.value <==>
                    v.imovel in table.rows.Values && Matches(ListRequest(query).value, v.imovel)
                    && v == Joined(v.imovel, cats, cids))
              && (forall i, j :: 0 <= i < j < |r.body.value| ==>
                    r.body.value[i].imovel.id != r.body.value[j].imovel.id)
              && SortedBy(r.body.value, NewerView)
  {
    var c := ListRequest(query);
    if c.Reject? {
      return Reply(c.status, c.message);
    }
    var vs := table.List(c.value, cats, cids);
    r := Response(200, Json(vs));
  }

  // ---------------------------------------------------------------------
  // getImovel

  /** `{ ...imovel, fotos }`: the joined row and its photos. */
  datatype ImovelDetail = ImovelDetail(view: ImovelView, fotos: seq<Fotos.Foto>)

  method GetImovel(table: ImovelTable, fotos: Fotos.FotoTable, rawId: Js,
                   cats: map<int, Categorias.Categoria>, cids: map<int, Cidades.Cidade>)
    returns (r: Response<ImovelDetail>)
    requires table.Valid() && fotos.Valid()
    ensures ParseId(rawId).None? ==> r == Reply(400, MsgIdentificadorInvalido)
    ensures ParseId(rawId).Some? && ParseId(rawId).value !in table.rows ==> r == Reply(404, MsgNaoEncontrado)
    ensures ParseId(rawId).Some? && ParseId(rawId).value in table.rows ==>
              var id := ParseId(rawId).value;
              r.status == 200 && r.body.Json?
              && r.body.value.view == Joined(table.rows[id], cats, cids)
              && r.body.value.view.imovel.id == id
              && r.body.value.fotos == fotos.ListByImovel(id)
              && (forall f :: f in r.body.value.fotos <==> f in fotos.rows.Values && f.imovelId == id)
  {
    var id := ParseId(rawId);
    if id.None? {
      return Reply(400, MsgIdentificadorInvalido);
    }
    var v := table.GetById(id.value, cats, cids);
    if v.None? {
      return Reply(404, MsgNaoEncontrado);
    }
    r := Response(200, Json(ImovelDetail(v.value, fotos.ListByImovel(id.value))));
  }

  // ---------------------------------------------------------------------
  // createImovelHandler

  /** The body's type, lower-cased, is one of the allowed ones. */
  predicate TipoGiven(body: map<string, Js>)
  {
    var t := LowerIfString(Get(body, "tipo"));
    t.Some? && t.value in AllowedTypes
  }

  /** The body's status, lower-cased, is absent, empty, or allowed. */
  predicate StatusAcceptable(body: map<string, Js>)
  {
    var s := LowerIfString(Get(body, "status"));
    !ActiveText(s) || s.value in AllowedStatus
  }

  /** The trimmed title, or `''` when it was not a string. */
  function CreateTitulo(body: map<string, Js>): string
  {
    OrEmpty(TrimIfString(Get(body, "titulo")))
  }

  /** `status || 'disponivel'` */
  function CreateStatus(body: map<string, Js>): string
  {
    var s := LowerIfString(Get(body, "status"));
    if ActiveText(s) then s.value else DefaultStatus
  }

  /** `createImovelHandler` before the insert: type, status, title, price,
      category and city, in that order; the first that fails decides the
      message. */
  function CreateRequest(body: map<string, Js>): (c: Check<NewImovel>)
    ensures c.Proceed? <==>
              TipoGiven(body) && StatusAcceptable(body) && CreateTitulo(body) != ""
              && ValidValor(Get(body, "valor"))
              && !BadReference(Get(body, "categoria_id")) && !BadReference(Get(body, "cidade_id"))
    ensures !TipoGiven(body) ==> c == Reject(400, MsgTipoObrigatorio)
    ensures TipoGiven(body) && !StatusAcceptable(body) ==> c == Reject(400, MsgStatusInvalido)
    ensures TipoGiven(body) && StatusAcceptable(body) && CreateTitulo(body) == "" ==>
              c == Reject(400, MsgTituloObrigatorio)
    ensures (TipoGiven(body) && StatusAcceptable(body) && CreateTitulo(body) != ""
            && !ValidValor(Get(body, "valor"))) ==> c == Reject(400, MsgValorObrigatorio)
    ensures (TipoGiven(body) && StatusAcceptable(body) && CreateTitulo(body) != ""
            && ValidValor(Get(body, "valor")) && BadReference(Get(body, "categoria_id"))) ==>
              c == Reject(400, MsgCategoria)
    ensures (TipoGiven(body) && StatusAcceptable(body) && CreateTitulo(body) != ""
            && ValidValor(Get(body, "valor")) && !BadReference(Get(body, "categoria_id"))
            && BadReference(Get(body, "cidade_id"))) ==> c == Reject(400, MsgCidade)
    ensures c.Proceed? ==>
              c.value.tipo == ToLower(Get(body, "tipo").s) && c.value.tipo in AllowedTypes
              && c.value.status == CreateStatus(body) && c.value.status in AllowedStatus
              && c.value.titulo == Trim(Get(body, "titulo").s) && c.value.titulo != ""
              && c.value.valor == ParseNumber(Get(body, "valor")).value && c.value.valor >= 0.0
              && c.value.categoriaId == ParseNumber(Get(body, "categoria_id"))
              && c.value.cidadeId == ParseNumber(Get(body, "cidade_id"))
              && c.value.descricao == TextOrNull(Get(body, "descricao"))
              && c.value.endereco == TextOrNull(Get(body, "endereco"))
  {
    if !TipoGiven(body) then Reject(400, MsgTipoObrigatorio)
    else if !StatusAcceptable(body) then Reject(400, MsgStatusInvalido)
    else if CreateTitulo(body) == "" then Reject(400, MsgTituloObrigatorio)
    else if !ValidValor(Get(body, "valor")) then Reject(400, MsgValorObrigatorio)
    else if BadReference(Get(body, "categoria_id")) then Reject(400, MsgCategoria)
    else if BadReference(Get(body, "cidade_id")) then Reject(400, MsgCidade)
    else Proceed(NewImovel(CreateTitulo(body),
                           TextOrNull(Get(body, "descricao")),
                           ToLower(Get(body, "tipo").s),
                           ParseNumber(Get(body, "categoria_id")),
                           ParseNumber(Get(body, "cidade_id")),
                           TextOrNull(Get(body, "endereco")),
                           ParseNumber(Get(body, "valor")).value,
                           CreateStatus(body)))
  }

  /** A payload that passed the checks is stored as sent: the service's
      fallbacks (NULL for an unknown type, `disponivel` for an unknown
      status) are never taken from HTTP, and a missing status is stored as
      `disponivel`. */
  lemma CreateStoresPayload(body: map<string, Js>, id: int, now: int)
    requires CreateRequest(body).Proceed?
    ensures var p := CreateRequest(body).value;
            var i := Inserted(id, p, now);
            i.tipo == Some(p.tipo) && i.status == p.status && WellFormed(i)
            && (!ActiveText(LowerIfString(Get(body, "status"))) ==> i.status == DefaultStatus)
            && Trim(i.titulo) == i.titulo
  {
    TrimIdempotent(Get(body, "titulo").s);
  }

  /** `Casa` and `casa` create the same property. */
  lemma CreateIgnoresTipoCase(body: map<string, Js>, s: string)
    requires Get(body, "tipo") == Str(s)
    ensures CreateRequest(body) == CreateRequest(body["tipo" := Str(ToLower(s))])
  {
    ToLowerIdempotent(s);
    var b := body["tipo" := Str(ToLower(s))];
    assert forall k :: k != "tipo" ==> Get(b, k) == Get(body, k);
    CreateReadsFields(body, b);
  }

  /** Two bodies that agree on every key `createImovelHandler` reads, the
      type up to case, are the same request. */
  lemma CreateReadsFields(b1: map<string, Js>, b2: map<string, Js>)
    requires Get(b1, "tipo").Str? && Get(b2, "tipo").Str?
    requires ToLower(Get(b1, "tipo").s) == ToLower(Get(b2, "tipo").s)
    requires Get(b1, "status") == Get(b2, "status") && Get(b1, "titulo") == Get(b2, "titulo")
    requires Get(b1, "valor") == Get(b2, "valor")
    requires Get(b1, "categoria_id") == Get(b2, "categoria_id") && Get(b1, "cidade_id") == Get(b2, "cidade_id")
    requires Get(b1, "descricao") == Get(b2, "descricao") && Get(b1, "endereco") == Get(b2, "endereco")
    ensures CreateRequest(b1) == CreateRequest(b2)
  {
    assert TipoGiven(b1) == TipoGiven(b2);
    assert StatusAcceptable(b1) == StatusAcceptable(b2) && CreateStatus(b1) == CreateStatus(b2);
    assert CreateTitulo(b1) == CreateTitulo(b2);
  }

  method CreateImovelHandler(table: ImovelTable, body: map<string, Js>, now: int, fault: Option<Failure>,
                             cats: map<int, Categorias.Categoria>, cids: map<int, Cidades.Cidade>)
    returns (r: Response<ImovelView>)
    requires table.Valid()
    modifies table
    ensures table.Valid()
    ensures CreateRequest(body).Reject? ==>
              r == Reply(400, CreateRequest(body).message) && table.rows == old(table.rows)
    ensures CreateRequest(body).Proceed? && fault.Some? ==>
              r == ErrorResponse(fault.value) && table.rows == old(table.rows)
    ensures CreateRequest(body).Proceed? && fault.None? ==>
              var i := Inserted(old(table.nextId), CreateRequest(body).value, now);
              old(table.nextId) !in old(table.rows)
              && table.rows == old(table.rows)[i.id := i]
              && r == Response(201, Json(Joined(i, cats, cids)))
  {
    var c := CreateRequest(body);
    if c.Reject? {
      return Reply(c.status, c.message);
    }
    var created := table.Create(c.value, now, fault, cats, cids);
    if created.Err? {
      return ErrorResponse(created.error);
    }
    r := Response(201, Json(created.value));
  }

  // ---------------------------------------------------------------------
  // updateImovelHandler

  /** The checks `updateImovelHandler` makes on the keys the body has; a key
      the body does not have is never checked. */
  predicate TituloUpdateOk(body: map<string, Js>)
  {
    "titulo" in body ==> OrEmpty(TrimIfString(body["titulo"])) != ""
  }

  predicate TipoUpdateOk(body: map<string, Js>)
  {
    "tipo" in body ==> LowerOrEmpty(body["tipo"]) in AllowedTypes
  }

  predicate CategoriaUpdateOk(body: map<string, Js>)
  {
    "categoria_id" in body ==> !BadReference(body["categoria_id"])
  }

  predicate CidadeUpdateOk(body: map<string, Js>)
  {
    "cidade_id" in body ==> !BadReference(body["cidade_id"])
  }

  predicate ValorUpdateOk(body: map<string, Js>)
  {
    "valor" in body ==> ValidValor(body["valor"])
  }

  predicate StatusUpdateOk(body: map<string, Js>)
  {
    "status" in body ==> LowerOrEmpty(body["status"]) in AllowedStatus
  }

  predicate UpdateBodyOk(body: map<string, Js>)
  {
    TituloUpdateOk(body) && TipoUpdateOk(body) && CategoriaUpdateOk(body)
    && CidadeUpdateOk(body) && ValorUpdateOk(body) && StatusUpdateOk(body)
  }

  /** The payload `updateImovelHandler` builds: one key per column key the
      body has, with the converted value. */
  function UpdatePatch(body: map<string, Js>): ImovelPatch
  {
    ImovelPatch(
      KeyOf(body, "titulo", v => OrEmpty(TrimIfString(v))),
      KeyOf(body, "descricao", TextOrNull),
      KeyOf(body, "tipo", LowerOrEmpty),
      KeyOf(body, "categoria_id", ParseNumber),
      KeyOf(body, "cidade_id", ParseNumber),
      KeyOf(body, "endereco", TextOrNull),
      KeyOf(body, "valor", v => if ParseNumber(v).Some? then ParseNumber(v).value else 0.0),
      KeyOf(body, "status", LowerOrEmpty))
  }

  /** `updateImovelHandler` before the update: the id first, then title,
      type, category, city, price and status, each only when its key is
      present; the description and address are never refused. */
  function UpdateRequest(rawId: Js, body: map<string, Js>): (c: Check<(int, ImovelPatch)>)
    ensures ParseId(rawId).None? ==> c == Reject(400, MsgIdentificadorInvalido)
    ensures ParseId(rawId).Some? ==> (c.Proceed? <==> UpdateBodyOk(body))
    ensures ParseId(rawId).Some? && !TituloUpdateOk(body) ==> c == Reject(400, MsgTituloVazio)
    ensures ParseId(rawId).Some? && TituloUpdateOk(body) && !TipoUpdateOk(body) ==>
              c == Reject(400, MsgTipoInvalido)
    ensures ParseId(rawId).Some? && TituloUpdateOk(body) && TipoUpdateOk(body) && !CategoriaUpdateOk(body) ==>
              c == Reject(400, MsgCategoria)
    ensures (ParseId(rawId).Some? && TituloUpdateOk(body) && TipoUpdateOk(body) && CategoriaUpdateOk(body)
            && !CidadeUpdateOk(body)) ==> c == Reject(400, MsgCidade)
    ensures (ParseId(rawId).Some? && TituloUpdateOk(body) && TipoUpdateOk(body) && CategoriaUpdateOk(body)
            && CidadeUpdateOk(body) && !ValorUpdateOk(body)) ==> c == Reject(400, MsgValorInvalido)
    ensures (ParseId(rawId).Some? && TituloUpdateOk(body) && TipoUpdateOk(body) && CategoriaUpdateOk(body)
            && CidadeUpdateOk(body) && ValorUpdateOk(body) && !StatusUpdateOk(body)) ==>
              c == Reject(400, MsgStatusInvalido)
    ensures c.Proceed? ==> c.value == (ParseId(rawId).value, UpdatePatch(body))
  {
    if ParseId(rawId).None? then Reject(400, MsgIdentificadorInvalido)
    else if !TituloUpdateOk(body) then Reject(400, MsgTituloVazio)
    else if !TipoUpdateOk(body) then Reject(400, MsgTipoInvalido)
    else if !CategoriaUpdateOk(body) then Reject(400, MsgCategoria)
    else if !CidadeUpdateOk(body) then Reject(400, MsgCidade)
    else if !ValorUpdateOk(body) then Reject(400, MsgValorInvalido)
    else if !StatusUpdateOk(body) then Reject(400, MsgStatusInvalido)
    else Proceed((ParseId(rawId).value, UpdatePatch(body)))
  }

  /** The column keys `updateImovelHandler` knows. */
  const UpdateKeys: set<string> :=
    {"titulo", "descricao", "tipo", "categoria_id", "cidade_id", "endereco", "valor", "status"}

  /** What an accepted update writes: a present title is trimmed and not
      empty, a present type or status is an allowed one (so the service's
      "keep the current one" fallback is never taken from HTTP), a present
      price is not negative, and every column whose key is absent keeps its
      value. A body with none of the column keys changes nothing. */
  lemma UpdateWrites(body: map<string, Js>, i: Imovel)
    requires UpdateBodyOk(body)
    ensures var p := UpdatePatch(body);
            var n := Patched(i, p);
            n.id == i.id && n.criadoEm == i.criadoEm
            && (Touches(p) <==> exists k :: k in UpdateKeys && k in body)
            && ("titulo" in body ==> n.titulo == Trim(body["titulo"].s) && n.titulo != "")
            && ("titulo" !in body ==> n.titulo == i.titulo)
            && ("tipo" in body ==> n.tipo == Some(ToLower(body["tipo"].s)) && n.tipo.value in AllowedTypes)
            && ("tipo" !in body ==> n.tipo == i.tipo)
            && ("status" in body ==> n.status == ToLower(body["status"].s) && n.status in AllowedStatus)
            && ("status" !in body ==> n.status == i.status)
            && ("valor" in body ==> n.valor == ParseNumber(body["valor"]).value && n.valor >= 0.0)
            && ("valor" !in body ==> n.valor == i.valor)
            && ("categoria_id" in body ==> n.categoriaId == ParseNumber(body["categoria_id"]))
            && ("categoria_id" !in body ==> n.categoriaId == i.categoriaId)
            && ("cidade_id" in body ==> n.cidadeId == ParseNumber(body["cidade_id"]))
            && ("cidade_id" !in body ==> n.cidadeId == i.cidadeId)
            && ("descricao" in body ==> n.descricao == TextOrNull(body["descricao"]))
            && ("descricao" !in body ==> n.descricao == i.descricao)
            && ("endereco" in body ==> n.endereco == TextOrNull(body["endereco"]))
            && ("endereco" !in body ==> n.endereco == i.endereco)
  {
    var p := UpdatePatch(body);
    if Touches(p) {
      if p.titulo.Present? { assert "titulo" in UpdateKeys; }
      else if p.descricao.Present? { assert "descricao" in UpdateKeys; }
      else if p.tipo.Present? { assert "tipo" in UpdateKeys; }
      else if p.categoriaId.Present? { assert "categoria_id" in UpdateKeys; }
      else if p.cidadeId.Present? { assert "cidade_id" in UpdateKeys; }
      else if p.endereco.Present? { assert "endereco" in UpdateKeys; }
      else if p.valor.Present? { assert "valor" in UpdateKeys; }
      else { assert "status" in UpdateKeys; }
    }
  }

  /** Keys other than the eight columns are ignored: sending an `id` or a
      `criado_em` changes neither the checks nor the payload. */
  lemma UpdateIgnoresOtherKeys(rawId: Js, body: map<string, Js>, key: string, v: Js)
    requires key !in UpdateKeys
    ensures UpdateRequest(rawId, body[key := v]) == UpdateRequest(rawId, body)
  {
    var b := body[key := v];
    assert forall k :: k in UpdateKeys ==> (k in b <==> k in body) && (k in body ==> b[k] == body[k]);
    assert UpdateBodyOk(b) == UpdateBodyOk(body);
    assert UpdatePatch(b) == UpdatePatch(body);
  }

  /** Create and update disagree on an empty status: create stores
      `disponivel`, update refuses it. The same holds for a status that is
      not a string. */
  lemma EmptyStatusAsymmetry(body: map<string, Js>)
    requires Get(body, "status") == Str("")
    ensures StatusAcceptable(body) && CreateStatus(body) == DefaultStatus
    ensures !StatusUpdateOk(body)
  {
  }

  method UpdateImovelHandler(table: ImovelTable, rawId: Js, body: map<string, Js>, fault: Option<Failure>,
                             cats: map<int, Categorias.Categoria>, cids: map<int, Cidades.Cidade>)
    returns (r: Response<ImovelView>)
    requires table.Valid()
    modifies table
    ensures table.Valid()
    ensures UpdateRequest(rawId, body).Reject? ==>
              r == Reply(400, UpdateRequest(rawId, body).message) && table.rows == old(table.rows)
    ensures UpdateRequest(rawId, body).Proceed? ==>
              var (id, p) := UpdateRequest(rawId, body).value;
              if id !in old(table.rows) then
                r == Reply(404, MsgNaoEncontrado) && table.rows == old(table.rows)
              else if !Touches(p) then
                r == Response(200, Json(Joined(old(table.rows)[id], cats, cids))) && table.rows == old(table.rows)
              else if fault.Some? then
                r == ErrorResponse(fault.value) && table.rows == old(table.rows)
              else
                var n := Patched(old(table.rows)[id], p);
                r == Response(200, Json(Joined(n, cats, cids))) && table.rows == old(table.rows)[id := n]
  {
    var c := UpdateRequest(rawId, body);
    if c.Reject? {
      return Reply(c.status, c.message);
    }
    var updated := table.Update(c.value.0, c.value.1, fault, cats, cids);
    if updated.Err? {
      return ErrorResponse(updated.error);
    }
    if updated.value.None? {
      return Reply(404, MsgNaoEncontrado);
    }
    r := Response(200, Json(updated.value.value));
  }

  // ---------------------------------------------------------------------
  // deleteImovelHandler

  method DeleteImovelHandler(table: ImovelTable, rawId: Js, fault: Option<Failure>) returns (r: Response<()>)
    requires table.Valid()
    modifies table
    ensures table.Valid()
    ensures ParseId(rawId).None? ==> r == Reply(400, MsgIdentificadorInvalido) && table.rows == old(table.rows)
    ensures ParseId(rawId).Some? && fault.Some? ==> r == ErrorResponse(fault.value) && table.rows == old(table.rows)
    ensures ParseId(rawId).Some? && fault.None? ==>
              var id := ParseId(rawId).value;
              table.rows == old(table.rows) - {id}
              && r == if id in old(table.rows) then Response(204, Empty) else Reply(404, MsgNaoEncontrado)
  {
    var id := ParseId(rawId);
    if id.None? {
      return Reply(400, MsgIdentificadorInvalido);
    }
    var removed := table.Delete(id.value, fault);
    if removed.Err? {
      return ErrorResponse(removed.error);
    }
    if !removed.value {
      return Reply(404, MsgNaoEncontrado);
    }
    r := Response(204, Empty);
  }
}
