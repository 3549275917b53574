/** The `imoveis` table and the service over it
    (src/services/imoveis.service.js). Every read goes through the same
    `SELECT`, which LEFT JOINs the property's category and city; those two
    tables are passed in as maps from id to row. */
module Imoveis {
  import opened Base
  import opened JsValues
  import opened MysqlErrors
  import opened Tables
  import opened Ordering
  import Categorias
  import Cidades

  const AllowedTypes: set<string> := {"casa", "apartamento", "terreno", "comercial"}
  const AllowedStatus: set<string> := {"disponivel", "alugado", "vendido"}
  const DefaultStatus: string := "disponivel"

  /** A row of `imoveis`. The two foreign keys hold whatever number the
      controller accepted, or NULL. */
  datatype Imovel = Imovel(
    id: int,
    titulo: string,
    descricao: Option<string>,
    tipo: Option<string>,
    categoriaId: Option<real>,
    cidadeId: Option<real>,
    endereco: Option<string>,
    valor: real,
    status: string,
    criadoEm: int)

  /** What the service itself keeps true of every row it writes: the status
      is an allowed one and the type is an allowed one or NULL. */
  predicate WellFormed(i: Imovel)
  {
    i.status in AllowedStatus && (i.tipo.None? || i.tipo.value in AllowedTypes)
  }

  // ---------------------------------------------------------------------
  // the joined view (`buildSelect`)

  /** A row of `buildSelect()`: the property plus `categoria_nome`,
      `cidade_nome` and `cidade_estado`, NULL when nothing joins. */
  datatype ImovelView = ImovelView(
    imovel: Imovel,
    categoriaNome: Option<string>,
    cidadeNome: Option<string>,
    cidadeEstado: Option<string>)

  /** `LEFT JOIN t ON t.id = fk`: the row whose id equals the foreign key;
      a NULL key, or one that is not a whole number, joins nothing. */
  function Related<R>(t: map<int, R>, fk: Option<real>): (r: Option<R>)
    ensures r.Some? ==> fk.Some? && fk.value.Floor in t && fk.value.Floor as real == fk.value
                        && r.value == t[fk.value.Floor]
    ensures r.None? ==> forall k :: k in t ==> fk != Some(k as real)
  {
    if fk.Some? && IsIntegral(fk.value) && fk.value.Floor in t then Some(t[fk.value.Floor]) else None
  }

  function Joined(i: Imovel, cats: map<int, Categorias.Categoria>, cids: map<int, Cidades.Cidade>): ImovelView
  {
    var c := Related(cats, i.categoriaId);
    var cd := Related(cids, i.cidadeId);
    ImovelView(i,
               if c.Some? then c.value.nome else None,
               if cd.Some? then cd.value.nome else None,
               if cd.Some? then cd.value.estado else None)
  }

  /** The view never loses or alters the property's own columns, and a
      property without a category or city shows NULL for their names. */
  lemma JoinedKeepsRow(i: Imovel, cats: map<int, Categorias.Categoria>, cids: map<int, Cidades.Cidade>)
    ensures Joined(i, cats, cids).imovel == i
    ensures i.categoriaId.None? ==> Joined(i, cats, cids).categoriaNome.None?
    ensures i.cidadeId.None? ==> Joined(i, cats, cids).cidadeNome.None? && Joined(i, cats, cids).cidadeEstado.None?
    ensures (forall k :: k in cats ==> i.categoriaId != Some(k as real)) ==> Joined(i, cats, cids).categoriaNome.None?
  {
  }

  function JoinAll(rs: seq<Imovel>, cats: map<int, Categorias.Categoria>, cids: map<int, Cidades.Cidade>)
    : (vs: seq<ImovelView>)
    ensures |vs| == |rs|
    ensures forall k :: 0 <= k < |rs| ==> vs[k] == Joined(rs[k], cats, cids)
  {
    seq(|rs|, k requires 0 <= k < |rs| => Joined(rs[k], cats, cids))
  }

  /** A view is in the join exactly when its row is listed and it is that
      row joined with its references. */
  lemma JoinAllMembers(rs: seq<Imovel>, cats: map<int, Categorias.Categoria>, cids: map<int, Cidades.Cidade>)
    ensures forall v :: v in JoinAll(rs, cats, cids) <==> v.imovel in rs && v == Joined(v.imovel, cats, cids)
  {
    var vs := JoinAll(rs, cats, cids);
    forall v: ImovelView | v.imovel in rs && v == Joined(v.imovel, cats, cids)
      ensures v in vs
    {
      var j :| 0 <= j < |rs| && rs[j] == v.imovel;
      assert vs[j] == v;
    }
  }

  // ---------------------------------------------------------------------
  // listing

  /** The filters `listImoveis` receives, already parsed by the controller. */
  datatype ImovelFilters = ImovelFilters(
    tipo: Option<string>,
    status: Option<string>,
    categoriaId: Option<real>,
    cidadeId: Option<real>,
    valorMin: Option<real>,
    valorMax: Option<real>,
    busca: Option<string>)

  /** A truthy string: present and not empty. */
  predicate ActiveText(t: Option<string>)
  {
    t.Some? && t.value != ""
  }

  /** A truthy number: present and not zero. */
  predicate ActiveNumber(x: Option<real>)
  {
    x.Some? && x.value != 0.0
  }

  /** One `WHERE` condition of `listImoveis`. */
  datatype Condition =
    | TipoIs(string)
    | StatusIs(string)
    | CategoriaIs(real)
    | CidadeIs(real)
    | ValorAtLeast(real)
    | ValorAtMost(real)
    | Mentions(string)

  /** `titulo LIKE %b% OR descricao LIKE %b%`, as a substring test; a NULL
      description contains nothing. */
  predicate MentionedIn(i: Imovel, b: string)
  {
    Contains(i.titulo, b) || (i.descricao.Some? && Contains(i.descricao.value, b))
  }

  predicate Holds(c: Condition, i: Imovel)
  {
    match c
    case TipoIs(t) => i.tipo == Some(t)
    case StatusIs(s) => i.status == s
    case CategoriaIs(x) => i.categoriaId == Some(x)
    case CidadeIs(x) => i.cidadeId == Some(x)
    case ValorAtLeast(x) => i.valor >= x
    case ValorAtMost(x) => i.valor <= x
    case Mentions(b) => MentionedIn(i, b)
  }

  // The rows a listing admits, one filter at a time. A filter that is
  // falsy (absent, empty, zero) or names a type or status outside the
  // allowed sets constrains nothing.

  predicate TipoOk(f: ImovelFilters, i: Imovel)
  {
    ActiveText(f.tipo) && f.tipo.value in AllowedTypes ==> i.tipo == f.tipo
  }

  predicate StatusOk(f: ImovelFilters, i: Imovel)
  {
    ActiveText(f.status) && f.status.value in AllowedStatus ==> i.status == f.status.value
  }

  predicate CategoriaOk(f: ImovelFilters, i: Imovel)
  {
    ActiveNumber(f.categoriaId) ==> i.categoriaId == f.categoriaId
  }

  predicate CidadeOk(f: ImovelFilters, i: Imovel)
  {
    ActiveNumber(f.cidadeId) ==> i.cidadeId == f.cidadeId
  }

  predicate ValorMinOk(f: ImovelFilters, i: Imovel)
  {
    ActiveNumber(f.valorMin) ==> i.valor >= f.valorMin.value
  }

  predicate ValorMaxOk(f: ImovelFilters, i: Imovel)
  {
    ActiveNumber(f.valorMax) ==> i.valor <= f.valorMax.value
  }

  predicate BuscaOk(f: ImovelFilters, i: Imovel)
  {
    ActiveText(f.busca) ==> MentionedIn(i, f.busca.value)
  }

  predicate Matches(f: ImovelFilters, i: Imovel)
  {
    TipoOk(f, i) && StatusOk(f, i) && CategoriaOk(f, i) && CidadeOk(f, i)
    && ValorMinOk(f, i) && ValorMaxOk(f, i) && BuscaOk(f, i)
  }

  /** A bound or id of zero is falsy and imposes nothing: `valor_max=0`
      lists every price, not only the free properties, and a search for the
      empty string finds everything. */
  lemma ZeroFiltersIgnored(f: ImovelFilters, i: Imovel)
    ensures Matches(f.(valorMax := Some(0.0)), i) <==> Matches(f.(valorMax := None), i)
    ensures Matches(f.(valorMin := Some(0.0)), i) <==> Matches(f.(valorMin := None), i)
    ensures Matches(f.(categoriaId := Some(0.0)), i) <==> Matches(f.(categoriaId := None), i)
    ensures Matches(f.(cidadeId := Some(0.0)), i) <==> Matches(f.(cidadeId := None), i)
    ensures Matches(f.(busca := Some("")), i) <==> Matches(f.(busca := None), i)
  {
  }

  /** The condition the k-th filter of `listImoveis` pushes, in the order
      the service tests them, or None when its guard fails. */
  function ConditionFor(f: ImovelFilters, k: nat): Option<Condition>
  {
    match k
    case 0 => if ActiveText(f.tipo) && f.tipo.value in AllowedTypes then Some(TipoIs(f.tipo.value)) else None
    case 1 => if ActiveText(f.status) && f.status.value in AllowedStatus then Some(StatusIs(f.status.value)) else None
    case 2 => if ActiveNumber(f.categoriaId) then Some(CategoriaIs(f.categoriaId.value)) else None
    case 3 => if ActiveNumber(f.cidadeId) then Some(CidadeIs(f.cidadeId.value)) else None
    case 4 => if ActiveNumber(f.valorMin) then Some(ValorAtLeast(f.valorMin.value)) else None
    case 5 => if ActiveNumber(f.valorMax) then Some(ValorAtMost(f.valorMax.value)) else None
    case 6 => if ActiveText(f.busca) then Some(Mentions(f.busca.value)) else None
    case _ => None
  }

  /** The list after the first n guarded pushes. */
  function PushedConditions(f: ImovelFilters, n: nat): seq<Condition>
  {
    if n == 0 then [] else PushIf(PushedConditions(f, n - 1), ConditionFor(f, n - 1))
  }

  lemma {:induction false} PushedConditionsHold(f: ImovelFilters, n: nat, i: Imovel)
    ensures AllHold(PushedConditions(f, n), Holds, i)
            <==> forall k | 0 <= k < n :: ConditionFor(f, k).Some? ==> Holds(ConditionFor(f, k).value, i)
  {
    if n > 0 {
      PushedConditionsHold(f, n - 1, i);
      AllHoldPushIf(PushedConditions(f, n - 1), ConditionFor(f, n - 1), Holds, i);
    }
  }

  /** The seven conditions together admit exactly the rows `Matches` does. */
  lemma ConditionsMatch(f: ImovelFilters, i: Imovel)
    ensures AllHold(PushedConditions(f, 7), Holds, i) <==> Matches(f, i)
  {
    PushedConditionsHold(f, 7, i);
    assert (ConditionFor(f, 0).Some? ==> Holds(ConditionFor(f, 0).value, i)) <==> TipoOk(f, i);
    assert (ConditionFor(f, 1).Some? ==> Holds(ConditionFor(f, 1).value, i)) <==> StatusOk(f, i);
    assert (ConditionFor(f, 2).Some? ==> Holds(ConditionFor(f, 2).value, i)) <==> CategoriaOk(f, i);
    assert (ConditionFor(f, 3).Some? ==> Holds(ConditionFor(f, 3).value, i)) <==> CidadeOk(f, i);
    assert (ConditionFor(f, 4).Some? ==> Holds(ConditionFor(f, 4).value, i)) <==> ValorMinOk(f, i);
    assert (ConditionFor(f, 5).Some? ==> Holds(ConditionFor(f, 5).value, i)) <==> ValorMaxOk(f, i);
    assert (ConditionFor(f, 6).Some? ==> Holds(ConditionFor(f, 6).value, i)) <==> BuscaOk(f, i);
  }

  /** The `conditions` list `listImoveis` builds, one truthy filter at a
      time; together the conditions admit exactly the rows `Matches` does. */
  method Conditions(f: ImovelFilters) returns (cs: seq<Condition>)
    ensures forall i :: AllHold(cs, Holds, i) <==> Matches(f, i)
  {
    cs := [];
    if ActiveText(f.tipo) && f.tipo.value in AllowedTypes {
      cs := cs + [TipoIs(f.tipo.value)];
    }
    assert cs == PushedConditions(f, 1);
    if ActiveText(f.status) && f.status.value in AllowedStatus {
      cs := cs + [StatusIs(f.status.value)];
    }
    assert cs == PushedConditions(f, 2);
    if ActiveNumber(f.categoriaId) {
      cs := cs + [CategoriaIs(f.categoriaId.value)];
    }
    assert cs == PushedConditions(f, 3);
    if ActiveNumber(f.cidadeId) {
      cs := cs + [CidadeIs(f.cidadeId.value)];
    }
    assert cs == PushedConditions(f, 4);
    if ActiveNumber(f.valorMin) {
      cs := cs + [ValorAtLeast(f.valorMin.value)];
    }
    assert cs == PushedConditions(f, 5);
    if ActiveNumber(f.valorMax) {
      cs := cs + [ValorAtMost(f.valorMax.value)];
    }
    assert cs == PushedConditions(f, 6);
    if ActiveText(f.busca) {
      cs := cs + [Mentions(f.busca.value)];
    }
    assert cs == PushedConditions(f, 7);
    forall i
      ensures AllHold(cs, Holds, i) <==> Matches(f, i)
    {
      ConditionsMatch(f, i);
    }
  }

  /** The query over the whole table with the built conditions returns the
      rows `Matches` admits. */
  lemma SelectMatches(rows: map<int, Imovel>, n: int, f: ImovelFilters, cs: seq<Condition>)
    requires forall k :: k in rows ==> 0 <= k < n
    requires forall i :: AllHold(cs, Holds, i) <==> Matches(f, i)
    ensures forall i :: i in Select(rows, n, r => AllHold(cs, Holds, r), Newer) <==> i in rows.Values && Matches(f, i)
  {
    forall k | k in rows && Matches(f, rows[k])
      ensures rows[k] in Select(rows, n, r => AllHold(cs, Holds, r), Newer)
    {
      assert AllHold(cs, Holds, rows[k]);
    }
  }

  /** `ORDER BY i.criado_em DESC`. */
  predicate Newer(a: Imovel, b: Imovel)
  {
    NewestFirst(a.criadoEm, b.criadoEm)
  }

  lemma NewerTotal()
    ensures TotalPreorder(Newer)
  {
  }

  /** The same order on joined rows. */
  predicate NewerView(a: ImovelView, b: ImovelView)
  {
    Newer(a.imovel, b.imovel)
  }

  // ---------------------------------------------------------------------
  // create and update

  /** The payload `createImovel` receives. */
  datatype NewImovel = NewImovel(
    titulo: string,
    descricao: Option<string>,
    tipo: string,
    categoriaId: Option<real>,
    cidadeId: Option<real>,
    endereco: Option<string>,
    valor: real,
    status: string)

  /** The row `createImovel` inserts: a type outside the allowed set is
      stored as NULL, a status outside it as `disponivel`. */
  function Inserted(id: int, p: NewImovel, now: int): (i: Imovel)
    ensures WellFormed(i)
    ensures i.id == id && i.criadoEm == now
    ensures i.titulo == p.titulo && i.descricao == p.descricao && i.endereco == p.endereco
    ensures i.categoriaId == p.categoriaId && i.cidadeId == p.cidadeId && i.valor == p.valor
    ensures i.tipo == (if p.tipo in AllowedTypes then Some(p.tipo) else None)
    ensures i.status == (if p.status in AllowedStatus then p.status else DefaultStatus)
  {
    Imovel(id, p.titulo, p.descricao,
           if p.tipo in AllowedTypes then Some(p.tipo) else None,
           p.categoriaId, p.cidadeId, p.endereco, p.valor,
           if p.status in AllowedStatus then p.status else DefaultStatus,
           now)
  }

  /** The payload `updateImovel` receives: each column key present or not. */
  datatype ImovelPatch = ImovelPatch(
    titulo: Key<string>,
    descricao: Key<Option<string>>,
    tipo: Key<string>,
    categoriaId: Key<Option<real>>,
    cidadeId: Key<Option<real>>,
    endereco: Key<Option<string>>,
    valor: Key<real>,
    status: Key<string>)

  predicate Touches(p: ImovelPatch)
  {
    p.titulo.Present? || p.descricao.Present? || p.tipo.Present? || p.categoriaId.Present?
    || p.cidadeId.Present? || p.endereco.Present? || p.valor.Present? || p.status.Present?
  }

  /** One `column = ?` of the `SET` list `updateImovel` builds. */
  datatype Assignment =
    | SetTitulo(string)
    | SetDescricao(Option<string>)
    | SetTipo(Option<string>)
    | SetCategoria(Option<real>)
    | SetCidade(Option<real>)
    | SetEndereco(Option<string>)
    | SetValor(real)
    | SetStatus(string)

  function Assign(i: Imovel, a: Assignment): Imovel
  {
    match a
    case SetTitulo(v) => i.(titulo := v)
    case SetDescricao(v) => i.(descricao := v)
    case SetTipo(v) => i.(tipo := v)
    case SetCategoria(v) => i.(categoriaId := v)
    case SetCidade(v) => i.(cidadeId := v)
    case SetEndereco(v) => i.(endereco := v)
    case SetValor(v) => i.(valor := v)
    case SetStatus(v) => i.(status := v)
  }

  /** The type an update writes: the new one when allowed, else the current. */
  function NewTipo(i: Imovel, t: string): Option<string>
  {
    if t in AllowedTypes then Some(t) else i.tipo
  }

  function NewStatus(i: Imovel, s: string): string
  {
    if s in AllowedStatus then s else i.status
  }

  /** The row after a partial update: every present key overwrites its
      column, except that a type or status outside the allowed sets keeps
      the current one; absent keys leave their columns alone. */
  function Patched(i: Imovel, p: ImovelPatch): Imovel
  {
    Imovel(i.id,
           if p.titulo.Present? then p.titulo.value else i.titulo,
           if p.descricao.Present? then p.descricao.value else i.descricao,
           if p.tipo.Present? then NewTipo(i, p.tipo.value) else i.tipo,
           if p.categoriaId.Present? then p.categoriaId.value else i.categoriaId,
           if p.cidadeId.Present? then p.cidadeId.value else i.cidadeId,
           if p.endereco.Present? then p.endereco.value else i.endereco,
           if p.valor.Present? then p.valor.value else i.valor,
           if p.status.Present? then NewStatus(i, p.status.value) else i.status,
           i.criadoEm)
  }

  /** An update keeps the id and creation time, and never breaks the row
      invariant: a bad type or status is silently replaced by the current
      one. */
  lemma PatchedWellFormed(i: Imovel, p: ImovelPatch)
    requires WellFormed(i)
    ensures WellFormed(Patched(i, p))
    ensures Patched(i, p).id == i.id && Patched(i, p).criadoEm == i.criadoEm
    ensures p.tipo.Present? && p.tipo.value !in AllowedTypes ==> Patched(i, p).tipo == i.tipo
    ensures p.status.Present? && p.status.value !in AllowedStatus ==> Patched(i, p).status == i.status
  {
  }

  /** A payload with no column key changes nothing. */
  lemma PatchedUntouched(i: Imovel, p: ImovelPatch)
    requires !Touches(p)
    ensures Patched(i, p) == i
  {
  }

  /** The assignment the k-th key of `updateImovel` pushes, in the order the
      service tests them, or None when the key is absent. */
  function AssignmentFor(i: Imovel, p: ImovelPatch, k: nat): Option<Assignment>
  {
    match k
    case 0 => if p.titulo.Present? then Some(SetTitulo(p.titulo.value)) else None
    case 1 => if p.descricao.Present? then Some(SetDescricao(p.descricao.value)) else None
    case 2 => if p.tipo.Present? then Some(SetTipo(NewTipo(i, p.tipo.value))) else None
    case 3 => if p.categoriaId.Present? then Some(SetCategoria(p.categoriaId.value)) else None
    case 4 => if p.cidadeId.Present? then Some(SetCidade(p.cidadeId.value)) else None
    case 5 => if p.endereco.Present? then Some(SetEndereco(p.endereco.value)) else None
    case 6 => if p.valor.Present? then Some(SetValor(p.valor.value)) else None
    case 7 => if p.status.Present? then Some(SetStatus(NewStatus(i, p.status.value))) else None
    case _ => None
  }

  /** The `fields` list after the first n guarded pushes. */
  function PushedFields(i: Imovel, p: ImovelPatch, n: nat): seq<Assignment>
  {
    if n == 0 then [] else PushIf(PushedFields(i, p, n - 1), AssignmentFor(i, p, n - 1))
  }

  /** The row after the first n guarded assignments. */
  function Stage(i: Imovel, p: ImovelPatch, n: nat): Imovel
  {
    if n == 0 then i else ApplyIf(Stage(i, p, n - 1), AssignmentFor(i, p, n - 1), Assign)
  }

  lemma {:induction false} StageApplies(i: Imovel, p: ImovelPatch, n: nat)
    ensures ApplyAll(i, PushedFields(i, p, n), Assign) == Stage(i, p, n)
  {
    if n > 0 {
      StageApplies(i, p, n - 1);
      ApplyPushIf(i, PushedFields(i, p, n - 1), AssignmentFor(i, p, n - 1), Assign);
    }
  }

  /** After n steps, each column holds its new value when its key comes
      among the first n and is present, and its old value otherwise. */
  lemma {:induction false} StageColumns(i: Imovel, p: ImovelPatch, n: nat)
    ensures var r := Stage(i, p, n);
            r.id == i.id && r.criadoEm == i.criadoEm
            && r.titulo == (if n > 0 && p.titulo.Present? then p.titulo.value else i.titulo)
            && r.descricao == (if n > 1 && p.descricao.Present? then p.descricao.value else i.descricao)
            && r.tipo == (if n > 2 && p.tipo.Present? then NewTipo(i, p.tipo.value) else i.tipo)
            && r.categoriaId == (if n > 3 && p.categoriaId.Present? then p.categoriaId.value else i.categoriaId)
            && r.cidadeId == (if n > 4 && p.cidadeId.Present? then p.cidadeId.value else i.cidadeId)
            && r.endereco == (if n > 5 && p.endereco.Present? then p.endereco.value else i.endereco)
            && r.valor == (if n > 6 && p.valor.Present? then p.valor.value else i.valor)
            && r.status == (if n > 7 && p.status.Present? then NewStatus(i, p.status.value) else i.status)
  {
    if n > 0 {
      StageColumns(i, p, n - 1);
    }
  }

  lemma {:induction false} PushedFieldsEmpty(i: Imovel, p: ImovelPatch, n: nat)
    ensures PushedFields(i, p, n) == [] <==>
              !((n > 0 && p.titulo.Present?) || (n > 1 && p.descricao.Present?) || (n > 2 && p.tipo.Present?)
                || (n > 3 && p.categoriaId.Present?) || (n > 4 && p.cidadeId.Present?)
                || (n > 5 && p.endereco.Present?) || (n > 6 && p.valor.Present?) || (n > 7 && p.status.Present?))
  {
    if n > 0 {
      PushedFieldsEmpty(i, p, n - 1);
    }
  }

  lemma StagePatched(i: Imovel, p: ImovelPatch)
    ensures Stage(i, p, 8) == Patched(i, p)
  {
    StageColumns(i, p, 8);
  }

  /** Running all eight guarded assignments is the patch, and pushes
      nothing exactly when the payload has no column key. */
  lemma PushedFieldsPatch(i: Imovel, p: ImovelPatch)
    ensures ApplyAll(i, PushedFields(i, p, 8), Assign) == Patched(i, p)
    ensures PushedFields(i, p, 8) == [] <==> !Touches(p)
  {
    StageApplies(i, p, 8);
    StagePatched(i, p);
    PushedFieldsEmpty(i, p, 8);
  }

  /** The `fields` list `updateImovel` builds. Its eight `hasOwnProperty`
      blocks differ only in the column they test, so they run here as one
      loop over the column positions in the service's order; block k pushes
      `AssignmentFor(atual, p, k)` when its key is present. */
  method SetList(atual: Imovel, p: ImovelPatch) returns (fields: seq<Assignment>)
    ensures ApplyAll(atual, fields, Assign) == Patched(atual, p)
    ensures |fields| == 0 <==> !Touches(p)
  {
    fields := [];
    for k := 0 to 8
      invariant fields == PushedFields(atual, p, k)
    {
      var a := AssignmentFor(atual, p, k);
      if a.Some? {
        fields := fields + [a.value];
      }
    }
    PushedFieldsPatch(atual, p);
  }

  // ---------------------------------------------------------------------
  // the table

  class ImovelTable {
    var rows: map<int, Imovel>
    var nextId: int

    ghost predicate Valid()
      reads this
    {
      nextId >= 1
      && forall k :: k in rows ==> 1 <= k < nextId && rows[k].id == k && WellFormed(rows[k])
    }

    constructor ()
      ensures Valid() && rows == map[] && nextId == 1
    {
      rows := map[];
      nextId := 1;
    }

    /** `listImoveis`: the joined rows the filters admit, newest first. */
    method List(f: ImovelFilters, cats: map<int, Categorias.Categoria>, cids: map<int, Cidades.Cidade>)
      returns (vs: seq<ImovelView>)
      requires Valid()
      ensures forall v :: v in vs <==> v.imovel in rows.Values && Matches(f, v.imovel) && v == Joined(v.imovel, cats, cids)
      ensures forall i, j :: 0 <= i < j < |vs| ==> vs[i].imovel.id != vs[j].imovel.id
      ensures SortedBy(vs, NewerView)
    {
      var cs := Conditions(f);
      var rs := Select(rows, nextId, i => AllHold(cs, Holds, i), Newer);
      SelectKeysDistinct(rows, nextId, i => AllHold(cs, Holds, i), Newer, (i: Imovel) => i.id);
      NewerTotal();
      SelectSorted(rows, nextId, i => AllHold(cs, Holds, i), Newer);
      SelectMatches(rows, nextId, f, cs);
      vs := JoinAll(rs, cats, cids);
      JoinAllMembers(rs, cats, cids);
    }

    /** `getImovelById`: the joined row of id, or null. */
    function GetById(id: int, cats: map<int, Categorias.Categoria>, cids: map<int, Cidades.Cidade>)
      : (r: Option<ImovelView>)
      reads this
      requires Valid()
      ensures r.Some? <==> id in rows
      ensures r.Some? ==> r.value.imovel == rows[id] && r.value.imovel.id == id && r == Some(Joined(rows[id], cats, cids))
    {
      if id in rows then Some(Joined(rows[id], cats, cids)) else None
    }

    /** `createImovel`: one row under a fresh id, returned joined. */
    method Create(p: NewImovel, now: int, fault: Option<Failure>,
                  cats: map<int, Categorias.Categoria>, cids: map<int, Cidades.Cidade>)
      returns (r: Result<ImovelView, Failure>)
      requires Valid()
      modifies this
      ensures Valid()
      ensures fault.Some? ==> r == Err(fault.value) && rows == old(rows) && nextId == old(nextId)
      ensures fault.None? ==>
                old(nextId) !in old(rows)
                && rows == old(rows)[old(nextId) := Inserted(old(nextId), p, now)] && nextId == old(nextId) + 1
                && r == Ok(Joined(rows[old(nextId)], cats, cids))
    {
      if fault.Some? {
        return Err(fault.value);
      }
      var i := Inserted(nextId, p, now);
      rows := rows[nextId := i];
      nextId := nextId + 1;
      r := Ok(Joined(i, cats, cids));
    }

    /** `updateImovel`: null for a missing id, the current joined row when no
        column key is present, otherwise the joined row after `UPDATE`. */
    method Update(id: int, p: ImovelPatch, fault: Option<Failure>,
                  cats: map<int, Categorias.Categoria>, cids: map<int, Cidades.Cidade>)
      returns (r: Result<Option<ImovelView>, Failure>)
      requires Valid()
      modifies this
      ensures Valid() && nextId == old(nextId)
      ensures id !in old(rows) ==> r == Ok(None) && rows == old(rows)
      ensures id in old(rows) && !Touches(p) ==> r == Ok(Some(Joined(old(rows)[id], cats, cids))) && rows == old(rows)
      ensures id in old(rows) && Touches(p) && fault.Some? ==> r == Err(fault.value) && rows == old(rows)
      ensures id in old(rows) && Touches(p) && fault.None? ==>
                rows == old(rows)[id := Patched(old(rows)[id], p)] && r == Ok(Some(Joined(rows[id], cats, cids)))
    {
      if id !in rows {
        return Ok(None);
      }
      var atual := rows[id];
      var fields := SetList(atual, p);
      PatchedWellFormed(atual, p);
      if |fields| == 0 {
        return Ok(Some(Joined(atual, cats, cids)));
      }
      if fault.Some? {
        return Err(fault.value);
      }
      rows := rows[id := ApplyAll(atual, fields, Assign)];
      r := Ok(Some(Joined(rows[id], cats, cids)));
    }

    /** `deleteImovel`: true exactly when a row was removed. */
    method Delete(id: int, fault: Option<Failure>) returns (r: Result<bool, Failure>)
      requires Valid()
      modifies this
      ensures Valid() && nextId == old(nextId)
      ensures fault.Some? ==> r == Err(fault.value) && rows == old(rows)
      ensures fault.None? ==> r == Ok(id in old(rows)) && rows == old(rows) - {id}
    {
      if fault.Some? {
        return Err(fault.value);
      }
      r := Ok(id in rows);
      rows := rows - {id};
    }
  }
}
