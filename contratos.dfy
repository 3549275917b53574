/** The `contratos` table and the service over it
    (src/services/contratos.service.js). Every read goes through the same
    `SELECT`, which INNER JOINs the contract's property and user: a contract
    whose property or user is gone is neither listed nor found. Those two
    tables are passed in as maps from id to row. */
module Contratos {
  import opened Base
  import opened MysqlErrors
  import opened Tables
  import opened Ordering
  import Imoveis
  import Usuarios

  const AllowedTiposContrato: set<string> := {"aluguel", "venda"}

  /** A row of `contratos`; the dates are the stored text or NULL. */
  datatype Contrato = Contrato(
    id: int,
    imovelId: int,
    usuarioId: int,
    tipo: Option<string>,
    dataInicio: Option<string>,
    dataFim: Option<string>,
    valor: real,
    criadoEm: int)

  /** What the service keeps true of every row it writes: the type is an
      allowed one or NULL. */
  predicate WellFormed(c: Contrato)
  {
    c.tipo.None? || c.tipo.value in AllowedTiposContrato
  }

  // ---------------------------------------------------------------------
  // the joined view (`buildSelect`)

  /** A row of `buildSelect()`: the contract plus `imovel_titulo`,
      `usuario_nome` and `usuario_email`. */
  datatype ContratoView = ContratoView(
    contrato: Contrato,
    imovelTitulo: string,
    usuarioNome: JsValues.Js,
    usuarioEmail: JsValues.Js)

  /** Both INNER JOINs find their row. */
  predicate Linked(c: Contrato, ims: map<int, Imoveis.Imovel>, uss: map<int, Usuarios.Usuario>)
  {
    c.imovelId in ims && c.usuarioId in uss
  }

  function Joined(c: Contrato, ims: map<int, Imoveis.Imovel>, uss: map<int, Usuarios.Usuario>): (v: ContratoView)
    requires Linked(c, ims, uss)
    ensures v.contrato == c
    ensures v.imovelTitulo == ims[c.imovelId].titulo
    ensures v.usuarioNome == uss[c.usuarioId].nome && v.usuarioEmail == uss[c.usuarioId].email
  {
    ContratoView(c, ims[c.imovelId].titulo, uss[c.usuarioId].nome, uss[c.usuarioId].email)
  }

  function JoinAll(cs: seq<Contrato>, ims: map<int, Imoveis.Imovel>, uss: map<int, Usuarios.Usuario>)
    : (vs: seq<ContratoView>)
    requires forall k :: 0 <= k < |cs| ==> Linked(cs[k], ims, uss)
    ensures |vs| == |cs|
    ensures forall k :: 0 <= k < |cs| ==> vs[k] == Joined(cs[k], ims, uss)
  {
    seq(|cs|, k requires 0 <= k < |cs| => Joined(cs[k], ims, uss))
  }

  // ---------------------------------------------------------------------
  // listing

  /** The filters `listContratos` receives, already parsed by the controller. */
  datatype ContratoFilters = ContratoFilters(imovelId: Option<int>, usuarioId: Option<int>, tipo: Option<string>)

  /** A truthy id: present and not zero. */
  predicate ActiveId(x: Option<int>)
  {
    x.Some? && x.value != 0
  }

  /** A type filter that constrains: truthy and allowed. */
  predicate ActiveTipo(t: Option<string>)
  {
    t.Some? && t.value != "" && t.value in AllowedTiposContrato
  }

  /** One `WHERE` condition of `listContratos`. */
  datatype Condition = ImovelIs(int) | UsuarioIs(int) | TipoIs(string)

  predicate Holds(c: Condition, r: Contrato)
  {
    match c
    case ImovelIs(x) => r.imovelId == x
    case UsuarioIs(x) => r.usuarioId == x
    case TipoIs(t) => r.tipo == Some(t)
  }

  /** The rows a listing admits: each truthy filter must match, and a type
      filter outside the allowed set constrains nothing. */
  predicate Matches(f: ContratoFilters, r: Contrato)
  {
    (ActiveId(f.imovelId) ==> r.imovelId == f.imovelId.value)
    && (ActiveId(f.usuarioId) ==> r.usuarioId == f.usuarioId.value)
    && (ActiveTipo(f.tipo) ==> r.tipo == f.tipo)
  }

  /** The condition the k-th filter of `listContratos` pushes, in the order
      the service tests them, or None when its guard fails. */
  function ConditionFor(f: ContratoFilters, k: nat): Option<Condition>
  {
    match k
    case 0 => if ActiveId(f.imovelId) then Some(ImovelIs(f.imovelId.value)) else None
    case 1 => if ActiveId(f.usuarioId) then Some(UsuarioIs(f.usuarioId.value)) else None
    case 2 => if ActiveTipo(f.tipo) then Some(TipoIs(f.tipo.value)) else None
    case _ => None
  }

  function PushedConditions(f: ContratoFilters, n: nat): seq<Condition>
  {
    if n == 0 then [] else PushIf(PushedConditions(f, n - 1), ConditionFor(f, n - 1))
  }

  lemma {:induction false} PushedConditionsHold(f: ContratoFilters, n: nat, r: Contrato)
    ensures AllHold(PushedConditions(f, n), Holds, r)
            <==> forall k | 0 <= k < n :: ConditionFor(f, k).Some? ==> Holds(ConditionFor(f, k).value, r)
  {
    if n > 0 {
      PushedConditionsHold(f, n - 1, r);
      AllHoldPushIf(PushedConditions(f, n - 1), ConditionFor(f, n - 1), Holds, r);
    }
  }

  /** The three conditions together admit exactly the rows `Matches` does. */
  lemma ConditionsMatch(f: ContratoFilters, r: Contrato)
    ensures AllHold(PushedConditions(f, 3), Holds, r) <==> Matches(f, r)
  {
    PushedConditionsHold(f, 3, r);
    assert (ConditionFor(f, 0).Some? ==> Holds(ConditionFor(f, 0).value, r))
           <==> (ActiveId(f.imovelId) ==> r.imovelId == f.imovelId.value);
    assert (ConditionFor(f, 1).Some? ==> Holds(ConditionFor(f, 1).value, r))
           <==> (ActiveId(f.usuarioId) ==> r.usuarioId == f.usuarioId.value);
    assert (ConditionFor(f, 2).Some? ==> Holds(ConditionFor(f, 2).value, r))
           <==> (ActiveTipo(f.tipo) ==> r.tipo == f.tipo);
  }

  /** The `conditions` list `listContratos` builds, one truthy filter at a
      time. */
  method Conditions(f: ContratoFilters) returns (cs: seq<Condition>)
    ensures forall r :: AllHold(cs, Holds, r) <==> Matches(f, r)
  {
    cs := [];
    for k := 0 to 3
      invariant cs == PushedConditions(f, k)
    {
      var c := ConditionFor(f, k);
      if c.Some? {
        cs := cs + [c.value];
      }
    }
    forall r
      ensures AllHold(cs, Holds, r) <==> Matches(f, r)
    {
      ConditionsMatch(f, r);
    }
  }

  /** `ORDER BY ct.criado_em DESC`. */
  predicate Newer(a: Contrato, b: Contrato)
  {
    NewestFirst(a.criadoEm, b.criadoEm)
  }

  predicate NewerView(a: ContratoView, b: ContratoView)
  {
    Newer(a.contrato, b.contrato)
  }

  lemma NewerTotal()
    ensures TotalPreorder(Newer)
  {
  }

  // ---------------------------------------------------------------------
  // create and update

  /** The payload `createContrato` receives; NULL dates are None. */
  datatype NewContrato = NewContrato(
    imovelId: int,
    usuarioId: int,
    tipo: string,
    dataInicio: Option<string>,
    dataFim: Option<string>,
    valor: real)

  /** The row `createContrato` inserts: a type outside the allowed set is
      stored as NULL. */
  function Inserted(id: int, p: NewContrato, now: int): (c: Contrato)
    ensures WellFormed(c)
    ensures c.id == id && c.criadoEm == now
    ensures c.imovelId == p.imovelId && c.usuarioId == p.usuarioId && c.valor == p.valor
    ensures c.dataInicio == p.dataInicio && c.dataFim == p.dataFim
    ensures c.tipo == (if p.tipo in AllowedTiposContrato then Some(p.tipo) else None)
  {
    Contrato(id, p.imovelId, p.usuarioId,
             if p.tipo in AllowedTiposContrato then Some(p.tipo) else None,
             p.dataInicio, p.dataFim, p.valor, now)
  }

  /** The payload `updateContrato` receives: each column key present or not. */
  datatype ContratoPatch = ContratoPatch(
    imovelId: Key<int>,
    usuarioId: Key<int>,
    tipo: Key<string>,
    dataInicio: Key<Option<string>>,
    dataFim: Key<Option<string>>,
    valor: Key<real>)

  predicate Touches(p: ContratoPatch)
  {
    p.imovelId.Present? || p.usuarioId.Present? || p.tipo.Present?
    || p.dataInicio.Present? || p.dataFim.Present? || p.valor.Present?
  }

  /** One `column = ?` of the `SET` list `updateContrato` builds. */
  datatype Assignment =
    | SetImovel(int)
    | SetUsuario(int)
    | SetTipo(Option<string>)
    | SetDataInicio(Option<string>)
    | SetDataFim(Option<string>)
    | SetValor(real)

  function Assign(c: Contrato, a: Assignment): Contrato
  {
    match a
    case SetImovel(v) => c.(imovelId := v)
    case SetUsuario(v) => c.(usuarioId := v)
    case SetTipo(v) => c.(tipo := v)
    case SetDataInicio(v) => c.(dataInicio := v)
    case SetDataFim(v) => c.(dataFim := v)
    case SetValor(v) => c.(valor := v)
  }

  /** The type an update writes: the new one when allowed, else the current. */
  function NewTipo(c: Contrato, t: string): Option<string>
  {
    if t in AllowedTiposContrato then Some(t) else c.tipo
  }

  /** The row after a partial update: every present key overwrites its
      column, except that a type outside the allowed set keeps the current
      one; absent keys leave their columns alone. */
  function Patched(c: Contrato, p: ContratoPatch): Contrato
  {
    Contrato(c.id,
             if p.imovelId.Present? then p.imovelId.value else c.imovelId,
             if p.usuarioId.Present? then p.usuarioId.value else c.usuarioId,
             if p.tipo.Present? then NewTipo(c, p.tipo.value) else c.tipo,
             if p.dataInicio.Present? then p.dataInicio.value else c.dataInicio,
             if p.dataFim.Present? then p.dataFim.value else c.dataFim,
             if p.valor.Present? then p.valor.value else c.valor,
             c.criadoEm)
  }

  /** An update keeps the id and creation time, never breaks the row
      invariant, and a type outside the allowed set keeps the current one. */
  lemma PatchedWellFormed(c: Contrato, p: ContratoPatch)
    requires WellFormed(c)
    ensures WellFormed(Patched(c, p))
    ensures Patched(c, p).id == c.id && Patched(c, p).criadoEm == c.criadoEm
    ensures p.tipo.Present? && p.tipo.value !in AllowedTiposContrato ==> Patched(c, p).tipo == c.tipo
    ensures !Touches(p) ==> Patched(c, p) == c
  {
  }

  /** The assignment the k-th key of `updateContrato` pushes, in the order
      the service tests them, or None when the key is absent. */
  function AssignmentFor(c: Contrato, p: ContratoPatch, k: nat): Option<Assignment>
  {
    match k
    case 0 => if p.imovelId.Present? then Some(SetImovel(p.imovelId.value)) else None
    case 1 => if p.usuarioId.Present? then Some(SetUsuario(p.usuarioId.value)) else None
    case 2 => if p.tipo.Present? then Some(SetTipo(NewTipo(c, p.tipo.value))) else None
    case 3 => if p.dataInicio.Present? then Some(SetDataInicio(p.dataInicio.value)) else None
    case 4 => if p.dataFim.Present? then Some(SetDataFim(p.dataFim.value)) else None
    case 5 => if p.valor.Present? then Some(SetValor(p.valor.value)) else None
    case _ => None
  }

  /** The `fields` list after the first n guarded pushes. */
  function PushedFields(c: Contrato, p: ContratoPatch, n: nat): seq<Assignment>
  {
    if n == 0 then [] else PushIf(PushedFields(c, p, n - 1), AssignmentFor(c, p, n - 1))
  }

  /** The row after the first n guarded assignments. */
  function Stage(c: Contrato, p: ContratoPatch, n: nat): Contrato
  {
    if n == 0 then c else ApplyIf(Stage(c, p, n - 1), AssignmentFor(c, p, n - 1), Assign)
  }

  lemma {:induction false} StageApplies(c: Contrato, p: ContratoPatch, n: nat)
    ensures ApplyAll(c, PushedFields(c, p, n), Assign) == Stage(c, p, n)
  {
    if n > 0 {
      StageApplies(c, p, n - 1);
      ApplyPushIf(c, PushedFields(c, p, n - 1), AssignmentFor(c, p, n - 1), Assign);
    }
  }

  /** After n steps, each column holds its new value when its key comes
      among the first n and is present, and its old value otherwise. */
  lemma {:induction false} StageColumns(c: Contrato, p: ContratoPatch, n: nat)
    ensures var r := Stage(c, p, n);
            r.id == c.id && r.criadoEm == c.criadoEm
            && r.imovelId == (if n > 0 && p.imovelId.Present? then p.imovelId.value else c.imovelId)
            && r.usuarioId == (if n > 1 && p.usuarioId.Present? then p.usuarioId.value else c.usuarioId)
            && r.tipo == (if n > 2 && p.tipo.Present? then NewTipo(c, p.tipo.value) else c.tipo)
            && r.dataInicio == (if n > 3 && p.dataInicio.Present? then p.dataInicio.value else c.dataInicio)
            && r.dataFim == (if n > 4 && p.dataFim.Present? then p.dataFim.value else c.dataFim)
            && r.valor == (if n > 5 && p.valor.Present? then p.valor.value else c.valor)
  {
    if n > 0 {
      StageColumns(c, p, n - 1);
    }
  }

  lemma {:induction false} PushedFieldsEmpty(c: Contrato, p: ContratoPatch, n: nat)
    ensures PushedFields(c, p, n) == [] <==>
              !((n > 0 && p.imovelId.Present?) || (n > 1 && p.usuarioId.Present?) || (n > 2 && p.tipo.Present?)
                || (n > 3 && p.dataInicio.Present?) || (n > 4 && p.dataFim.Present?) || (n > 5 && p.valor.Present?))
  {
    if n > 0 {
      PushedFieldsEmpty(c, p, n - 1);
    }
  }

  /** Running all six guarded assignments is the patch, and pushes nothing
      exactly when the payload has no column key. */
  lemma PushedFieldsPatch(c: Contrato, p: ContratoPatch)
    ensures ApplyAll(c, PushedFields(c, p, 6), Assign) == Patched(c, p)
    ensures PushedFields(c, p, 6) == [] <==> !Touches(p)
  {
    StageApplies(c, p, 6);
    StageColumns(c, p, 6);
    PushedFieldsEmpty(c, p, 6);
  }

  /** The `fields` list `updateContrato` builds. Its six `hasOwnProperty`
      blocks differ only in the column they test, so they run here as one
      loop over the column positions in the service's order. */
  method SetList(atual: Contrato, p: ContratoPatch) returns (fields: seq<Assignment>)
    ensures ApplyAll(atual, fields, Assign) == Patched(atual, p)
    ensures |fields| == 0 <==> !Touches(p)
  {
    fields := [];
    for k := 0 to 6
      invariant fields == PushedFields(atual, p, k)
    {
      var a := AssignmentFor(atual, p, k);
      if a.Some? {
        fields := fields + [a.value];
      }
    }
    PushedFieldsPatch(atual, p);
  }

  // ---------------------------------------------------------------------
  // the table

  class ContratoTable {
    var rows: map<int, Contrato>
    var nextId: int

    ghost predicate Valid()
      reads this
    {
      nextId >= 1
      && forall k :: k in rows ==> 1 <= k < nextId && rows[k].id == k && WellFormed(rows[k])
    }

    constructor ()
      ensures Valid() && rows == map[] && nextId == 1
    {
      rows := map[];
      nextId := 1;
    }

    /** `listContratos`: the joined rows the filters admit, newest first;
        rows whose property or user is missing fall out of the join. */
    method List(f: ContratoFilters, ims: map<int, Imoveis.Imovel>, uss: map<int, Usuarios.Usuario>)
      returns (vs: seq<ContratoView>)
      requires Valid()
      ensures forall v :: v in vs <==>
                v.contrato in rows.Values && Linked(v.contrato, ims, uss) && Matches(f, v.contrato)
                && v == Joined(v.contrato, ims, uss)
      ensures forall i, j :: 0 <= i < j < |vs| ==> vs[i].contrato.id != vs[j].contrato.id
      ensures SortedBy(vs, NewerView)
    {
      var cs := Conditions(f);
      var rs := Select(rows, nextId, Admits(cs, ims, uss), Newer);
      SelectKeysDistinct(rows, nextId, Admits(cs, ims, uss), Newer, (c: Contrato) => c.id);
      NewerTotal();
      SelectSorted(rows, nextId, Admits(cs, ims, uss), Newer);
      SelectLinked(rows, nextId, f, cs, ims, uss);
      vs := JoinAll(rs, ims, uss);
      JoinAllMembers(rs, ims, uss);
      JoinAllSorted(rs, ims, uss);
    }

    /** `getContratoById`: the joined row of id, or null when there is no
        such row or its property or user is missing. */
    function GetById(id: int, ims: map<int, Imoveis.Imovel>, uss: map<int, Usuarios.Usuario>)
      : (r: Option<ContratoView>)
      reads this
      requires Valid()
      ensures r.Some? <==> id in rows && Linked(rows[id], ims, uss)
      ensures r.Some? ==> r.value == Joined(rows[id], ims, uss) && r.value.contrato.id == id
    {
      if id in rows && Linked(rows[id], ims, uss) then Some(Joined(rows[id], ims, uss)) else None
    }

    /** `createContrato`: one row under a fresh id, returned as
        `getContratoById` reads it back. */
    method Create(p: NewContrato, now: int, fault: Option<Failure>,
                  ims: map<int, Imoveis.Imovel>, uss: map<int, Usuarios.Usuario>)
      returns (r: Result<Option<ContratoView>, Failure>)
      requires Valid()
      modifies this
      ensures Valid()
      ensures fault.Some? ==> r == Err(fault.value) && rows == old(rows) && nextId == old(nextId)
      ensures fault.None? ==>
                old(nextId) !in old(rows)
                && rows == old(rows)[old(nextId) := Inserted(old(nextId), p, now)] && nextId == old(nextId) + 1
                && r == Ok(GetById(old(nextId), ims, uss))
    {
      if fault.Some? {
        return Err(fault.value);
      }
      var c := Inserted(nextId, p, now);
      rows := rows[nextId := c];
      nextId := nextId + 1;
      r := Ok(GetById(c.id, ims, uss));
    }

    /** `updateContrato`: null when `getContratoById` finds nothing (which
        includes a row whose property or user is missing), the current
        joined row when no column key is present, otherwise the row after
        `UPDATE` as read back. */
    method Update(id: int, p: ContratoPatch, fault: Option<Failure>,
                  ims: map<int, Imoveis.Imovel>, uss: map<int, Usuarios.Usuario>)
      returns (r: Result<Option<ContratoView>, Failure>)
      requires Valid()
      modifies this
      ensures Valid() && nextId == old(nextId)
      ensures !(id in old(rows) && Linked(old(rows)[id], ims, uss)) ==> r == Ok(None) && rows == old(rows)
      ensures id in old(rows) && Linked(old(rows)[id], ims, uss) && !Touches(p) ==>
                r == Ok(Some(Joined(old(rows)[id], ims, uss))) && rows == old(rows)
      ensures id in old(rows) && Linked(old(rows)[id], ims, uss) && Touches(p) && fault.Some? ==>
                r == Err(fault.value) && rows == old(rows)
      ensures id in old(rows) && Linked(old(rows)[id], ims, uss) && Touches(p) && fault.None? ==>
                rows == old(rows)[id := Patched(old(rows)[id], p)] && r == Ok(GetById(id, ims, uss))
    {
      var atual := GetById(id, ims, uss);
      if atual.None? {
        return Ok(None);
      }
      var fields := SetList(atual.value.contrato, p);
      PatchedWellFormed(rows[id], p);
      if |fields| == 0 {
        return Ok(atual);
      }
      if fault.Some? {
        return Err(fault.value);
      }
      rows := rows[id := ApplyAll(atual.value.contrato, fields, Assign)];
      r := Ok(GetById(id, ims, uss));
    }

    /** `deleteContrato`: true exactly when a row was removed, whether or not
        its property and user still exist. */
    method Delete(id: int, fault: Option<Failure>) returns (r: Result<bool, Failure>)
      requires Valid()
      modifies this
      ensures Valid() && nextId == old(nextId)
      ensures fault.Some? ==> r == Err(fault.value) && rows == old(rows)
      ensures fault.None? ==> r == Ok(id in old(rows)) && rows == old(rows) - {id}
    {
      if fault.Some? {
        return Err(fault.value);
      }
      r := Ok(id in rows);
      rows := rows - {id};
    }
  }

  /** The `WHERE` of `listContratos`: both joins find their row and every
      pushed condition holds. */
  function Admits(cs: seq<Condition>, ims: map<int, Imoveis.Imovel>, uss: map<int, Usuarios.Usuario>)
    : Contrato -> bool
  {
    c => Linked(c, ims, uss) && AllHold(cs, Holds, c)
  }

  /** The selected rows are exactly the stored, linked rows the filters admit. */
  lemma SelectLinked(rows: map<int, Contrato>, n: int, f: ContratoFilters, cs: seq<Condition>,
                     ims: map<int, Imoveis.Imovel>, uss: map<int, Usuarios.Usuario>)
    requires forall k :: k in rows ==> 0 <= k < n
    requires forall c :: AllHold(cs, Holds, c) <==> Matches(f, c)
    ensures forall k :: 0 <= k < |Select(rows, n, Admits(cs, ims, uss), Newer)| ==>
              Linked(Select(rows, n, Admits(cs, ims, uss), Newer)[k], ims, uss)
    ensures forall c :: c in Select(rows, n, Admits(cs, ims, uss), Newer) <==>
              c in rows.Values && Linked(c, ims, uss) && Matches(f, c)
  {
    var rs := Select(rows, n, Admits(cs, ims, uss), Newer);
    forall k | 0 <= k < |rs|
      ensures Linked(rs[k], ims, uss)
    {
      assert rs[k] in rs;
    }
    forall k | k in rows && Linked(rows[k], ims, uss) && Matches(f, rows[k])
      ensures rows[k] in rs
    {
      assert Admits(cs, ims, uss)(rows[k]);
    }
  }

  /** Joining keeps the order of the rows. */
  lemma JoinAllSorted(cs: seq<Contrato>, ims: map<int, Imoveis.Imovel>, uss: map<int, Usuarios.Usuario>)
    requires forall k :: 0 <= k < |cs| ==> Linked(cs[k], ims, uss)
    requires SortedBy(cs, Newer)
    ensures SortedBy(JoinAll(cs, ims, uss), NewerView)
  {
    var vs := JoinAll(cs, ims, uss);
    forall i, j | 0 <= i < j < |vs|
      ensures NewerView(vs[i], vs[j])
    {
      assert Newer(cs[i], cs[j]);
    }
  }

  /** A view is in the join exactly when its row is listed and it is that
      row joined with its references. */
  lemma JoinAllMembers(cs: seq<Contrato>, ims: map<int, Imoveis.Imovel>, uss: map<int, Usuarios.Usuario>)
    requires forall k :: 0 <= k < |cs| ==> Linked(cs[k], ims, uss)
    ensures forall v :: v in JoinAll(cs, ims, uss) <==>
              v.contrato in cs && Linked(v.contrato, ims, uss) && v == Joined(v.contrato, ims, uss)
  {
    var vs := JoinAll(cs, ims, uss);
    forall v: ContratoView | v.contrato in cs && Linked(v.contrato, ims, uss) && v == Joined(v.contrato, ims, uss)
      ensures v in vs
    {
      var j :| 0 <= j < |cs| && cs[j] == v.contrato;
      assert vs[j] == v;
    }
  }
}
