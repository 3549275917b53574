/** The `cidades` table and the service over it
    (src/services/cidades.service.js). */
module Cidades {
  import opened Base
  import opened JsValues
  import opened MysqlErrors
  import opened Tables
  import opened Ordering

  /** A row of `cidades`; either column is NULL when an update wrote
      `undefined`. */
  datatype Cidade = Cidade(id: int, nome: Option<string>, estado: Option<string>)

  /** The filters `listCidades` receives: the state, or undefined. */
  datatype CidadeFilters = CidadeFilters(estado: Option<string>)

  /** One `WHERE` condition of `listCidades`. */
  datatype Condition = EstadoIs(string)

  /** `estado = ?`: a NULL state equals nothing. */
  predicate Holds(c: Condition, r: Cidade)
  {
    match c
    case EstadoIs(e) => r.estado == Some(e)
  }

  /** The rows a listing admits: a truthy state filter keeps the cities whose
      state is the filter upper-cased. */
  predicate Matches(f: CidadeFilters, r: Cidade)
  {
    f.estado.Some? && f.estado.value != "" ==> r.estado == Some(ToUpper(f.estado.value))
  }

  /** `ORDER BY nome ASC`. */
  predicate ByNome(a: Cidade, b: Cidade)
  {
    NullsFirstLe(a.nome, b.nome)
  }

  lemma ByNomeTotal()
    ensures TotalPreorder(ByNome)
  {
    forall a: Cidade, b: Cidade
      ensures ByNome(a, b) || ByNome(b, a)
    {
      NullsFirstTotal(a.nome, b.nome);
    }
    forall a: Cidade, b: Cidade, c: Cidade | ByNome(a, b) && ByNome(b, c)
      ensures ByNome(a, c)
    {
      NullsFirstTransitive(a.nome, b.nome, c.nome);
    }
  }

  /** One `column = ?` of the `SET` list `updateCidade` builds. */
  datatype Assignment = SetNome(Option<string>) | SetEstado(Option<string>)

  function Assign(r: Cidade, a: Assignment): Cidade
  {
    match a
    case SetNome(v) => r.(nome := v)
    case SetEstado(v) => r.(estado := v)
  }

  /** The row after a partial update: a present name is trimmed, a present
      state upper-cased (undefined writes NULL), an absent key leaves its
      column alone. */
  function Patched(r: Cidade, nome: Key<Option<string>>, estado: Key<Option<string>>): Cidade
  {
    Cidade(r.id,
           if nome.Present? then TrimOpt(nome.value) else r.nome,
           if estado.Present? then UpperOpt(estado.value) else r.estado)
  }

  /** The `fields` list `updateCidade` builds, one present key at a time. */
  method SetList(atual: Cidade, nome: Key<Option<string>>, estado: Key<Option<string>>)
    returns (fields: seq<Assignment>)
    ensures ApplyAll(atual, fields, Assign) == Patched(atual, nome, estado)
    ensures |fields| == 0 <==> nome.Absent? && estado.Absent?
  {
    fields := [];
    ghost var want := atual;
    if nome.Present? {
      ApplyPush(atual, fields, SetNome(TrimOpt(nome.value)), Assign);
      fields := fields + [SetNome(TrimOpt(nome.value))];
      want := want.(nome := TrimOpt(nome.value));
    }
    assert ApplyAll(atual, fields, Assign) == want;
    if estado.Present? {
      ApplyPush(atual, fields, SetEstado(UpperOpt(estado.value)), Assign);
      fields := fields + [SetEstado(UpperOpt(estado.value))];
      want := want.(estado := UpperOpt(estado.value));
    }
    assert ApplyAll(atual, fields, Assign) == want;
  }

  class CidadeTable {
    var rows: map<int, Cidade>
    var nextId: int

    ghost predicate Valid()
      reads this
    {
      nextId >= 1 && forall k :: k in rows ==> 1 <= k < nextId && rows[k].id == k
    }

    constructor ()
      ensures Valid() && rows == map[] && nextId == 1
    {
      rows := map[];
      nextId := 1;
    }

    /** `listCidades`: the rows the filters admit, by name. */
    method List(f: CidadeFilters) returns (rs: seq<Cidade>)
      requires Valid()
      ensures forall c :: c in rs <==> c in rows.Values && Matches(f, c)
      ensures forall i, j :: 0 <= i < j < |rs| ==> rs[i].id != rs[j].id
      ensures SortedBy(rs, ByNome)
    {
      var conditions: seq<Condition> := [];
      if f.estado.Some? && f.estado.value != "" {
        conditions := conditions + [EstadoIs(ToUpper(f.estado.value))];
      }
      assert forall c :: AllHold(conditions, Holds, c) <==> Matches(f, c) by {
        forall c
          ensures AllHold(conditions, Holds, c) <==> Matches(f, c)
        {
          if conditions != [] {
            assert conditions[0] == EstadoIs(ToUpper(f.estado.value));
          }
        }
      }
      rs := Select(rows, nextId, c => AllHold(conditions, Holds, c), ByNome);
      SelectKeysDistinct(rows, nextId, c => AllHold(conditions, Holds, c), ByNome, (c: Cidade) => c.id);
      ByNomeTotal();
      SelectSorted(rows, nextId, c => AllHold(conditions, Holds, c), ByNome);
    }

    /** `getCidadeById`: the row stored under id, or null. */
    function GetById(id: int): (r: Option<Cidade>)
      reads this
      requires Valid()
      ensures r.Some? <==> id in rows
      ensures r.Some? ==> r.value.id == id && r.value in rows.Values
    {
      if id in rows then Some(rows[id]) else None
    }

    /** `createCidade`: one row under a fresh id with the name trimmed and the
        state upper-cased. */
    method Create(nome: Option<string>, estado: Option<string>, fault: Option<Failure>)
      returns (r: Result<Cidade, Failure>)
      requires Valid()
      modifies this
      ensures Valid()
      ensures fault.Some? ==> r == Err(fault.value) && rows == old(rows) && nextId == old(nextId)
      ensures fault.None? ==>
                r == Ok(Cidade(old(nextId), TrimOpt(nome), UpperOpt(estado)))
                && old(nextId) !in old(rows)
                && rows == old(rows)[old(nextId) := r.value] && nextId == old(nextId) + 1
    {
      if fault.Some? {
        return Err(fault.value);
      }
      var c := Cidade(nextId, TrimOpt(nome), UpperOpt(estado));
      rows := rows[nextId := c];
      nextId := nextId + 1;
      r := Ok(c);
    }

    /** `updateCidade`: null for a missing id, the current row when neither
        key is present, otherwise the row after `UPDATE`. */
    method Update(id: int, nome: Key<Option<string>>, estado: Key<Option<string>>, fault: Option<Failure>)
      returns (r: Result<Option<Cidade>, Failure>)
      requires Valid()
      modifies this
      ensures Valid() && nextId == old(nextId)
      ensures id !in old(rows) ==> r == Ok(None) && rows == old(rows)
      ensures id in old(rows) && nome.Absent? && estado.Absent? ==> r == Ok(Some(old(rows)[id])) && rows == old(rows)
      ensures id in old(rows) && (nome.Present? || estado.Present?) && fault.Some? ==>
                r == Err(fault.value) && rows == old(rows)
      ensures id in old(rows) && (nome.Present? || estado.Present?) && fault.None? ==>
                rows == old(rows)[id := Patched(old(rows)[id], nome, estado)] && r == Ok(Some(rows[id]))
    {
      if id !in rows {
        return Ok(None);
      }
      var atual := rows[id];
      var fields := SetList(atual, nome, estado);
      if |fields| == 0 {
        return Ok(Some(atual));
      }
      if fault.Some? {
        return Err(fault.value);
      }
      rows := rows[id := ApplyAll(atual, fields, Assign)];
      r := Ok(Some(rows[id]));
    }

    /** `deleteCidade`: true exactly when a row was removed. */
    method Delete(id: int, fault: Option<Failure>) returns (r: Result<bool, Failure>)
      requires Valid()
      modifies this
      ensures Valid() && nextId == old(nextId)
      ensures fault.Some? ==> r == Err(fault.value) && rows == old(rows)
      ensures fault.None? ==> r == Ok(id in old(rows)) && rows == old(rows) - {id}
    {
      if fault.Some? {
        return Err(fault.value);
      }
      r := Ok(id in rows);
      rows := rows - {id};
    }
  }
}
