/** The `categorias` table and the service over it
    (src/services/categorias.service.js). */
module Categorias {
  import opened Base
  import opened JsValues
  import opened MysqlErrors
  import opened Tables
  import opened Ordering

  /** A row of `categorias`; the name is NULL when an update wrote
      `undefined`. */
  datatype Categoria = Categoria(id: int, nome: Option<string>)

  /** `ORDER BY nome ASC`. */
  predicate ByNome(a: Categoria, b: Categoria)
  {
    NullsFirstLe(a.nome, b.nome)
  }

  lemma ByNomeTotal()
    ensures TotalPreorder(ByNome)
  {
    forall a: Categoria, b: Categoria
      ensures ByNome(a, b) || ByNome(b, a)
    {
      NullsFirstTotal(a.nome, b.nome);
    }
    forall a: Categoria, b: Categoria, c: Categoria | ByNome(a, b) && ByNome(b, c)
      ensures ByNome(a, c)
    {
      NullsFirstTransitive(a.nome, b.nome, c.nome);
    }
  }

  function AnyRow(c: Categoria): bool
  {
    true
  }

  class CategoriaTable {
    var rows: map<int, Categoria>
    var nextId: int

    ghost predicate Valid()
      reads this
    {
      nextId >= 1 && forall k :: k in rows ==> 1 <= k < nextId && rows[k].id == k
    }

    constructor ()
      ensures Valid() && rows == map[] && nextId == 1
    {
      rows := map[];
      nextId := 1;
    }

    /** `listCategorias`: every row, by name. */
    method List() returns (rs: seq<Categoria>)
      requires Valid()
      ensures forall c :: c in rs <==> c in rows.Values
      ensures forall i, j :: 0 <= i < j < |rs| ==> rs[i].id != rs[j].id
      ensures SortedBy(rs, ByNome)
    {
      rs := Select(rows, nextId, AnyRow, ByNome);
      SelectKeysDistinct(rows, nextId, AnyRow, ByNome, (c: Categoria) => c.id);
      ByNomeTotal();
      SelectSorted(rows, nextId, AnyRow, ByNome);
    }

    /** `getCategoriaById`: the row stored under id, or null. */
    function GetById(id: int): (r: Option<Categoria>)
      reads this
      requires Valid()
      ensures r.Some? <==> id in rows
      ensures r.Some? ==> r.value.id == id && r.value in rows.Values
    {
      if id in rows then Some(rows[id]) else None
    }

    /** `createCategoria`: one row under a fresh id holding the trimmed name. */
    method Create(nome: Option<string>, fault: Option<Failure>) returns (r: Result<Categoria, Failure>)
      requires Valid()
      modifies this
      ensures Valid()
      ensures fault.Some? ==> r == Err(fault.value) && rows == old(rows) && nextId == old(nextId)
      ensures fault.None? ==>
                r == Ok(Categoria(old(nextId), TrimOpt(nome)))
                && old(nextId) !in old(rows)
                && rows == old(rows)[old(nextId) := r.value] && nextId == old(nextId) + 1
    {
      if fault.Some? {
        return Err(fault.value);
      }
      var c := Categoria(nextId, TrimOpt(nome));
      rows := rows[nextId := c];
      nextId := nextId + 1;
      r := Ok(c);
    }

    /** `updateCategoria`: null for a missing id; the current row when the
        payload has no `nome` key; otherwise the trimmed name is written,
        and a key holding undefined writes NULL. */
    method Update(id: int, nome: Key<Option<string>>, fault: Option<Failure>) returns (r: Result<Option<Categoria>, Failure>)
      requires Valid()
      modifies this
      ensures Valid() && nextId == old(nextId)
      ensures id !in old(rows) ==> r == Ok(None) && rows == old(rows)
      ensures id in old(rows) && nome.Absent? ==> r == Ok(Some(old(rows)[id])) && rows == old(rows)
      ensures id in old(rows) && nome.Present? && fault.Some? ==> r == Err(fault.value) && rows == old(rows)
      ensures id in old(rows) && nome.Present? && fault.None? ==>
                rows == old(rows)[id := Categoria(id, TrimOpt(nome.value))] && r == Ok(Some(rows[id]))
    {
      if id !in rows {
        return Ok(None);
      }
      if nome.Absent? {
        return Ok(Some(rows[id]));
      }
      if fault.Some? {
        return Err(fault.value);
      }
      rows := rows[id := Categoria(id, TrimOpt(nome.value))];
      r := Ok(Some(rows[id]));
    }

    /** `deleteCategoria`: true exactly when a row was removed. */
    method Delete(id: int, fault: Option<Failure>) returns (r: Result<bool, Failure>)
      requires Valid()
      modifies this
      ensures Valid() && nextId == old(nextId)
      ensures fault.Some? ==> r == Err(fault.value) && rows == old(rows)
      ensures fault.None? ==> r == Ok(id in old(rows)) && rows == old(rows) - {id}
    {
      if fault.Some? {
        return Err(fault.value);
      }
      r := Ok(id in rows);
      rows := rows - {id};
    }
  }
}
