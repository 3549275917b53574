/** The `usuarios` table and the service over it
    (src/services/usuarios.service.js). */
module Usuarios {
  import opened Base
  import opened JsValues
  import opened MysqlErrors
  import opened Tables
  import opened Ordering

  const AllowedUserTypes: set<string> := {"admin", "cliente", "corretor"}
  const DefaultUserType: string := "cliente"

  /** `ALLOWED_USER_TYPES.has(v)`: a `Set` of strings holds no other value. */
  predicate IsUserType(v: Js)
  {
    v.Str? && v.s in AllowedUserTypes
  }

  /** A row of `usuarios`. Name, e-mail and phone hold whatever value the
      request carried, bound as mysql2 binds it; `criado_em` is the
      database's insertion timestamp. */
  datatype Usuario = Usuario(id: int, nome: Js, email: Js, telefone: Js, tipo: string, criadoEm: int)

  /** The argument of `createUsuario`. */
  datatype NewUsuario = NewUsuario(nome: Js, email: Js, telefone: Js, tipo: Js)

  /** The row `createUsuario` inserts: `telefone` defaults to null and a type
      that is absent or not allowed becomes `cliente`. */
  function Inserted(id: int, p: NewUsuario, now: int): (u: Usuario)
    ensures u.id == id && u.criadoEm == now
    ensures u.tipo in AllowedUserTypes
    ensures IsUserType(p.tipo) ==> u.tipo == p.tipo.s
    ensures p.telefone == Undefined ==> u.telefone == Null
  {
    var tipo := if p.tipo == Undefined then Str(DefaultUserType) else p.tipo;
    Usuario(id, Bind(p.nome), Bind(p.email), Bind(p.telefone),
            if IsUserType(tipo) then tipo.s else DefaultUserType, now)
  }

  /** The filters `listUsuarios` receives: the type, or undefined. */
  datatype UsuarioFilters = UsuarioFilters(tipo: Option<string>)

  /** One `WHERE` condition of `listUsuarios`. */
  datatype Condition = TipoIs(string)

  predicate Holds(c: Condition, u: Usuario)
  {
    match c
    case TipoIs(t) => u.tipo == t
  }

  /** The rows a listing admits: a type filter constrains only when it is
      truthy (a non-empty string). */
  predicate Matches(f: UsuarioFilters, u: Usuario)
  {
    f.tipo.Some? && f.tipo.value != "" ==> u.tipo == f.tipo.value
  }

  /** `ORDER BY criado_em DESC`. */
  predicate Newer(a: Usuario, b: Usuario)
  {
    NewestFirst(a.criadoEm, b.criadoEm)
  }

  lemma NewerTotal()
    ensures TotalPreorder(Newer)
  {
  }

  /** One `column = ?` of the `SET` list `updateUsuario` builds. */
  datatype Assignment = SetNome(Js) | SetEmail(Js) | SetTelefone(Js) | SetTipo(string)

  function Assign(u: Usuario, a: Assignment): Usuario
  {
    match a
    case SetNome(v) => u.(nome := v)
    case SetEmail(v) => u.(email := v)
    case SetTelefone(v) => u.(telefone := v)
    case SetTipo(t) => u.(tipo := t)
  }

  /** The payload keys `updateUsuario` looks at; every other key is ignored. */
  predicate Touches(p: map<string, Js>)
  {
    "nome" in p || "email" in p || "telefone" in p || "tipo_usuario" in p
  }

  /** The row after a partial update: a column changes only when its key is
      present, and a type that is not allowed keeps the stored one. */
  function Patched(u: Usuario, p: map<string, Js>): Usuario
  {
    Usuario(u.id,
            if "nome" in p then Bind(p["nome"]) else u.nome,
            if "email" in p then Bind(p["email"]) else u.email,
            if "telefone" in p then Bind(p["telefone"]) else u.telefone,
            if "tipo_usuario" in p && IsUserType(p["tipo_usuario"]) then p["tipo_usuario"].s else u.tipo,
            u.criadoEm)
  }

  /** A payload without any of the four keys changes nothing. */
  lemma PatchedUntouched(u: Usuario, p: map<string, Js>)
    requires !Touches(p)
    ensures Patched(u, p) == u
  {
  }

  /** Keys other than the four columns make no difference to the update. */
  lemma PatchedIgnoresOtherKeys(u: Usuario, p: map<string, Js>, q: map<string, Js>)
    requires forall k :: k in {"nome", "email", "telefone", "tipo_usuario"} ==>
               (k in p <==> k in q) && (k in p ==> p[k] == q[k])
    ensures Patched(u, p) == Patched(u, q)
  {
    assert "nome" in {"nome", "email", "telefone", "tipo_usuario"};
    assert "email" in {"nome", "email", "telefone", "tipo_usuario"};
    assert "telefone" in {"nome", "email", "telefone", "tipo_usuario"};
    assert "tipo_usuario" in {"nome", "email", "telefone", "tipo_usuario"};
  }

  /** A stored type stays allowed through any update, and a type that is not
      allowed leaves the stored one in place. */
  lemma PatchedKeepsType(u: Usuario, p: map<string, Js>)
    requires u.tipo in AllowedUserTypes
    ensures Patched(u, p).tipo in AllowedUserTypes
    ensures Patched(u, p).id == u.id && Patched(u, p).criadoEm == u.criadoEm
    ensures "tipo_usuario" in p && !IsUserType(p["tipo_usuario"]) ==> Patched(u, p).tipo == u.tipo
  {
  }

  /** The `fields` list `updateUsuario` builds, one present key at a time;
      applying it yields the patched row, and it is empty exactly when no
      column key is present. */
  method SetList(atual: Usuario, payload: map<string, Js>) returns (fields: seq<Assignment>)
    ensures ApplyAll(atual, fields, Assign) == Patched(atual, payload)
    ensures |fields| == 0 <==> !Touches(payload)
  {
    fields := [];
    ghost var want := atual;
    if "nome" in payload {
      ApplyPush(atual, fields, SetNome(Bind(payload["nome"])), Assign);
      fields := fields + [SetNome(Bind(payload["nome"]))];
      want := want.(nome := Bind(payload["nome"]));
    }
    assert ApplyAll(atual, fields, Assign) == want;
    if "email" in payload {
      ApplyPush(atual, fields, SetEmail(Bind(payload["email"])), Assign);
      fields := fields + [SetEmail(Bind(payload["email"]))];
      want := want.(email := Bind(payload["email"]));
    }
    assert ApplyAll(atual, fields, Assign) == want;
    if "telefone" in payload {
      ApplyPush(atual, fields, SetTelefone(Bind(payload["telefone"])), Assign);
      fields := fields + [SetTelefone(Bind(payload["telefone"]))];
      want := want.(telefone := Bind(payload["telefone"]));
    }
    assert ApplyAll(atual, fields, Assign) == want;
    if "tipo_usuario" in payload {
      var tipo := if IsUserType(payload["tipo_usuario"]) then payload["tipo_usuario"].s else atual.tipo;
      ApplyPush(atual, fields, SetTipo(tipo), Assign);
      fields := fields + [SetTipo(tipo)];
      want := want.(tipo := tipo);
    }
    assert ApplyAll(atual, fields, Assign) == want;
    assert want == Patched(atual, payload);
    assert |fields| == 0 <==> !Touches(payload);
  }

  class UsuarioTable {
    var rows: map<int, Usuario>
    var nextId: int

    /** Keys are the ids handed out so far, each row sits under its own id,
        and every stored type is an allowed one. */
    ghost predicate Valid()
      reads this
    {
      nextId >= 1
      && forall k :: k in rows ==> 1 <= k < nextId && rows[k].id == k && rows[k].tipo in AllowedUserTypes
    }

    constructor ()
      ensures Valid() && rows == map[] && nextId == 1
    {
      rows := map[];
      nextId := 1;
    }

    /** `listUsuarios`: the rows the filters admit, newest first. */
    method List(f: UsuarioFilters) returns (rs: seq<Usuario>)
      requires Valid()
      ensures forall u :: u in rs <==> u in rows.Values && Matches(f, u)
      ensures forall i, j :: 0 <= i < j < |rs| ==> rs[i].id != rs[j].id
      ensures SortedBy(rs, Newer)
    {
      var conditions: seq<Condition> := [];
      if f.tipo.Some? && f.tipo.value != "" {
        conditions := conditions + [TipoIs(f.tipo.value)];
      }
      assert forall u :: AllHold(conditions, Holds, u) <==> Matches(f, u) by {
        forall u
          ensures AllHold(conditions, Holds, u) <==> Matches(f, u)
        {
          if conditions != [] {
            assert conditions[0] == TipoIs(f.tipo.value);
          }
        }
      }
      rs := Select(rows, nextId, u => AllHold(conditions, Holds, u), Newer);
      SelectKeysDistinct(rows, nextId, u => AllHold(conditions, Holds, u), Newer, (u: Usuario) => u.id);
      NewerTotal();
      SelectSorted(rows, nextId, u => AllHold(conditions, Holds, u), Newer);
    }

    /** `getUsuarioById`: the row stored under id, or null. */
    function GetById(id: int): (r: Option<Usuario>)
      reads this
      requires Valid()
      ensures r.Some? <==> id in rows
      ensures r.Some? ==> r.value.id == id && r.value in rows.Values
    {
      if id in rows then Some(rows[id]) else None
    }

    /** `createUsuario`: one row under a fresh id, returned as stored. A
        failing insert (fault) throws and leaves the table as it was. */
    method Create(p: NewUsuario, now: int, fault: Option<Failure>) returns (r: Result<Usuario, Failure>)
      requires Valid()
      modifies this
      ensures Valid()
      ensures fault.Some? ==> r == Err(fault.value) && rows == old(rows) && nextId == old(nextId)
      ensures fault.None? ==>
                r == Ok(Inserted(old(nextId), p, now))
                && old(nextId) !in old(rows)
                && rows == old(rows)[old(nextId) := r.value] && nextId == old(nextId) + 1
    {
      if fault.Some? {
        return Err(fault.value);
      }
      var u := Inserted(nextId, p, now);
      rows := rows[nextId := u];
      nextId := nextId + 1;
      r := Ok(u);
    }

    /** `updateUsuario`: null for a missing id, the current row when no
        column key is present, otherwise the row after `UPDATE`. */
    method Update(id: int, payload: map<string, Js>, fault: Option<Failure>) returns (r: Result<Option<Usuario>, Failure>)
      requires Valid()
      modifies this
      ensures Valid() && nextId == old(nextId)
      ensures id !in old(rows) ==> r == Ok(None) && rows == old(rows)
      ensures id in old(rows) && !Touches(payload) ==> r == Ok(Some(old(rows)[id])) && rows == old(rows)
      ensures id in old(rows) && Touches(payload) && fault.Some? ==> r == Err(fault.value) && rows == old(rows)
      ensures id in old(rows) && Touches(payload) && fault.None? ==>
                rows == old(rows)[id := Patched(old(rows)[id], payload)] && r == Ok(Some(rows[id]))
    {
      if id !in rows {
        return Ok(None);
      }
      var atual := rows[id];
      var fields := SetList(atual, payload);
      PatchedKeepsType(atual, payload);
      if |fields| == 0 {
        return Ok(Some(atual));
      }
      if fault.Some? {
        return Err(fault.value);
      }
      rows := rows[id := ApplyAll(atual, fields, Assign)];
      r := Ok(Some(rows[id]));
    }

    /** `deleteUsuario`: true exactly when a row was removed. */
    method Delete(id: int, fault: Option<Failure>) returns (r: Result<bool, Failure>)
      requires Valid()
      modifies this
      ensures Valid() && nextId == old(nextId)
      ensures fault.Some? ==> r == Err(fault.value) && rows == old(rows)
      ensures fault.None? ==> r == Ok(id in old(rows)) && rows == old(rows) - {id}
    {
      if fault.Some? {
        return Err(fault.value);
      }
      r := Ok(id in rows);
      rows := rows - {id};
    }
  }
}
