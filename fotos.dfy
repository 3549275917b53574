/** The `fotos` table and the service over it (src/services/fotos.service.js). */
module Fotos {
  import opened Base
  import opened MysqlErrors
  import opened Tables

  /** A row of `fotos`. */
  datatype Foto = Foto(id: int, imovelId: int, url: string, descricao: Option<string>)

  /** `WHERE imovel_id = ? ORDER BY id ASC`: the keys below n of the photos
      of the property, ascending. */
  function PhotoKeys(rows: map<int, Foto>, n: int, imovelId: int): (ks: seq<int>)
    ensures forall i :: 0 <= i < |ks| ==> ks[i] in rows
    decreases n
  {
    if n <= 0 then []
    else PhotoKeys(rows, n - 1, imovelId) + (if n - 1 in rows && rows[n - 1].imovelId == imovelId then [n - 1] else [])
  }

  /** The keys listed are exactly those below n whose photo belongs to the
      property, each once and in ascending order. */
  lemma PhotoKeysFacts(rows: map<int, Foto>, n: int, imovelId: int)
    ensures forall i :: 0 <= i < |PhotoKeys(rows, n, imovelId)| ==>
              PhotoKeys(rows, n, imovelId)[i] < n && rows[PhotoKeys(rows, n, imovelId)[i]].imovelId == imovelId
    ensures forall k :: k in rows && 0 <= k < n && rows[k].imovelId == imovelId ==> k in PhotoKeys(rows, n, imovelId)
    ensures forall i, j :: 0 <= i < j < |PhotoKeys(rows, n, imovelId)| ==>
              PhotoKeys(rows, n, imovelId)[i] < PhotoKeys(rows, n, imovelId)[j]
  {
    PhotoKeysSound(rows, n, imovelId);
    PhotoKeysComplete(rows, n, imovelId);
    PhotoKeysAscending(rows, n, imovelId);
  }

  lemma {:induction false} PhotoKeysSound(rows: map<int, Foto>, n: int, imovelId: int)
    ensures forall i :: 0 <= i < |PhotoKeys(rows, n, imovelId)| ==>
              PhotoKeys(rows, n, imovelId)[i] < n && rows[PhotoKeys(rows, n, imovelId)[i]].imovelId == imovelId
    decreases n
  {
    if n > 0 {
      PhotoKeysSound(rows, n - 1, imovelId);
    }
  }

  lemma {:induction false} PhotoKeysComplete(rows: map<int, Foto>, n: int, imovelId: int)
    ensures forall k :: k in rows && 0 <= k < n && rows[k].imovelId == imovelId ==> k in PhotoKeys(rows, n, imovelId)
    decreases n
  {
    if n > 0 {
      PhotoKeysComplete(rows, n - 1, imovelId);
    }
  }

  lemma {:induction false} PhotoKeysAscending(rows: map<int, Foto>, n: int, imovelId: int)
    ensures forall i, j :: 0 <= i < j < |PhotoKeys(rows, n, imovelId)| ==>
              PhotoKeys(rows, n, imovelId)[i] < PhotoKeys(rows, n, imovelId)[j]
    decreases n
  {
    if n > 0 {
      PhotoKeysAscending(rows, n - 1, imovelId);
      PhotoKeysSound(rows, n - 1, imovelId);
    }
  }

  /** The photos of the property, in id order. */
  function PhotosOf(rows: map<int, Foto>, n: int, imovelId: int): seq<Foto>
  {
    RowsAt(rows, PhotoKeys(rows, n, imovelId))
  }

  /** Rows at or above n do not change the keys below n. */
  lemma {:induction false} PhotoKeysBelow(t: map<int, Foto>, u: map<int, Foto>, n: int, imovelId: int)
    requires forall k :: k < n ==> (k in t <==> k in u) && (k in t ==> t[k] == u[k])
    ensures PhotoKeys(t, n, imovelId) == PhotoKeys(u, n, imovelId)
    decreases n
  {
    if n > 0 {
      PhotoKeysBelow(t, u, n - 1, imovelId);
    }
  }

  /** A row stored at key n does not change the listing below n. */
  lemma PhotosOfFrame(rows: map<int, Foto>, n: nat, f: Foto, imovelId: int)
    requires forall k :: k in rows ==> k < n
    ensures PhotoKeys(rows[n := f], n, imovelId) == PhotoKeys(rows, n, imovelId)
    ensures PhotosOf(rows[n := f], n, imovelId) == PhotosOf(rows, n, imovelId)
  {
    var u := rows[n := f];
    PhotoKeysBelow(rows, u, n, imovelId);
    RowsAtFrame(rows, u, PhotoKeys(rows, n, imovelId));
  }

  /** Adding the row with the next id adds it at the end of its property's
      listing and leaves every other listing alone. */
  lemma PhotosOfInsert(rows: map<int, Foto>, n: nat, f: Foto, imovelId: int)
    requires forall k :: k in rows ==> k < n
    ensures f.imovelId == imovelId ==> PhotosOf(rows[n := f], n + 1, imovelId) == PhotosOf(rows, n, imovelId) + [f]
    ensures f.imovelId != imovelId ==> PhotosOf(rows[n := f], n + 1, imovelId) == PhotosOf(rows, n, imovelId)
  {
    var u := rows[n := f];
    PhotosOfFrame(rows, n, f, imovelId);
    var ks := PhotoKeys(u, n, imovelId);
    if f.imovelId == imovelId {
      assert PhotoKeys(u, n + 1, imovelId) == ks + [n];
      RowsAtSnoc(u, ks, n);
    } else {
      assert PhotoKeys(u, n + 1, imovelId) == ks;
    }
  }

  /** Exactly the photos of the property with keys below n are listed, in
      ascending id order when every row is stored under its own id. */
  lemma PhotosOfMembers(rows: map<int, Foto>, n: int, imovelId: int)
    requires forall k :: k in rows ==> rows[k].id == k
    ensures forall f :: f in PhotosOf(rows, n, imovelId) ==> f in rows.Values && f.imovelId == imovelId
    ensures forall k :: k in rows && 0 <= k < n && rows[k].imovelId == imovelId ==> rows[k] in PhotosOf(rows, n, imovelId)
    ensures var fs := PhotosOf(rows, n, imovelId);
            forall i, j :: 0 <= i < j < |fs| ==> fs[i].id < fs[j].id
  {
    var ks := PhotoKeys(rows, n, imovelId);
    var fs := PhotosOf(rows, n, imovelId);
    PhotoKeysFacts(rows, n, imovelId);
    forall f | f in fs
      ensures f in rows.Values && f.imovelId == imovelId
    {
      var i :| 0 <= i < |fs| && fs[i] == f;
      assert f == rows[ks[i]];
    }
    forall k | k in rows && 0 <= k < n && rows[k].imovelId == imovelId
      ensures rows[k] in fs
    {
      var i :| 0 <= i < |ks| && ks[i] == k;
      assert fs[i] == rows[k];
    }
    forall i, j | 0 <= i < j < |fs|
      ensures fs[i].id < fs[j].id
    {
      assert fs[i] == rows[ks[i]] && fs[j] == rows[ks[j]];
    }
  }

  class FotoTable {
    var rows: map<int, Foto>
    var nextId: int

    ghost predicate Valid()
      reads this
    {
      nextId >= 1 && forall k :: k in rows ==> 1 <= k < nextId && rows[k].id == k
    }

    constructor ()
      ensures Valid() && rows == map[] && nextId == 1
    {
      rows := map[];
      nextId := 1;
    }

    /** `listFotosByImovel(imovelId)`: exactly the photos of that property,
        by ascending id (so each one once). */
    function ListByImovel(imovelId: int): (fs: seq<Foto>)
      reads this
      requires Valid()
      ensures forall f :: f in fs <==> f in rows.Values && f.imovelId == imovelId
      ensures forall i, j :: 0 <= i < j < |fs| ==> fs[i].id < fs[j].id
    {
      PhotosOfMembers(rows, nextId, imovelId);
      PhotosOf(rows, nextId, imovelId)
    }

    /** `getFotoById`: the row stored under id, or null. */
    function GetById(id: int): (r: Option<Foto>)
      reads this
      requires Valid()
      ensures r.Some? <==> id in rows
      ensures r.Some? ==> r.value == rows[id] && r.value.id == id
    {
      if id in rows then Some(rows[id]) else None
    }

    /** `createFoto(imovelId, { url, descricao })`: one row under a fresh id,
        returned as stored; a missing description is stored as NULL. */
    method Create(imovelId: int, url: string, descricao: Option<string>, fault: Option<Failure>)
      returns (r: Result<Foto, Failure>)
      requires Valid()
      modifies this
      ensures Valid()
      ensures fault.Some? ==> r == Err(fault.value) && rows == old(rows) && nextId == old(nextId)
      ensures fault.None? ==>
                r == Ok(Foto(old(nextId), imovelId, url, descricao))
                && old(nextId) !in old(rows)
                && rows == old(rows)[old(nextId) := r.value] && nextId == old(nextId) + 1
    {
      if fault.Some? {
        return Err(fault.value);
      }
      var f := Foto(nextId, imovelId, url, descricao);
      rows := rows[nextId := f];
      nextId := nextId + 1;
      r := Ok(f);
    }

    /** `deleteFoto(imovelId, fotoId)`: the row goes only when both its id
        and its property match; true exactly when it went. */
    method Delete(imovelId: int, fotoId: int, fault: Option<Failure>) returns (r: Result<bool, Failure>)
      requires Valid()
      modifies this
      ensures Valid() && nextId == old(nextId)
      ensures fault.Some? ==> r == Err(fault.value) && rows == old(rows)
      ensures fault.None? ==>
                var hit := fotoId in old(rows) && old(rows)[fotoId].imovelId == imovelId;
                r == Ok(hit) && rows == (if hit then old(rows) - {fotoId} else old(rows))
    {
      if fault.Some? {
        return Err(fault.value);
      }
      var hit := fotoId in rows && rows[fotoId].imovelId == imovelId;
      if hit {
        rows := rows - {fotoId};
      }
      r := Ok(hit);
    }
  }
}
