/** The `SELECT ... WHERE ... ORDER BY` every store runs, over a table held as
    a map from primary key to row. Rows are read in ascending key order,
    filtered, and then stably sorted by the query's `ORDER BY` column; the
    database leaves the order of ties open, and the model fixes it to key
    order. */
module Tables {
  import opened Base

  /** The keys of t below n, in ascending order. */
  function KeysBelow<R(==)>(t: map<int, R>, n: int): (ks: seq<int>)
    ensures forall i :: 0 <= i < |ks| ==> ks[i] in t && ks[i] < n
    ensures forall k :: k in t && 0 <= k < n ==> k in ks
    ensures forall i, j :: 0 <= i < j < |ks| ==> ks[i] < ks[j]
    decreases n
  {
    if n <= 0 then []
    else KeysBelow(t, n - 1) + (if n - 1 in t then [n - 1] else [])
  }

  /** The rows stored under the keys ks, in that order. */
  function RowsAt<R(==)>(t: map<int, R>, ks: seq<int>): (rs: seq<R>)
    requires forall i :: 0 <= i < |ks| ==> ks[i] in t
    ensures |rs| == |ks|
    ensures forall i :: 0 <= i < |ks| ==> rs[i] == t[ks[i]]
  {
    if ks == [] then [] else [t[ks[0]]] + RowsAt(t, ks[1..])
  }

  /** Reading one more key reads one more row. */
  lemma RowsAtSnoc<R>(t: map<int, R>, ks: seq<int>, k: int)
    requires forall i :: 0 <= i < |ks| ==> ks[i] in t
    requires k in t
    ensures RowsAt(t, ks + [k]) == RowsAt(t, ks) + [t[k]]
  {
    var a := RowsAt(t, ks + [k]);
    var b := RowsAt(t, ks) + [t[k]];
    assert |a| == |b|;
    forall i | 0 <= i < |a|
      ensures a[i] == b[i]
    {
      assert (ks + [k])[i] == if i < |ks| then ks[i] else k;
    }
  }

  /** Two tables that agree on the keys read give the same rows. */
  lemma RowsAtFrame<R>(t: map<int, R>, u: map<int, R>, ks: seq<int>)
    requires forall i :: 0 <= i < |ks| ==> ks[i] in t && ks[i] in u && t[ks[i]] == u[ks[i]]
    ensures RowsAt(t, ks) == RowsAt(u, ks)
  {
    var a := RowsAt(t, ks);
    var b := RowsAt(u, ks);
    assert |a| == |b|;
    assert forall i | 0 <= i < |a| :: a[i] == b[i];
  }

  /** No row occurs twice. */
  ghost predicate Distinct<R>(rs: seq<R>)
  {
    forall i, j :: 0 <= i < j < |rs| ==> rs[i] != rs[j]
  }

  /** Different keys hold different rows. */
  ghost predicate Injective<R>(t: map<int, R>)
  {
    forall a, b :: a in t && b in t && t[a] == t[b] ==> a == b
  }

  /** Every row carries the key it is stored under, as read by key. */
  ghost predicate KeyedBy<R>(t: map<int, R>, key: R -> int)
  {
    forall k :: k in t ==> key(t[k]) == k
  }

  /** Every row of t, in ascending key order, when all keys are in [0, n);
      each key is read once, so no row repeats when keys hold different
      rows. */
  function Scan<R(==,!new)>(t: map<int, R>, n: int): (rs: seq<R>)
    ensures forall r :: r in rs ==> r in t.Values
    ensures forall k :: k in t && 0 <= k < n ==> t[k] in rs
    ensures Injective(t) ==> Distinct(rs)
  {
    var ks := KeysBelow(t, n);
    var rs := RowsAt(t, ks);
    assert Injective(t) ==> Distinct(rs) by {
      if Injective(t) {
        forall i, j | 0 <= i < j < |rs|
          ensures rs[i] != rs[j]
        {
          assert ks[i] < ks[j];
        }
      }
    }
    assert forall k :: k in t && 0 <= k < n ==> t[k] in rs by {
      forall k | k in t && 0 <= k < n
        ensures t[k] in rs
      {
        var i :| 0 <= i < |ks| && ks[i] == k;
        assert rs[i] == t[k];
      }
    }
    rs
  }

  /** `WHERE`: the rows satisfying p, in their original order. */
  function Where<R(==,!new)>(rs: seq<R>, p: R -> bool): (out: seq<R>)
    ensures forall r :: r in out <==> r in rs && p(r)
    ensures multiset(out) <= multiset(rs)
  {
    if rs == [] then []
    else
      assert rs == [rs[0]] + rs[1..];
      (if p(rs[0]) then [rs[0]] else []) + Where(rs[1..], p)
  }

  /** le is a total preorder. */
  ghost predicate TotalPreorder<R(!new)>(le: (R, R) -> bool)
  {
    (forall a, b :: le(a, b) || le(b, a))
    && (forall a, b, c :: le(a, b) && le(b, c) ==> le(a, c))
  }

  ghost predicate SortedBy<R>(rs: seq<R>, le: (R, R) -> bool)
  {
    forall i, j :: 0 <= i < j < |rs| ==> le(rs[i], rs[j])
  }

  /** Put x in front of the first element it must precede (after every
      element it does not beat, which keeps the sort stable). */
  function Insert<R(==)>(x: R, rs: seq<R>, le: (R, R) -> bool): (out: seq<R>)
    ensures multiset(out) == multiset(rs) + multiset{x}
    ensures |out| == |rs| + 1
  {
    if rs == [] then [x]
    else if le(x, rs[0]) && !le(rs[0], x) then [x] + rs
    else
      assert rs == [rs[0]] + rs[1..];
      [rs[0]] + Insert(x, rs[1..], le)
  }

  /** `ORDER BY`: insertion sort, stable. */
  function SortBy<R(==)>(rs: seq<R>, le: (R, R) -> bool): (out: seq<R>)
    ensures multiset(out) == multiset(rs)
    ensures |out| == |rs|
  {
    if rs == [] then []
    else
      assert rs == [rs[0]] + rs[1..];
      Insert(rs[0], SortBy(rs[1..], le), le)
  }

  lemma {:induction false} InsertSorted<R(!new)>(x: R, rs: seq<R>, le: (R, R) -> bool)
    requires TotalPreorder(le) && SortedBy(rs, le)
    ensures SortedBy(Insert(x, rs, le), le)
  {
    if rs != [] && !(le(x, rs[0]) && !le(rs[0], x)) {
      var tail := rs[1..];
      assert SortedBy(tail, le) by {
        forall i, j | 0 <= i < j < |tail|
          ensures le(tail[i], tail[j])
        {
          assert tail[i] == rs[i + 1] && tail[j] == rs[j + 1];
        }
      }
      InsertSorted(x, tail, le);
      var ins := Insert(x, tail, le);
      forall y | y in ins
        ensures le(rs[0], y)
      {
        assert y in multiset(ins);
        if y in multiset(tail) {
          var k :| 0 <= k < |tail| && tail[k] == y;
          assert rs[k + 1] == y;
        }
      }
      ConsSorted(rs[0], ins, le);
    } else if rs != [] {
      forall y | y in rs
        ensures le(x, y)
      {
        var k :| 0 <= k < |rs| && rs[k] == y;
        if k > 0 {
          assert le(rs[0], rs[k]);
        }
      }
      ConsSorted(x, rs, le);
    }
  }

  /** Putting h in front of a sorted sequence keeps it sorted when h comes
      no later than every element. */
  lemma ConsSorted<R>(h: R, rs: seq<R>, le: (R, R) -> bool)
    requires SortedBy(rs, le)
    requires forall y :: y in rs ==> le(h, y)
    ensures SortedBy([h] + rs, le)
  {
    var out := [h] + rs;
    forall i, j | 0 <= i < j < |out|
      ensures le(out[i], out[j])
    {
      assert out[j] == rs[j - 1];
      if i > 0 {
        assert out[i] == rs[i - 1];
      }
    }
  }

  /** The result of `ORDER BY` is ordered: every row comes no later than the
      rows after it. */
  lemma {:induction false} SortBySorted<R(!new)>(rs: seq<R>, le: (R, R) -> bool)
    requires TotalPreorder(le)
    ensures SortedBy(SortBy(rs, le), le)
  {
    if rs != [] {
      SortBySorted(rs[1..], le);
      InsertSorted(rs[0], SortBy(rs[1..], le), le);
    }
  }

  /** A sequence without repeats holds each of its rows once. */
  lemma {:induction false} DistinctOnce<R>(rs: seq<R>)
    requires Distinct(rs)
    ensures forall r :: multiset(rs)[r] <= 1
  {
    if rs != [] {
      var rest := rs[1..];
      assert forall k :: 0 <= k < |rest| ==> rest[k] == rs[k + 1];
      DistinctOnce(rest);
      assert rs[0] !in multiset(rest);
      assert multiset(rs) == multiset{rs[0]} + multiset(rest) by {
        assert rs == [rs[0]] + rest;
      }
    }
  }

  /** A sequence holding each of its rows once has no repeats. */
  lemma OnceDistinct<R>(rs: seq<R>)
    requires forall r :: multiset(rs)[r] <= 1
    ensures Distinct(rs)
  {
    forall i, j | 0 <= i < j < |rs|
      ensures rs[i] != rs[j]
    {
      var a, b := rs[..j], rs[j..];
      assert rs == a + b;
      assert a[i] == rs[i] && b[0] == rs[j];
      assert multiset(rs)[rs[j]] == multiset(a)[rs[j]] + multiset(b)[rs[j]];
    }
  }

  /** Filtering and sorting a sequence that holds each row once keeps it
      free of repeats. */
  lemma SortWhereDistinct<R(!new)>(rs: seq<R>, p: R -> bool, le: (R, R) -> bool)
    requires forall r :: multiset(rs)[r] <= 1
    ensures Distinct(SortBy(Where(rs, p), le))
  {
    var out := SortBy(Where(rs, p), le);
    forall r
      ensures multiset(out)[r] <= 1
    {
      assert multiset(out)[r] <= multiset(rs)[r];
    }
    OnceDistinct(out);
  }

  /** Sorting keeps exactly the rows the filter admits. */
  lemma SortWhereMembers<R(!new)>(rs: seq<R>, p: R -> bool, le: (R, R) -> bool)
    ensures forall r :: r in SortBy(Where(rs, p), le) <==> r in rs && p(r)
  {
    var w := Where(rs, p);
    var out := SortBy(w, le);
    forall r
      ensures r in out <==> r in w
    {
      assert r in out <==> r in multiset(out);
      assert r in w <==> r in multiset(w);
    }
  }

  /** The whole query: the rows of t satisfying p, ordered by le; no row
      appears twice when keys hold different rows. */
  function Select<R(==,!new)>(t: map<int, R>, n: int, p: R -> bool, le: (R, R) -> bool): (out: seq<R>)
    ensures forall r :: r in out ==> r in t.Values && p(r)
    ensures forall k :: k in t && 0 <= k < n && p(t[k]) ==> t[k] in out
    ensures Injective(t) ==> Distinct(out)
  {
    var scanned := Scan(t, n);
    SortWhereMembers(scanned, p, le);
    assert Injective(t) ==> Distinct(SortBy(Where(scanned, p), le)) by {
      if Injective(t) {
        DistinctOnce(scanned);
        SortWhereDistinct(scanned, p, le);
      }
    }
    SortBy(Where(scanned, p), le)
  }

  lemma SelectSorted<R(!new)>(t: map<int, R>, n: int, p: R -> bool, le: (R, R) -> bool)
    requires TotalPreorder(le)
    ensures SortedBy(Select(t, n, p, le), le)
  {
    SortBySorted(Where(Scan(t, n), p), le);
  }

  /** In a table whose rows carry their own key, the query never lists the
      same key twice. */
  lemma SelectKeysDistinct<R(!new)>(t: map<int, R>, n: int, p: R -> bool, le: (R, R) -> bool, key: R -> int)
    requires KeyedBy(t, key)
    ensures forall i, j :: 0 <= i < j < |Select(t, n, p, le)| ==>
              key(Select(t, n, p, le)[i]) != key(Select(t, n, p, le)[j])
  {
    var out := Select(t, n, p, le);
    assert Injective(t) by {
      forall a, b | a in t && b in t && t[a] == t[b]
        ensures a == b
      {
        assert key(t[a]) == a && key(t[b]) == b;
      }
    }
    forall i, j | 0 <= i < j < |out|
      ensures key(out[i]) != key(out[j])
    {
      assert out[i] in t.Values && out[j] in t.Values;
      var a :| a in t && t[a] == out[i];
      var b :| b in t && t[b] == out[j];
      assert out[i] != out[j];
    }
  }

  /** `WHERE c1 AND c2 AND ...`: every accumulated condition holds of r; an
      empty list (no `WHERE` clause) admits every row. */
  predicate AllHold<C, R>(cs: seq<C>, holds: (C, R) -> bool, r: R)
  {
    forall i | 0 <= i < |cs| :: holds(cs[i], r)
  }

  /** Pushing one more condition narrows the filter by exactly that condition. */
  lemma AllHoldPush<C, R>(cs: seq<C>, c: C, holds: (C, R) -> bool, r: R)
    ensures AllHold(cs + [c], holds, r) <==> AllHold(cs, holds, r) && holds(c, r)
  {
    assert forall i | 0 <= i < |cs| :: (cs + [c])[i] == cs[i];
    assert (cs + [c])[|cs|] == c;
  }

  /** `UPDATE ... SET c1 = ?, c2 = ?, ...`: the accumulated assignments
      applied to the row, in the order they were pushed. */
  function ApplyAll<R, A>(row: R, fields: seq<A>, assign: (R, A) -> R): R
  {
    if fields == [] then row
    else assign(ApplyAll(row, fields[..|fields| - 1], assign), fields[|fields| - 1])
  }

  /** Pushing one more assignment applies it after the others. */
  lemma ApplyPush<R, A>(row: R, fields: seq<A>, a: A, assign: (R, A) -> R)
    ensures ApplyAll(row, fields + [a], assign) == assign(ApplyAll(row, fields, assign), a)
  {
    assert (fields + [a])[..|fields|] == fields;
  }

  /** `if (...) list.push(x)`: one guarded push, None when the guard fails. */
  function PushIf<A>(s: seq<A>, o: Option<A>): seq<A>
  {
    if o.Some? then s + [o.value] else s
  }

  lemma AllHoldPushIf<C, R>(cs: seq<C>, o: Option<C>, holds: (C, R) -> bool, r: R)
    ensures AllHold(PushIf(cs, o), holds, r) <==> AllHold(cs, holds, r) && (o.Some? ==> holds(o.value, r))
  {
    if o.Some? {
      AllHoldPush(cs, o.value, holds, r);
    }
  }

  /** A guarded assignment: applied when present. */
  function ApplyIf<R, A>(row: R, o: Option<A>, assign: (R, A) -> R): R
  {
    if o.Some? then assign(row, o.value) else row
  }

  lemma ApplyPushIf<R, A>(row: R, fields: seq<A>, o: Option<A>, assign: (R, A) -> R)
    ensures ApplyAll(row, PushIf(fields, o), assign) == ApplyIf(ApplyAll(row, fields, assign), o, assign)
  {
    if o.Some? {
      ApplyPush(row, fields, o.value, assign);
    }
  }
}
