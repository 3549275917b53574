/** The two `ORDER BY` keys the listings use besides the primary key:
    `criado_em DESC` (an opaque timestamp, newest first) and `nome ASC` on a
    nullable text column (NULL first, then by code unit). Collations are not
    modelled: the comparison is on code units, so case matters. */
module Ordering {
  import opened Base

  /** `criado_em DESC`: a timestamp that is not earlier comes first. */
  predicate NewestFirst(a: int, b: int)
  {
    a >= b
  }

  /** Lexicographic order on code units: a proper prefix comes first. */
  predicate TextLe(a: string, b: string)
  {
    if a == [] then true
    else if b == [] then false
    else if a[0] != b[0] then a[0] < b[0]
    else TextLe(a[1..], b[1..])
  }

  lemma {:induction false} TextLeTotal(a: string, b: string)
    ensures TextLe(a, b) || TextLe(b, a)
  {
    if a != [] && b != [] && a[0] == b[0] {
      TextLeTotal(a[1..], b[1..]);
    }
  }

  lemma {:induction false} TextLeTransitive(a: string, b: string, c: string)
    requires TextLe(a, b) && TextLe(b, c)
    ensures TextLe(a, c)
  {
    if a != [] && b != [] && c != [] && a[0] == b[0] && b[0] == c[0] {
      TextLeTransitive(a[1..], b[1..], c[1..]);
    }
  }

  /** Only equal strings come no later than each other. */
  lemma {:induction false} TextLeAntisymmetric(a: string, b: string)
    requires TextLe(a, b) && TextLe(b, a)
    ensures a == b
  {
    if a != [] && b != [] {
      TextLeAntisymmetric(a[1..], b[1..]);
      assert a == [a[0]] + a[1..] && b == [b[0]] + b[1..];
    }
  }

  /** `ORDER BY nome ASC` on a nullable column: NULL sorts before every text. */
  predicate NullsFirstLe(a: Option<string>, b: Option<string>)
  {
    a.None? || (b.Some? && TextLe(a.value, b.value))
  }

  lemma NullsFirstTotal(a: Option<string>, b: Option<string>)
    ensures NullsFirstLe(a, b) || NullsFirstLe(b, a)
  {
    if a.Some? && b.Some? {
      TextLeTotal(a.value, b.value);
    }
  }

  lemma NullsFirstTransitive(a: Option<string>, b: Option<string>, c: Option<string>)
    requires NullsFirstLe(a, b) && NullsFirstLe(b, c)
    ensures NullsFirstLe(a, c)
  {
    if a.Some? {
      TextLeTransitive(a.value, b.value, c.value);
    }
  }
}
