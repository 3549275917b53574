/** `mapMysqlError`: turns an error thrown by the database driver into the
    HTTP status and message a controller answers with, or says that the
    error is not one it knows (the controller then hands it on, and the
    application answers 500). */
module MysqlErrors {
  import opened Base
  import opened JsValues

  /** A thrown error as far as the mapper looks at it: its `code` and its
      `sqlMessage`. The code tests both only for truthiness, so the empty
      string stands for a missing property. */
  datatype Failure = Failure(code: string, sqlMessage: string)

  const DupEntryCode: string := "ER_DUP_ENTRY"

  // ---------------------------------------------------------------------
  // The pattern /Duplicate entry '(.+)' for key '(.+)'/i, run by `exec`:
  // the leftmost start wins; each `.+` first takes the whole rest of the
  // line and then gives characters back one at a time.

  const DupPrefix: string := "Duplicate entry '"
  const DupMiddle: string := "' for key '"

  /** The characters `.` does not match. */
  predicate IsLineTerminator(c: char)
  {
    c == '\n' || c == '\r' || c == '\U{2028}' || c == '\U{2029}'
  }

  predicate NoTerminator(s: string)
  {
    forall i :: 0 <= i < |s| ==> !IsLineTerminator(s[i])
  }

  /** The ASCII literal lit occurs at i, letters compared regardless of case
      (the `i` flag). */
  predicate MatchesAt(s: string, i: int, lit: string)
  {
    0 <= i && i + |lit| <= |s| && forall m :: 0 <= m < |lit| ==> UpperChar(s[i + m]) == UpperChar(lit[m])
  }

  /** The first line terminator at or after i, or |s|. */
  function LineEnd(s: string, i: nat): (e: nat)
    requires i <= |s|
    ensures i <= e <= |s|
    ensures forall m :: i <= m < e ==> !IsLineTerminator(s[m])
    ensures e < |s| ==> IsLineTerminator(s[e])
    decreases |s| - i
  {
    if i == |s| || IsLineTerminator(s[i]) then i else LineEnd(s, i + 1)
  }

  /** Backtracking `(.+)'` with the group starting at q: the largest k with
      q < k <= top and s[k] a quote. */
  function CloseQuote(s: string, q: nat, top: int): (k: Option<nat>)
    ensures k.Some? ==> q < k.value <= top && k.value < |s| && s[k.value] == '\''
    ensures k.None? ==> forall m :: q < m <= top && m < |s| ==> s[m] != '\''
    decreases top
  {
    if top <= q then None
    else if top < |s| && s[top] == '\'' then Some(top)
    else CloseQuote(s, q, top - 1)
  }

  /** The second group `(.+)'` starting at q: where its closing quote is. */
  function Group2(s: string, q: nat): (k: Option<nat>)
    requires q <= |s|
    ensures k.Some? ==> q < k.value < |s| && s[k.value] == '\'' && NoTerminator(s[q..k.value])
  {
    var e := LineEnd(s, q);
    var k := CloseQuote(s, q, e);
    if k.Some? then
      assert forall m :: 0 <= m < k.value - q ==> s[q..k.value][m] == s[q + m];
      k
    else k
  }

  /** Backtracking `(.+)' for key '(.+)'` with the first group starting at p
      and ending at j, j - 1, ..., p + 1: the end of group 1 and the closing
      quote of group 2 for the first candidate that completes. */
  function MiddleFrom(s: string, p: nat, j: int): (r: Option<nat>)
    ensures r.Some? ==> p < r.value <= j && Completes(s, r.value)
    decreases j
  {
    if j <= p then None
    else if Completes(s, j) then Some(j)
    else MiddleFrom(s, p, j - 1)
  }

  /** The rest of the pattern, `' for key '(.+)'`, matches from j. */
  predicate Completes(s: string, j: int)
  {
    MatchesAt(s, j, DupMiddle) && Group2(s, j + |DupMiddle|).Some?
  }

  /** `exec` from position i onwards: the two captured groups. */
  function MatchFrom(s: string, i: nat): (r: Option<(string, string)>)
    requires i <= |s|
    decreases |s| - i
  {
    if StartsMatch(s, i) then Captures(s, i)
    else if i == |s| then None
    else MatchFrom(s, i + 1)
  }

  /** The whole pattern matches with its start at i. */
  predicate StartsMatch(s: string, i: nat)
    requires i <= |s|
  {
    MatchesAt(s, i, DupPrefix) && MiddleFrom(s, i + |DupPrefix|, LineEnd(s, i + |DupPrefix|)).Some?
  }

  /** The groups captured by the match that starts at i. */
  function Captures(s: string, i: nat): (r: Option<(string, string)>)
    requires i <= |s| && StartsMatch(s, i)
  {
    var p := i + |DupPrefix|;
    var j := MiddleFrom(s, p, LineEnd(s, p)).value;
    var k := Group2(s, j + |DupMiddle|).value;
    Some((s[p..j], s[j + |DupMiddle|..k]))
  }

  lemma CapturesSound(s: string, i: nat)
    requires i <= |s| && StartsMatch(s, i)
    ensures Captures(s, i).Some? && DupShapeAt(s, i, Captures(s, i).value.0, Captures(s, i).value.1)
  {
    var p := i + |DupPrefix|;
    var e := LineEnd(s, p);
    var j := MiddleFrom(s, p, e).value;
    var k := Group2(s, j + |DupMiddle|).value;
    ShapeFromIndices(s, i, j, k);
  }

  /** Index bounds and character facts that make up a shape occurrence. */
  lemma ShapeFromIndices(s: string, i: nat, j: nat, k: nat)
    requires i + |DupPrefix| < j && j + |DupMiddle| < k < |s| && s[k] == '\''
    requires MatchesAt(s, i, DupPrefix) && MatchesAt(s, j, DupMiddle)
    requires forall m :: i + |DupPrefix| <= m < j ==> !IsLineTerminator(s[m])
    requires NoTerminator(s[j + |DupMiddle|..k])
    ensures DupShapeAt(s, i, s[i + |DupPrefix|..j], s[j + |DupMiddle|..k])
  {
    var p := i + |DupPrefix|;
    var v := s[p..j];
    assert NoTerminator(v) by {
      assert forall t :: 0 <= t < |v| ==> v[t] == s[p + t];
    }
  }

  lemma {:induction false} MatchFromSound(s: string, i: nat)
    requires i <= |s|
    ensures MatchFrom(s, i).Some? ==> exists a :: DupShapeAt(s, a, MatchFrom(s, i).value.0, MatchFrom(s, i).value.1)
    decreases |s| - i
  {
    if StartsMatch(s, i) {
      CapturesSound(s, i);
    } else if i < |s| {
      MatchFromSound(s, i + 1);
    }
  }

  /** The match `Duplicate entry '<v>' for key '<k>'` at position a, with both
      groups non-empty and on one line. */
  ghost predicate DupShapeAt(s: string, a: int, v: string, k: string)
  {
    var p := a + |DupPrefix|;
    var q := p + |v| + |DupMiddle|;
    v != "" && k != "" && NoTerminator(v) && NoTerminator(k)
    && MatchesAt(s, a, DupPrefix) && OccursAt(s, v, p) && MatchesAt(s, p + |v|, DupMiddle)
    && OccursAt(s, k, q) && q + |k| < |s| && s[q + |k|] == '\''
  }

  /** `duplicateEntryPattern.exec(s)`: the captured value and key. */
  function DupEntryMatch(s: string): (r: Option<(string, string)>)
    ensures r.Some? ==> exists a :: DupShapeAt(s, a, r.value.0, r.value.1)
  {
    MatchFromSound(s, 0);
    MatchFrom(s, 0)
  }

  // Completeness: the pattern matches whenever its shape occurs.

  lemma LineEndPast(s: string, i: nat, b: nat)
    requires i <= b <= |s|
    requires forall m :: i <= m < b ==> !IsLineTerminator(s[m])
    ensures LineEnd(s, i) >= b
  {
  }

  lemma {:induction false} CloseQuoteFinds(s: string, q: nat, top: int, k: nat)
    requires q < k <= top && k < |s| && s[k] == '\''
    ensures CloseQuote(s, q, top).Some?
    decreases top
  {
    if !(top < |s| && s[top] == '\'') {
      CloseQuoteFinds(s, q, top - 1, k);
    }
  }

  lemma {:induction false} MiddleFromFinds(s: string, p: nat, j: int, j0: nat)
    requires p < j0 <= j
    requires Completes(s, j0)
    ensures MiddleFrom(s, p, j).Some?
    decreases j
  {
    if !Completes(s, j) {
      MiddleFromFinds(s, p, j - 1, j0);
    }
  }

  /** At the start of a shape occurrence the pattern completes. */
  lemma MatchesAtShape(s: string, a: nat, v: string, k: string)
    requires a <= |s| && DupShapeAt(s, a, v, k)
    ensures StartsMatch(s, a)
  {
    var p := a + |DupPrefix|;
    var j0 := p + |v|;
    var q0 := j0 + |DupMiddle|;
    assert forall m :: p <= m < j0 ==> s[m] == v[m - p];
    assert forall m :: q0 <= m < q0 + |k| ==> s[m] == k[m - q0];
    LineEndPast(s, p, j0);
    LineEndPast(s, q0, q0 + |k|);
    CloseQuoteFinds(s, q0, LineEnd(s, q0), q0 + |k|);
    assert Completes(s, j0);
    MiddleFromFinds(s, p, LineEnd(s, p), j0);
  }

  lemma MatchFromStep(s: string, i: nat)
    requires i < |s| && !StartsMatch(s, i)
    ensures MatchFrom(s, i) == MatchFrom(s, i + 1)
  {
  }

  lemma MatchFromHere(s: string, i: nat)
    requires i <= |s| && StartsMatch(s, i)
    ensures MatchFrom(s, i).Some?
  {
  }

  lemma {:induction false} MatchFromFinds(s: string, i: nat, a: nat)
    requires i <= a <= |s| && StartsMatch(s, a)
    ensures MatchFrom(s, i).Some?
    decreases a - i
  {
    if StartsMatch(s, i) {
      MatchFromHere(s, i);
    } else {
      MatchFromFinds(s, i + 1, a);
      MatchFromStep(s, i);
    }
  }

  /** The pattern matches exactly when its shape occurs somewhere in s. */
  lemma DupEntryMatchComplete(s: string)
    ensures DupEntryMatch(s).Some? <==> exists a, v, k :: DupShapeAt(s, a, v, k)
  {
    if a, v, k :| DupShapeAt(s, a, v, k) {
      MatchesAtShape(s, a, v, k);
      MatchFromFinds(s, 0, a);
    }
  }

  // The message MySQL writes for a duplicate key is read back exactly.

  predicate NoQuote(s: string)
  {
    forall i :: 0 <= i < |s| ==> s[i] != '\''
  }

  lemma UpperQuote(c: char)
    ensures UpperChar(c) == '\'' <==> c == '\''
  {
  }

  lemma {:induction false} MiddleFromSkip(s: string, p: nat, j: int, j0: int)
    requires p <= j0 <= j
    requires forall t :: j0 < t <= j ==> !Completes(s, t)
    ensures MiddleFrom(s, p, j) == MiddleFrom(s, p, j0)
    decreases j
  {
    if j > j0 {
      MiddleFromSkip(s, p, j - 1, j0);
    }
  }

  /** The MySQL message text for a duplicate value v on key k. */
  function DupEntryText(v: string, k: string): string
  {
    DupPrefix + v + DupMiddle + k + "'"
  }

  /** Where the quotes and line terminators of the driver's text are, from
      the end of the prefix on. */
  lemma DupEntryTextLayout(v: string, k: string)
    requires NoQuote(v) && NoQuote(k) && NoTerminator(v) && NoTerminator(k)
    ensures var s, p := DupEntryText(v, k), |DupPrefix|;
            |s| == p + |v| + |DupMiddle| + |k| + 1
            && (forall t :: p <= t < |s| && s[t] == '\'' ==>
                  t == p + |v| || t == p + |v| + |DupMiddle| - 1 || t == |s| - 1)
            && (forall t :: p <= t < |s| ==> !IsLineTerminator(s[t]))
            && s[..p] == DupPrefix && s[p..p + |v|] == v && s[p + |v|..p + |v| + |DupMiddle|] == DupMiddle
            && s[p + |v| + |DupMiddle|..|s| - 1] == k && s[|s| - 1] == '\''
  {
    var s := DupEntryText(v, k);
    var p := |DupPrefix|;
    var j0 := p + |v|;
    var q0 := j0 + |DupMiddle|;
    assert s[..p] == DupPrefix;
    assert s[p..j0] == v;
    assert s[j0..q0] == DupMiddle;
    assert s[q0..|s| - 1] == k;
    forall t | p <= t < |s|
      ensures s[t] == '\'' ==> t == j0 || t == q0 - 1 || t == |s| - 1
      ensures !IsLineTerminator(s[t])
    {
      if t < j0 { assert s[t] == v[t - p]; }
      else if t < q0 { assert s[t] == DupMiddle[t - j0]; }
      else if t < q0 + |k| { assert s[t] == k[t - q0]; }
    }
  }

  /** In the driver's text, group 1 can only end where the value ends. */
  lemma DupEntryTextCompletes(v: string, k: string)
    requires k != ""
    requires NoQuote(v) && NoQuote(k) && NoTerminator(v) && NoTerminator(k)
    ensures var s, p := DupEntryText(v, k), |DupPrefix|;
            Completes(s, p + |v|) && Group2(s, p + |v| + |DupMiddle|) == Some(|s| - 1)
            && forall t :: p + |v| < t <= |s| ==> !Completes(s, t)
  {
    var s := DupEntryText(v, k);
    var p := |DupPrefix|;
    var j0 := p + |v|;
    var q0 := j0 + |DupMiddle|;
    DupEntryTextLayout(v, k);
    LineEndPast(s, q0, |s|);
    assert MatchesAt(s, j0, DupMiddle) by {
      assert forall m :: 0 <= m < |DupMiddle| ==> s[j0 + m] == s[j0..q0][m];
    }
    assert CloseQuote(s, q0, |s|) == CloseQuote(s, q0, |s| - 1) == Some(|s| - 1);
    MiddleOnlyAtValueEnd(s, j0);
    assert Group2(s, |s|) == None by {
      assert LineEnd(s, |s|) == |s|;
    }
  }

  /** With the quotes after j0 placed as in the driver's text, the literal
      `' for key '` can start after j0 only where its closing quote is the
      last character. */
  lemma MiddleOnlyAtValueEnd(s: string, j0: nat)
    requires j0 + |DupMiddle| < |s|
    requires forall t :: j0 <= t < |s| && s[t] == '\'' ==> t == j0 || t == j0 + |DupMiddle| - 1 || t == |s| - 1
    ensures forall t :: j0 < t <= |s| && MatchesAt(s, t, DupMiddle) ==> t + |DupMiddle| == |s|
  {
    forall t | j0 < t <= |s| && MatchesAt(s, t, DupMiddle)
      ensures t + |DupMiddle| == |s|
    {
      assert UpperChar(s[t + 0]) == UpperChar(DupMiddle[0]);
      assert UpperChar(s[t + 10]) == UpperChar(DupMiddle[10]);
      UpperQuote(s[t]);
      UpperQuote(s[t + 10]);
    }
  }

  lemma DupEntryRoundTrip(v: string, k: string)
    requires v != "" && k != ""
    requires NoQuote(v) && NoQuote(k) && NoTerminator(v) && NoTerminator(k)
    ensures DupEntryMatch(DupEntryText(v, k)) == Some((v, k))
  {
    var s := DupEntryText(v, k);
    var p := |DupPrefix|;
    var j0 := p + |v|;
    DupEntryTextLayout(v, k);
    DupEntryTextCompletes(v, k);
    LineEndPast(s, p, |s|);
    assert MatchesAt(s, 0, DupPrefix) by {
      assert forall m :: 0 <= m < p ==> s[m] == s[..p][m];
    }
    MiddleFromSkip(s, p, |s|, j0);
    assert MiddleFrom(s, p, LineEnd(s, p)) == Some(j0);
  }

  // ---------------------------------------------------------------------
  // The code table

  const MsgDadosInvalidos: string := "Dados inválidos para um dos campos enviados."
  const MsgFormatoInvalido: string := "Formato de dado inválido para um dos campos enviados."
  const MsgCamposAusentes: string := "Campos obrigatórios ausentes."
  const MsgReferenciaInvalida: string := "Referência inválida: registro relacionado não encontrado."
  const MsgRegistrosRelacionados: string := "Não é possível excluir: existem registros relacionados a este recurso."
  const MsgDuplicadoGenerico: string := "Registro duplicado: o valor informado já está em uso."

  /** `mysqlErrorMap[code]`. */
  function TableEntry(code: string): (r: Option<(int, string)>)
  {
    match code
    case "ER_DATA_TOO_LONG" => Some((400, MsgDadosInvalidos))
    case "ER_TRUNCATED_WRONG_VALUE" => Some((400, MsgFormatoInvalido))
    case "ER_BAD_NULL_ERROR" => Some((400, MsgCamposAusentes))
    case "ER_NO_REFERENCED_ROW" => Some((400, MsgReferenciaInvalida))
    case "ER_NO_REFERENCED_ROW_2" => Some((400, MsgReferenciaInvalida))
    case "ER_ROW_IS_REFERENCED" => Some((409, MsgRegistrosRelacionados))
    case "ER_ROW_IS_REFERENCED_2" => Some((409, MsgRegistrosRelacionados))
    case _ => None
  }

  /** The message for a duplicate key, naming value and key when the driver's
      text has the usual shape. */
  function DuplicateMessage(sqlMessage: string): string
  {
    match DupEntryMatch(sqlMessage)
    case Some((v, k)) => "Valor '" + v + "' já está em uso (" + k + ")."
    case None => MsgDuplicadoGenerico
  }

  predicate IsReferencedCode(code: string)
  {
    code == "ER_ROW_IS_REFERENCED" || code == "ER_ROW_IS_REFERENCED_2"
  }

  /** `mapMysqlError(error)`. */
  function MapMysqlError(e: Option<Failure>): (r: Option<(int, string)>)
    // nothing to map without an error code
    ensures e.None? || e.value.code == "" ==> r.None?
    // a mapping is always a client error: bad request or conflict
    ensures r.Some? ==> r.value.0 == 400 || r.value.0 == 409
    // conflict exactly for duplicates and for rows still referenced
    ensures r.Some? && r.value.0 == 409 <==>
              e.Some? && (e.value.code == DupEntryCode || IsReferencedCode(e.value.code))
    // a duplicate is always mapped, whatever its message
    ensures e.Some? && e.value.code == DupEntryCode ==> r.Some?
    // a tabled code gives its table entry
    ensures e.Some? && e.value.code != DupEntryCode && TableEntry(e.value.code).Some? ==>
              r == TableEntry(e.value.code)
    // an unknown code falls back to the driver's message, verbatim, when it has one
    ensures e.Some? && e.value.code != "" && e.value.code != DupEntryCode && TableEntry(e.value.code).None? ==>
              r == (if e.value.sqlMessage != "" then Some((400, e.value.sqlMessage)) else None)
  {
    if e.None? || e.value.code == "" then None
    else if e.value.code == DupEntryCode then Some((409, DuplicateMessage(e.value.sqlMessage)))
    else if TableEntry(e.value.code).Some? then TableEntry(e.value.code)
    else if e.value.sqlMessage != "" then Some((400, e.value.sqlMessage))
    else None
  }

  /** A duplicate whose text has the driver's shape names value and key. */
  lemma DuplicateNamesValueAndKey(v: string, k: string)
    requires v != "" && k != ""
    requires NoQuote(v) && NoQuote(k) && NoTerminator(v) && NoTerminator(k)
    ensures MapMysqlError(Some(Failure(DupEntryCode, DupEntryText(v, k)))) ==
              Some((409, "Valor '" + v + "' já está em uso (" + k + ")."))
  {
    DupEntryRoundTrip(v, k);
  }

  /** A duplicate whose text lacks the shape gets the generic message. */
  lemma DuplicateWithoutShape(sqlMessage: string)
    requires forall a, v, k :: !DupShapeAt(sqlMessage, a, v, k)
    ensures MapMysqlError(Some(Failure(DupEntryCode, sqlMessage))) == Some((409, MsgDuplicadoGenerico))
  {
    DupEntryMatchComplete(sqlMessage);
  }
}
