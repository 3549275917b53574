/** The database pool's start-up helpers (src/db/pool.js): how a connection
    error is turned into one line of text, and the retry loop that checks
    the database is reachable before the API starts. The pool itself is
    reduced to a count of connections handed out and not yet released; the
    outcome of each attempt is a parameter. */
module Pool {
  import opened Base
  import opened JsValues

  const UnknownError: string := "Unknown database connection error"

  /** One entry of `error.errors`: its `code` and `message`, "" when falsy. */
  datatype NestedError = NestedError(code: string, message: string)

  /** A thrown connection error: `code` and `message` ("" when falsy),
      `errors` (None when it is not an array; a falsy entry is None), and
      what `error.toString()` gives. */
  datatype ConnError = ConnError(
    code: string,
    message: string,
    errors: Option<seq<Option<NestedError>>>,
    text: string)

  // ---------------------------------------------------------------------
  // formatConnectionError

  /** `[err.code, err.message].filter(Boolean).join(': ')` when that has a
      part, for a truthy entry; nothing otherwise. */
  function NestedPart(n: Option<NestedError>): (r: seq<string>)
    ensures |r| <= 1
    ensures r == [] <==> n.None? || (n.value.code == "" && n.value.message == "")
    ensures forall i :: 0 <= i < |r| ==> r[i] != ""
  {
    if n.None? then []
    else
      var parts := (if n.value.code != "" then [n.value.code] else []) + (if n.value.message != "" then [n.value.message] else []);
      if parts == [] then [] else [Join(parts, ": ")]
  }

  /** What the `forEach` over the first entries of `error.errors` pushes,
      in order. */
  function NestedParts(errs: seq<Option<NestedError>>): (r: seq<string>)
    ensures |r| <= |errs|
  {
    if errs == [] then [] else NestedParts(errs[..|errs| - 1]) + NestedPart(errs[|errs| - 1])
  }

  /** The `messages` list: the code, the message, then one part per nested
      error that has a code or a message. */
  function MessageParts(e: ConnError): seq<string>
  {
    (if e.code != "" then [e.code] else [])
    + (if e.message != "" then [e.message] else [])
    + (if e.errors.Some? then NestedParts(e.errors.value) else [])
  }

  /** The line `formatConnectionError` returns. */
  function Formatted(error: Option<ConnError>): string
  {
    if error.None? then UnknownError
    else if Join(MessageParts(error.value), " | ") != "" then Join(MessageParts(error.value), " | ")
    else error.value.text
  }

  /** `formatConnectionError`: the list is built by pushes, the nested
      errors' parts by the loop in `PushNested`. */
  method FormatConnectionError(error: Option<ConnError>) returns (s: string)
    ensures s == Formatted(error)
  {
    if error.None? {
      return UnknownError;
    }
    var e := error.value;
    var messages: seq<string> := [];
    if e.code != "" {
      messages := messages + [e.code];
    }
    if e.message != "" {
      messages := messages + [e.message];
    }
    if e.errors.Some? && |e.errors.value| > 0 {
      var nested := PushNested(e.errors.value);
      messages := messages + nested;
    }
    assert messages == MessageParts(e);
    var joined := Join(messages, " | ");
    s := if joined != "" then joined else e.text;
  }

  /** The `forEach` over `error.errors`: one part per truthy entry that has
      a code or a message, in order. */
  method PushNested(errs: seq<Option<NestedError>>) returns (parts: seq<string>)
    ensures parts == NestedParts(errs)
  {
    parts := [];
    for i := 0 to |errs|
      invariant parts == NestedParts(errs[..i])
    {
      NestedPartsStep(errs, i);
      var part := NestedPart(errs[i]);
      parts := parts + part;
    }
    assert errs[..|errs|] == errs;
  }

  /** Every part pushed is non-empty. */
  lemma {:induction false} NestedPartsNonEmpty(errs: seq<Option<NestedError>>)
    ensures forall i :: 0 <= i < |NestedParts(errs)| ==> NestedParts(errs)[i] != ""
  {
    if errs != [] {
      NestedPartsNonEmpty(errs[..|errs| - 1]);
    }
  }

  /** Nothing is pushed for the nested errors exactly when every entry is
      falsy or has neither a code nor a message. */
  lemma {:induction false} NestedPartsEmpty(errs: seq<Option<NestedError>>)
    ensures NestedParts(errs) == [] <==> forall i :: 0 <= i < |errs| ==> NestedPart(errs[i]) == []
  {
    if errs != [] {
      var init := errs[..|errs| - 1];
      NestedPartsEmpty(init);
      assert forall i :: 0 <= i < |init| ==> init[i] == errs[i];
    }
  }

  /** One more entry of the loop adds that entry's part. */
  lemma NestedPartsStep(errs: seq<Option<NestedError>>, i: nat)
    requires i < |errs|
    ensures NestedParts(errs[..i + 1]) == NestedParts(errs[..i]) + NestedPart(errs[i])
  {
    assert errs[..i + 1][..i] == errs[..i];
  }

  /** The line is the parts joined with ` | `, and `error.toString()`
      exactly when there are no parts. */
  lemma FormattedParts(e: ConnError)
    ensures MessageParts(e) != [] ==> Formatted(Some(e)) == Join(MessageParts(e), " | ") != ""
    ensures MessageParts(e) == [] ==> Formatted(Some(e)) == e.text
  {
    var ps := MessageParts(e);
    if e.errors.Some? {
      NestedPartsNonEmpty(e.errors.value);
    }
    assert forall i :: 0 <= i < |ps| ==> ps[i] != "";
    JoinEmpty(ps, " | ");
  }

  /** A code and a message with no nested errors: `CODE | message`; a
      nested error with both: `code: message`. */
  lemma FormattedExamples(code: string, message: string, text: string)
    requires code != "" && message != ""
    ensures Formatted(Some(ConnError(code, message, None, text))) == code + " | " + message
    ensures NestedPart(Some(NestedError(code, message))) == [code + ": " + message]
    ensures Formatted(Some(ConnError("", "", Some([None, Some(NestedError("", ""))]), text))) == text
  {
    assert MessageParts(ConnError(code, message, None, text)) == [code, message];
    JoinTwo(code, message, " | ");
    assert [code] + [message] == [code, message];
    JoinTwo(code, message, ": ");
    var errs: seq<Option<NestedError>> := [None, Some(NestedError("", ""))];
    assert errs[..1] == [None];
    assert errs[..1][..0] == [];
    assert NestedParts(errs) == [];
  }

  lemma JoinTwo(a: string, b: string, sep: string)
    ensures Join([a, b], sep) == a + sep + b
  {
    assert [a, b][1..] == [b];
  }

  // ---------------------------------------------------------------------
  // testConnection

  /** How one attempt ends: `getConnection` throws, `ping` throws on an
      acquired connection, or both succeed. */
  datatype Attempt =
    | Unreachable(error: Option<ConnError>)
    | PingFailed(error: Option<ConnError>)
    | Reachable

  /** The error `testConnection` throws: the message names the host and
      port and carries the formatted cause; the cause itself rides along. */
  datatype StartupError = StartupError(message: string, originalError: Option<ConnError>)

  function EnhancedMessage(host: string, port: string, formatted: string): string
  {
    "Unable to reach MySQL at " + host + ":" + port + " (" + formatted + ")"
  }

  /** `attempt >= retries` stops the loop: at most this many attempts. */
  function AttemptLimit(retries: int): (n: nat)
    ensures n >= 1
  {
    if retries > 0 then retries + 1 else 1
  }

  /** The first attempt at or after k, below limit, that reaches the
      database; limit when there is none. */
  function FirstReachable(outcome: nat -> Attempt, k: nat, limit: nat): (n: nat)
    requires k <= limit
    ensures k <= n <= limit
    ensures n < limit ==> outcome(n).Reachable?
    ensures forall j :: k <= j < n ==> !outcome(j).Reachable?
    decreases limit - k
  {
    if k == limit then limit
    else if outcome(k).Reachable? then k
    else FirstReachable(outcome, k + 1, limit)
  }

  /** The arguments `onAttempt` receives: 1, 2, ..., n. */
  function Counting(n: nat): (s: seq<nat>)
    ensures |s| == n
    ensures forall i :: 0 <= i < n ==> s[i] == i + 1
  {
    if n == 0 then [] else Counting(n - 1) + [n]
  }

  /** How many of the first n attempts acquired a connection. */
  function Acquired(outcome: nat -> Attempt, n: nat): nat
  {
    if n == 0 then 0 else Acquired(outcome, n - 1) + (if outcome(n - 1).Unreachable? then 0 else 1)
  }

  /** The connection pool, as far as `testConnection` uses it. */
  class ConnectionPool {
    /** Connections handed out and not yet released. */
    var inUse: nat
    /** Connections handed out so far. */
    var handedOut: nat

    constructor ()
      ensures inUse == 0 && handedOut == 0
    {
      inUse := 0;
      handedOut := 0;
    }

    /** `pool.getConnection()` when it succeeds. */
    method Acquire()
      modifies this
      ensures inUse == old(inUse) + 1 && handedOut == old(handedOut) + 1
    {
      inUse := inUse + 1;
      handedOut := handedOut + 1;
    }

    /** `connection.release()`. */
    method Release()
      requires inUse > 0
      modifies this
      ensures inUse == old(inUse) - 1 && handedOut == old(handedOut)
    {
      inUse := inUse - 1;
    }
  }

  /** `testConnection`: attempts until one reaches the database, at most
      `AttemptLimit(retries)` times, and throws the last failure's error
      once the retries are used up. `onAttempt` is recorded as the list of
      arguments it received; the delay between attempts is not modelled. */
  method TestConnection(pool: ConnectionPool, retries: int, outcome: nat -> Attempt, host: string, port: string)
    returns (calls: seq<nat>, r: Result<(), StartupError>)
    modifies pool
    ensures pool.inUse == old(pool.inUse)
    ensures var n := FirstReachable(outcome, 0, AttemptLimit(retries));
            if n < AttemptLimit(retries) then
              r == Ok(()) && calls == Counting(n + 1)
              && pool.handedOut == old(pool.handedOut) + Acquired(outcome, n + 1)
            else
              var last := outcome(AttemptLimit(retries) - 1);
              r == Err(StartupError(EnhancedMessage(host, port, Formatted(last.error)), last.error))
              && calls == Counting(AttemptLimit(retries))
              && pool.handedOut == old(pool.handedOut) + Acquired(outcome, AttemptLimit(retries))
  {
    ghost var limit := AttemptLimit(retries);
    ghost var n := FirstReachable(outcome, 0, limit);
    var attempt: nat := 0;
    calls := [];
    while true
      invariant attempt < limit && attempt <= n
      invariant calls == Counting(attempt)
      invariant pool.inUse == old(pool.inUse)
      invariant pool.handedOut == old(pool.handedOut) + Acquired(outcome, attempt)
      decreases limit - attempt
    {
      calls := calls + [attempt + 1];
      assert calls == Counting(attempt + 1);
      var o := outcome(attempt);
      assert Acquired(outcome, attempt + 1) == Acquired(outcome, attempt) + (if o.Unreachable? then 0 else 1);
      var connection := false;
      if !o.Unreachable? {
        pool.Acquire();
        connection := true;
      }
      if o.Reachable? {
        pool.Release();
        FirstReachableLeast(outcome, 0, limit, attempt);
        assert n == attempt;
        return calls, Ok(());
      }
      var formatted := FormatConnectionError(o.error);
      var enhanced := StartupError(EnhancedMessage(host, port, formatted), o.error);
      if connection {
        pool.Release();
      }
      if attempt >= retries {
        assert attempt == limit - 1 && n == limit;
        return calls, Err(enhanced);
      }
      attempt := attempt + 1;
    }
  }

  /** With `retries: 5`, as the server starts it, at most six attempts are
      made; with no retries, exactly one. */
  lemma AttemptCounts(outcome: nat -> Attempt)
    ensures AttemptLimit(5) == 6
    ensures AttemptLimit(0) == 1 && AttemptLimit(-2) == 1
    ensures FirstReachable(outcome, 0, 1) == 0 <==> outcome(0).Reachable?
  {
  }

  /** Every attempt before the first one that reaches the database failed,
      so that attempt is the one `testConnection` stops at. */
  lemma {:induction false} FirstReachableLeast(outcome: nat -> Attempt, k: nat, limit: nat, m: nat)
    requires k <= m < limit && outcome(m).Reachable?
    ensures FirstReachable(outcome, k, limit) <= m
    decreases limit - k
  {
    if k < m && !outcome(k).Reachable? {
      FirstReachableLeast(outcome, k + 1, limit, m);
    }
  }
}
