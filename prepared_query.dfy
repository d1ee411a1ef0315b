/** The PostgreSQL prepared-statement adapter: one object per statement,
    holding the name the statement is registered under, the handle the
    backend returned for it, the most recent execution result and the error
    data of a failed prepare.

    The PostgreSQL client calls are foreign code. Each operation receives the
    value the client call returned as a parameter (`reply`, `lastError`), and
    the ghost field `log` records which client calls were made and with what
    arguments. The random statement name is likewise a parameter (`draw`). */
module Postgre {
  import Placeholders

  /** Upper bound of the random statement name. */
  const MaxName: nat := 10000000000000000

  datatype Option<T> = None | Some(value: T)

  /** The `statement` property: PHP's null before any prepare, `false` after a
      prepare the backend refused, or the backend's statement handle. */
  datatype Statement = Null | False | Handle(h: nat)

  /** What the client's execute call returns: `false` or a result resource. */
  datatype PgResult = Failed | Resource(id: nat)

  /** The exception `_execute` raises when it is called too early. */
  datatype Exception = BadMethodCall(message: string)

  /** How a PHP method call ends: with a value or with an exception. */
  datatype Outcome<T> = Return(value: T) | Throw(exception: Exception)

  /** A call into the PostgreSQL client library. */
  datatype BackendCall =
    | PgPrepare(name: nat, sql: string)
    | PgLastError
    | PgExecute(name: nat, params: seq<string>)

  const NotPreparedMessage: string :=
    "You must call prepare before trying to execute a prepared statement."

  /** PHP's `(bool)` cast of the `result` property: null and `false` are
      the falsy values it can hold; a result resource is true. */
  function Truthy(v: Option<PgResult>): (b: bool)
    ensures !b <==> v == None || v == Some(Failed)
  {
    v.Some? && v.value.Resource?
  }

  class PreparedQuery {
    var name: Option<nat>
    var statement: Statement
    var result: Option<PgResult>
    var errorCode: Option<int>
    var errorString: Option<string>
    /** The text last handed to the query object's `setQuery`. */
    var queryText: Option<string>
    /** The client calls made so far, oldest first. */
    ghost var log: seq<BackendCall>

    /** A statement is only ever stored by a prepare, which also draws the name. */
    ghost predicate Valid()
      reads this
    {
      (statement != Null ==> name.Some?) &&
      (name.Some? ==> 1 <= name.value <= MaxName)
    }

    /** A fresh adapter: every property is still PHP's null. */
    constructor ()
      ensures Valid()
      ensures name == None && statement == Null && result == None
      ensures errorCode == None && errorString == None && queryText == None
      ensures log == []
    {
      name, statement, result := None, Null, None;
      errorCode, errorString, queryText := None, None, None;
      log := [];
    }

    /** `parameterize`: the left-to-right scan with a counter that is
        incremented before each use, computing the placeholder rewrite. */
    method Parameterize(sql: string) returns (r: string)
      ensures r == Placeholders.Parameterize(sql)
    {
      var count: nat := 0;
      var i := 0;
      r := [];
      while i < |sql|
        invariant 0 <= i <= |sql|
        invariant count == Placeholders.CountQ(sql[..i])
        invariant r == Placeholders.Substitute(sql[..i], 0, Placeholders.Marker)
      {
        var ch := sql[i];
        assert sql[..i + 1] == sql[..i] + [ch];
        Placeholders.SubstituteConcat(sql[..i], [ch], 0, Placeholders.Marker);
        Placeholders.CountQConcat(sql[..i], [ch]);
        assert [ch][1..] == [];
        assert Placeholders.Substitute([ch], count, Placeholders.Marker)
            == Placeholders.Piece(ch, count, Placeholders.Marker);
        if ch == Placeholders.Placeholder {
          count := count + 1;
          r := r + Placeholders.Marker(count);
        } else {
          r := r + [ch];
        }
        i := i + 1;
      }
      assert sql[..i] == sql;
    }

    /** `_prepare`: draw a name, rewrite the placeholders, record the rewritten
        text on the query object and register the statement with the backend.
        A refused prepare leaves `false` (not null) in `statement` and stores
        error code 0 and the backend's last error text. The adapter itself is
        returned in every case. */
    method Prepare(sql: string, options: map<string, string>, draw: nat,
                   reply: Option<nat>, lastError: string)
      returns (self: PreparedQuery)
      requires Valid()
      requires 1 <= draw <= MaxName
      modifies this
      ensures Valid() && self == this
      ensures name == Some(draw)
      ensures queryText == Some(Placeholders.Parameterize(sql))
      ensures statement == (if reply.None? then False else Handle(reply.value))
      ensures reply.None? ==>
                errorCode == Some(0) && errorString == Some(lastError) &&
                log == old(log) + [PgPrepare(draw, Placeholders.Parameterize(sql)), PgLastError]
      ensures reply.Some? ==>
                errorCode == old(errorCode) && errorString == old(errorString) &&
                log == old(log) + [PgPrepare(draw, Placeholders.Parameterize(sql))]
      ensures result == old(result)
    {
      name := Some(draw);
      var text := Parameterize(sql);
      queryText := Some(text);
      log := log + [PgPrepare(draw, text)];
      statement := if reply.None? then False else Handle(reply.value);
      if statement == False {
        errorCode := Some(0);
        log := log + [PgLastError];
        errorString := Some(lastError);
      }
      self := this;
    }

    /** `_execute`: refuse with an exception, touching neither `result` nor
        the backend, exactly when `statement` is null; otherwise run the
        statement, store the backend's reply in `result` and return its
        truth value. A `false` left by a refused prepare is not null, so it
        does not take the exception branch. */
    method Execute(data: seq<string>, reply: PgResult) returns (r: Outcome<bool>)
      requires Valid()
      modifies this`result, this`log
      ensures Valid()
      ensures r.Throw? <==> statement == Null
      ensures statement == Null ==>
                r == Throw(BadMethodCall(NotPreparedMessage)) &&
                result == old(result) && log == old(log)
      ensures statement != Null ==>
                result == Some(reply) && r == Return(reply.Resource?) &&
                log == old(log) + [PgExecute(name.value, data)]
    {
      if statement == Null {
        return Throw(BadMethodCall(NotPreparedMessage));
      }
      log := log + [PgExecute(name.value, data)];
      result := Some(reply);
      r := Return(Truthy(result));
    }

    /** `_getResult`: the stored result, unchanged. */
    method GetResult() returns (r: Option<PgResult>)
      ensures r == result
    {
      r := result;
    }
  }

  /** Executing an adapter that was never prepared raises the exception,
      leaves the result null and makes no client call. */
  method ExecuteWithoutPrepare(data: seq<string>, reply: PgResult)
    returns (r: Outcome<bool>, res: Option<PgResult>, ghost calls: seq<BackendCall>)
    ensures r == Throw(BadMethodCall(NotPreparedMessage))
    ensures res == None
    ensures calls == []
  {
    var q := new PreparedQuery();
    r := q.Execute(data, reply);
    res := q.GetResult();
    calls := q.log;
  }

  /** Prepare followed by execute, whether or not the backend accepted the
      prepare: execute never raises, its return value is the truth of the
      backend's reply, and `_getResult` then hands back that reply. A refused
      prepare is visible only through the error properties. */
  method PrepareThenExecute(sql: string, draw: nat, prepared: Option<nat>, lastError: string,
                            data: seq<string>, reply: PgResult)
    returns (r: Outcome<bool>, res: Option<PgResult>, code: Option<int>, message: Option<string>,
             ghost calls: seq<BackendCall>)
    requires 1 <= draw <= MaxName
    ensures r == Return(reply.Resource?)
    ensures res == Some(reply)
    ensures prepared.None? ==> code == Some(0) && message == Some(lastError)
    ensures prepared.Some? ==> code == None && message == None
    ensures calls == [PgPrepare(draw, Placeholders.Parameterize(sql))]
                     + (if prepared.None? then [PgLastError] else [])
                     + [PgExecute(draw, data)]
  {
    var q := new PreparedQuery();
    var self := q.Prepare(sql, map[], draw, prepared, lastError);
    r := q.Execute(data, reply);
    res := q.GetResult();
    code, message := q.errorCode, q.errorString;
    calls := q.log;
  }
}
