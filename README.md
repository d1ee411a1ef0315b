# PostgreSQL prepared query, modelled in Dafny

This project models the PostgreSQL prepared-statement adapter of the
CodeIgniter database layer (`PreparedQuery` in
`system/Database/Postgre/PreparedQuery.php`). The adapter does two things:

- **Placeholder rewrite (`parameterize`).** It scans the SQL text left to right
  and replaces each literal `?` with `$` followed by a 1-based running counter.
  For example, `a=? AND b=?` becomes `a=$1 AND b=$2`. The counter starts at 0
  and is incremented before each use. The scan is purely textual, so a `?`
  inside a string literal, a comment or a JSON operator is rewritten too.
- **Statement lifecycle (`_prepare`, `_execute`, `_getResult`).** The adapter
  keeps the properties `name`, `statement`, `result`, `errorCode` and
  `errorString`, and updates them in place.
  - `_prepare` draws a random name in [1, 10^16], rewrites the SQL, records
    the rewritten text on the query object and registers the statement with
    the backend.
  - When the backend refuses the prepare, `_prepare` stores `false` in
    `statement`, sets `errorCode` to 0 and sets `errorString` to the backend's
    last error text.
  - `_execute` raises `BadMethodCallException` only when `statement` is null.
    Otherwise it stores the backend's reply in `result` and returns the reply's
    truth value.

Files:

- `decimal.dfy` (module `Decimal`): decimal text of a natural number and its
  inverse reading.
- `placeholders.dfy` (module `Placeholders`): the scan as a pure recursive
  function `Substitute(s, count, mark)`. It models `preg_replace_callback`
  over the pattern `?`: `count` is the by-reference counter, and `mark` is the
  callback, which receives the counter after it has been incremented. The
  adapter's callback is `Marker(i) = "$" + decimal(i)`, and
  `Parameterize(sql) = Substitute(sql, 0, Marker)`. The laws of the scan are
  proved for every callback and then applied to `Marker`. The module also
  holds a second, independent description: cut the text into the pieces
  between the `?` characters, then rejoin them with `$1`, `$2`, ….
- `prepared_query.dfy` (module `Postgre`): the class `PreparedQuery`. Its
  methods update the same properties as the source. `Parameterize` is the
  imperative counter loop, proved equal to the pure function. Two client
  methods state what a caller observes from call sequences.

The model represents `statement` with three values: `Null`, `False` and
`Handle(h)`. A refused prepare leaves `False`, and `_execute` tests only for
null. So `_execute` after a refused prepare does **not** raise. It calls the
backend like any other execute.

The scan does not look at the character after a `?`. A `?` directly followed
by a digit therefore produces a marker that runs into that digit: `?1`
becomes `$11`, which PostgreSQL reads as parameter 11 (`PlaceholderBeforeDigit`).
This belongs with the scan's other textual limitations, and the model keeps it.

## Model

| member | source | states |
|---|---|---|
| `Decimal.NatToDecimal` | system/Database/Postgre/PreparedQuery.php:115 | the counter's text is a non-empty run of ASCII digits with no leading zero (except for 0 itself) |
| `Decimal.DecimalRoundTrip` | system/Database/Postgre/PreparedQuery.php:115 | reading the decimal text of `n` back gives `n` |
| `Decimal.NatToDecimalInjective` | system/Database/Postgre/PreparedQuery.php:115 | different counter values give different decimal texts |
| `Placeholders.Marker` | system/Database/Postgre/PreparedQuery.php:115 | the interpolation `"\${$count}"`: a dollar sign followed by the counter's decimal text. Its contract is stated by `MarkerDenotes` and `MarkerShape` |
| `Placeholders.MarkerDenotes` | system/Database/Postgre/PreparedQuery.php:115 | a marker is `$` followed by a non-empty run of digits that reads back as the counter |
| `Placeholders.MarkerShape` | system/Database/Postgre/PreparedQuery.php:115 | no marker contains a `?`, and none is empty |
| `Placeholders.Substitute` | system/Database/Postgre/PreparedQuery.php:111-116 | the callback replacement over `/\?/` with a counter that is incremented before each use. Its contract is stated by `SubstituteConcat`, `SubstituteAt`, `SubstituteLength`, `OutputOffsetMonotone`, `NoPlaceholderUnchanged`, `NoPlaceholderInOutput` and `SubstituteBySegments` |
| `Placeholders.Parameterize` | system/Database/Postgre/PreparedQuery.php:108-117 | `parameterize` is the text between the `?` characters, rejoined in order with `$1`, `$2`, … (the independent description below). Its other laws are the `Parameterize…` lemmas |
| `Placeholders.NoPlaceholderUnchanged` | system/Database/Postgre/PreparedQuery.php:108-117 | text with no `?` is returned unchanged, whatever the counter |
| `Placeholders.NoPlaceholderInOutput` | system/Database/Postgre/PreparedQuery.php:113-116 | when no replacement contains a `?`, the output contains none |
| `Placeholders.ParameterizeFixedPoint` | system/Database/Postgre/PreparedQuery.php:108-117 | `parameterize` leaves its input unchanged if and only if the input has no `?` |
| `Placeholders.ParameterizeIdempotent` | system/Database/Postgre/PreparedQuery.php:113-116 | applying `parameterize` twice gives the same text as applying it once |
| `Placeholders.CountQConcat` | system/Database/Postgre/PreparedQuery.php:113-115 | the number of matches (and so of counter increments) in `a + b` is the number in `a` plus the number in `b` |
| `Placeholders.SubstituteConcat` | system/Database/Postgre/PreparedQuery.php:111-115 | rewriting `a + b` equals rewriting `a`, followed by rewriting `b` with the counter advanced by the number of `?` in `a` |
| `Placeholders.SubstituteLength` | system/Database/Postgre/PreparedQuery.php:113-116 | with non-empty replacements, the output is at least as long as the input |
| `Placeholders.SubstituteAt` | system/Database/Postgre/PreparedQuery.php:111-115 | a `?` at position `p` becomes the replacement for its ordinal, which is one more than the number of `?` before it. Any other character is copied to the output at the offset where the rewrite of the preceding text ends |
| `Placeholders.OutputOffsetMonotone` | system/Database/Postgre/PreparedQuery.php:113-116 | with non-empty replacements, input positions map to strictly increasing output offsets, so the rewrite keeps the order of the input |
| `Placeholders.ParameterizeAt` | system/Database/Postgre/PreparedQuery.php:111-115 | in `parameterize`, the `?` at position `p` becomes `$` followed by its 1-based ordinal, any other character is copied, and later input lands later in the output |
| `Placeholders.Segments` | system/Database/Postgre/PreparedQuery.php:113 | the text between matches of the pattern `?` forms one more piece than there are `?`, and no piece contains a `?` |
| `Placeholders.SegmentsJoin` | system/Database/Postgre/PreparedQuery.php:113 | rejoining the pieces with `?` gives back the input, so the split loses nothing |
| `Placeholders.SubstituteBySegments` | system/Database/Postgre/PreparedQuery.php:108-117 | the rewrite is exactly the pieces rejoined with the replacements for `count+1`, `count+2`, … in order. So the i-th `?` becomes the replacement for `i`, and nothing else is inserted, removed or changed |
| `Placeholders.PlaceholderBeforeDigit` | system/Database/Postgre/PreparedQuery.php:113-115 | the scan ignores what follows a `?`: `?1` becomes `$11`, the marker of parameter 11 |
| `Postgre.Truthy` | system/Database/Postgre/PreparedQuery.php:83 | the `(bool)` cast of `result` is false exactly for null and `false`, and true for a result resource |
| `Postgre.PreparedQuery.constructor` | system/Database/Postgre/PreparedQuery.php:13-27 | a new adapter has every property null and has made no client call |
| `Postgre.PreparedQuery.Parameterize` | system/Database/Postgre/PreparedQuery.php:108-117 | the scan with a counter that is incremented before each use computes exactly `Placeholders.Parameterize` |
| `Postgre.PreparedQuery.Prepare` | system/Database/Postgre/PreparedQuery.php:45-62 | returns the adapter itself and sets `name` to the drawn value in [1, 10^16]. It records the parameterized SQL on the query object and passes it to the client's prepare. `statement` becomes the handle, or `false` on refusal. On refusal it also sets `errorCode` to 0 and `errorString` to the client's last error text; on success the error properties keep their values. `result` is untouched |
| `Postgre.PreparedQuery.Execute` | system/Database/Postgre/PreparedQuery.php:74-84 | raises `BadMethodCall` exactly when `statement` is null, and then leaves `result` alone and calls no client function. Otherwise it calls the client's execute with the statement name and the data, stores the reply in `result` and returns `true` exactly when the reply is a result resource |
| `Postgre.PreparedQuery.GetResult` | system/Database/Postgre/PreparedQuery.php:93-96 | returns the stored `result` unchanged |
| `Postgre.ExecuteWithoutPrepare` | system/Database/Postgre/PreparedQuery.php:76-79 | on an adapter that was never prepared, execute raises, `_getResult` still gives null, and no client call is made |
| `Postgre.PrepareThenExecute` | system/Database/Postgre/PreparedQuery.php:45-96 | after a prepare, accepted or refused, execute does not raise. It returns the truth of the backend's reply, and `_getResult` returns that reply. A refused prepare shows only in `errorCode` = 0 and `errorString`. The client calls are exactly prepare, then last-error if the prepare was refused, then execute |

## Left out

- The PostgreSQL client calls `pg_prepare`, `pg_execute` and `pg_last_error`
  are foreign I/O. Each operation takes the value such a call returned as a
  parameter. A ghost log records which calls were made and with which
  arguments. The connection handle `$this->db->connID` is not modelled.
- `random_int(1, 10000000000000000)` is a parameter `draw` that the caller
  must supply within that range. Uniqueness of names and collision
  probability are not modelled.
- Postgre.PreparedQuery.Prepare: has no path for the `\Exception` that
  `_prepare` declares. That exception comes from `random_int` when no source
  of randomness is available. The model treats the draw as always
  succeeding.
- PHP strings are byte strings; the model uses sequences of characters. The
  scan looks only for `?`, a single byte that never occurs inside a UTF-8
  multibyte sequence, so nothing the scan does depends on the difference.
- The query object's `setQuery` is a collaborator. The model records only the
  text it is given, in the `queryText` property.
- The inherited base class `BasePreparedQuery` is not part of this model. It
  declares `statement`, `errorCode` and `errorString`; the model assumes they
  start as null.
- Statement handles and result resources are opaque tokens (natural numbers).
  The bound data values are strings. The `options` argument is accepted and
  ignored, as in the source.
- The rewrite has no notion of SQL syntax. A `?` inside a string literal, a
  comment or a PostgreSQL `?` JSON operator is rewritten like any other,
  exactly as the source does.
