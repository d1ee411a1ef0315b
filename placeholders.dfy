/** The placeholder rewrite of the PostgreSQL prepared-statement adapter:
    every literal `?` in the SQL text, scanned left to right, becomes `$`
    followed by a running 1-based decimal counter (`$1`, `$2`, ...). The scan
    is purely textual: a `?` inside a string literal, a comment or a JSON
    operator is rewritten like any other.

    The scan is modelled as `Substitute`, the replace-by-callback over the
    pattern `?`: the callback `mark` receives the counter after it has been
    incremented and returns the replacement text. The laws of the scan hold
    for every callback; the adapter's callback is `Marker`. */
module Placeholders {
  import opened Decimal

  const Placeholder: char := '?'

  /** Number of `?` characters in `s`. */
  function CountQ(s: string): (n: nat)
  {
    if s == [] then 0
    else (if s[0] == Placeholder then 1 else 0) + CountQ(s[1..])
  }

  /** The adapter's replacement for the placeholder with 1-based ordinal `i`
      (specified by `MarkerDenotes`). */
  function Marker(i: nat): (m: string)
  {
    "$" + NatToDecimal(i)
  }

  /** A marker is a dollar sign followed by a non-empty run of digits that
      reads back as its ordinal. */
  lemma MarkerDenotes(i: nat)
    ensures |Marker(i)| >= 2 && Marker(i)[0] == '$'
    ensures IsDigits(Marker(i)[1..]) && DecimalValue(Marker(i)[1..]) == i
  {
    assert Marker(i)[1..] == NatToDecimal(i);
    DecimalRoundTrip(i);
  }

  /** The counter after scanning `ch`: one match increments it. */
  function Advance(ch: char, count: nat): (next: nat)
  {
    if ch == Placeholder then count + 1 else count
  }

  /** What one input character becomes, `count` matches having been seen
      before it: a `?` becomes the callback's text for the incremented
      counter, any other character stays itself. */
  function Piece(ch: char, count: nat, mark: nat -> string): (r: string)
  {
    if ch == Placeholder then mark(count + 1) else [ch]
  }

  /** Replace every `?` of `s` by the callback's text, `count` matches having
      been seen before `s` (specified by the lemmas below). */
  function Substitute(s: string, count: nat, mark: nat -> string): (r: string)
  {
    if s == [] then [] else Piece(s[0], count, mark) + Substitute(s[1..], Advance(s[0], count), mark)
  }

  /** `parameterize`: the counter starts at 0 and the callback is `Marker`.
      The result is the text between the `?` characters, rejoined with `$1`,
      `$2`, ... in order. */
  function Parameterize(sql: string): (r: string)
    ensures r == JoinNumbered(Segments(sql), 0, Marker)
  {
    SubstituteBySegments(sql, 0, Marker);
    Substitute(sql, 0, Marker)
  }

  /** No marker contains a `?`. */
  ghost predicate NoPlaceholderInMarks(mark: nat -> string)
  {
    forall i :: Placeholder !in mark(i)
  }

  /** Every marker is non-empty. */
  ghost predicate NonEmptyMarks(mark: nat -> string)
  {
    forall i :: |mark(i)| >= 1
  }

  // ---------------------------------------------------------------------
  // Laws of the scan

  lemma {:induction false} CountQConcat(a: string, b: string)
    ensures CountQ(a + b) == CountQ(a) + CountQ(b)
  {
    if a == [] {
      assert a + b == b;
    } else {
      assert (a + b)[1..] == a[1..] + b;
      CountQConcat(a[1..], b);
    }
  }

  /** Text without any `?` comes back unchanged, whatever the counter. */
  lemma {:induction false} NoPlaceholderUnchanged(s: string, count: nat, mark: nat -> string)
    requires Placeholder !in s
    ensures Substitute(s, count, mark) == s
  {
    if s != [] {
      assert Placeholder !in s[1..] by {
        forall ch | ch in s[1..] ensures ch in s { }
      }
      NoPlaceholderUnchanged(s[1..], count, mark);
    }
  }

  /** The adapter's markers hold no `?` and are never empty. */
  lemma MarkerShape()
    ensures NoPlaceholderInMarks(Marker) && NonEmptyMarks(Marker)
  {
    forall i: nat ensures Placeholder !in Marker(i) {
      var m := Marker(i);
      MarkerDenotes(i);
      assert forall k :: 1 <= k < |m| ==> m[k] == m[1..][k - 1];
    }
  }

  /** When no marker contains a `?`, the output contains none. */
  lemma {:induction false} NoPlaceholderInOutput(s: string, count: nat, mark: nat -> string)
    requires NoPlaceholderInMarks(mark)
    ensures Placeholder !in Substitute(s, count, mark)
  {
    if s != [] {
      NoPlaceholderInOutput(s[1..], Advance(s[0], count), mark);
      assert Placeholder !in Piece(s[0], count, mark);
    }
  }

  /** The input is a fixed point of `parameterize` exactly when it holds no `?`. */
  lemma ParameterizeFixedPoint(sql: string)
    ensures Parameterize(sql) == sql <==> Placeholder !in sql
  {
    MarkerShape();
    NoPlaceholderInOutput(sql, 0, Marker);
    if Placeholder !in sql {
      NoPlaceholderUnchanged(sql, 0, Marker);
    }
  }

  /** `parameterize` is idempotent: a second pass finds no `?` left. */
  lemma ParameterizeIdempotent(sql: string)
    ensures Parameterize(Parameterize(sql)) == Parameterize(sql)
  {
    MarkerShape();
    NoPlaceholderInOutput(sql, 0, Marker);
    NoPlaceholderUnchanged(Parameterize(sql), 0, Marker);
  }

  /** Substituting in a concatenation substitutes in the left part, then in
      the right part with the counter advanced by the number of `?` in the
      left part. */
  lemma {:induction false} SubstituteConcat(a: string, b: string, count: nat, mark: nat -> string)
    ensures Substitute(a + b, count, mark) == Substitute(a, count, mark) + Substitute(b, count + CountQ(a), mark)
  {
    if a == [] {
      assert a + b == b;
    } else {
      var ab, next := a + b, Advance(a[0], count);
      assert ab[0] == a[0] && ab[1..] == a[1..] + b;
      assert next + CountQ(a[1..]) == count + CountQ(a);
      SubstituteConcat(a[1..], b, next, mark);
    }
  }

  /** With non-empty markers, every input character produces at least one
      output character. */
  lemma {:induction false} SubstituteLength(s: string, count: nat, mark: nat -> string)
    requires NonEmptyMarks(mark)
    ensures |Substitute(s, count, mark)| >= |s|
  {
    if s != [] {
      SubstituteLength(s[1..], Advance(s[0], count), mark);
      assert |Piece(s[0], count, mark)| >= 1;
    }
  }

  /** Where position `p` of the input lands in the output: just after the
      substitution of everything before it. */
  function OutputOffset(s: string, count: nat, mark: nat -> string, p: nat): (o: nat)
    requires p <= |s|
  {
    |Substitute(s[..p], count, mark)|
  }

  /** Character by character: a `?` at position `p` becomes the marker of
      its ordinal (one more than the number of `?` before it, counting on
      from `count`); any other character is copied to its output offset. */
  lemma SubstituteAt(s: string, count: nat, mark: nat -> string, p: nat)
    requires p < |s|
    ensures var o := OutputOffset(s, count, mark, p);
            var out := Substitute(s, count, mark);
            if s[p] == Placeholder then
              var m := mark(count + CountQ(s[..p]) + 1);
              o + |m| <= |out| && out[o..o + |m|] == m
            else
              o < |out| && out[o] == s[p]
  {
    var n := count + CountQ(s[..p]);
    var before := Substitute(s[..p], count, mark);
    assert s == s[..p] + s[p..];
    SubstituteConcat(s[..p], s[p..], count, mark);
    assert s[p..][0] == s[p] && s[p..][1..] == s[p + 1..];
    var piece := Piece(s[p], n, mark);
    var rest := piece + Substitute(s[p + 1..], Advance(s[p], n), mark);
    assert Substitute(s[p..], n, mark) == rest;
    var out := before + rest;
    assert Substitute(s, count, mark) == out;
    if s[p] == Placeholder {
      assert piece == mark(n + 1);
      assert out[|before|..|before| + |piece|] == piece;
    } else {
      assert piece == [s[p]];
      assert out[|before|] == piece[0];
    }
  }

  /** With non-empty markers, output offsets follow input order: nothing is
      reordered. */
  lemma OutputOffsetMonotone(s: string, count: nat, mark: nat -> string, p: nat, q: nat)
    requires NonEmptyMarks(mark)
    requires p < q <= |s|
    ensures OutputOffset(s, count, mark, p) < OutputOffset(s, count, mark, q)
  {
    var a, b := s[..p], s[p..q];
    assert s[..q] == a + b;
    SubstituteConcat(a, b, count, mark);
    SubstituteLength(b, count + CountQ(a), mark);
  }

  /** The laws above, for `parameterize` itself: the `?` at position `p`
      becomes `$` followed by its 1-based ordinal, any other character is
      copied, and later input lands later in the output. */
  lemma ParameterizeAt(sql: string, p: nat)
    requires p < |sql|
    ensures var o := OutputOffset(sql, 0, Marker, p);
            var out := Parameterize(sql);
            if sql[p] == Placeholder then
              var m := Marker(CountQ(sql[..p]) + 1);
              o + |m| <= |out| && out[o..o + |m|] == m
            else
              o < |out| && out[o] == sql[p]
    ensures forall q :: p < q <= |sql| ==> OutputOffset(sql, 0, Marker, p) < OutputOffset(sql, 0, Marker, q)
  {
    SubstituteAt(sql, 0, Marker, p);
    MarkerShape();
    forall q | p < q <= |sql|
      ensures OutputOffset(sql, 0, Marker, p) < OutputOffset(sql, 0, Marker, q)
    {
      OutputOffsetMonotone(sql, 0, Marker, p, q);
    }
  }

  // ---------------------------------------------------------------------
  // An independent description: split at the placeholders, rejoin with
  // numbered markers.

  /** The pieces of `s` between its `?` characters, in order. */
  function Segments(s: string): (r: seq<string>)
    ensures |r| == CountQ(s) + 1
    ensures forall i :: 0 <= i < |r| ==> Placeholder !in r[i]
  {
    if s == [] then [[]]
    else
      var rest := Segments(s[1..]);
      if s[0] == Placeholder then [[]] + rest
      else [[s[0]] + rest[0]] + rest[1..]
  }

  /** Join pieces with a separator character between neighbours. */
  function JoinWith(segs: seq<string>, sep: char): (r: string)
    requires |segs| >= 1
  {
    if |segs| == 1 then segs[0] else segs[0] + [sep] + JoinWith(segs[1..], sep)
  }

  /** Join pieces with the markers of `count+1`, `count+2`, ... between
      neighbours. */
  function JoinNumbered(segs: seq<string>, count: nat, mark: nat -> string): (r: string)
    requires |segs| >= 1
  {
    if |segs| == 1 then segs[0]
    else segs[0] + mark(count + 1) + JoinNumbered(segs[1..], count + 1, mark)
  }

  /** Splitting at the placeholders loses nothing: rejoining with `?` gives
      the input back. */
  lemma {:induction false} SegmentsJoin(s: string)
    ensures JoinWith(Segments(s), Placeholder) == s
  {
    if s != [] {
      var rest := Segments(s[1..]);
      SegmentsJoin(s[1..]);
      if s[0] != Placeholder {
        var segs := Segments(s);
        assert segs[1..] == rest[1..];
        if |rest| > 1 {
          assert JoinWith(rest, Placeholder) == rest[0] + [Placeholder] + JoinWith(rest[1..], Placeholder);
        }
      }
    }
  }

  /** The substitution is exactly the segments rejoined with numbered
      markers: the i-th `?` becomes the marker of i, every other character
      is kept in place, and nothing else is inserted or removed. */
  lemma {:induction false} SubstituteBySegments(s: string, count: nat, mark: nat -> string)
    ensures Substitute(s, count, mark) == JoinNumbered(Segments(s), count, mark)
  {
    if s != [] {
      var rest := Segments(s[1..]);
      var segs := Segments(s);
      if s[0] == Placeholder {
        SubstituteBySegments(s[1..], count + 1, mark);
        assert segs[1..] == rest;
      } else {
        SubstituteBySegments(s[1..], count, mark);
        if |rest| > 1 {
          assert segs[1..] == rest[1..];
          assert JoinNumbered(rest, count, mark) == rest[0] + mark(count + 1) + JoinNumbered(rest[1..], count + 1, mark);
        }
      }
    }
  }

  /** The scan does not look at what follows a `?`: a `?` directly followed
      by a digit yields a marker that runs into that digit, so the text `?1`
      becomes `$11`, which PostgreSQL reads as parameter 11. */
  lemma PlaceholderBeforeDigit()
    ensures Parameterize("?1") == Marker(11) == "$11"
  {
    assert NatToDecimal(1) == "1";
    assert NatToDecimal(11) == NatToDecimal(1) + [DigitChar(1)] == "11";
    assert Substitute("1", 1, Marker) == "1";
  }
}
