/** The query sanitiser: arbitrary text is reduced to bare alphanumeric terms joined
    by OR, and reading that output back yields the same terms. */
module FtsQuery {
  import opened Utf8

  const SPACE: byte := 0x20
  const OR: Bytes := [0x4F, 0x52]
  const AND: Bytes := [0x41, 0x4E, 0x44]
  const NOT: Bytes := [0x4E, 0x4F, 0x54]
  const NEAR: Bytes := [0x4E, 0x45, 0x41, 0x52]

  predicate IsAlnum(x: byte) {
    0x30 <= x <= 0x39 || 0x41 <= x <= 0x5A || 0x61 <= x <= 0x7A
  }

  predicate IsWord(t: Bytes) {
    t != [] && forall i :: 0 <= i < |t| ==> IsAlnum(t[i])
  }

  predicate IsOperator(t: Bytes) {
    t == AND || t == OR || t == NOT || t == NEAR
  }

  /** The bytes of an ASCII text. */
  function Ascii(s: string): Bytes
    requires forall i :: 0 <= i < |s| ==> s[i] < '\U{80}'
  {
    seq(|s|, i requires 0 <= i < |s| => s[i] as int)
  }

  /** The operators are the four words FTS5 reserves, in capitals. */
  lemma OperatorsExactly(t: Bytes)
    ensures IsOperator(t) <==> t in {Ascii("AND"), Ascii("OR"), Ascii("NOT"), Ascii("NEAR")}
  {
    assert AND == Ascii("AND") && OR == Ascii("OR") && NOT == Ascii("NOT") && NEAR == Ascii("NEAR");
  }

  /** A word is made of digits and unaccented letters. */
  lemma AlnumExactly(c: char)
    requires c < '\U{80}'
    ensures IsAlnum(c as int) <==> '0' <= c <= '9' || 'A' <= c <= 'Z' || 'a' <= c <= 'z'
  {
  }

  /** Length of the longest alphanumeric prefix. */
  function WordLen(q: Bytes): (n: nat)
    ensures n <= |q| && (forall i :: 0 <= i < n ==> IsAlnum(q[i])) && (n < |q| ==> !IsAlnum(q[n]))
  {
    if q == [] || !IsAlnum(q[0]) then 0 else 1 + WordLen(q[1..])
  }

  /** FindAllString of [A-Za-z0-9]+: the maximal alphanumeric runs, left to right. */
  function Runs(q: Bytes): seq<Bytes> {
    if q == [] then []
    else if !IsAlnum(q[0]) then Runs(q[1..])
    else [q[..WordLen(q)]] + Runs(q[WordLen(q)..])
  }

  function DropOperators(ws: seq<Bytes>): seq<Bytes> {
    if ws == [] then [] else (if IsOperator(ws[0]) then [] else [ws[0]]) + DropOperators(ws[1..])
  }

  function Terms(q: Bytes): seq<Bytes> {
    DropOperators(Runs(q))
  }

  method FtsTerms(q: Bytes) returns (terms: seq<Bytes>)
    ensures terms == Terms(q)
  {
    hide Runs, IsOperator;
    terms := [];
    var words := Runs(q);
    assert words[0..] == words;
    for i := 0 to |words|
      invariant terms + DropOperators(words[i..]) == DropOperators(words)
    {
      assert words[i..][1..] == words[i + 1..];
      if IsOperator(words[i]) { continue; }
      terms := terms + [words[i]];
    }
  }

  /** strings.Join(terms, " OR "). */
  function JoinOr(ts: seq<Bytes>): Bytes {
    if ts == [] then []
    else if |ts| == 1 then ts[0]
    else ts[0] + [SPACE] + (OR + [SPACE] + JoinOr(ts[1..]))
  }

  function Query(q: Bytes): Bytes {
    JoinOr(Terms(q))
  }

  // ---------------------------------------------------------------- runs

  /** q[i..j] is alphanumeric and cannot be extended on either side. */
  predicate MaximalRun(q: Bytes, i: int, j: int) {
    && 0 <= i < j <= |q|
    && (forall k :: i <= k < j ==> IsAlnum(q[k]))
    && (i > 0 ==> !IsAlnum(q[i - 1]))
    && (j < |q| ==> !IsAlnum(q[j]))
  }

  /** Maximal runs survive dropping a prefix they do not touch. */
  lemma ShiftRun(q: Bytes, n: nat, i: int, j: int)
    requires n <= |q| && 0 <= i < j <= |q| - n
    requires i > 0 || n == 0 || !IsAlnum(q[n - 1])
    ensures MaximalRun(q[n..], i, j) <==> MaximalRun(q, n + i, n + j)
    ensures q[n..][i..j] == q[n + i..n + j]
  {
    hide IsAlnum;
    var r := q[n..];
    assert forall k :: n <= k < |q| ==> q[k] == r[k - n];
    assert forall k :: 0 <= k < |r| ==> r[k] == q[n + k];
  }

  type Span = (nat, nat)

  function Shifted(spans: seq<Span>, n: nat): (r: seq<Span>)
    ensures |r| == |spans| && forall k :: 0 <= k < |spans| ==> r[k] == (n + spans[k].0, n + spans[k].1)
  {
    seq(|spans|, k requires 0 <= k < |spans| => (n + spans[k].0, n + spans[k].1))
  }

  predicate Reads(q: Bytes, span: Span, w: Bytes) {
    MaximalRun(q, span.0, span.1) && w == q[span.0..span.1]
  }

  /** ws is what stands at the spans, maximal runs from left to right. */
  ghost predicate Spells(q: Bytes, spans: seq<Span>, ws: seq<Bytes>) {
    && |ws| == |spans|
    && (forall k :: 0 <= k < |spans| ==> Reads(q, spans[k], ws[k]))
    && forall k, l :: 0 <= k < l < |spans| ==> spans[k].1 < spans[l].0
  }

  /** No maximal run is missing. */
  ghost predicate Covers(q: Bytes, spans: seq<Span>) {
    forall i: nat, j: nat :: MaximalRun(q, i, j) ==> (i, j) in spans
  }

  /** A dropped prefix that ends before a run, or is the first run, moves the places of the others. */
  lemma SpellsShifted(q: Bytes, m: nat, spans: seq<Span>, ws: seq<Bytes>)
    requires 0 < m <= |q| && Spells(q[m..], spans, ws)
    requires !IsAlnum(q[m - 1]) || m == |q| || !IsAlnum(q[m])
    ensures Spells(q, Shifted(spans, m), ws)
    ensures forall k :: 0 <= k < |spans| ==> !IsAlnum(q[m - 1]) || spans[k].0 > 0
  {
    var moved := Shifted(spans, m);
    forall k | 0 <= k < |spans| ensures Reads(q, moved[k], ws[k]) && (!IsAlnum(q[m - 1]) || spans[k].0 > 0) {
      assert Reads(q[m..], spans[k], ws[k]);
      assert q[m..][spans[k].0] == q[m + spans[k].0];
      ShiftRun(q, m, spans[k].0, spans[k].1);
    }
  }

  lemma CoversShifted(q: Bytes, m: nat, spans: seq<Span>, i: nat, j: nat)
    requires 0 < m <= |q| && Covers(q[m..], spans) && MaximalRun(q, i, j)
    requires i > m || (i == m && !IsAlnum(q[m - 1]))
    ensures (i, j) in Shifted(spans, m)
  {
    Bounds(q, i, j);
    hide MaximalRun, IsAlnum;
    ShiftRun(q, m, i - m, j - m);
    InShifted(spans, m, i - m, j - m);
  }

  lemma InShifted(spans: seq<Span>, m: nat, i: nat, j: nat)
    requires (i, j) in spans
    ensures (m + i, m + j) in Shifted(spans, m)
  {
    var k :| 0 <= k < |spans| && spans[k] == (i, j);
    assert Shifted(spans, m)[k] == (m + i, m + j);
  }

  lemma Bounds(q: Bytes, i: int, j: int)
    requires MaximalRun(q, i, j)
    ensures 0 <= i < j <= |q|
  {
  }

  /** Where the first run of a text is, if it starts the text, and where the others are. */
  lemma FirstRun(q: Bytes, i: nat, j: nat)
    requires MaximalRun(q, i, j)
    ensures i == 0 ==> IsAlnum(q[0]) && j == WordLen(q)
    ensures i > 0 && IsAlnum(q[0]) ==> i > WordLen(q)
  {
  }

  /** Every text reads as its maximal runs. */
  lemma {:induction false} RunsPlaced(q: Bytes) returns (spans: seq<Span>)
    ensures Spells(q, spans, Runs(q)) && Covers(q, spans)
    decreases |q|
  {
    if q == [] { return []; }
    var n := WordLen(q);
    var m := if IsAlnum(q[0]) then n else 1;
    var rest := RunsPlaced(q[m..]);
    SpellsShifted(q, m, rest, Runs(q[m..]));
    spans := Shifted(rest, m);
    if IsAlnum(q[0]) {
      FirstSpan(q, spans, Runs(q[n..]));
      spans := [(0, n)] + spans;
    }
    forall i: nat, j: nat | MaximalRun(q, i, j) ensures (i, j) in spans {
      FirstRun(q, i, j);
      if i > 0 { CoversShifted(q, m, rest, i, j); }
    }
  }

  lemma FirstSpan(q: Bytes, spans: seq<Span>, ws: seq<Bytes>)
    requires q != [] && IsAlnum(q[0]) && Spells(q, spans, ws)
    requires forall k :: 0 <= k < |spans| ==> spans[k].0 > WordLen(q)
    ensures Spells(q, [(0, WordLen(q))] + spans, [q[..WordLen(q)]] + ws)
  {
  }

  /** Dropping the operators drops their places. */
  lemma {:induction false} TermsPlaced(q: Bytes, spans: seq<Span>, ws: seq<Bytes>) returns (kept: seq<Span>)
    requires Spells(q, spans, ws)
    ensures Spells(q, kept, DropOperators(ws))
    ensures forall s :: s in kept ==> s in spans
    ensures forall k :: 0 <= k < |spans| ==> (spans[k] in kept <==> !IsOperator(ws[k]))
    decreases |spans|
  {
    if spans == [] { return []; }
    SpellsTail(q, spans, ws);
    SpellsLength(q, spans, ws);
    hide IsOperator, Reads, Spells;
    var rest := TermsPlaced(q, spans[1..], ws[1..]);
    kept := if IsOperator(ws[0]) then rest else [spans[0]] + rest;
    if !IsOperator(ws[0]) { SpellsCons(q, spans[0], ws[0], rest, DropOperators(ws[1..])); }
    KeptMembers(spans, ws, rest);
  }

  lemma KeptMembers(spans: seq<Span>, ws: seq<Bytes>, rest: seq<Span>)
    requires spans != [] && |ws| == |spans| && spans[0] !in spans[1..]
    requires forall s :: s in rest ==> s in spans[1..]
    requires forall k :: 0 <= k < |spans[1..]| ==> (spans[1..][k] in rest <==> !IsOperator(ws[1..][k]))
    ensures var kept := if IsOperator(ws[0]) then rest else [spans[0]] + rest;
            && (forall s :: s in kept ==> s in spans)
            && forall k :: 0 <= k < |spans| ==> (spans[k] in kept <==> !IsOperator(ws[k]))
  {
    hide IsOperator;
    var kept := if IsOperator(ws[0]) then rest else [spans[0]] + rest;
    forall k | 0 <= k < |spans| ensures spans[k] in kept <==> !IsOperator(ws[k]) {
      if k > 0 { assert spans[k] == spans[1..][k - 1] && ws[k] == ws[1..][k - 1]; }
    }
  }

  lemma SpellsLength(q: Bytes, spans: seq<Span>, ws: seq<Bytes>)
    requires Spells(q, spans, ws)
    ensures |ws| == |spans|
  {
  }

  lemma SpellsTail(q: Bytes, spans: seq<Span>, ws: seq<Bytes>)
    requires Spells(q, spans, ws) && spans != []
    ensures Reads(q, spans[0], ws[0]) && Spells(q, spans[1..], ws[1..])
    ensures forall s :: s in spans[1..] ==> spans[0].1 < s.0 && s != spans[0]
  {
    hide IsAlnum;
    assert Reads(q, spans[0], ws[0]);
  }

  lemma SpellsCons(q: Bytes, s: Span, w: Bytes, rest: seq<Span>, ts: seq<Bytes>)
    requires Reads(q, s, w) && Spells(q, rest, ts) && forall x :: x in rest ==> s.1 < x.0
    ensures Spells(q, [s] + rest, [w] + ts)
  {
    hide Reads;
  }

  /** The terms of a text are exactly its maximal alphanumeric runs other than the operators,
      in the order of the text and as often as they stand there. */
  lemma TermsExactly(q: Bytes) returns (spans: seq<Span>)
    ensures Spells(q, spans, Terms(q))
    ensures forall i: nat, j: nat :: (i, j) in spans <==> MaximalRun(q, i, j) && !IsOperator(q[i..j])
  {
    var all := RunsPlaced(q);
    spans := TermsPlaced(q, all, Runs(q));
    hide IsOperator, Runs, MaximalRun;
    forall i: nat, j: nat ensures (i, j) in spans <==> MaximalRun(q, i, j) && !IsOperator(q[i..j]) {
      if (i, j) in all {
        var k :| 0 <= k < |all| && all[k] == (i, j);
        assert Reads(q, all[k], Runs(q)[k]);
      }
    }
  }

  lemma TermsAreWords(q: Bytes)
    ensures forall t :: t in Terms(q) ==> IsWord(t) && !IsOperator(t)
  {
    var spans := TermsExactly(q);
    forall t | t in Terms(q) ensures IsWord(t) && !IsOperator(t) {
      var k :| 0 <= k < |spans| && Terms(q)[k] == t;
      assert Reads(q, spans[k], t) && (spans[k].0, spans[k].1) in spans;
    }
  }

  // ---------------------------------------------------------------- the round trip

  lemma {:induction false} WordLenSplit(a: Bytes, c: byte, b: Bytes)
    requires !IsAlnum(c)
    ensures WordLen(a + [c] + b) == WordLen(a)
  {
    if a != [] && IsAlnum(a[0]) {
      WordLenSplit(a[1..], c, b);
      assert (a + [c] + b)[1..] == a[1..] + [c] + b;
    }
  }

  /** A separator splits the runs. */
  lemma {:induction false} RunsSplit(a: Bytes, c: byte, b: Bytes)
    requires !IsAlnum(c)
    ensures Runs(a + [c] + b) == Runs(a) + Runs(b)
    decreases |a|
  {
    var s := a + [c] + b;
    if a == [] {
      assert s[1..] == b;
    } else if !IsAlnum(a[0]) {
      RunsSplit(a[1..], c, b);
      assert s[1..] == a[1..] + [c] + b;
    } else {
      var n := WordLen(a);
      WordLenSplit(a, c, b);
      RunsSplit(a[n..], c, b);
      assert s[n..] == a[n..] + [c] + b;
      assert s[..n] == a[..n];
    }
  }

  lemma RunsOfWord(t: Bytes)
    requires IsWord(t)
    ensures Runs(t) == [t]
  {
    assert WordLen(t) == |t|;
    assert t[|t|..] == [] && t[..|t|] == t;
  }

  lemma {:induction false} DropConcat(a: seq<Bytes>, b: seq<Bytes>)
    ensures DropOperators(a + b) == DropOperators(a) + DropOperators(b)
  {
    hide IsOperator;
    if a == [] {
      assert a + b == b;
    } else {
      var rest := a[1..];
      var head := if IsOperator(a[0]) then [] else [a[0]];
      DropConcat(rest, b);
      assert (a + b)[1..] == rest + b;
      assert head + (DropOperators(rest) + DropOperators(b)) == head + DropOperators(rest) + DropOperators(b);
    }
  }

  /** Joining puts " OR " between any two neighbours. */
  lemma {:induction false} JoinAppends(ts: seq<Bytes>, t: Bytes)
    ensures JoinOr(ts + [t]) == if ts == [] then t else JoinOr(ts) + Ascii(" OR ") + t
  {
    assert Ascii(" OR ") == [SPACE] + (OR + [SPACE]);
    if |ts| == 1 {
      assert (ts + [t])[1..] == [t];
    } else if ts != [] {
      JoinAppends(ts[1..], t);
      assert (ts + [t])[1..] == ts[1..] + [t];
    }
  }

  /** One more term in front of a joined list. */
  lemma TermsCons(t: Bytes, rest: Bytes)
    requires IsWord(t) && !IsOperator(t)
    ensures Terms(t + [SPACE] + (OR + [SPACE] + rest)) == [t] + Terms(rest)
  {
    RunsOfWord(t);
    RunsOfWord(OR);
    RunsSplit(OR, SPACE, rest);
    RunsSplit(t, SPACE, OR + [SPACE] + rest);
    hide Runs;
    DropConcat([t], [OR] + Runs(rest));
    DropConcat([OR], Runs(rest));
    assert DropOperators([t]) == [t] && DropOperators([OR]) == [];
  }

  /** Reading a joined list of terms gives the list back. */
  lemma {:induction false} JoinRoundTrip(ts: seq<Bytes>)
    requires forall t :: t in ts ==> IsWord(t) && !IsOperator(t)
    ensures Terms(JoinOr(ts)) == ts
  {
    if ts == [] {
    } else if |ts| == 1 {
      RunsOfWord(ts[0]);
      assert DropOperators([ts[0]]) == [ts[0]] == ts;
    } else {
      TermsCons(ts[0], JoinOr(ts[1..]));
      JoinRoundTrip(ts[1..]);
    }
  }

  /** Sanitising keeps the terms of any text, so sanitising twice changes nothing; and its
      output is a list of non-operator words joined by OR. */
  lemma SanitiseRoundTrip(q: Bytes)
    ensures Terms(Query(q)) == Terms(q)
    ensures Query(Query(q)) == Query(q)
    ensures exists ts :: Query(q) == JoinOr(ts) && forall t :: t in ts ==> IsWord(t) && !IsOperator(t)
  {
    TermsAreWords(q);
    JoinRoundTrip(Terms(q));
  }
}
