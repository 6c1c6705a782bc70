/** Truncation on a code-point boundary: `truncate` of the controller and `capContent`
    of the store, against the UTF-8 grammar of section 4 of RFC 3629. */
module Utf8 {

  type byte = x: int | 0 <= x < 256

  type Bytes = seq<byte>

  const MAX_CONTENT := 4096

  // ---------------------------------------------------------------- the grammar

  /** UTF8-tail. */
  predicate Tail(x: byte) { 0x80 <= x <= 0xBF }

  /** The second byte a three- or four-byte character may have after its first. */
  predicate Second(a: byte, b: byte) {
    if a == 0xE0 then 0xA0 <= b <= 0xBF
    else if a == 0xED then 0x80 <= b <= 0x9F
    else if a == 0xF0 then 0x90 <= b <= 0xBF
    else if a == 0xF4 then 0x80 <= b <= 0x8F
    else Tail(b)
  }

  /** Width of the character s starts with; 0 if it starts with none. */
  function CharLen(s: Bytes): (w: nat)
    ensures w <= 4 && w <= |s|
  {
    if s == [] then 0
    else if s[0] <= 0x7F then 1
    else if 0xC2 <= s[0] <= 0xDF && |s| >= 2 && Tail(s[1]) then 2
    else if 0xE0 <= s[0] <= 0xEF && |s| >= 3 && Second(s[0], s[1]) && Tail(s[2]) then 3
    else if 0xF0 <= s[0] <= 0xF4 && |s| >= 4 && Second(s[0], s[1]) && Tail(s[2]) && Tail(s[3]) then 4
    else 0
  }

  predicate Valid(s: Bytes) {
    s == [] || (CharLen(s) > 0 && Valid(s[CharLen(s)..]))
  }

  /** The code point that the first w bytes spell, if they are a lead byte and w - 1 tails. */
  function CodePoint(s: Bytes, w: nat): int
    requires 2 <= w <= 4 && w <= |s|
  {
    var lead: int, second: int := s[0], s[1];
    if w == 2 then 64 * (lead - 0xC0) + (second - 0x80)
    else
      var third: int := s[2];
      if w == 3 then 4096 * (lead - 0xE0) + 64 * (second - 0x80) + (third - 0x80)
      else
        var fourth: int := s[3];
        262144 * (lead - 0xF0) + 4096 * (second - 0x80) + 64 * (third - 0x80) + (fourth - 0x80)
  }

  predicate Tails(s: Bytes, w: nat)
    requires w <= |s|
  {
    forall i :: 1 <= i < w ==> 0x80 <= s[i] <= 0xBF
  }

  /** The grammar accepts exactly the shortest forms of the Unicode scalar values: no byte
      sequence longer than needed, no surrogate, nothing above U+10FFFF. */
  lemma ShortestForms(s: Bytes)
    requires s != []
    ensures CharLen(s) == 1 <==> s[0] < 0x80
    ensures CharLen(s) == 2 <==> |s| >= 2 && 0xC0 <= s[0] <= 0xDF && Tails(s, 2) && CodePoint(s, 2) >= 0x80
    ensures CharLen(s) == 3 <==>
      && |s| >= 3 && 0xE0 <= s[0] <= 0xEF && Tails(s, 3)
      && CodePoint(s, 3) >= 0x800 && !(0xD800 <= CodePoint(s, 3) <= 0xDFFF)
    ensures CharLen(s) == 4 <==>
      && |s| >= 4 && 0xF0 <= s[0] <= 0xF7 && Tails(s, 4)
      && 0x10000 <= CodePoint(s, 4) <= 0x10FFFF
  {
  }

  /** utf8.RuneStart: x & 0xC0 != 0x80. */
  predicate RuneStart(x: byte) { !(0x80 <= x < 0xC0) }

  // ---------------------------------------------------------------- truncation

  /** The last rune start at or below n. */
  function Cut(s: Bytes, n: nat): (k: nat)
    requires n < |s|
    ensures k <= n && (k > 0 ==> RuneStart(s[k])) && forall j :: k < j <= n ==> !RuneStart(s[j])
  {
    if n > 0 && !RuneStart(s[n]) then Cut(s, n - 1) else n
  }

  function Truncated(s: Bytes, n: nat): Bytes {
    if |s| <= n then s else s[..Cut(s, n)]
  }

  method Truncate(s: Bytes, n0: nat) returns (r: Bytes)
    ensures r == Truncated(s, n0)
  {
    if |s| <= n0 { return s; }
    var n := n0;
    while n > 0 && !RuneStart(s[n])
      invariant 0 <= n <= n0 && Cut(s, n) == Cut(s, n0)
    {
      n := n - 1;
    }
    return s[..n];
  }

  method CapContent(c: Bytes) returns (r: Bytes)
    ensures r == Truncated(c, 4096)
  {
    if |c| <= MAX_CONTENT { return c; }
    var cut := MAX_CONTENT;
    while cut > 0 && !RuneStart(c[cut])
      invariant 0 <= cut <= MAX_CONTENT && Cut(c, cut) == Cut(c, MAX_CONTENT)
    {
      cut := cut - 1;
    }
    return c[..cut];
  }

  // ---------------------------------------------------------------- what it promises

  lemma NotValid(s: Bytes)
    requires s != [] && CharLen(s) == 0
    ensures !Valid(s)
  {
  }

  /** A prefix of valid text is valid exactly when it ends where a code point starts. */
  lemma {:induction false} PrefixValid(s: Bytes, k: nat)
    requires Valid(s) && k <= |s|
    ensures Valid(s[..k]) <==> k == |s| || RuneStart(s[k])
  {
    var w := CharLen(s);
    if k == 0 || s == [] {
    } else if k < w {
      hide Valid;
      assert forall i :: 0 <= i < k ==> s[..k][i] == s[i];
      assert CharLen(s[..k]) == 0;
      assert !Valid(s[..k]) by { NotValid(s[..k]); }
    } else {
      PrefixValid(s[w..], k - w);
      assert s[..k][w..] == s[w..][..k - w];
      assert CharLen(s[..k]) == w;
    }
  }

  /** No four bytes of valid text in a row are without a code-point start. */
  lemma {:induction false} StartNearby(s: Bytes, n: nat) returns (j: nat)
    requires Valid(s) && n < |s|
    ensures j <= n <= j + 3 && RuneStart(s[j])
    decreases |s|
  {
    var w := CharLen(s);
    if n < w { j := 0; } else { j := StartNearby(s[w..], n - w); j := j + w; }
  }

  /** Truncation of valid text is the longest prefix of whole code points that fits; it is
      valid itself, and a cut loses at most three bytes of the budget. */
  lemma TruncationIsLongest(s: Bytes, n: nat)
    requires Valid(s)
    ensures var r := Truncated(s, n);
            && r <= s && |r| <= n && Valid(r)
            && (forall k :: |r| < k <= n && k <= |s| ==> !Valid(s[..k]))
            && (|s| > n ==> n - |r| <= 3)
  {
    if |s| <= n {
    } else {
      var k := Cut(s, n);
      var j := StartNearby(s, n);
      forall m | m == k || k < m <= n ensures Valid(s[..m]) <==> m == k {
        PrefixValid(s, m);
      }
      assert s[..|s|] == s;
    }
  }

  /** Capping twice, or first at a larger budget, changes nothing more. */
  lemma TruncationAbsorbs(s: Bytes, m: nat, n: nat)
    requires Valid(s) && n <= m
    ensures Truncated(Truncated(s, m), n) == Truncated(s, n)
  {
    TruncationIsLongest(s, m);
    TruncationIsLongest(s, n);
    var r := Truncated(s, m);
    TruncationIsLongest(r, n);
    var a, b := Truncated(r, n), Truncated(s, n);
    if |b| <= |r| {
      assert r[..|b|] == s[..|b|] == b;
    }
    assert s[..|a|] == a && s[..|b|] == b;
  }
}
