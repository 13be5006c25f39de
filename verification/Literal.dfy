/** Literal matching: the compiled prefix table and the block-wise scan. */
module Literal {
  import opened Wrappers
  import opened Text

  const BLOCK_BYTES: nat := 8192

  /** `b` bytes both begin and end the first `n` bytes of the literal. */
  predicate IsBorder(w: seq<Byte>, n: nat, b: nat) {
    b < n <= |w| && w[..b] == w[n - b..n]
  }

  /** The longest proper border of the first `n` bytes. */
  predicate LongestBorder(w: seq<Byte>, n: nat, b: nat) {
    IsBorder(w, n, b) && forall c :: b < c < n ==> !IsBorder(w, n, c)
  }

  /** The table holds the longest proper border of every prefix it covers. */
  predicate IsTable(w: seq<Byte>, prefix: seq<nat>) {
    |prefix| <= |w| && forall k :: 0 <= k < |prefix| ==> LongestBorder(w, k + 1, prefix[k])
  }

  /** The first `m` bytes of the literal end the first `i` bytes of the text. */
  predicate Suffix(w: seq<Byte>, t: seq<Byte>, i: nat, m: nat) {
    m <= |w| && m <= i <= |t| && w[..m] == t[i - m..i]
  }

  predicate OccursAt(w: seq<Byte>, t: seq<Byte>, s: nat) {
    s + |w| <= |t| && t[s..s + |w|] == w
  }

  /** Starts of the occurrences that end within the first `i` bytes. */
  function OccurrencesTo(w: seq<Byte>, t: seq<Byte>, i: nat): seq<nat>
    requires i <= |t|
  {
    if i == 0 then []
    else OccurrencesTo(w, t, i - 1) + if |w| <= i && OccursAt(w, t, i - |w|) then [i - |w|] else []
  }

  function Occurrences(w: seq<Byte>, t: seq<Byte>): seq<nat> {
    OccurrencesTo(w, t, |t|)
  }

  /** The list holds every occurrence, overlapping or not. */
  lemma {:induction false} OccurrencesAre(w: seq<Byte>, t: seq<Byte>, i: nat, s: nat)
    requires i <= |t| && w != []
    ensures s in OccurrencesTo(w, t, i) <==> s + |w| <= i && OccursAt(w, t, s)
  {
    hide OccursAt;
    if i > 0 { OccurrencesAre(w, t, i - 1, s); }
  }

  /** They are listed once each in ascending order, at most one a byte. */
  lemma {:induction false} OccurrencesAscend(w: seq<Byte>, t: seq<Byte>, i: nat)
    requires i <= |t| && w != []
    ensures forall j, k :: 0 <= j < k < |OccurrencesTo(w, t, i)| ==> OccurrencesTo(w, t, i)[j] < OccurrencesTo(w, t, i)[k]
    ensures forall k :: 0 <= k < |OccurrencesTo(w, t, i)| ==> OccurrencesTo(w, t, i)[k] + |w| <= i
    ensures |OccurrencesTo(w, t, i)| <= i
  {
    hide OccursAt;
    if i > 0 { OccurrencesAscend(w, t, i - 1); }
  }

  // ------------------------------------------------------------ borders

  /** A text suffix that is a literal prefix, cut to a border, still is one. */
  lemma SuffixOfSuffix(w: seq<Byte>, t: seq<Byte>, i: nat, m: nat, b: nat)
    requires Suffix(w, t, i, m) && b < m
    ensures Suffix(w, t, i, b) <==> IsBorder(w, m, b)
  {
    assert t[i - m..i][m - b..] == t[i - b..i];
    assert w[..m][m - b..] == w[m - b..m];
  }

  lemma BorderOfBorder(w: seq<Byte>, n: nat, m: nat, b: nat)
    requires IsBorder(w, n, m) && b < m
    ensures IsBorder(w, n, b) <==> IsBorder(w, m, b)
  {
    assert w[n - m..n][m - b..] == w[n - b..n];
    assert w[..m][m - b..] == w[m - b..m];
  }

  /** A border grows by one byte exactly when that byte continues it. */
  lemma BorderGrows(w: seq<Byte>, n: nat, b: nat)
    requires n < |w| && b < n
    ensures IsBorder(w, n + 1, b + 1) <==> IsBorder(w, n, b) && w[b] == w[n]
  {
    assert w[..b + 1] == w[..b] + [w[b]];
    assert w[n - b..n + 1] == w[n - b..n] + [w[n]];
  }

  lemma SuffixGrows(w: seq<Byte>, t: seq<Byte>, i: nat, m: nat)
    requires i < |t| && m < |w|
    ensures Suffix(w, t, i + 1, m + 1) <==> Suffix(w, t, i, m) && w[m] == t[i]
  {
    if m <= i {
      assert w[..m + 1] == w[..m] + [w[m]];
      assert t[i - m..i + 1] == t[i - m..i] + [t[i]];
    }
  }

  // ------------------------------------------------------ prefix table

  /** No border longer than `m` can be continued by the next byte. */
  predicate Exhausted(w: seq<Byte>, n: nat, m: nat)
    requires n < |w|
  {
    IsBorder(w, n, m) && forall c :: m < c < n && IsBorder(w, n, c) ==> w[c] != w[n]
  }

  lemma FallBack(w: seq<Byte>, n: nat, m: nat, b: nat)
    requires n < |w| && Exhausted(w, n, m) && m > 0 && w[m] != w[n] && LongestBorder(w, m, b)
    ensures Exhausted(w, n, b)
  {
    BorderOfBorder(w, n, m, b);
    forall c | b < c < n && IsBorder(w, n, c) ensures w[c] != w[n] {
      if c < m { BorderOfBorder(w, n, m, c); }
    }
  }

  lemma Settled(w: seq<Byte>, n: nat, m: nat)
    requires 0 < n < |w| && Exhausted(w, n, m) && (m == 0 || w[m] == w[n])
    ensures LongestBorder(w, n + 1, if w[n] == w[m] then m + 1 else 0)
  {
    var b := if w[n] == w[m] then m + 1 else 0;
    var next := n + 1;
    BorderGrows(w, n, m);
    forall c | b < c < next ensures !IsBorder(w, next, c) {
      BorderGrows(w, n, c - 1);
    }
  }

  /** Compiles the table of longest proper borders; an empty literal has
      none and is refused. */
  method Compile(w: seq<Byte>) returns (r: Option<seq<nat>>)
    ensures r.None? <==> w == []
    ensures r.Some? ==> |r.value| == |w| && IsTable(w, r.value)
  {
    hide LongestBorder, IsBorder, Exhausted;
    if w == [] { return None; }
    var prefix: seq<nat> := [0];
    var matched: nat := 0;
    FirstBorder(w);
    while |prefix| < |w|
      invariant 0 < |prefix| <= |w| && IsTable(w, prefix) && matched == prefix[|prefix| - 1]
    {
      var n := |prefix|;
      StartFall(w, n, matched);
      while matched != 0 && w[n] != w[matched]
        invariant matched < n == |prefix| && Exhausted(w, n, matched)
        decreases matched
      {
        assert LongestBorder(w, matched, prefix[matched - 1]);
        FallBack(w, n, matched, prefix[matched - 1]);
        Shorter(w, matched, prefix[matched - 1]);
        matched := prefix[matched - 1];
      }
      Settled(w, n, matched);
      if w[n] == w[matched] { matched := matched + 1; }
      prefix := prefix + [matched];
    }
    return Some(prefix);
  }

  lemma FirstBorder(w: seq<Byte>)
    requires w != []
    ensures LongestBorder(w, 1, 0)
  {
  }

  lemma StartFall(w: seq<Byte>, n: nat, m: nat)
    requires 0 < n < |w| && LongestBorder(w, n, m)
    ensures Exhausted(w, n, m) && m < n
  {
  }

  lemma Shorter(w: seq<Byte>, n: nat, b: nat)
    requires LongestBorder(w, n, b)
    ensures b < n
  {
  }

  // ------------------------------------------------------------- scanning

  /** `m` is the longest literal prefix, short of the whole, that ends here. */
  predicate Longest(w: seq<Byte>, t: seq<Byte>, i: nat, m: nat) {
    m < |w| && Suffix(w, t, i, m) && forall c :: m < c < |w| ==> !Suffix(w, t, i, c)
  }

  /** No suffix longer than `m` can be continued by the next byte. */
  predicate Tried(w: seq<Byte>, t: seq<Byte>, i: nat, m: nat)
    requires i < |t|
  {
    m < |w| && Suffix(w, t, i, m) && forall c :: m < c < |w| && Suffix(w, t, i, c) ==> w[c] != t[i]
  }

  lemma Retry(w: seq<Byte>, t: seq<Byte>, i: nat, m: nat, b: nat)
    requires i < |t| && Tried(w, t, i, m) && m > 0 && w[m] != t[i] && LongestBorder(w, m, b)
    ensures Tried(w, t, i, b)
  {
    SuffixOfSuffix(w, t, i, m, b);
    forall c | b < c < |w| && Suffix(w, t, i, c) ensures w[c] != t[i] {
      if c < m { SuffixOfSuffix(w, t, i, m, c); }
    }
  }

  /** What the accepted byte leaves: the longest prefix, whole or not. */
  lemma Advance(w: seq<Byte>, t: seq<Byte>, i: nat, m: nat, next: nat)
    requires i < |t| && next == i + 1 && Tried(w, t, i, m) && (m == 0 || w[m] == t[i])
    ensures var b := if w[m] == t[i] then m + 1 else 0;
            Suffix(w, t, next, b) && forall c :: b < c <= |w| ==> !Suffix(w, t, next, c)
  {
    var b := if w[m] == t[i] then m + 1 else 0;
    SuffixGrows(w, t, i, m);
    forall c | b < c <= |w| ensures !Suffix(w, t, next, c) {
      SuffixGrows(w, t, i, c - 1);
    }
  }

  /** After a whole match the scan goes on from its longest border, so that an
      overlapping occurrence is not lost. */
  lemma Restart(w: seq<Byte>, t: seq<Byte>, i: nat, b: nat)
    requires w != [] && Suffix(w, t, i, |w|) && LongestBorder(w, |w|, b)
    ensures Longest(w, t, i, b)
  {
    SuffixOfSuffix(w, t, i, |w|, b);
    forall c | b < c < |w| ensures !Suffix(w, t, i, c) {
      SuffixOfSuffix(w, t, i, |w|, c);
    }
  }

  lemma WholeSuffix(w: seq<Byte>, t: seq<Byte>, i: nat)
    requires i <= |t|
    ensures Suffix(w, t, i, |w|) <==> |w| <= i && OccursAt(w, t, i - |w|)
  {
    assert w[..|w|] == w;
  }

  /** Scans the text in blocks and reports every occurrence. The automaton
      survives block boundaries, and falls back no more often than it has
      consumed bytes. */
  method Scan(w: seq<Byte>, prefix: seq<nat>, t: seq<Byte>) returns (found: seq<nat>, ghost fallbacks: nat)
    requires w != [] && |prefix| == |w| && IsTable(w, prefix)
    ensures found == Occurrences(w, t)
    ensures fallbacks <= |t|
  {
    hide IsTable, LongestBorder, Suffix, Longest, Tried, OccursAt;
    found, fallbacks := [], 0;
    var matched: nat := 0;
    NothingMatched(w, t);
    var consumed: nat := 0;
    while consumed < |t|
      invariant consumed <= |t| && matched < |w| && Longest(w, t, consumed, matched)
      invariant found == OccurrencesTo(w, t, consumed) && fallbacks + matched <= consumed
    {
      var size := if |t| - consumed <= BLOCK_BYTES then |t| - consumed else BLOCK_BYTES;
      var index: nat := 0;
      while index < size
        invariant index <= size && consumed + size <= |t|
        invariant matched < |w| && Longest(w, t, consumed + index, matched)
        invariant found == OccurrencesTo(w, t, consumed + index) && fallbacks + matched <= consumed + index
      {
        var i := consumed + index;
        StartTry(w, t, i, matched);
        while matched != 0 && t[i] != w[matched]
          invariant matched < |w| && Tried(w, t, i, matched) && fallbacks + matched <= i
          decreases matched
        {
          TableAt(w, prefix, matched);
          Retry(w, t, i, matched, prefix[matched - 1]);
          matched := prefix[matched - 1];
          fallbacks := fallbacks + 1;
        }
        Advance(w, t, i, matched, i + 1);
        if t[i] == w[matched] { matched := matched + 1; }
        WholeSuffix(w, t, i + 1);
        if matched == |w| {
          found := found + [i + 1 - |w|];
          TableAt(w, prefix, matched);
          Restart(w, t, i + 1, prefix[matched - 1]);
          matched := prefix[matched - 1];
        } else {
          NotWhole(w, t, i + 1, matched);
        }
        index := index + 1;
      }
      consumed := consumed + size;
    }
  }

  lemma NothingMatched(w: seq<Byte>, t: seq<Byte>)
    requires w != []
    ensures Longest(w, t, 0, 0)
  {
  }

  lemma StartTry(w: seq<Byte>, t: seq<Byte>, i: nat, m: nat)
    requires i < |t| && Longest(w, t, i, m)
    ensures Tried(w, t, i, m)
  {
  }

  lemma TableAt(w: seq<Byte>, prefix: seq<nat>, m: nat)
    requires IsTable(w, prefix) && 0 < m <= |prefix|
    ensures LongestBorder(w, m, prefix[m - 1]) && prefix[m - 1] < m
  {
  }

  lemma NotWhole(w: seq<Byte>, t: seq<Byte>, i: nat, m: nat)
    requires Suffix(w, t, i, m) && m < |w| && forall c :: m < c <= |w| ==> !Suffix(w, t, i, c)
    ensures Longest(w, t, i, m) && !Suffix(w, t, i, |w|)
  {
  }

  // ------------------------------------------- self-synchronization

  lemma {:induction false} ScalarsAgree(w: seq<Byte>, t: seq<Byte>, s: nat, i: nat)
    requires OccursAt(w, t, s) && i <= |w| && ValidFrom(w, i) && ValidFrom(t, s + i)
    ensures ValidFrom(t, s + |w|)
    decreases |w| - i
  {
    if i < |w| {
      var n := ScalarLen(w, i);
      assert forall k :: i <= k < i + n ==> w[k] == t[s + k];
      assert ScalarLen(t, s + i) == n;
      ScalarsAgree(w, t, s, i + n);
    }
  }

  /** Wherever valid UTF-8 occurs byte for byte in valid UTF-8, it starts and
      ends between scalars, and what lies between is the literal. */
  lemma MatchesAreAligned(w: seq<Byte>, t: seq<Byte>, s: nat)
    requires Valid(w) && Valid(t) && w != [] && OccursAt(w, t, s)
    ensures Boundary(t, s) && Boundary(t, s + |w|) && t[s..s + |w|] == w
  {
    assert t[s] == t[s..s + |w|][0];
    assert ScalarLen(w, 0) > 0;
    BoundaryIsScalarStart(t, s);
    ScalarsAgree(w, t, s, 0);
    BoundaryIsScalarStart(t, s + |w|);
  }
}
