/** Line-preferred units: where each unit of a text ends and which lines it
    touches. */
module Layout {
  import opened Wrappers
  import opened Text
  import opened Lines
  import opened UnitSpans

  /** Some line ends in `(low, high]`. */
  ghost predicate LineEndsIn(t: seq<Byte>, low: nat, high: nat) {
    exists e: nat :: low < e <= high && IsLineEnd(t, e)
  }

  ghost predicate BoundaryIn(t: seq<Byte>, low: nat, high: nat) {
    exists e: nat :: low < e <= high && Boundary(t, e)
  }

  function Min(a: nat, b: nat): nat {
    if a <= b then a else b
  }

  /** Where the unit that begins at `start` ends: the whole rest when it is
      short; else the last line end in the preferred reach; else the first
      line end in the hard reach; else the last scalar boundary in the
      preferred reach; else the first one after `start`. */
  ghost predicate UnitRule(t: seq<Byte>, start: nat, end: nat, preferred: nat, hard: nat) {
    var soft, reach := Min(start + preferred, |t|), Min(start + hard, |t|);
    if |t| <= start + preferred then end == |t|
    else if LineEndsIn(t, start, soft) then
      start < end <= soft && IsLineEnd(t, end) && !LineEndsIn(t, end, soft)
    else if LineEndsIn(t, start, reach) then
      start < end <= reach && IsLineEnd(t, end) && (forall e: nat :: start < e < end ==> !IsLineEnd(t, e))
    else if BoundaryIn(t, start, soft) then
      start < end <= soft && Boundary(t, end) && !BoundaryIn(t, end, soft)
    else
      start < end <= reach && Boundary(t, end) && (forall e: nat :: start < e < end ==> !Boundary(t, e))
  }

  /** The line coordinates of a unit. */
  predicate UnitFacts(t: seq<Byte>, u: UnitSpan) {
    var lines := AllLines(t);
    var first, last := Below(lines, u.start + 1), Below(lines, u.end);
    && first < |lines| && last < |lines|
    && u.lineStart == lines[first].index && u.lineEnd == lines[last].index + 1
    && u.startsAtLine == (lines[first].start == u.start)
    && u.endsAtLine == (lines[last].end == u.end)
  }

  /** One unit of a text: aligned, within the hard size, with its lines. */
  predicate UnitOk(t: seq<Byte>, u: UnitSpan, hard: nat) {
    && u.start < u.end <= |t| && u.end - u.start <= hard
    && Boundary(t, u.start) && Boundary(t, u.end)
    && UnitFacts(t, u)
  }

  /** Units of a text in order, from its start to `end`. */
  predicate UnitsTo(t: seq<Byte>, units: seq<UnitSpan>, end: nat, hard: nat) {
    && (forall i :: 0 <= i < |units| ==> UnitOk(t, units[i], hard))
    && Partition(units, end)
  }

  // ------------------------------------------------------ line end facts

  lemma LineEndsAreBoundaries(t: seq<Byte>, e: nat)
    requires Valid(t) && IsLineEnd(t, e)
    ensures 0 < e <= |t| && Boundary(t, e)
  {
    var k :| 0 <= k < |AllLines(t)| && AllLines(t)[k].end == e;
    LineIsScanned(t, 0, 0, k);
    var line := AllLines(t)[k];
    if e < |t| {
      assert line.contentEnd < |t|;
      AfterAscii(t, e - 1);
    }
  }

  lemma TextEndIsLineEnd(t: seq<Byte>)
    requires t != []
    ensures IsLineEnd(t, |t|)
  {
    AllLinesConsecutive(t);
    assert AllLines(t)[|AllLines(t)| - 1].end == |t|;
  }

  lemma SideOf(lines: seq<LineSpan>, n: nat, k: nat, high: nat, j: nat)
    requires Consecutive(lines, 0, n, 0) && k <= |lines| && j < |lines|
    requires forall i :: 0 <= i < k ==> lines[i].end <= high
    requires k < |lines| ==> lines[k].end > high
    ensures lines[j].end <= high ==> k > 0 && lines[j].end <= lines[k - 1].end
    ensures lines[j].end > high ==> k < |lines| && lines[k].end <= lines[j].end
  {
    hide Consecutive;
    if j + 1 < k { EndsIncrease(lines, 0, n, 0, j, k - 1); }
    if k < j { EndsIncrease(lines, 0, n, 0, k, j); }
  }

  /** A line end lies on the side of the lookup that its position says. */
  lemma LineEndSide(t: seq<Byte>, high: nat, e: nat)
    requires IsLineEnd(t, e)
    ensures var lines, k := AllLines(t), Below(AllLines(t), high + 1);
            && (e <= high ==> k > 0 && e <= lines[k - 1].end)
            && (e > high ==> k < |lines| && lines[k].end <= e)
  {
    hide AllLines, Consecutive, Below;
    AllLinesConsecutive(t);
    var lines := AllLines(t);
    var j :| 0 <= j < |lines| && lines[j].end == e;
    SideOf(lines, |t|, Below(lines, high + 1), high, j);
  }

  /** The last line end up to `high` and the first one past it. */
  lemma LookupBelow(t: seq<Byte>, high: nat)
    ensures var lines, k := AllLines(t), Below(AllLines(t), high + 1);
            && (forall e: nat :: IsLineEnd(t, e) && e <= high ==> k > 0 && e <= lines[k - 1].end)
            && (forall e: nat :: IsLineEnd(t, e) && e > high ==> k < |lines| && lines[k].end <= e)
            && (k > 0 ==> IsLineEnd(t, lines[k - 1].end) && lines[k - 1].end <= high)
            && (k < |lines| ==> IsLineEnd(t, lines[k].end) && lines[k].end > high)
  {
    var lines, k := AllLines(t), Below(AllLines(t), high + 1);
    assert k > 0 ==> IsLineEnd(t, lines[k - 1].end);
    assert k < |lines| ==> IsLineEnd(t, lines[k].end);
    hide IsLineEnd, AllLines;
    forall e: nat | IsLineEnd(t, e)
      ensures e <= high ==> k > 0 && e <= lines[k - 1].end
      ensures e > high ==> k < |lines| && lines[k].end <= e
    {
      LineEndSide(t, high, e);
    }
  }

  // ---------------------------------------------------------- choose_end

  /** Picks the end of the unit at `start`, or refuses a scalar that cannot
      fit within the hard size. */
  method ChooseEnd(t: seq<Byte>, lines: seq<LineSpan>, start: nat, preferred: nat, hard: nat) returns (r: Option<nat>)
    requires Valid(t) && lines == AllLines(t) && start < |t| && Boundary(t, start) && 0 < preferred <= hard
    ensures r.Some? ==> UnitRule(t, start, r.value, preferred, hard)
    ensures r.Some? ==> start < r.value <= Min(start + hard, |t|) && Boundary(t, r.value)
    ensures r.None? <==> ScalarLen(t, start) > hard
  {
    hide AllLines, IsLineEnd, Valid, ScalarLen;
    NextBoundary(t, start);
    var soft, reach := Min(start + preferred, |t|), Min(start + hard, |t|);
    if reach == |t| && |t| - start <= preferred { return Some(|t|); }
    var after := Below(lines, soft + 1);
    LookupBelow(t, soft);
    if after > 0 && lines[after - 1].end > start {
      r := Some(lines[after - 1].end);
      LineEndsAreBoundaries(t, r.value);
      return;
    }
    assert !LineEndsIn(t, start, soft);
    if after < |lines| && lines[after].end <= reach {
      r := Some(lines[after].end);
      LineEndsAreBoundaries(t, r.value);
      assert LineEndsIn(t, start, reach);
      return;
    }
    assert !LineEndsIn(t, start, reach);
    var end := soft;
    while end > start && !Boundary(t, end)
      invariant start <= end <= soft
      invariant forall e: nat :: end < e <= soft ==> !Boundary(t, e)
    {
      end := end - 1;
    }
    if end > start {
      assert BoundaryIn(t, start, soft);
      return Some(end);
    }
    end := start + 1;
    while end <= reach && !Boundary(t, end)
      invariant start < end <= reach + 1
      invariant forall e: nat :: start < e < end ==> !Boundary(t, e)
    {
      end := end + 1;
    }
    if end > reach { return None; }
    return Some(end);
  }

  /** A unit ends on a line boundary exactly when some line ends within its
      hard reach. */
  lemma LineBoundaryIffReachable(t: seq<Byte>, start: nat, end: nat, preferred: nat, hard: nat)
    requires 0 < preferred <= hard && start < |t|
    requires UnitRule(t, start, end, preferred, hard)
    ensures IsLineEnd(t, end) <==> LineEndsIn(t, start, Min(start + hard, |t|))
  {
    TextEndIsLineEnd(t);
    hide AllLines;
    var soft, reach := Min(start + preferred, |t|), Min(start + hard, |t|);
    assert start < end <= reach;
    assert IsLineEnd(t, end) ==> LineEndsIn(t, start, reach);
    assert LineEndsIn(t, start, soft) ==> LineEndsIn(t, start, reach);
    assert LineEndsIn(t, start, reach) ==> IsLineEnd(t, end);
    assert LineEndsIn(t, start, Min(start + hard, |t|)) ==> IsLineEnd(t, end);
    assert IsLineEnd(t, end) ==> LineEndsIn(t, start, Min(start + hard, |t|));
  }

  // ------------------------------------------------------------- layout

  datatype LayoutError = TooManyUnits | UnitTooLarge

  /** Every unit ends where the rule says. */
  ghost predicate Ruled(t: seq<Byte>, units: seq<UnitSpan>, preferred: nat, hard: nat) {
    forall i :: 0 <= i < |units| ==> UnitRule(t, units[i].start, units[i].end, preferred, hard)
  }

  lemma AppendSpan(units: seq<UnitSpan>, start: nat, u: UnitSpan)
    requires Partition(units, start) && u.start == start < u.end
    ensures Partition(units + [u], u.end)
  {
  }

  lemma AppendUnit(t: seq<Byte>, units: seq<UnitSpan>, start: nat, u: UnitSpan, hard: nat)
    requires UnitsTo(t, units, start, hard) && u.start == start && UnitOk(t, u, hard)
    ensures UnitsTo(t, units + [u], u.end, hard)
  {
    assert u.start < u.end;
    hide UnitOk, Partition;
    AppendSpan(units, start, u);
  }

  /** The spans of one chosen unit, read off the inventory. */
  method Describe(t: seq<Byte>, lines: seq<LineSpan>, start: nat, end: nat, ghost hard: nat) returns (u: UnitSpan)
    requires lines == AllLines(t) && start < end <= |t| && end - start <= hard
    requires Boundary(t, start) && Boundary(t, end)
    ensures UnitOk(t, u, hard) && u.start == start && u.end == end
  {
    hide AllLines;
    BelowInside(t, start + 1);
    BelowInside(t, end);
    var first := lines[Below(lines, start + 1)];
    var last := lines[Below(lines, end)];
    u := UnitSpan(start, end, first.index, last.index + 1, first.start == start, last.end == end);
  }

  /** A complete layout of the text within a number of units. */
  ghost predicate LaidOut(t: seq<Byte>, units: seq<UnitSpan>, preferred: nat, hard: nat, maximum: nat) {
    UnitsTo(t, units, |t|, hard) && Ruled(t, units, preferred, hard) && |units| <= maximum
  }

  /** Cuts the whole text into units, left to right; refuses only a text that
      has no layout. */
  method Unitize(t: seq<Byte>, lines: seq<LineSpan>, preferred: nat, hard: nat, maximum: nat)
    returns (r: Result<seq<UnitSpan>, LayoutError>)
    requires Valid(t) && lines == AllLines(t) && 0 < preferred <= hard
    ensures r.Ok? ==> LaidOut(t, r.value, preferred, hard, maximum)
    ensures r.Err? ==> forall vs :: !LaidOut(t, vs, preferred, hard, maximum)
    ensures r == Err(UnitTooLarge) ==> exists i :: 0 <= i < |t| && Boundary(t, i) && ScalarLen(t, i) > hard
    ensures r == Err(UnitTooLarge) ==> hard < 4
    ensures r == Err(TooManyUnits) ==>
              exists units, end: nat :: UnitsTo(t, units, end, hard) && Ruled(t, units, preferred, hard)
                                        && |units| == maximum && end < |t|
  {
    hide Valid, AllLines, UnitRule, UnitsTo, UnitOk, LaidOut;
    var units: seq<UnitSpan>, start := [], 0;
    NoUnits(t, hard);
    while start < |t|
      invariant start <= |t| && Boundary(t, start) && |units| <= maximum
      invariant UnitsTo(t, units, start, hard) && Ruled(t, units, preferred, hard)
    {
      if |units| >= maximum {
        forall vs ensures !LaidOut(t, vs, preferred, hard, maximum) {
          TooMany(t, units, start, vs, preferred, hard, maximum);
        }
        return Err(TooManyUnits);
      }
      var end := ChooseEnd(t, lines, start, preferred, hard);
      if end.None? {
        forall vs ensures !LaidOut(t, vs, preferred, hard, maximum) {
          TooLong(t, units, start, vs, preferred, hard, maximum);
        }
        return Err(UnitTooLarge);
      }
      var u := Describe(t, lines, start, end.value, hard);
      AppendUnit(t, units, start, u, hard);
      units := units + [u];
      start := end.value;
    }
    Complete(t, units, preferred, hard, maximum);
    return Ok(units);
  }

  lemma NoUnits(t: seq<Byte>, hard: nat)
    ensures UnitsTo(t, [], 0, hard)
  {
  }

  lemma RuleIsExact(t: seq<Byte>, start: nat, a: nat, b: nat, preferred: nat, hard: nat)
    requires UnitRule(t, start, a, preferred, hard) && UnitRule(t, start, b, preferred, hard)
    ensures a == b
  {
    hide IsLineEnd, Boundary;
  }

  /** A partition is complete exactly when its last end is the length. */
  lemma Covered(units: seq<UnitSpan>, length: nat, k: nat)
    requires Partition(units, length) && k <= |units|
    ensures k == |units| <==> (if k == 0 then 0 else units[k - 1].end) == length
  {
    if k < |units| { CoveredFrom(units, length, k); }
  }

  lemma {:induction false} CoveredFrom(units: seq<UnitSpan>, length: nat, k: nat)
    requires Partition(units, length) && k < |units|
    ensures units[k].start < length
    decreases |units| - k
  {
    if k + 1 < |units| {
      CoveredFrom(units, length, k + 1);
      assert units[k + 1].start == units[k].end;
    }
  }

  lemma SameFacts(t: seq<Byte>, u: UnitSpan, v: UnitSpan)
    requires UnitFacts(t, u) && UnitFacts(t, v) && u.start == v.start && u.end == v.end
    ensures u == v
  {
  }

  /** Units that follow the rule up to some position begin every complete
      layout of the text. */
  lemma {:induction false} LayoutPrefix(t: seq<Byte>, us: seq<UnitSpan>, end: nat, vs: seq<UnitSpan>, k: nat,
                                        preferred: nat, hard: nat)
    requires UnitsTo(t, us, end, hard) && Ruled(t, us, preferred, hard)
    requires UnitsTo(t, vs, |t|, hard) && Ruled(t, vs, preferred, hard)
    requires k <= |us|
    ensures k <= |vs| && us[..k] == vs[..k]
  {
    hide UnitRule, UnitFacts, Boundary;
    if k > 0 {
      LayoutPrefix(t, us, end, vs, k - 1, preferred, hard);
      var u := us[k - 1];
      Covered(vs, |t|, k - 1);
      if k > 1 {
        assert us[..k - 1][k - 2] == vs[..k - 1][k - 2];
        assert u.start == us[k - 2].end;
      }
      var v := vs[k - 1];
      RuleIsExact(t, u.start, u.end, v.end, preferred, hard);
      SameFacts(t, u, v);
    }
  }

  /** The layout of a text is determined: no two unit lists follow the rule. */
  lemma LayoutIsExact(t: seq<Byte>, us: seq<UnitSpan>, vs: seq<UnitSpan>, preferred: nat, hard: nat)
    requires UnitsTo(t, us, |t|, hard) && Ruled(t, us, preferred, hard)
    requires UnitsTo(t, vs, |t|, hard) && Ruled(t, vs, preferred, hard)
    ensures us == vs
  {
    hide UnitsTo, Ruled;
    LayoutPrefix(t, us, |t|, vs, |us|, preferred, hard);
    LayoutPrefix(t, vs, |t|, us, |vs|, preferred, hard);
    assert us == us[..|us|] && vs == vs[..|vs|];
  }

  /** A complete layout goes on where an incomplete one stops. */
  lemma GoesOn(t: seq<Byte>, units: seq<UnitSpan>, start: nat, vs: seq<UnitSpan>,
               preferred: nat, hard: nat, maximum: nat)
    requires UnitsTo(t, units, start, hard) && Ruled(t, units, preferred, hard) && start < |t|
    requires LaidOut(t, vs, preferred, hard, maximum)
    ensures |units| < |vs| && vs[|units|].start == start
  {
    hide UnitRule, UnitOk;
    LayoutPrefix(t, units, start, vs, |units|, preferred, hard);
    var k := |units|;
    Covered(vs, |t|, k);
    Covered(units, start, k);
    if k > 0 { assert units[..k][k - 1] == vs[..k][k - 1]; }
  }

  lemma TooMany(t: seq<Byte>, units: seq<UnitSpan>, start: nat, vs: seq<UnitSpan>,
                preferred: nat, hard: nat, maximum: nat)
    requires UnitsTo(t, units, start, hard) && Ruled(t, units, preferred, hard) && start < |t| && |units| >= maximum
    ensures !LaidOut(t, vs, preferred, hard, maximum)
  {
    if LaidOut(t, vs, preferred, hard, maximum) {
      GoesOn(t, units, start, vs, preferred, hard, maximum);
    }
  }

  lemma TooLong(t: seq<Byte>, units: seq<UnitSpan>, start: nat, vs: seq<UnitSpan>,
                preferred: nat, hard: nat, maximum: nat)
    requires Valid(t) && UnitsTo(t, units, start, hard) && Ruled(t, units, preferred, hard)
    requires start < |t| && Boundary(t, start) && ScalarLen(t, start) > hard
    ensures !LaidOut(t, vs, preferred, hard, maximum)
  {
    if LaidOut(t, vs, preferred, hard, maximum) {
      GoesOn(t, units, start, vs, preferred, hard, maximum);
      NextBoundary(t, start);
      hide Valid, Boundary, ScalarLen, UnitRule;
    }
  }

  lemma Complete(t: seq<Byte>, units: seq<UnitSpan>, preferred: nat, hard: nat, maximum: nat)
    requires UnitsTo(t, units, |t|, hard) && Ruled(t, units, preferred, hard) && |units| <= maximum
    ensures LaidOut(t, units, preferred, hard, maximum)
  {
  }
}
