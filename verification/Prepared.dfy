/** Producing and accepting prepared artifacts. */
module Prepared {
  import opened Wrappers
  import opened Text
  import opened Lines
  import opened UnitSpans
  import opened Layout
  import opened Wire
  import opened Artifact
  import Control

  // ---------------------------------------------------- streaming lines

  /** The cursor has read the lines up to and including `line`. */
  ghost predicate Reached(cursor: Cursor, line: LineSpan)
    reads cursor
  {
    && cursor.Valid() && 0 < cursor.index <= |AllLines(cursor.bytes)|
    && line == AllLines(cursor.bytes)[cursor.index - 1]
  }

  /** Moves the cursor forward to the line that reaches `bound`: the line a
      lookup in the whole inventory would find. */
  method Seek(cursor: Cursor, from: LineSpan, bound: nat, maximum: nat) returns (r: Option<LineSpan>)
    requires Reached(cursor, from) && 0 < bound <= |cursor.bytes| && cursor.index <= maximum
    requires cursor.index - 1 <= Below(AllLines(cursor.bytes), bound)
    modifies cursor
    ensures r.None? ==> |AllLines(cursor.bytes)| > maximum
    ensures r.Some? ==> Reached(cursor, r.value) && cursor.index - 1 == Below(AllLines(cursor.bytes), bound)
                        && cursor.index <= maximum
                        && Below(AllLines(cursor.bytes), bound) < |AllLines(cursor.bytes)|
                        && r.value == AllLines(cursor.bytes)[Below(AllLines(cursor.bytes), bound)]
  {
    hide AllLines, Below;
    ghost var lines := AllLines(cursor.bytes);
    BelowInside(cursor.bytes, bound);
    var line := from;
    while line.end < bound
      invariant Reached(cursor, line) && cursor.index - 1 <= Below(lines, bound) && cursor.index <= maximum
      decreases Below(lines, bound) - cursor.index + 1
    {
      var next := cursor.Next(maximum);
      if next.Err? { return None; }
      line := next.value.value;
    }
    return Some(line);
  }

  // ------------------------------------------------------- saved units

  /** Units that the rest of an artifact could be read as. */
  ghost predicate Candidate(rest: seq<Byte>, count: nat, text: seq<Byte>, hard: nat, maxLines: nat, units: seq<UnitSpan>) {
    && |units| == count && rest == EncodeUnits(units)
    && UnitsTo(text, units, |text|, hard) && |AllLines(text)| <= maxLines
  }

  /** What every candidate must begin with after `units` were read. */
  ghost predicate Forced(rest: seq<Byte>, count: nat, text: seq<Byte>, hard: nat, maxLines: nat, units: seq<UnitSpan>) {
    forall us :: Candidate(rest, count, text, hard, maxLines, us) ==> |units| <= |us| && us[..|units|] == units
  }

  lemma StartOf(text: seq<Byte>, units: seq<UnitSpan>, end: nat, hard: nat, us: seq<UnitSpan>)
    requires UnitsTo(text, units, end, hard) && UnitsTo(text, us, |text|, hard)
    requires |units| < |us| && us[..|units|] == units
    ensures us[|units|].start == end
  {
    hide UnitOk;
    if units != [] {
      assert us[..|units|][|units| - 1] == units[|units| - 1];
    }
  }

  /** The next unit is forced too: it is the one just read. */
  lemma ForcedNext(rest: seq<Byte>, count: nat, text: seq<Byte>, hard: nat, maxLines: nat,
                   units: seq<UnitSpan>, end: nat, u: UnitSpan)
    requires Forced(rest, count, text, hard, maxLines, units) && UnitsTo(text, units, end, hard)
    requires |text| < U64 && |units| < count && |rest| == UNIT_BYTES * count && TypedUnit(u)
    requires rest[UNIT_BYTES * |units|..UNIT_BYTES * (|units| + 1)] == EncodeUnit(u)
    ensures Forced(rest, count, text, hard, maxLines, units + [u])
    ensures !(UnitOk(text, u, hard) && u.start == end) ==>
              forall us :: !Candidate(rest, count, text, hard, maxLines, us)
  {
    hide UnitOk, EncodeUnits, EncodeUnit, TypedUnit, AllLines;
    var i := |units|;
    forall us | Candidate(rest, count, text, hard, maxLines, us)
      ensures us[..i + 1] == units + [u] && UnitOk(text, u, hard) && u.start == end
    {
      UnitBytesAt(us, i);
      assert UnitOk(text, us[i], hard);
      UnitsAreTyped(text, us[i], hard);
      UnitInjective(us[i], u);
      StartOf(text, units, end, hard, us);
      assert us[..i + 1] == us[..i] + [us[i]];
    }
  }

  lemma NoCandidate(rest: seq<Byte>, count: nat, text: seq<Byte>, hard: nat, maxLines: nat, i: nat)
    requires i < count && |rest| == UNIT_BYTES * count
    requires forall u :: rest[UNIT_BYTES * i..UNIT_BYTES * (i + 1)] != EncodeUnit(u)
    ensures forall us :: !Candidate(rest, count, text, hard, maxLines, us)
  {
    hide UnitsTo, EncodeUnits, EncodeUnit, AllLines;
    forall us ensures !Candidate(rest, count, text, hard, maxLines, us) {
      if Candidate(rest, count, text, hard, maxLines, us) {
        UnitBytesAt(us, i);
      }
    }
  }

  /** Alignment and size of a unit, before its lines are looked at. */
  predicate Placed(t: seq<Byte>, u: UnitSpan, hard: nat) {
    && u.start < u.end <= |t| && u.end - u.start <= hard
    && Boundary(t, u.start) && Boundary(t, u.end)
  }

  lemma PlacedOrNot(t: seq<Byte>, u: UnitSpan, hard: nat)
    ensures UnitOk(t, u, hard) ==> Placed(t, u, hard)
  {
  }

  lemma FactsOf(t: seq<Byte>, u: UnitSpan, hard: nat, first: LineSpan, last: LineSpan)
    requires Placed(t, u, hard)
    requires Below(AllLines(t), u.start + 1) < |AllLines(t)| && first == AllLines(t)[Below(AllLines(t), u.start + 1)]
    requires Below(AllLines(t), u.end) < |AllLines(t)| && last == AllLines(t)[Below(AllLines(t), u.end)]
    ensures UnitOk(t, u, hard)
            <==> && u.lineStart == first.index && u.lineEnd == last.index + 1
                 && u.startsAtLine == (u.start == first.start) && u.endsAtLine == (u.end == last.end)
  {
    hide AllLines, Below;
  }

  /** The checks made on one unit against the streaming cursor are those of
      `UnitOk`, which speaks of lookups in the whole inventory. */
  method CheckUnit(cursor: Cursor, current: LineSpan, u: UnitSpan, expected: nat, hard: nat, maxLines: nat)
    returns (r: Option<LineSpan>)
    requires Reached(cursor, current) && cursor.index <= maxLines && expected < |cursor.bytes|
    requires cursor.index - 1 <= Below(AllLines(cursor.bytes), expected + 1)
    modifies cursor
    ensures r.Some? ==>
              && UnitOk(cursor.bytes, u, hard) && u.start == expected
              && Reached(cursor, r.value) && cursor.index <= maxLines
              && cursor.index - 1 == Below(AllLines(cursor.bytes), u.end)
    ensures r.None? ==> |AllLines(cursor.bytes)| > maxLines || !(UnitOk(cursor.bytes, u, hard) && u.start == expected)
  {
    hide AllLines, Below, Boundary, UnitOk, UnitFacts, Reached;
    var text := cursor.bytes;
    PlacedOrNot(text, u, hard);
    if u.start != expected || !Placed(text, u, hard) { return None; }
    BelowMonotone(text, u.start + 1, u.end);
    var first := Seek(cursor, current, u.start + 1, maxLines);
    if first.None? { return None; }
    var last := Seek(cursor, first.value, u.end, maxLines);
    if last.None? { return None; }
    FactsOf(text, u, hard, first.value, last.value);
    if u.lineStart != first.value.index || u.lineEnd != last.value.index + 1
       || u.startsAtLine != (u.start == first.value.start) || u.endsAtLine != (u.end == last.value.end) {
      return None;
    }
    return last;
  }

  lemma BelowMonotone(t: seq<Byte>, low: nat, high: nat)
    requires low <= high
    ensures Below(AllLines(t), low) <= Below(AllLines(t), high)
  {
    var lines := AllLines(t);
    hide AllLines;
    var a, b := Below(lines, low), Below(lines, high);
    assert b < |lines| ==> lines[b].end >= low;
  }

  /** The descriptors read so far: acceptable, and forced by the bytes. */
  ghost predicate Progress(rest: seq<Byte>, count: nat, text: seq<Byte>, hard: nat, maxLines: nat,
                           units: seq<UnitSpan>, expected: nat)
  {
    && |units| <= count && expected <= |text| && |rest| == UNIT_BYTES * count
    && UnitsTo(text, units, expected, hard)
    && rest[..UNIT_BYTES * |units|] == EncodeUnits(units)
    && Forced(rest, count, text, hard, maxLines, units)
  }

  /** The cursor stands at a line no later than the next unit's first. */
  ghost predicate Following(cursor: Cursor, current: LineSpan, expected: nat, maxLines: nat)
    reads cursor
  {
    && Reached(cursor, current) && cursor.index <= maxLines
    && (expected < |cursor.bytes| ==> cursor.index - 1 <= Below(AllLines(cursor.bytes), expected + 1))
    && (expected == |cursor.bytes| ==> cursor.index == |AllLines(cursor.bytes)|)
  }

  lemma ProgressStart(rest: seq<Byte>, count: nat, text: seq<Byte>, hard: nat, maxLines: nat)
    requires |rest| == UNIT_BYTES * count
    ensures Progress(rest, count, text, hard, maxLines, [], 0)
  {
  }

  lemma ProgressNext(rest: seq<Byte>, count: nat, text: seq<Byte>, hard: nat, maxLines: nat,
                     units: seq<UnitSpan>, expected: nat, u: UnitSpan)
    requires Progress(rest, count, text, hard, maxLines, units, expected) && |units| < count
    requires |text| < U64 && TypedUnit(u)
    requires rest[UNIT_BYTES * |units|..UNIT_BYTES * (|units| + 1)] == EncodeUnit(u)
    ensures UnitOk(text, u, hard) && u.start == expected ==>
              Progress(rest, count, text, hard, maxLines, units + [u], u.end)
    ensures !(UnitOk(text, u, hard) && u.start == expected) ==>
              forall us :: !Candidate(rest, count, text, hard, maxLines, us)
  {
    hide EncodeUnits, EncodeUnit, TypedUnit, UnitsTo, Forced, UnitFacts, Boundary, Candidate;
    var i := |units|;
    ForcedNext(rest, count, text, hard, maxLines, units, expected, u);
    EncodeNext(units, u);
    assert rest[..UNIT_BYTES * (i + 1)] == rest[..UNIT_BYTES * i] + rest[UNIT_BYTES * i..UNIT_BYTES * (i + 1)];
    if UnitOk(text, u, hard) && u.start == expected { AppendUnit(text, units, expected, u, hard); }
  }

  /** Running out of bytes decides: the units end with the text or nothing
      that the bytes could mean does. */
  lemma ProgressDone(rest: seq<Byte>, count: nat, text: seq<Byte>, hard: nat, maxLines: nat,
                     units: seq<UnitSpan>, expected: nat)
    requires Progress(rest, count, text, hard, maxLines, units, expected)
    ensures |units| == count && expected == |text| && |AllLines(text)| <= maxLines ==>
              Candidate(rest, count, text, hard, maxLines, units)
    ensures |units| == count && expected != |text| ==> forall us :: !Candidate(rest, count, text, hard, maxLines, us)
    ensures |units| < count && expected == |text| ==> forall us :: !Candidate(rest, count, text, hard, maxLines, us)
  {
    hide EncodeUnits, UnitsTo, Forced, AllLines;
    if |units| == count {
      assert rest[..UNIT_BYTES * |units|] == rest;
      if expected != |text| { TooFew(rest, count, text, hard, maxLines, units, expected); }
    } else if expected == |text| {
      TooMany(rest, count, text, hard, maxLines, units);
    }
  }

  /** Reads one descriptor and checks it against the cursor. */
  method ReadNext(reader: Reader, cursor: Cursor, current: LineSpan, expected: nat, hard: nat, maxLines: nat,
                  ghost rest: seq<Byte>, ghost count: nat, ghost units: seq<UnitSpan>)
    returns (r: Option<(UnitSpan, LineSpan)>)
    requires reader.Valid() && Progress(rest, count, cursor.bytes, hard, maxLines, units, expected)
    requires |units| < count && expected < |cursor.bytes| < U64 && Following(cursor, current, expected, maxLines)
    requires reader.position + UNIT_BYTES <= |reader.bytes|
    requires reader.bytes[reader.position..reader.position + UNIT_BYTES]
             == rest[UNIT_BYTES * |units|..UNIT_BYTES * (|units| + 1)]
    modifies reader, cursor
    ensures reader.Valid()
    ensures r.Some? ==>
              && Progress(rest, count, cursor.bytes, hard, maxLines, units + [r.value.0], r.value.0.end)
              && Following(cursor, r.value.1, r.value.0.end, maxLines)
              && reader.position == old(reader.position) + UNIT_BYTES
    ensures r.None? ==> forall us :: !Candidate(rest, count, cursor.bytes, hard, maxLines, us)
  {
    hide UnitOk, EncodeUnits, EncodeUnit, AllLines, Below, Candidate, Forced, UnitsTo, Boundary, TypedUnit, Reached;
    var text := cursor.bytes;
    var read := ReadUnit(reader);
    if read.None? {
      NoCandidate(rest, count, text, hard, maxLines, |units|);
      return None;
    }
    var u := read.value;
    ProgressNext(rest, count, text, hard, maxLines, units, expected, u);
    var checked := CheckUnit(cursor, current, u, expected, hard, maxLines);
    if checked.None? {
      LongText(rest, count, text, hard, maxLines);
      return None;
    }
    AfterUnit(text, u, hard);
    return Some((u, checked.value));
  }

  /** Reads the descriptors, each checked against one forward pass over the
      text's lines; succeeds exactly when the bytes encode acceptable units. */
  method ReadUnits(reader: Reader, text: seq<Byte>, count: nat, hard: nat, maxLines: nat) returns (r: Option<seq<UnitSpan>>)
    requires reader.Valid() && |reader.bytes| == reader.position + UNIT_BYTES * count
    requires |text| < U64 && 0 < maxLines
    modifies reader
    ensures r.Some? ==> Candidate(old(reader.bytes[reader.position..]), count, text, hard, maxLines, r.value)
                        && |r.value| == count
    ensures r.None? ==> forall us :: !Candidate(old(reader.bytes[reader.position..]), count, text, hard, maxLines, us)
    ensures reader.Valid() && (r.Some? ==> reader.position == |reader.bytes|)
  {
    hide EncodeUnits, EncodeUnit, AllLines, Below, Candidate, Progress, Following;
    ghost var base := reader.position;
    ghost var rest := reader.bytes[base..];
    if (text == []) != (count == 0) {
      CountMatches(rest, count, text, hard, maxLines);
      return None;
    }
    var cursor := new Cursor(text);
    LinesOf(text);
    var first := cursor.Next(maxLines);
    if text == [] {
      EmptyCandidate(rest, hard, maxLines);
      return Some([]);
    }
    var current := first.value.value;
    CursorStart(cursor, current, maxLines);
    var units: seq<UnitSpan> := [];
    var expected: nat := 0;
    ProgressStart(rest, count, text, hard, maxLines);
    while |units| < count
      invariant |units| <= count && expected <= |text|
      invariant reader.Valid() && reader.position == base + UNIT_BYTES * |units|
      invariant fresh(cursor) && cursor.bytes == text && Following(cursor, current, expected, maxLines)
      invariant Progress(rest, count, text, hard, maxLines, units, expected)
      decreases count - |units|
    {
      if expected == |text| {
        ProgressDone(rest, count, text, hard, maxLines, units, expected);
        return None;
      }
      assert reader.bytes[reader.position..reader.position + UNIT_BYTES]
          == rest[UNIT_BYTES * |units|..UNIT_BYTES * (|units| + 1)];
      var read := ReadNext(reader, cursor, current, expected, hard, maxLines, rest, count, units);
      if read.None? { return None; }
      ProgressEnd(rest, count, text, hard, maxLines, units + [read.value.0], read.value.0.end);
      units := units + [read.value.0];
      expected := read.value.0.end;
      current := read.value.1;
    }
    ProgressDone(rest, count, text, hard, maxLines, units, expected);
    if expected != |text| { return None; }
    FollowedAll(cursor, current, expected, maxLines);
    return Some(units);
  }

  lemma ProgressEnd(rest: seq<Byte>, count: nat, text: seq<Byte>, hard: nat, maxLines: nat,
                    units: seq<UnitSpan>, expected: nat)
    requires Progress(rest, count, text, hard, maxLines, units, expected)
    ensures |units| <= count && expected <= |text|
  {
  }

  lemma CursorStart(cursor: Cursor, current: LineSpan, maxLines: nat)
    requires cursor.Valid() && cursor.index == 1 <= maxLines && cursor.bytes != []
    requires 0 < |AllLines(cursor.bytes)| && current == AllLines(cursor.bytes)[0]
    ensures Following(cursor, current, 0, maxLines)
  {
    hide AllLines;
  }

  lemma FollowedAll(cursor: Cursor, current: LineSpan, expected: nat, maxLines: nat)
    requires Following(cursor, current, expected, maxLines) && expected == |cursor.bytes|
    ensures |AllLines(cursor.bytes)| <= maxLines
  {
    hide AllLines;
  }

  lemma LinesOf(text: seq<Byte>)
    ensures text == [] <==> |AllLines(text)| == 0
    ensures forall bound :: 0 <= Below(AllLines(text), bound)
  {
  }

  lemma CountMatches(rest: seq<Byte>, count: nat, text: seq<Byte>, hard: nat, maxLines: nat)
    requires (text == []) != (count == 0)
    ensures forall us :: !Candidate(rest, count, text, hard, maxLines, us)
  {
    hide UnitOk;
  }

  lemma EmptyCandidate(rest: seq<Byte>, hard: nat, maxLines: nat)
    requires rest == []
    ensures Candidate(rest, 0, [], hard, maxLines, [])
  {
  }

  lemma TooMany(rest: seq<Byte>, count: nat, text: seq<Byte>, hard: nat, maxLines: nat, units: seq<UnitSpan>)
    requires Forced(rest, count, text, hard, maxLines, units) && UnitsTo(text, units, |text|, hard) && |units| < count
    ensures forall us :: !Candidate(rest, count, text, hard, maxLines, us)
  {
    hide EncodeUnits, AllLines;
    forall us ensures !Candidate(rest, count, text, hard, maxLines, us) {
      if Candidate(rest, count, text, hard, maxLines, us) { StartOf(text, units, |text|, hard, us); }
    }
  }

  lemma TooFew(rest: seq<Byte>, count: nat, text: seq<Byte>, hard: nat, maxLines: nat, units: seq<UnitSpan>, end: nat)
    requires Forced(rest, count, text, hard, maxLines, units) && UnitsTo(text, units, end, hard)
    requires |units| == count && end != |text|
    ensures forall us :: !Candidate(rest, count, text, hard, maxLines, us)
  {
    hide EncodeUnits, AllLines, UnitOk;
    forall us ensures !Candidate(rest, count, text, hard, maxLines, us) {
      if Candidate(rest, count, text, hard, maxLines, us) { SameEnd(text, units, end, hard, us); }
    }
  }

  lemma SameEnd(text: seq<Byte>, units: seq<UnitSpan>, end: nat, hard: nat, us: seq<UnitSpan>)
    requires UnitsTo(text, units, end, hard) && UnitsTo(text, us, |text|, hard)
    requires |us| == |units| && us[..|units|] == units
    ensures end == |text|
  {
    hide UnitOk;
    assert us == units;
  }

  lemma LongText(rest: seq<Byte>, count: nat, text: seq<Byte>, hard: nat, maxLines: nat)
    ensures |AllLines(text)| > maxLines ==> forall us :: !Candidate(rest, count, text, hard, maxLines, us)
  {
    hide AllLines;
  }

  lemma EncodeNext(units: seq<UnitSpan>, u: UnitSpan)
    ensures EncodeUnits(units + [u]) == EncodeUnits(units) + EncodeUnit(u)
  {
    assert (units + [u])[..|units|] == units;
  }

  /** Where the cursor stands for the unit after `u`. */
  lemma AfterUnit(t: seq<Byte>, u: UnitSpan, hard: nat)
    requires UnitOk(t, u, hard)
    ensures u.end <= |t| && Boundary(t, u.end)
    ensures u.end < |t| ==> Below(AllLines(t), u.end) <= Below(AllLines(t), u.end + 1)
    ensures u.end == |t| ==> Below(AllLines(t), u.end) + 1 == |AllLines(t)|
  {
    hide AllLines, Consecutive, UnitFacts, Below;
    BelowMonotone(t, u.end, u.end + 1);
    BelowInside(t, u.end);
    AllLinesConsecutive(t);
    LastEnd(t);
    var lines, k := AllLines(t), Below(AllLines(t), u.end);
    if k + 1 < |lines| { EndsIncrease(lines, 0, |t|, 0, k, |lines| - 1); }
  }

  lemma LastEnd(t: seq<Byte>)
    requires t != []
    ensures AllLines(t) != [] && AllLines(t)[|AllLines(t)| - 1].end == |t|
  {
    AllLinesConsecutive(t);
  }

  // ---------------------------------------------------------- acceptance

  datatype PrepareError =
    | BinaryContent | InvalidUtf8 | InputTooLarge | OutputTooLarge | TextHasTooManyLines | TooManyUnitsInText
    | ScalarTooLarge | EncodedTooLarge | InvalidSettings | InvalidLimits | OffsetOverflow | InvalidArtifact
    | BindingMismatch | IntegrityFailure

  datatype Limits = Limits(maxInput: nat, maxOutput: nat, maxLines: nat, maxUnits: nat, maxEncoded: nat)

  type Digest = seq<Byte> -> seq<Byte>

  /** The checks shared by producing and accepting an artifact. */
  function Validate(source: Source, settings: Control.Settings, limits: Limits): Result<(), PrepareError> {
    var _ :- Need(limits.maxInput != 0 && limits.maxOutput != 0 && limits.maxLines != 0 && limits.maxUnits != 0
                  && limits.maxEncoded != 0, InvalidLimits);
    var _ :- Need(limits.maxLines * 32 < U64 / 2 && limits.maxUnits * 40 < U64 / 2, OffsetOverflow);
    var _ :- Need(settings.Supported(), InvalidSettings);
    var _ :- Need(source.registration != 0 && source.kind == SOURCE_TAG && source.version == 1
                  && source.length <= Control.MAX_SOURCE_BYTES, BindingMismatch);
    var _ :- Need(source.length <= limits.maxInput, InputTooLarge);
    Need(source.length <= limits.maxOutput, OutputTooLarge)
  }

  /** A text and units that a saved artifact of this source may hold. */
  ghost predicate Accepts(source: Source, settings: Control.Settings, limits: Limits, digest: Digest,
                          text: seq<Byte>, units: seq<UnitSpan>)
  {
    && Validate(source, settings, limits).Ok?
    && |text| == source.length && Valid(text) && digest(text) == source.digest
    && UnitsTo(text, units, |text|, settings.hard)
    && |units| <= limits.maxUnits && |AllLines(text)| <= limits.maxLines
    && |EncodeArtifact(source, settings, text, units)| <= limits.maxEncoded
  }

  /** The bytes are the encoding of an acceptable text and units. */
  ghost predicate Encodes(artifact: seq<Byte>, source: Source, settings: Control.Settings, limits: Limits,
                          digest: Digest, text: seq<Byte>, units: seq<UnitSpan>)
  {
    artifact == EncodeArtifact(source, settings, text, units) && Accepts(source, settings, limits, digest, text, units)
  }

  lemma Shape(source: Source, settings: Control.Settings, text: seq<Byte>, units: seq<UnitSpan>)
    requires source.Typed()
    ensures var a := EncodeArtifact(source, settings, text, units);
            && |a| == HEADER_BYTES + |text| + UNIT_BYTES * |units|
            && a[..105] == Binding(source, settings)
            && a[105..113] == LE(|text|, 8) && a[113..121] == LE(|units|, 8)
            && a[121..121 + |text|] == text && a[121 + |text|..] == EncodeUnits(units)
  {
    hide Binding, LE, EncodeUnits;
    BindingSize(source, settings);
  }

  lemma Assemble(a: seq<Byte>, source: Source, settings: Control.Settings, text: seq<Byte>, units: seq<UnitSpan>)
    requires 121 + |text| <= |a| && a[..105] == Binding(source, settings)
    requires a[105..113] == LE(|text|, 8) && a[113..121] == LE(|units|, 8)
    requires a[121..121 + |text|] == text && a[121 + |text|..] == EncodeUnits(units)
    ensures a == EncodeArtifact(source, settings, text, units)
  {
    hide Binding, LE, EncodeUnits;
    var n := 121 + |text|;
    assert a == a[..n] + a[n..];
    assert a[..n] == a[..121] + a[121..n];
    assert a[..121] == a[..113] + a[113..121];
    assert a[..113] == a[..105] + a[105..113];
  }

  /** The saved counts determine how every accepted reading is divided. */
  lemma Divided(a: seq<Byte>, source: Source, settings: Control.Settings, limits: Limits, digest: Digest,
                textLength: nat, unitCount: nat, text: seq<Byte>, units: seq<UnitSpan>)
    requires source.Typed() && Encodes(a, source, settings, limits, digest, text, units)
    requires 121 <= |a| && a[105..113] == LE(textLength, 8) && a[113..121] == LE(unitCount, 8)
    requires textLength < U64 && unitCount < U64
    ensures |text| == textLength == source.length && |units| == unitCount <= limits.maxUnits
    ensures HEADER_BYTES + textLength + UNIT_BYTES * unitCount == |a|
    ensures text == a[121..121 + textLength] && Valid(text) && digest(text) == source.digest
    ensures Candidate(a[121 + textLength..], unitCount, text, settings.hard, limits.maxLines, units)
  {
    hide LE, EncodeUnits, Binding, EncodeArtifact, UnitsTo, Valid, AllLines;
    Shape(source, settings, text, units);
    Pow256Eight();
    LERoundTrip(|text|, 8);
    LERoundTrip(textLength, 8);
    LERoundTrip(|units|, 8);
    LERoundTrip(unitCount, 8);
  }

  /** Compares the leading fields in order; the first that differs. */
  method ReadFields(reader: Reader, fields: seq<seq<Byte>>) returns (r: Option<nat>)
    requires reader.Valid()
    modifies reader
    ensures reader.Valid()
    ensures r.None? ==> reader.position == old(reader.position) + |Flat(fields)|
                        && reader.bytes[old(reader.position)..reader.position] == Flat(fields)
    ensures r.Some? ==> !(Flat(fields) <= reader.bytes[old(reader.position)..])
  {
    ghost var start := reader.position;
    var i := 0;
    while i < |fields|
      invariant 0 <= i <= |fields| && reader.Valid() && start <= reader.position
      invariant Flat(fields) == reader.bytes[start..reader.position] + Flat(fields[i..])
    {
      ghost var at := reader.position;
      assert fields[i..][1..] == fields[i + 1..];
      var field := reader.Take(|fields[i]|);
      if field != Some(fields[i]) {
        NotPrefix(reader.bytes, start, at, fields[i], Flat(fields[i + 1..]));
        return Some(i);
      }
      i := i + 1;
    }
    assert fields[i..] == [];
    return None;
  }

  lemma PrefixPart(bytes: seq<Byte>, start: nat, at: nat, field: seq<Byte>, more: seq<Byte>)
    requires start <= at <= |bytes| && bytes[start..at] + (field + more) <= bytes[start..]
    ensures at + |field| <= |bytes| && bytes[at..at + |field|] == field
  {
    var whole := bytes[start..at] + (field + more);
    assert whole[at - start..at - start + |field|] == field;
    assert bytes[start..][at - start..at - start + |field|] == bytes[at..at + |field|];
  }

  lemma NotPrefix(bytes: seq<Byte>, start: nat, at: nat, field: seq<Byte>, more: seq<Byte>)
    requires start <= at <= |bytes|
    requires at + |field| > |bytes| || bytes[at..at + |field|] != field
    ensures !(bytes[start..at] + (field + more) <= bytes[start..])
  {
    if bytes[start..at] + (field + more) <= bytes[start..] {
      PrefixPart(bytes, start, at, field, more);
    }
  }

  datatype View = View(text: seq<Byte>, units: seq<UnitSpan>)

  /** Accepts a saved artifact: exactly the encodings of an acceptable text and
      units, and the result is that text and those units. */
  method Decode(artifact: seq<Byte>, source: Source, settings: Control.Settings, limits: Limits, digest: Digest)
    returns (r: Result<View, PrepareError>)
    requires source.Typed()
    ensures r.Ok? ==> Encodes(artifact, source, settings, limits, digest, r.value.text, r.value.units)
    ensures r.Err? ==> forall text, units :: !Encodes(artifact, source, settings, limits, digest, text, units)
  {
    hide EncodeArtifact, EncodeUnits, LE, Binding, Candidate, Valid, UnitsTo, AllLines, Encodes, Fields, Flat;
    var valid := Validate(source, settings, limits);
    if valid.Err? { Unaccepted(artifact, source, settings, limits, digest); return Err(valid.error); }
    if |artifact| > limits.maxEncoded {
      Unaccepted(artifact, source, settings, limits, digest);
      return Err(EncodedTooLarge);
    }
    if |artifact| < HEADER_BYTES {
      Unaccepted(artifact, source, settings, limits, digest);
      return Err(InvalidArtifact);
    }
    BindingIs(source, settings);
    Unaccepted(artifact, source, settings, limits, digest);
    var reader := new Reader(artifact);
    var differs := ReadFields(reader, Fields(source, settings));
    assert artifact[0..] == artifact;
    if differs.Some? {
      return Err(if differs.value < 2 then InvalidArtifact else BindingMismatch);
    }
    Pow256Eight();
    var textLength := reader.TakeNat(8);
    var unitCount := reader.TakeNat(8);
    var t, n := textLength.value, unitCount.value;
    forall text, units | Encodes(artifact, source, settings, limits, digest, text, units)
      ensures && t == source.length && n <= limits.maxUnits && HEADER_BYTES + t + UNIT_BYTES * n == |artifact|
              && text == artifact[121..121 + t] && Valid(text) && digest(text) == source.digest
              && Candidate(artifact[121 + t..], n, text, settings.hard, limits.maxLines, units)
    {
      Divided(artifact, source, settings, limits, digest, t, n, text, units);
    }
    if n > limits.maxUnits { return Err(TooManyUnitsInText); }
    if t > limits.maxInput { return Err(InputTooLarge); }
    if t > limits.maxOutput { return Err(OutputTooLarge); }
    if t != source.length { return Err(BindingMismatch); }
    if HEADER_BYTES + t + UNIT_BYTES * n != |artifact| { return Err(InvalidArtifact); }
    var taken := reader.Take(t);
    var text := taken.value;
    if !Valid(text) { return Err(InvalidArtifact); }
    if digest(text) != source.digest { return Err(IntegrityFailure); }
    var units := ReadUnits(reader, text, n, settings.hard, limits.maxLines);
    if units.None? { return Err(InvalidArtifact); }
    Accepted(artifact, source, settings, limits, digest, text, units.value);
    return Ok(View(text, units.value));
  }

  lemma BindingIs(source: Source, settings: Control.Settings)
    requires source.Typed()
    ensures Binding(source, settings) == Flat(Fields(source, settings)) && |Binding(source, settings)| == 105
  {
    BindingSize(source, settings);
  }

  /** What keeps bytes from being any acceptable encoding. */
  lemma Unaccepted(a: seq<Byte>, source: Source, settings: Control.Settings, limits: Limits, digest: Digest)
    requires source.Typed()
    ensures Validate(source, settings, limits).Err? || |a| > limits.maxEncoded || |a| < HEADER_BYTES
            || !(Binding(source, settings) <= a) ==>
              forall text, units :: !Encodes(a, source, settings, limits, digest, text, units)
  {
    hide EncodeArtifact, EncodeUnits, LE, Binding, Valid, UnitsTo, AllLines;
    forall text, units | Encodes(a, source, settings, limits, digest, text, units)
      ensures Validate(source, settings, limits).Ok? && |a| <= limits.maxEncoded && |a| >= HEADER_BYTES
      ensures Binding(source, settings) <= a
    {
      Shape(source, settings, text, units);
    }
  }

  lemma Accepted(a: seq<Byte>, source: Source, settings: Control.Settings, limits: Limits, digest: Digest,
                 text: seq<Byte>, units: seq<UnitSpan>)
    requires Validate(source, settings, limits).Ok? && 121 + |text| <= |a| <= limits.maxEncoded
    requires a[..105] == Binding(source, settings) && a[105..113] == LE(|text|, 8) && a[113..121] == LE(|units|, 8)
    requires a[121..121 + |text|] == text && |text| == source.length && Valid(text) && digest(text) == source.digest
    requires Candidate(a[121 + |text|..], |units|, text, settings.hard, limits.maxLines, units)
    requires |units| <= limits.maxUnits
    ensures Encodes(a, source, settings, limits, digest, text, units)
  {
    hide EncodeArtifact, EncodeUnits, LE, Binding, Valid, UnitsTo, AllLines;
    Assemble(a, source, settings, text, units);
  }

  // ----------------------------------------------------------- producing

  /** Writes the complete artifact: fields, counts, the text in chunks, then
      one descriptor for every unit. */
  method Encode(source: Source, settings: Control.Settings, text: seq<Byte>, units: seq<UnitSpan>, maxEncoded: nat)
    returns (r: Result<seq<Byte>, PrepareError>)
    requires source.Typed()
    ensures r.Ok? <==> HEADER_BYTES + |text| + UNIT_BYTES * |units| <= maxEncoded
                       && HEADER_BYTES + |text| + UNIT_BYTES * |units| < U64
    ensures r.Ok? ==> r.value == EncodeArtifact(source, settings, text, units)
    ensures r.Err? ==> r.error == if HEADER_BYTES + |text| + UNIT_BYTES * |units| >= U64 then OffsetOverflow
                                  else EncodedTooLarge
  {
    hide EncodeUnits, EncodeUnit, LE, Flat;
    var size := UNIT_BYTES * |units| + HEADER_BYTES + |text|;
    if size >= U64 { return Err(OffsetOverflow); }
    if size > maxEncoded { return Err(EncodedTooLarge); }
    var out: seq<Byte> := [];
    var fields := Fields(source, settings);
    var i := 0;
    while i < |fields|
      invariant 0 <= i <= |fields|
      invariant out + Flat(fields[i..]) == Flat(fields)
    {
      FlatNext(fields, i);
      assert out + (fields[i] + Flat(fields[i + 1..])) == (out + fields[i]) + Flat(fields[i + 1..]);
      out := out + fields[i];
      i := i + 1;
    }
    FlatEmpty(fields);
    assert out == Flat(fields);
    out := out + LE(|text|, 8) + LE(|units|, 8);
    ghost var head := out;
    i := 0;
    while i < |text|
      invariant 0 <= i <= |text| && out == head + text[..i]
    {
      var j := if |text| - i <= 8192 then |text| else i + 8192;
      assert text[..i] + text[i..j] == text[..j];
      out := out + text[i..j];
      i := j;
    }
    assert out == head + text;
    i := 0;
    EncodeNothing();
    while i < |units|
      invariant 0 <= i <= |units| && out == head + text + EncodeUnits(units[..i])
    {
      EncodeNext(units[..i], units[i]);
      assert units[..i + 1] == units[..i] + [units[i]];
      out := out + EncodeUnit(units[i]);
      i := i + 1;
    }
    assert units[..i] == units;
    return Ok(out);
  }

  lemma FlatNext(fields: seq<seq<Byte>>, i: nat)
    requires i < |fields|
    ensures Flat(fields[i..]) == fields[i] + Flat(fields[i + 1..])
    ensures fields[0..] == fields
  {
    assert fields[i..][1..] == fields[i + 1..];
  }

  lemma FlatEmpty(fields: seq<seq<Byte>>)
    ensures Flat(fields[|fields|..]) == []
  {
  }

  lemma EncodeNothing()
    ensures EncodeUnits([]) == []
  {
  }

  /** Control bytes other than tab, line feed, form feed, carriage return and
      NUL, which is refused on sight. */
  predicate IsControl(b: Byte) {
    0 < b < 0x20 && b != 9 && b != 10 && b != 12 && b != 13
  }

  function Controls(bytes: seq<Byte>): nat {
    if bytes == [] then 0 else Controls(bytes[..|bytes|-1]) + if IsControl(bytes[|bytes|-1]) then 1 else 0
  }

  /** At least four controls, and one for every hundred bytes begun. */
  function Threshold(length: nat): nat {
    if (length + 99) / 100 >= 4 then (length + 99) / 100 else 4
  }

  lemma {:induction false} ControlsGrow(bytes: seq<Byte>, k: nat)
    requires k <= |bytes|
    ensures Controls(bytes[..k]) <= Controls(bytes)
    decreases |bytes|
  {
    if k < |bytes| {
      ControlsGrow(bytes[..|bytes|-1], k);
      assert bytes[..|bytes|-1][..k] == bytes[..k];
    } else {
      assert bytes[..k] == bytes;
    }
  }

  /** Where the counted control bytes stand. */
  function ControlPlaces(bytes: seq<Byte>): set<nat> {
    set i: nat | i < |bytes| && (1 <= bytes[i] <= 8 || bytes[i] == 11 || 14 <= bytes[i] <= 31)
  }

  lemma {:induction false} ControlsCounted(bytes: seq<Byte>)
    ensures Controls(bytes) == |ControlPlaces(bytes)|
  {
    if bytes == [] {
      assert ControlPlaces(bytes) == {};
    } else {
      var front, last := bytes[..|bytes|-1], bytes[|bytes|-1];
      ControlsCounted(front);
      assert ControlPlaces(bytes) == ControlPlaces(front) + if IsControl(last) then {|front|} else {};
    }
  }

  /** Content is binary when it holds a NUL byte, or when at least four bytes,
      and at least one in every hundred, are other controls than tab, line
      feed, form feed and carriage return. */
  lemma BinaryRule(bytes: seq<Byte>)
    ensures Controls(bytes) >= Threshold(|bytes|) <==>
              4 <= |ControlPlaces(bytes)| && |bytes| <= 100 * |ControlPlaces(bytes)|
  {
    ControlsCounted(bytes);
    hide ControlPlaces;
  }

  /** Refuses a NUL byte or too many control bytes, stopping at the first
      byte that decides. */
  method RejectBinary(bytes: seq<Byte>) returns (binary: bool)
    ensures binary <==> 0 in bytes || Controls(bytes) >= Threshold(|bytes|)
  {
    var controls, i := 0, 0;
    while i < |bytes|
      invariant 0 <= i <= |bytes|
      invariant controls == Controls(bytes[..i]) < Threshold(|bytes|) && 0 !in bytes[..i]
    {
      if bytes[i] == 0 { return true; }
      assert bytes[..i + 1][..i] == bytes[..i];
      if IsControl(bytes[i]) {
        controls := controls + 1;
        ControlsGrow(bytes, i + 1);
        if controls >= Threshold(|bytes|) { return true; }
      }
      i := i + 1;
    }
    assert bytes[..i] == bytes;
    return false;
  }

  /** What refuses the bytes before they are laid out: the first failing check,
      in the order they are made. */
  function Refusal(source: Source, bytes: seq<Byte>, settings: Control.Settings, limits: Limits, digest: Digest)
    : Result<(), PrepareError>
  {
    var _ :- Validate(source, settings, limits);
    var _ :- Need(|bytes| == source.length, BindingMismatch);
    var _ :- Need(digest(bytes) == source.digest, IntegrityFailure);
    var _ :- Need(0 !in bytes && Controls(bytes) < Threshold(|bytes|), BinaryContent);
    var _ :- Need(Valid(bytes), InvalidUtf8);
    Need(|AllLines(bytes)| <= limits.maxLines, TextHasTooManyLines)
  }

  /** The bytes are textual and have these units as their acceptable layout. */
  ghost predicate Preparable(source: Source, bytes: seq<Byte>, settings: Control.Settings, limits: Limits, digest: Digest,
                             units: seq<UnitSpan>)
  {
    && 0 !in bytes && Controls(bytes) < Threshold(|bytes|)
    && Accepts(source, settings, limits, digest, bytes, units)
    && Ruled(bytes, units, settings.preferred, settings.hard)
  }

  /** Produces the artifact of verified source bytes: exactly when they are
      textual and have an acceptable layout by the rule. */
  method Prepare(source: Source, bytes: seq<Byte>, settings: Control.Settings, limits: Limits, digest: Digest)
    returns (r: Result<seq<Byte>, PrepareError>, ghost units: seq<UnitSpan>)
    requires source.Typed()
    ensures r.Ok? ==> Encodes(r.value, source, settings, limits, digest, bytes, units)
                      && Ruled(bytes, units, settings.preferred, settings.hard)
    ensures r.Ok? <==> exists us :: Preparable(source, bytes, settings, limits, digest, us)
    ensures var early := Refusal(source, bytes, settings, limits, digest);
            if early.Err? then r == Err(early.error)
            else r.Ok? || r.error == TooManyUnitsInText || r.error == ScalarTooLarge || r.error == EncodedTooLarge
    ensures r == Err(TooManyUnitsInText) ==>
              exists us, end: nat :: UnitsTo(bytes, us, end, settings.hard)
                                     && Ruled(bytes, us, settings.preferred, settings.hard)
                                     && |us| == limits.maxUnits && end < |bytes|
    ensures r == Err(ScalarTooLarge) ==>
              settings.hard < 4
              && exists i :: 0 <= i < |bytes| && Boundary(bytes, i) && ScalarLen(bytes, i) > settings.hard
    ensures r == Err(EncodedTooLarge) ==>
              LaidOut(bytes, units, settings.preferred, settings.hard, limits.maxUnits)
              && |EncodeArtifact(source, settings, bytes, units)| > limits.maxEncoded
  {
    hide Valid, AllLines, UnitsTo, Ruled, Boundary, ScalarLen, EncodeArtifact, LaidOut, Preparable;
    units := [];
    var valid := Validate(source, settings, limits);
    if valid.Err? {
      RefusedEarly(source, bytes, settings, limits, digest);
      return Err(valid.error), units;
    }
    if |bytes| != source.length {
      RefusedEarly(source, bytes, settings, limits, digest);
      return Err(BindingMismatch), units;
    }
    if digest(bytes) != source.digest {
      RefusedEarly(source, bytes, settings, limits, digest);
      return Err(IntegrityFailure), units;
    }
    var binary := RejectBinary(bytes);
    if binary {
      RefusedEarly(source, bytes, settings, limits, digest);
      return Err(BinaryContent), units;
    }
    if !Valid(bytes) {
      RefusedEarly(source, bytes, settings, limits, digest);
      return Err(InvalidUtf8), units;
    }
    var lines := ScanLines(bytes, limits.maxLines);
    if lines.None? {
      RefusedEarly(source, bytes, settings, limits, digest);
      return Err(TextHasTooManyLines), units;
    }
    var cut := Unitize(bytes, lines.value, settings.preferred, settings.hard, limits.maxUnits);
    if cut.Err? {
      NoLayout(source, bytes, settings, limits, digest);
      return Err(if cut.error == TooManyUnits then TooManyUnitsInText else ScalarTooLarge), units;
    }
    units := cut.value;
    r := Encode(source, settings, bytes, cut.value, limits.maxEncoded);
    Shape(source, settings, bytes, units);
    Outcome(source, bytes, settings, limits, digest, units);
  }

  lemma RefusedEarly(source: Source, bytes: seq<Byte>, settings: Control.Settings, limits: Limits, digest: Digest)
    requires Refusal(source, bytes, settings, limits, digest).Err?
    ensures forall us :: !Preparable(source, bytes, settings, limits, digest, us)
  {
    hide Validate, Valid, AllLines, Controls, UnitsTo, Ruled, EncodeArtifact;
  }

  lemma NoLayout(source: Source, bytes: seq<Byte>, settings: Control.Settings, limits: Limits, digest: Digest)
    requires forall us :: !LaidOut(bytes, us, settings.preferred, settings.hard, limits.maxUnits)
    ensures forall us :: !Preparable(source, bytes, settings, limits, digest, us)
  {
    hide Validate, Valid, AllLines, Controls, UnitsTo, Ruled, EncodeArtifact;
    forall us ensures !Preparable(source, bytes, settings, limits, digest, us) {
      assert !LaidOut(bytes, us, settings.preferred, settings.hard, limits.maxUnits);
    }
  }

  /** With the one layout there is, only the encoded size can still refuse. */
  lemma Outcome(source: Source, bytes: seq<Byte>, settings: Control.Settings, limits: Limits, digest: Digest,
                units: seq<UnitSpan>)
    requires Refusal(source, bytes, settings, limits, digest).Ok?
    requires LaidOut(bytes, units, settings.preferred, settings.hard, limits.maxUnits)
    ensures Preparable(source, bytes, settings, limits, digest, units)
            <==> |EncodeArtifact(source, settings, bytes, units)| <= limits.maxEncoded
    ensures forall us :: Preparable(source, bytes, settings, limits, digest, us) ==> us == units
    ensures UnitsTo(bytes, units, |bytes|, settings.hard) && Ruled(bytes, units, settings.preferred, settings.hard)
    ensures Accepts(source, settings, limits, digest, bytes, units)
            <==> |EncodeArtifact(source, settings, bytes, units)| <= limits.maxEncoded
    ensures HEADER_BYTES + |bytes| + UNIT_BYTES * |units| < U64
  {
    hide Valid, AllLines, Controls, UnitsTo, Ruled, EncodeArtifact;
    forall us | Preparable(source, bytes, settings, limits, digest, us) ensures us == units {
      LayoutIsExact(bytes, us, units, settings.preferred, settings.hard);
    }
  }

  /** The limits every part of the daemon prepares and decodes under. */
  const DAEMON_LIMITS := Limits(8 * 1024 * 1024, 8 * 1024 * 1024, 1_000_000, 1_000_000, 64 * 1024 * 1024)

  /** Under the daemon's limits bytes are prepared exactly when they are the
      recorded ones of a retained source, textual, and have no more lines and
      units than allowed: the encoded size then never refuses. */
  lemma DaemonPrepares(source: Source, bytes: seq<Byte>, settings: Control.Settings, digest: Digest, units: seq<UnitSpan>)
    requires source.Typed()
    ensures Preparable(source, bytes, settings, DAEMON_LIMITS, digest, units) <==>
              && settings.Supported() && source.registration != 0 && source.kind == SOURCE_TAG && source.version == 1
              && |bytes| == source.length <= Control.MAX_SOURCE_BYTES && digest(bytes) == source.digest
              && 0 !in bytes && Controls(bytes) < Threshold(|bytes|) && Valid(bytes)
              && |AllLines(bytes)| <= 1_000_000
              && LaidOut(bytes, units, settings.preferred, settings.hard, 1_000_000)
  {
    hide EncodeArtifact, Valid, AllLines, UnitsTo, Ruled, Controls;
    Shape(source, settings, bytes, units);
  }

  /** Saved bytes are bound to one source and one settings: whoever accepts
      them for two accepts them for the same. */
  lemma BoundToOne(a: seq<Byte>, source: Source, settings: Control.Settings, limits: Limits, digest: Digest,
                   text: seq<Byte>, units: seq<UnitSpan>, source2: Source, settings2: Control.Settings, limits2: Limits,
                   digest2: Digest, text2: seq<Byte>, units2: seq<UnitSpan>)
    requires source.Typed() && Encodes(a, source, settings, limits, digest, text, units)
    requires source2.Typed() && Encodes(a, source2, settings2, limits2, digest2, text2, units2)
    ensures source2 == source && settings2 == settings
  {
    SettingsFit(source, settings, limits);
    SettingsFit(source2, settings2, limits2);
    hide EncodeArtifact, Valid, AllLines, UnitsTo, Binding;
    Shape(source, settings, text, units);
    Shape(source2, settings2, text2, units2);
    BindingIsExact(source, settings, source2, settings2);
  }

  lemma SettingsFit(source: Source, settings: Control.Settings, limits: Limits)
    requires Validate(source, settings, limits).Ok?
    ensures settings.Supported()
  {
  }

  lemma EncodingIsExact(a: seq<Byte>, source: Source, settings: Control.Settings, limits: Limits, digest: Digest,
                        text: seq<Byte>, units: seq<UnitSpan>, text2: seq<Byte>, units2: seq<UnitSpan>)
    requires source.Typed()
    requires Encodes(a, source, settings, limits, digest, text, units)
    requires Encodes(a, source, settings, limits, digest, text2, units2)
    ensures text2 == text && units2 == units
  {
    hide LE, Binding, EncodeArtifact, EncodeUnits, EncodeUnit, Valid, AllLines, UnitFacts, Boundary, TypedUnit;
    Pow256Eight();
    Shape(source, settings, text, units);
    Divided(a, source, settings, limits, digest, |text|, |units|, text, units);
    Divided(a, source, settings, limits, digest, |text|, |units|, text2, units2);
    forall i | 0 <= i < |units| ensures units[i] == units2[i] {
      UnitBytesAt(units, i);
      UnitBytesAt(units2, i);
      UnitsAreTyped(text, units[i], settings.hard);
      UnitsAreTyped(text, units2[i], settings.hard);
      UnitInjective(units[i], units2[i]);
    }
  }

  /** Preparing and accepting under the same source, settings and limits gives
      back the text and exactly the units layout chose. */
  method RoundTrip(source: Source, bytes: seq<Byte>, settings: Control.Settings, limits: Limits, digest: Digest)
    returns (prepared: Result<seq<Byte>, PrepareError>, view: Option<View>)
    requires source.Typed()
    ensures prepared.Ok? <==> view.Some?
    ensures view.Some? ==>
              && view.value.text == bytes
              && UnitsTo(bytes, view.value.units, |bytes|, settings.hard)
              && Ruled(bytes, view.value.units, settings.preferred, settings.hard)
  {
    hide UnitsTo, Ruled, EncodeArtifact, Valid, AllLines;
    ghost var units;
    prepared, units := Prepare(source, bytes, settings, limits, digest);
    if prepared.Err? { return prepared, None; }
    var decoded := Decode(prepared.value, source, settings, limits, digest);
    EncodingIsExact(prepared.value, source, settings, limits, digest, bytes, units, decoded.value.text, decoded.value.units);
    return prepared, Some(decoded.value);
  }
}
