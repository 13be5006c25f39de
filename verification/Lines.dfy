/** Logical lines: the materialized inventory and the streaming cursor that
    reads the same lines one at a time. */
module Lines {
  import opened Wrappers
  import opened Text

  const CR: Byte := 13
  const LF: Byte := 10

  /** A line with its terminator; `contentEnd` excludes the terminator. */
  datatype LineSpan = LineSpan(index: nat, start: nat, end: nat, contentEnd: nat)

  /** Bytes of the terminator at `i`: CR LF is one terminator of two bytes. */
  function Terminator(b: seq<Byte>, i: nat): (n: nat)
    requires i < |b|
    ensures i + n <= |b|
  {
    if b[i] == CR && i + 1 < |b| && b[i + 1] == LF then 2
    else if b[i] == LF || b[i] == CR then 1
    else 0
  }

  /** Where the content of the line read from `i` stops. */
  function ContentEnd(b: seq<Byte>, i: nat): (e: nat)
    requires i <= |b|
    ensures i <= e <= |b|
    ensures forall k :: i <= k < e ==> Terminator(b, k) == 0
    ensures e < |b| ==> Terminator(b, e) > 0
    decreases |b| - i
  {
    if i == |b| || Terminator(b, i) > 0 then i else ContentEnd(b, i + 1)
  }

  function LineEnd(b: seq<Byte>, i: nat): (e: nat)
    requires i < |b|
    ensures i < e <= |b|
  {
    var c := ContentEnd(b, i);
    if c < |b| then c + Terminator(b, c) else c
  }

  /** The inventory of the lines from a line start on. */
  function LinesFrom(b: seq<Byte>, start: nat, index: nat): seq<LineSpan>
    requires start <= |b|
    decreases |b| - start
  {
    if start == |b| then []
    else [LineSpan(index, start, LineEnd(b, start), ContentEnd(b, start))] + LinesFrom(b, LineEnd(b, start), index + 1)
  }

  function AllLines(b: seq<Byte>): seq<LineSpan> {
    LinesFrom(b, 0, 0)
  }

  /** The inventory is numbered in order, leaves no byte out and none twice. */
  ghost predicate Consecutive(lines: seq<LineSpan>, start: nat, end: nat, first: nat) {
    && (forall k :: 0 <= k < |lines| ==> lines[k].index == first + k && lines[k].start < lines[k].end)
    && (forall j, k :: 0 <= j < |lines| && 0 <= k < |lines| && k == j + 1 ==> lines[k].start == lines[j].end)
    && (if lines == [] then start == end else lines[0].start == start && lines[|lines|-1].end == end)
  }

  lemma {:induction false} LinesConsecutive(b: seq<Byte>, start: nat, index: nat)
    requires start <= |b|
    ensures Consecutive(LinesFrom(b, start, index), start, |b|, index)
    decreases |b| - start
  {
    if start < |b| {
      LinesConsecutive(b, LineEnd(b, start), index + 1);
    }
  }

  /** Every line of the inventory is the one scanning from its start finds. */
  lemma {:induction false} LineIsScanned(b: seq<Byte>, start: nat, index: nat, k: nat)
    requires start <= |b| && k < |LinesFrom(b, start, index)|
    ensures var line := LinesFrom(b, start, index)[k];
            line.start < |b| && line.end == LineEnd(b, line.start) && line.contentEnd == ContentEnd(b, line.start)
    decreases k
  {
    if k > 0 {
      LineIsScanned(b, LineEnd(b, start), index + 1, k - 1);
    }
  }

  lemma {:induction false} EndsIncrease(lines: seq<LineSpan>, start: nat, end: nat, first: nat, j: nat, k: nat)
    requires Consecutive(lines, start, end, first) && j < k < |lines|
    ensures lines[j].end <= lines[k].start < lines[k].end
  {
    if j + 1 < k { EndsIncrease(lines, start, end, first, j, k - 1); }
    assert lines[k].start == lines[k - 1].end;
  }

  /** The lines found before `start`, with nothing terminated since. */
  ghost predicate Scanned(b: seq<Byte>, lines: seq<LineSpan>, start: nat, index: nat) {
    && start <= index <= |b|
    && AllLines(b) == lines + LinesFrom(b, start, |lines|)
    && ContentEnd(b, start) == ContentEnd(b, index)
  }

  lemma ScanByte(b: seq<Byte>, lines: seq<LineSpan>, start: nat, index: nat)
    requires Scanned(b, lines, start, index) && index < |b|
    ensures Terminator(b, index) == 0 ==> Scanned(b, lines, start, index + 1)
    ensures Terminator(b, index) > 0 ==>
              var end := index + Terminator(b, index);
              && Scanned(b, lines + [LineSpan(|lines|, start, end, index)], end, end)
              && |AllLines(b)| > |lines|
  {
    hide AllLines;
    if Terminator(b, index) > 0 {
      var end := index + Terminator(b, index);
      var line := LineSpan(|lines|, start, end, index);
      assert LinesFrom(b, start, |lines|) == [line] + LinesFrom(b, end, |lines| + 1);
      assert lines + ([line] + LinesFrom(b, end, |lines| + 1)) == (lines + [line]) + LinesFrom(b, end, |lines| + 1);
    }
  }

  lemma ScanDone(b: seq<Byte>, lines: seq<LineSpan>, start: nat)
    requires Scanned(b, lines, start, |b|)
    ensures AllLines(b) == if start < |b| then lines + [LineSpan(|lines|, start, |b|, |b|)] else lines
  {
    if start < |b| {
      assert LinesFrom(b, start, |lines|) == [LineSpan(|lines|, start, |b|, |b|)] + LinesFrom(b, |b|, |lines| + 1);
    }
  }

  /** Scans the whole text once, one byte or terminator at a time. */
  method ScanLines(b: seq<Byte>, maximum: nat) returns (r: Option<seq<LineSpan>>)
    ensures r == if |AllLines(b)| <= maximum then Some(AllLines(b)) else None
  {
    hide Scanned, AllLines;
    var lines: seq<LineSpan> := [];
    var start: nat, index: nat := 0, 0;
    assert Scanned(b, [], 0, 0) by { ScanStart(b); }
    while index < |b|
      invariant index <= |b| && |lines| <= maximum && Scanned(b, lines, start, index)
    {
      var terminator := Terminator(b, index);
      ScanByte(b, lines, start, index);
      if terminator == 0 {
        index := index + 1;
      } else {
        var end := index + terminator;
        if |lines| >= maximum { return None; }
        lines := lines + [LineSpan(|lines|, start, end, index)];
        start, index := end, end;
      }
    }
    ScanDone(b, lines, start);
    if start < |b| {
      if |lines| >= maximum { return None; }
      lines := lines + [LineSpan(|lines|, start, |b|, |b|)];
    }
    return Some(lines);
  }

  lemma ScanStart(b: seq<Byte>)
    ensures Scanned(b, [], 0, 0)
  {
    assert [] + LinesFrom(b, 0, 0) == LinesFrom(b, 0, 0);
  }

  // ------------------------------------------------------- line lookup

  /** Leading lines that end before `bound`: what `partition_point` returns
      on an inventory, whose ends increase. */
  function Below(lines: seq<LineSpan>, bound: nat): (k: nat)
    ensures k <= |lines|
    ensures forall j :: 0 <= j < k ==> lines[j].end < bound
    ensures k < |lines| ==> lines[k].end >= bound
  {
    if lines == [] || lines[0].end >= bound then 0 else 1 + Below(lines[1..], bound)
  }

  lemma AllLinesConsecutive(b: seq<Byte>)
    ensures Consecutive(AllLines(b), 0, |b|, 0)
  {
    LinesConsecutive(b, 0, 0);
  }

  /** The line that reaches a position inside the text. */
  lemma BelowInside(b: seq<Byte>, bound: nat)
    requires 0 < bound <= |b|
    ensures var lines, k := AllLines(b), Below(AllLines(b), bound);
            k < |lines| && lines[k].start < bound <= lines[k].end && lines[k].index == k
  {
    AllLinesConsecutive(b);
    var lines, k := AllLines(b), Below(AllLines(b), bound);
    if 0 < k < |lines| { assert lines[k].start == lines[k - 1].end; }
  }

  // ------------------------------------------- line ends, by bytes alone

  predicate SomeEnd(lines: seq<LineSpan>, e: nat) {
    exists k :: 0 <= k < |lines| && lines[k].end == e
  }

  ghost predicate IsLineEnd(t: seq<Byte>, e: nat) {
    SomeEnd(AllLines(t), e)
  }

  /** A terminator ends here, or the text does: LF, CR LF, or a CR that no LF
      follows. */
  predicate EndsAt(t: seq<Byte>, e: nat) {
    && 0 < e <= |t|
    && (e == |t| || t[e - 1] == LF || (t[e - 1] == CR && t[e] != LF))
  }

  /** Bytes of the terminator that ends here: two for CR LF, one for a lone CR
      or LF, none at an unterminated end. */
  function Width(t: seq<Byte>, e: nat): nat
    requires 0 < e <= |t|
  {
    if t[e - 1] == LF then (if e >= 2 && t[e - 2] == CR then 2 else 1)
    else if t[e - 1] == CR then 1
    else 0
  }

  lemma LineByBytes(t: seq<Byte>, start: nat)
    requires start < |t| && (start == 0 || EndsAt(t, start))
    ensures EndsAt(t, LineEnd(t, start)) && forall e :: start < e < LineEnd(t, start) ==> !EndsAt(t, e)
    ensures ContentEnd(t, start) == LineEnd(t, start) - Width(t, LineEnd(t, start))
  {
    var c := ContentEnd(t, start);
    forall e | start < e < LineEnd(t, start) ensures !EndsAt(t, e) {
      if e <= c { assert Terminator(t, e - 1) == 0; }
    }
    assert c > start ==> Terminator(t, c - 1) == 0;
  }

  lemma SomeEndOf(line: LineSpan, rest: seq<LineSpan>, e: nat)
    ensures SomeEnd([line] + rest, e) <==> line.end == e || SomeEnd(rest, e)
  {
    var lines := [line] + rest;
    if line.end == e { assert lines[0].end == e; }
    if k :| 0 <= k < |rest| && rest[k].end == e { assert lines[k + 1].end == e; }
    if k :| 0 < k < |lines| && lines[k].end == e { assert rest[k - 1].end == e; }
  }

  lemma {:induction false} EndsByBytes(t: seq<Byte>, start: nat, index: nat, e: nat)
    requires start < e <= |t| && (start == 0 || EndsAt(t, start))
    ensures EndsAt(t, e) <==> SomeEnd(LinesFrom(t, start, index), e)
    decreases |t| - start
  {
    var end := LineEnd(t, start);
    var rest := LinesFrom(t, end, index + 1);
    LineByBytes(t, start);
    SomeEndOf(LineSpan(index, start, end, ContentEnd(t, start)), rest, e);
    if end < e {
      EndsByBytes(t, end, index + 1, e);
    } else {
      LinesConsecutive(t, end, index + 1);
      forall k | 0 <= k < |rest| ensures rest[k].end > e {
        if k > 0 { EndsIncrease(rest, end, |t|, index + 1, 0, k); }
      }
    }
  }

  /** A line ends exactly at the end of a non-empty text, after an LF, and
      after a CR that no LF follows: CR LF is one terminator. */
  lemma LineEndsAreTerminators(t: seq<Byte>, e: nat)
    ensures IsLineEnd(t, e) <==> EndsAt(t, e)
  {
    AllLinesConsecutive(t);
    if 0 < e <= |t| {
      EndsByBytes(t, 0, 0, e);
    } else if SomeEnd(AllLines(t), e) {
      var k :| 0 <= k < |AllLines(t)| && AllLines(t)[k].end == e;
      if k + 1 < |AllLines(t)| { EndsIncrease(AllLines(t), 0, |t|, 0, k, |AllLines(t)| - 1); }
    }
  }

  /** The content of a line excludes exactly its own terminator. */
  lemma ContentByBytes(t: seq<Byte>, k: nat)
    requires k < |AllLines(t)|
    ensures var line := AllLines(t)[k];
            0 < line.end <= |t| && line.contentEnd == line.end - Width(t, line.end)
  {
    var line := AllLines(t)[k];
    LineIsScanned(t, 0, 0, k);
    AllLinesConsecutive(t);
    if k > 0 {
      assert SomeEnd(AllLines(t), AllLines(t)[k - 1].end);
      LineEndsAreTerminators(t, line.start);
    }
    LineByBytes(t, line.start);
  }

  // --------------------------------------------------- streaming cursor

  datatype CursorError = TooManyLines

  /** A single forward cursor over the lines of one text. */
  class Cursor {
    const bytes: seq<Byte>
    var offset: nat
    var index: nat

    ghost predicate Valid()
      reads this
    {
      && offset <= |bytes| && index <= |AllLines(bytes)|
      && AllLines(bytes)[index..] == LinesFrom(bytes, offset, index)
    }

    constructor (bytes: seq<Byte>)
      ensures Valid() && this.bytes == bytes && index == 0
    {
      this.bytes := bytes;
      offset, index := 0, 0;
    }

    /** Reads the next line, or nothing at the end of the text. */
    method Next(maximum: nat) returns (r: Result<Option<LineSpan>, CursorError>)
      requires Valid()
      modifies this
      ensures Valid()
      ensures old(index) == |AllLines(bytes)| ==> r == Ok(None) && index == old(index)
      ensures old(index) < |AllLines(bytes)| && old(index) >= maximum ==> r.Err?
      ensures old(index) < |AllLines(bytes)| && old(index) < maximum ==>
                r == Ok(Some(AllLines(bytes)[old(index)])) && index == old(index) + 1
    {
      if offset == |bytes| { return Ok(None); }
      if index >= maximum { return Err(TooManyLines); }
      var start, content := offset, |bytes|;
      while offset < |bytes|
        invariant start <= offset <= |bytes| && index == old(index) && content == |bytes|
        invariant ContentEnd(bytes, start) == ContentEnd(bytes, offset)
      {
        var terminator := Terminator(bytes, offset);
        if terminator > 0 {
          content := offset;
          offset := offset + terminator;
          break;
        }
        offset := offset + 1;
      }
      assert offset == LineEnd(bytes, start) && content == ContentEnd(bytes, start);
      var line := LineSpan(index, start, offset, content);
      assert LinesFrom(bytes, start, index) == [line] + LinesFrom(bytes, offset, index + 1);
      assert AllLines(bytes)[index] == line;
      index := index + 1;
      return Ok(Some(line));
    }
  }
}
