/** The saved artifact: its bytes, and the checked reading of its units. */
module Artifact {
  import opened Wrappers
  import opened Text
  import opened Lines
  import opened UnitSpans
  import opened Layout
  import opened Wire
  import Control

  const U64: nat := 0x1_0000_0000_0000_0000
  const MAGIC: seq<Byte> := [69, 76, 83, 80, 82, 80, 48, 49]
  const VERSION: nat := 1
  const SOURCE_TAG: Byte := 1
  const HEADER_BYTES: nat := 121
  const UNIT_BYTES: nat := 34

  /** What an artifact is bound to, with the widths of its fields. */
  datatype Source = Source(
    namespace: seq<Byte>, id: seq<Byte>, registration: nat, version: nat, kind: Byte, digest: seq<Byte>, length: nat)
  {
    predicate Typed() {
      && |namespace| == 16 && |id| == 16 && |digest| == 32
      && registration < U64 && version < 0x1_0000 && length < U64
    }
  }

  // ------------------------------------------------------------- encoding

  /** The fields before the two counts, in order. */
  function Fields(source: Source, settings: Control.Settings): seq<seq<Byte>> {
    [MAGIC, LE(VERSION, 2), source.namespace, source.id, LE(source.registration, 8), LE(source.version, 2),
     [source.kind], source.digest, LE(source.length, 8), LE(settings.utf8Version, 2), LE(settings.unitizerVersion, 2),
     LE(settings.preferred, 4), LE(settings.hard, 4)]
  }

  function Flat(fields: seq<seq<Byte>>): seq<Byte> {
    if fields == [] then [] else fields[0] + Flat(fields[1..])
  }

  function Binding(source: Source, settings: Control.Settings): seq<Byte> {
    Flat(Fields(source, settings))
  }

  lemma BindingSize(source: Source, settings: Control.Settings)
    requires source.Typed()
    ensures |Binding(source, settings)| == HEADER_BYTES - 16
  {
    hide LE;
    var f := Fields(source, settings);
    assert |f| == 13;
    FlatSize(f, 13); FlatSize(f, 12); FlatSize(f, 11); FlatSize(f, 10); FlatSize(f, 9); FlatSize(f, 8); FlatSize(f, 7);
    FlatSize(f, 6); FlatSize(f, 5); FlatSize(f, 4); FlatSize(f, 3); FlatSize(f, 2); FlatSize(f, 1);
    assert f[13..] == [];
  }

  lemma FlatSize(f: seq<seq<Byte>>, k: nat)
    requires 0 < k <= |f|
    ensures |Flat(f[k - 1..])| == |f[k - 1]| + |Flat(f[k..])|
    ensures k == 1 ==> f[k - 1..] == f
  {
    assert f[k - 1..][1..] == f[k..];
  }

  function EncodeBool(b: bool): Byte {
    if b then 1 else 0
  }

  function EncodeUnit(u: UnitSpan): (s: seq<Byte>)
    ensures |s| == UNIT_BYTES
  {
    LE(u.start, 8) + LE(u.end, 8) + LE(u.lineStart, 8) + LE(u.lineEnd, 8) + [EncodeBool(u.startsAtLine)]
    + [EncodeBool(u.endsAtLine)]
  }

  function EncodeUnits(units: seq<UnitSpan>): (s: seq<Byte>)
    ensures |s| == UNIT_BYTES * |units|
  {
    if units == [] then [] else EncodeUnits(units[..|units|-1]) + EncodeUnit(units[|units|-1])
  }

  function EncodeArtifact(source: Source, settings: Control.Settings, text: seq<Byte>, units: seq<UnitSpan>): seq<Byte> {
    Binding(source, settings) + LE(|text|, 8) + LE(|units|, 8) + text + EncodeUnits(units)
  }

  predicate TypedUnit(u: UnitSpan) {
    u.start < U64 && u.end < U64 && u.lineStart < U64 && u.lineEnd < U64
  }

  // ------------------------------------------------------ injectivity

  lemma Pow256Eight()
    ensures Pow256(8) == U64
  {
    assert Pow256(4) == 0x1_0000_0000;
    assert Pow256(8) == 256 * (256 * (256 * (256 * Pow256(4))));
  }

  lemma UnitInjective(u: UnitSpan, v: UnitSpan)
    requires TypedUnit(u) && TypedUnit(v) && EncodeUnit(u) == EncodeUnit(v)
    ensures u == v
  {
    Pow256Eight();
    var a, b := EncodeUnit(u), EncodeUnit(v);
    assert a[0..8] == LE(u.start, 8) && a[8..16] == LE(u.end, 8) && a[16..24] == LE(u.lineStart, 8)
           && a[24..32] == LE(u.lineEnd, 8) && a[32] == EncodeBool(u.startsAtLine) && a[33] == EncodeBool(u.endsAtLine);
    assert b[0..8] == LE(v.start, 8) && b[8..16] == LE(v.end, 8) && b[16..24] == LE(v.lineStart, 8)
           && b[24..32] == LE(v.lineEnd, 8) && b[32] == EncodeBool(v.startsAtLine) && b[33] == EncodeBool(v.endsAtLine);
    LERoundTrip(u.start, 8); LERoundTrip(v.start, 8);
    LERoundTrip(u.end, 8); LERoundTrip(v.end, 8);
    LERoundTrip(u.lineStart, 8); LERoundTrip(v.lineStart, 8);
    LERoundTrip(u.lineEnd, 8); LERoundTrip(v.lineEnd, 8);
  }

  lemma {:induction false} FlatInjective(f: seq<seq<Byte>>, g: seq<seq<Byte>>)
    requires |f| == |g| && (forall i :: 0 <= i < |f| ==> |f[i]| == |g[i]|) && Flat(f) == Flat(g)
    ensures f == g
  {
    if f != [] {
      assert Flat(f)[..|f[0]|] == f[0] && Flat(g)[..|g[0]|] == g[0];
      assert Flat(f)[|f[0]|..] == Flat(f[1..]) && Flat(g)[|g[0]|..] == Flat(g[1..]);
      FlatInjective(f[1..], g[1..]);
      assert f == [f[0]] + f[1..] && g == [g[0]] + g[1..];
    }
  }

  lemma LEInjective(m: nat, n: nat, w: nat)
    requires m < Pow256(w) && n < Pow256(w) && LE(m, w) == LE(n, w)
    ensures m == n
  {
    LERoundTrip(m, w);
    LERoundTrip(n, w);
  }

  lemma SmallPowers()
    ensures Pow256(2) == 0x1_0000 && Pow256(4) == 0x1_0000_0000 && Pow256(8) == U64
  {
    assert Pow256(2) == 256 * Pow256(1) && Pow256(1) == 256 * Pow256(0);
    assert Pow256(4) == 256 * (256 * Pow256(2));
    Pow256Eight();
  }

  /** The fields before the text determine the source and the settings. */
  lemma BindingIsExact(source: Source, settings: Control.Settings, source2: Source, settings2: Control.Settings)
    requires source.Typed() && source2.Typed() && settings.Supported() && settings2.Supported()
    requires Binding(source, settings) == Binding(source2, settings2)
    ensures source2 == source && settings2 == settings
  {
    hide LE;
    var f, g := Fields(source, settings), Fields(source2, settings2);
    FlatInjective(f, g);
    SmallPowers();
    assert f[2] == g[2] && f[3] == g[3] && f[4] == g[4] && f[5] == g[5] && f[6] == g[6] && f[7] == g[7] && f[8] == g[8]
        && f[9] == g[9] && f[10] == g[10] && f[11] == g[11] && f[12] == g[12];
    assert source.kind == f[6][0] && source2.kind == g[6][0];
    LEInjective(source.registration, source2.registration, 8);
    LEInjective(source.version, source2.version, 2);
    LEInjective(source.length, source2.length, 8);
    LEInjective(settings.utf8Version, settings2.utf8Version, 2);
    LEInjective(settings.unitizerVersion, settings2.unitizerVersion, 2);
    LEInjective(settings.preferred, settings2.preferred, 4);
    LEInjective(settings.hard, settings2.hard, 4);
  }

  lemma {:induction false} UnitBytesAt(units: seq<UnitSpan>, i: nat)
    requires i < |units|
    ensures EncodeUnits(units)[UNIT_BYTES * i..UNIT_BYTES * (i + 1)] == EncodeUnit(units[i])
    decreases |units|
  {
    var front := units[..|units|-1];
    if i < |front| {
      UnitBytesAt(front, i);
      assert EncodeUnits(units)[..UNIT_BYTES * |front|] == EncodeUnits(front);
      assert EncodeUnits(units)[UNIT_BYTES * i..UNIT_BYTES * (i + 1)]
          == EncodeUnits(front)[UNIT_BYTES * i..UNIT_BYTES * (i + 1)];
    }
  }

  lemma LinesAreShort(t: seq<Byte>)
    ensures |AllLines(t)| <= |t|
  {
    LinesFromShort(t, 0, 0);
  }

  lemma {:induction false} LinesFromShort(t: seq<Byte>, start: nat, index: nat)
    requires start <= |t|
    ensures |LinesFrom(t, start, index)| <= |t| - start
    decreases |t| - start
  {
    if start < |t| { LinesFromShort(t, LineEnd(t, start), index + 1); }
  }

  /** Coordinates inside a representable text are representable. */
  lemma UnitsAreTyped(t: seq<Byte>, u: UnitSpan, hard: nat)
    requires UnitOk(t, u, hard) && |t| < U64
    ensures TypedUnit(u)
  {
    LinesAreShort(t);
    AllLinesConsecutive(t);
  }

  // ------------------------------------------------------- reading units

  lemma UnitSlice(b: seq<Byte>, at: nat, u: UnitSpan)
    requires at + UNIT_BYTES <= |b|
    requires b[at..at + 8] == LE(u.start, 8) && b[at + 8..at + 16] == LE(u.end, 8)
    requires b[at + 16..at + 24] == LE(u.lineStart, 8) && b[at + 24..at + 32] == LE(u.lineEnd, 8)
    requires b[at + 32] == EncodeBool(u.startsAtLine) && b[at + 33] == EncodeBool(u.endsAtLine)
    ensures b[at..at + UNIT_BYTES] == EncodeUnit(u)
  {
    hide LE;
    assert b[at..at + 34] == b[at..at + 8] + b[at + 8..at + 16] + b[at + 16..at + 24] + b[at + 24..at + 32]
                             + [b[at + 32]] + [b[at + 33]];
  }

  lemma NotAUnit(slice: seq<Byte>, k: nat)
    requires |slice| == UNIT_BYTES && (k == 32 || k == 33) && slice[k] > 1
    ensures forall u :: slice != EncodeUnit(u)
  {
    forall u ensures slice != EncodeUnit(u) { assert EncodeUnit(u)[k] <= 1; }
  }

  method ReadUnit(reader: Reader) returns (r: Option<UnitSpan>)
    requires reader.Valid() && reader.position + UNIT_BYTES <= |reader.bytes|
    modifies reader
    ensures reader.Valid()
    ensures r.Some? ==> && reader.position == old(reader.position) + UNIT_BYTES && TypedUnit(r.value)
                        && reader.bytes[old(reader.position)..reader.position] == EncodeUnit(r.value)
    ensures r.None? ==> forall u :: reader.bytes[old(reader.position)..old(reader.position) + UNIT_BYTES] != EncodeUnit(u)
  {
    hide EncodeUnit, LE;
    Pow256Eight();
    ghost var at := reader.position;
    ghost var slice := reader.bytes[at..at + UNIT_BYTES];
    var start := reader.TakeNat(8);
    var end := reader.TakeNat(8);
    var lineStart := reader.TakeNat(8);
    var lineEnd := reader.TakeNat(8);
    var startsAt := reader.TakeBool();
    if startsAt.None? { NotAUnit(slice, 32); return None; }
    var endsAt := reader.TakeBool();
    if endsAt.None? { NotAUnit(slice, 33); return None; }
    var u := UnitSpan(start.value, end.value, lineStart.value, lineEnd.value, startsAt.value, endsAt.value);
    UnitSlice(reader.bytes, at, u);
    return Some(u);
  }
}
