/** What staging may rely on about the units of any accepted artifact. */
module DecodedUnits {
  import opened Text
  import opened UnitSpans
  import opened Lines
  import opened Layout
  import opened Artifact
  import opened Prepared
  import opened Staging
  import Control
  import Decoded
  import Wrappers

  /** The units of an accepted artifact partition its source's bytes, which
      is what staging asks of its decoder. */
  lemma DecodedPartition(a: seq<Byte>, source: Source, settings: Control.Settings, limits: Limits, digest: Digest,
                         text: seq<Byte>, units: seq<UnitSpan>)
    requires Encodes(a, source, settings, limits, digest, text, units)
    ensures Partition(units, source.length)
  {
    hide UnitOk, EncodeArtifact, AllLines, Valid;
  }

  /** Bytes of the length its ready outcome records are accepted as this
      source's artifact with these units. */
  ghost predicate Accepted(c: Control.Captured, limits: Limits, digest: Digest, units: seq<UnitSpan>) {
    exists saved, text ::
      Encodes(saved, Decoded.Bound(c.source), c.preparation.settings, limits, digest, text, units)
      && Staging.Artifact(c).Some? && |saved| == Staging.Artifact(c).value.length
  }

  /** The reader returns only units of accepted artifacts. */
  ghost predicate ReadsAccepted(decode: Control.Captured -> Wrappers.Option<seq<UnitSpan>>, limits: Limits,
                                digest: Digest)
  {
    forall c: Control.Captured :: decode(c).Some? ==> Accepted(c, limits, digest, decode(c).value)
  }

  /** So a reader that returns only units the artifact decoder accepted is one
      staging may use. */
  lemma DecoderPartitions(decode: Control.Captured -> Wrappers.Option<seq<UnitSpan>>, limits: Limits, digest: Digest)
    requires ReadsAccepted(decode, limits, digest)
    ensures Partitions(decode)
  {
    hide Encodes, Partition;
    forall c: Control.Captured | decode(c).Some? ensures Partition(decode(c).value, c.source.objectRef.length) {
      var saved, text :| Encodes(saved, Decoded.Bound(c.source), c.preparation.settings, limits, digest, text,
                                 decode(c).value)
                         && Staging.Artifact(c).Some? && |saved| == Staging.Artifact(c).value.length;
      DecodedPartition(saved, Decoded.Bound(c.source), c.preparation.settings, limits, digest, text, decode(c).value);
    }
  }

  /** A corpus staged with such a reader under the artifact ceiling names no
      artifact above it: `StageCapture` returns only when every ready artifact
      was decoded. */
  lemma StagedNamesNone(sources: seq<Control.Captured>, decode: Control.Captured -> Wrappers.Option<seq<UnitSpan>>,
                        limits: Limits, digest: Digest)
    requires ReadsAccepted(decode, limits, digest) && limits.maxEncoded <= Control.MAX_PREPARED_BYTES
    requires forall c :: c in sources && Staging.Artifact(c).Some? ==> decode(c).Some?
    ensures forall c :: c in sources ==> !Decoded.NamesLong(c)
  {
    hide EncodeArtifact, UnitsTo, Valid, AllLines;
    forall c | c in sources ensures !Decoded.NamesLong(c) {
      if Staging.Artifact(c).Some? { assert Accepted(c, limits, digest, decode(c).value); }
    }
  }

  /** The evidence staged for any unit of an accepted artifact passes the page
      encoder: an honest build is never refused for its evidence. */
  lemma DecodedEvidenceValid(a: seq<Byte>, source: Source, settings: Control.Settings, limits: Limits, digest: Digest,
                             text: seq<Byte>, units: seq<UnitSpan>, c: Control.Captured, artifact: Control.ObjectRef,
                             i: nat)
    requires Encodes(a, source, settings, limits, digest, text, units) && i < |units|
    requires c.source.objectRef.kind == Control.SourceObject && c.source.objectRef.version == 1
    requires c.source.objectRef.length == source.length
    requires artifact.kind == Control.PreparedObject && artifact.version == 1
    requires 0 < artifact.length <= Control.MAX_PREPARED_BYTES
    ensures Control.ValidEvidence(EvidenceOf(c, artifact, i, units[i]))
  {
    hide EncodeArtifact, AllLines, Valid, Boundary, Below;
    assert UnitOk(text, units[i], settings.hard);
    UnitLines(text, units[i], settings.hard);
  }

  lemma AloneFits(point: Control.Point, wire: seq<Control.Point> -> Staging.Wire)
    requires Control.ValidEvidence(point.evidence)
    requires wire([point]).Size? && wire([point]).bytes <= Staging.MAX_REQUEST_BYTES
    ensures !Staging.Oversized([point], wire)
  {
  }

  /** So a source whose artifact such a reader accepts can be staged, whenever
      the request of a single point is never too large. */
  lemma DecodedIsStageable(c: Control.Captured, decode: Control.Captured -> Wrappers.Option<seq<UnitSpan>>,
                           limits: Limits, digest: Digest, wire: seq<Control.Point> -> Staging.Wire)
    requires ReadsAccepted(decode, limits, digest) && limits.maxEncoded <= Control.MAX_PREPARED_BYTES
    requires c.Reads() && Staging.Artifact(c).Some? && decode(c).Some?
    requires forall point: Control.Point :: wire([point]).Size? && wire([point]).bytes <= Staging.MAX_REQUEST_BYTES
    ensures Staging.Stageable(c, decode, wire)
  {
    hide Encodes, Staging.Oversized, Control.ValidEvidence, Control.RowReads, Control.IsSourceObject;
    var artifact, units := Staging.Artifact(c).value, decode(c).value;
    assert Accepted(c, limits, digest, units);
    var saved, text :| Encodes(saved, Decoded.Bound(c.source), c.preparation.settings, limits, digest, text, units)
                       && Staging.Artifact(c).Some? && |saved| == Staging.Artifact(c).value.length;
    EncodedWithin(saved, Decoded.Bound(c.source), c.preparation.settings, limits, digest, text, units);
    forall i, point: Control.Point | 0 <= i < |units| && point.evidence == EvidenceOf(c, artifact, i, units[i])
      ensures Control.ValidEvidence(point.evidence) && !Staging.Oversized([point], wire)
    {
      SourceTyped(c);
      DecodedEvidenceValid(saved, Decoded.Bound(c.source), c.preparation.settings, limits, digest, text, units, c, artifact, i);
      AloneFits(point, wire);
    }
  }

  lemma SourceTyped(c: Control.Captured)
    requires c.Reads()
    ensures c.source.objectRef.kind == Control.SourceObject && c.source.objectRef.version == 1
  {
  }

  lemma EncodedWithin(saved: seq<Byte>, source: Source, settings: Control.Settings, limits: Limits, digest: Digest,
                      text: seq<Byte>, units: seq<UnitSpan>)
    requires Encodes(saved, source, settings, limits, digest, text, units)
    ensures |saved| <= limits.maxEncoded
  {
    hide EncodeArtifact, UnitsTo, Valid, AllLines;
  }

  /** A unit touches at least one line. */
  lemma UnitLines(t: seq<Byte>, u: UnitSpan, hard: nat)
    requires UnitOk(t, u, hard)
    ensures u.lineStart < u.lineEnd
  {
    hide AllLines, Below;
    AllLinesConsecutive(t);
    BelowMonotone(t, u.start + 1, u.end);
  }
}
