/** Exact search in retained UTF-8: which sources have a representation, and
    the complete accounting over them. */
module Decoded {
  import opened Wrappers
  import opened Text
  import opened Literal
  import opened Control
  import opened Prepared
  import opened Exact
  import Artifact
  import Wire

  datatype VisitError = BindingInvalid | ObjectFailed | ArtifactRefused | TextMismatch

  function BigEndian(n: nat, width: nat): (s: seq<Byte>)
    ensures |s| == width
  {
    if width == 0 then [] else BigEndian(n / 256, width - 1) + [n % 256]
  }

  /** A saved row as the fields an artifact is bound to. */
  function Bound(s: SourceRecord): Artifact.Source {
    Artifact.Source(BigEndian(s.namespace, 16), BigEndian(s.id, 16), s.registrationRevision, s.objectRef.version,
                    if s.objectRef.kind.SourceObject? then 1 else 2, BigEndian(s.objectRef.digest, 32), s.objectRef.length)
  }

  lemma {:induction false} BigEndianInjective(m: nat, n: nat, width: nat)
    requires m < Wire.Pow256(width) && n < Wire.Pow256(width) && BigEndian(m, width) == BigEndian(n, width)
    ensures m == n
  {
    if width > 0 {
      var a, b := BigEndian(m, width), BigEndian(n, width);
      assert a[..width - 1] == BigEndian(m / 256, width - 1) && b[..width - 1] == BigEndian(n / 256, width - 1);
      assert a[width - 1] == m % 256 && b[width - 1] == n % 256;
      BigEndianInjective(m / 256, n / 256, width - 1);
    }
  }

  /** The row's identifiers and digest have the widths they are stored in. */
  predicate Sized(s: SourceRecord) {
    s.namespace < Wire.Pow256(16) && s.id < Wire.Pow256(16) && s.objectRef.digest < Wire.Pow256(32)
  }

  /** Saved bytes are the artifact of one source: of one identity, registration
      and object, under one settings. */
  lemma OneSource(c: Captured, other: Captured, saved: seq<Byte>, text: seq<Byte>, text2: seq<Byte>, o: Objects)
    requires Bound(c.source).Typed() && Bound(other.source).Typed() && Sized(c.source) && Sized(other.source)
    requires Holds(c, saved, text, o) && Holds(other, saved, text2, o)
    ensures other.source.namespace == c.source.namespace && other.source.id == c.source.id
    ensures other.source.registrationRevision == c.source.registrationRevision
    ensures other.source.objectRef == c.source.objectRef && other.preparation.settings == c.preparation.settings
  {
    hide Encodes, BigEndian, Wire.Pow256;
    var units :| Encodes(saved, Bound(c.source), c.preparation.settings, o.limits, o.digest, text, units);
    var units2 :| Encodes(saved, Bound(other.source), other.preparation.settings, o.limits, o.digest, text2, units2);
    BoundToOne(saved, Bound(c.source), c.preparation.settings, o.limits, o.digest, text, units,
               Bound(other.source), other.preparation.settings, o.limits, o.digest, text2, units2);
    BigEndianInjective(c.source.namespace, other.source.namespace, 16);
    BigEndianInjective(c.source.id, other.source.id, 16);
    BigEndianInjective(c.source.objectRef.digest, other.source.objectRef.digest, 32);
  }

  /** What the object store holds and how artifacts are checked. */
  datatype Objects = Objects(read: ObjectStore, limits: Limits, digest: Digest) {
    /** A read under a ceiling fails before it looks for the object. */
    function Under(o: ObjectRef, maximum: nat): Read {
      if o.length > maximum then Failed else read(o)
    }
  }

  /** The artifact's bytes encode exactly this text, with some units. */
  ghost predicate Holds(c: Captured, saved: seq<Byte>, text: seq<Byte>, o: Objects) {
    exists units :: Encodes(saved, Bound(c.source), c.preparation.settings, o.limits, o.digest, text, units)
  }

  /** The retained text of a captured source, the reason there is none, or
      nothing where the search must fail: a preparation gap and a missing
      object are reasons, anything else wrong is a failure. The text is the
      source's own bytes, accepted by the artifact decoder. */
  ghost function TextContent(c: Captured, o: Objects): Option<Content> {
    match c.preparation.outcome
    case None => None
    case Some(outcome) =>
      match outcome.result
      case Gap(_) => Some(Withheld(PreparationGap, None))
      case Ready(artifact) =>
        match o.Under(c.source.objectRef, MAX_SOURCE_BYTES)
        case Absent => Some(Withheld(SourceObjectMissing, Some(artifact)))
        case Failed => None
        case Found(original) =>
          match o.Under(artifact, MAX_PREPARED_BYTES)
          case Absent => Some(Withheld(PreparedObjectMissing, Some(artifact)))
          case Failed => None
          case Found(saved) => if Holds(c, saved, original, o) then Some(Retained(artifact, original)) else None
  }

  /** The saved artifact holds a text that is not the source's bytes. */
  ghost predicate Mismatched(c: Captured, o: Objects, text: seq<Byte>) {
    c.preparation.outcome.Some? &&
    match c.preparation.outcome.value.result
    case Gap(_) => false
    case Ready(artifact) =>
      o.read(artifact).Found? && Holds(c, o.read(artifact).bytes, text, o) && o.read(c.source.objectRef) != Found(text)
  }

  /** Visits one captured source. */
  method Visit(c: Captured, o: Objects) returns (r: Result<Content, VisitError>)
    requires Bound(c.source).Typed()
    ensures r.Ok? ==> TextContent(c, o) == Some(r.value)
    ensures r.Err? ==> TextContent(c, o) == None
    ensures r == Err(TextMismatch) ==> exists text :: Mismatched(c, o, text)
  {
    hide Encodes;
    if c.preparation.outcome.None? { return Err(BindingInvalid); }
    var outcome := c.preparation.outcome.value.result;
    if outcome.Gap? { return Ok(Withheld(PreparationGap, None)); }
    var artifact := outcome.artifact;
    var original := o.Under(c.source.objectRef, MAX_SOURCE_BYTES);
    if original.Absent? { return Ok(Withheld(SourceObjectMissing, Some(artifact))); }
    if original.Failed? { return Err(ObjectFailed); }
    var saved := o.Under(artifact, MAX_PREPARED_BYTES);
    if saved.Absent? { return Ok(Withheld(PreparedObjectMissing, Some(artifact))); }
    if saved.Failed? { return Err(ObjectFailed); }
    var view := Decode(saved.bytes, Bound(c.source), c.preparation.settings, o.limits, o.digest);
    if view.Err? { return Err(ArtifactRefused); }
    assert Holds(c, saved.bytes, view.value.text, o);
    if view.value.text != original.bytes {
      OneText(c, saved.bytes, view.value.text, original.bytes, o);
      assert Mismatched(c, o, view.value.text);
      return Err(TextMismatch);
    }
    return Ok(Retained(artifact, view.value.text));
  }

  /** Saved bytes are the artifact of at most one text. */
  lemma OneText(c: Captured, saved: seq<Byte>, text: seq<Byte>, other: seq<Byte>, o: Objects)
    requires Bound(c.source).Typed() && Holds(c, saved, text, o)
    ensures Holds(c, saved, other, o) ==> text == other
  {
    hide Encodes;
    if Holds(c, saved, other, o) {
      var units :| Encodes(saved, Bound(c.source), c.preparation.settings, o.limits, o.digest, text, units);
      var units2 :| Encodes(saved, Bound(c.source), c.preparation.settings, o.limits, o.digest, other, units2);
      EncodingIsExact(saved, Bound(c.source), c.preparation.settings, o.limits, o.digest, text, units, other, units2);
    }
  }

  /** What is found behind each source; a failed visit never reaches it. */
  ghost function TextReadings(cs: seq<Captured>, o: Objects): seq<Reading> {
    if cs == [] then []
    else
      var last := cs[|cs|-1];
      TextReadings(cs[..|cs|-1], o)
      + [Reading(RefOf(last.source),
                 if TextContent(last, o).Some? then TextContent(last, o).value else Withheld(PreparationGap, None))]
  }

  /** Every reading of a source is sound, whatever the objects hold. */
  lemma TextSound(c: Captured, x: Reading, o: Objects)
    requires Readable(c) && Verified(o.read) && x.source == RefOf(c.source)
    requires x.content == if TextContent(c, o).Some? then TextContent(c, o).value else Withheld(PreparationGap, None)
    ensures Sound(x) && x.content.Kind() == DecodedKind && Bound(c.source).Typed()
  {
    hide Valid, Encodes;
    if x.content.Retained? { HeldIsValid(c, x.content, o); }
  }

  lemma HeldIsValid(c: Captured, content: Content, o: Objects)
    requires content.Retained? && TextContent(c, o) == Some(content)
    ensures Valid(content.text)
  {
    hide Valid, Artifact.EncodeArtifact;
  }

  lemma {:induction false} TextPinned(cs: seq<Captured>, o: Objects)
    requires Inventory(cs) && Verified(o.read)
    ensures Pinned(TextReadings(cs, o), DecodedKind) && Follow(TextReadings(cs, o), cs)
  {
    hide TextContent, Sound, Verified;
    if cs != [] {
      var front, last := cs[..|cs|-1], cs[|cs|-1];
      InventoryFront(cs, |front|);
      TextPinned(front, o);
      hide Readable, Inventory;
      TextSound(last, TextReadings(cs, o)[|TextReadings(front, o)|], o);
      PinnedMore(cs, TextReadings(front, o), TextReadings(cs, o)[|TextReadings(front, o)|], DecodedKind);
    }
  }

  lemma InventoryFront(cs: seq<Captured>, k: nat)
    requires Inventory(cs) && k <= |cs|
    ensures Inventory(cs[..k]) && forall i :: 0 <= i < |cs| ==> Readable(cs[i])
  {
    hide Readable;
  }

  lemma TextStep(cs: seq<Captured>, k: nat, x: Reading, o: Objects)
    requires Inventory(cs) && Verified(o.read) && k < |cs|
    requires x.source == RefOf(cs[k].source) && TextContent(cs[k], o) == Some(x.content)
    ensures Pinned(TextReadings(cs[..k], o), DecodedKind)
    ensures var before := TextReadings(cs[..k], o); before[..|before|] == before
    ensures Sound(x) && x.source.input.length <= MAX_SOURCE_BYTES
  {
    InventoryFront(cs, k);
    TextPinned(cs[..k], o);
    hide TextContent, Verified;
    TextSound(cs[k], x, o);
  }

  lemma RowTyped(cs: seq<Captured>, k: nat)
    requires Inventory(cs) && k < |cs|
    ensures Bound(cs[k].source).Typed()
  {
    assert Readable(cs[k]);
  }

  /** Runs a query over the retained text of the pinned inventory. A completed
      result tells the whole truth about every selected source: no occurrence
      is missed, every hit could be cut out and reads as the literal, and each
      source without text is a gap with its reason. The outcome is decided by
      the request, the inventory and the objects: the final check refuses a
      result only for a zero identifier it would show, or a gap that names an
      artifact above the ceiling. */
  method Execute(generation: nat, inventory: seq<Captured>, request: Request, o: Objects)
    returns (r: Result<ExactResult, ExactError>)
    requires generation != 0 && Inventory(inventory) && Verified(o.read) && Valid(request.literal)
    ensures var selected := Selection(inventory, request.ids);
            var xs := TextReadings(selected, o);
            if !request.Ok() then r == Err(InvalidRequest)
            else if !Published(inventory, request.ids) then r == Err(SourceNotPublished)
            else if exists c :: c in selected && TextContent(c, o).None? then r == Err(ReadFailed)
            else if Refused(xs, request.literal, request.limit) then r == Err(InvalidResult)
            else && r.Ok? && Pinned(xs, DecodedKind)
                 && Accounts(r.value, generation, xs, request.literal, request.limit)
                 && ValidatesRequest(r.value, DecodedKind, request)
  {
    hide IsTable, Tally.Tells, Pinned, Inventory, ValidatesRequest, Verified, Accounts, Refused, Sound, Follow, Selection,
         TextContent, Published, Valid, Readable;
    if !request.Ok() { return Err(InvalidRequest); }
    var w := request.literal;
    var prefix := Compile(w);
    var chosen := SelectSources(inventory, request.ids);
    if chosen.None? { return Err(SourceNotPublished); }
    var selected := chosen.value;
    SelectionPinned(inventory, request.ids);
    TextPinned(selected, o);
    ghost var xs := TextReadings(selected, o);
    SelectionFacts(inventory, request, xs);
    var tally := new Tally();
    TellsNothing(tally, w, request.limit);
    var k: nat := 0;
    while k < |selected|
      invariant k <= |selected| && fresh(tally) && tally.Tells(TextReadings(selected[..k], o), w, request.limit)
      invariant forall i :: 0 <= i < k ==> TextContent(selected[i], o).Some?
    {
      var c := selected[k];
      assert c in selected;
      RowTyped(selected, k);
      var content := Visit(c, o);
      if content.Err? { return Err(ReadFailed); }
      var x := Reading(RefOf(c.source), content.value);
      ghost var before := TextReadings(selected[..k], o);
      assert selected[..k + 1][..k] == selected[..k];
      assert TextReadings(selected[..k + 1], o) == before + [x];
      TextStep(selected, k, x, o);
      Room(tally, before, |before|, DecodedKind, w, request.limit);
      var scanned := tally.ScanReading(x, w, prefix.value, request.limit, before);
      k := k + 1;
    }
    assert selected[..k] == selected;
    r := tally.Conclude(generation, DecodedKind, request, xs);
  }

  // ------------------------------------------------------------- refusal

  lemma {:induction false} TextAt(cs: seq<Captured>, o: Objects, k: nat)
    requires k < |cs|
    ensures |TextReadings(cs, o)| == |cs|
    ensures TextReadings(cs, o)[k].source == RefOf(cs[k].source)
    ensures TextReadings(cs, o)[k].content
            == if TextContent(cs[k], o).Some? then TextContent(cs[k], o).value else Withheld(PreparationGap, None)
    decreases |cs|
  {
    hide TextContent;
    var front := cs[..|cs|-1];
    if k < |front| { TextAt(front, o, k); }
    else if front != [] { TextAt(front, o, 0); }
  }

  /** The saved outcome names an artifact the client would not accept. */
  predicate NamesLong(c: Captured) {
    c.preparation.outcome.Some? &&
    match c.preparation.outcome.value.result
    case Ready(artifact) => artifact.length > MAX_PREPARED_BYTES
    case Gap(_) => false
  }

  /** A source whose gap names it: its own object is missing, so that the
      artifact is never read. */
  predicate ShowsLong(c: Captured, o: Objects) {
    NamesLong(c) && o.read(c.source.objectRef).Absent?
  }

  lemma LongAt(cs: seq<Captured>, o: Objects, w: seq<Byte>, limit: nat, k: nat)
    requires Inventory(cs) && k < |cs| && |TextReadings(cs, o)| == |cs|
    ensures LongGap(TextReadings(cs, o), w, limit, k)
            <==> ShowsLong(cs[k], o) && |AllItems(TextReadings(cs, o)[..k], w)| < limit
  {
    TextAt(cs, o, k);
    assert Readable(cs[k]);
    hide AllItems, TextReadings, Holds;
  }

  /** When a decoded result is refused, in terms of the inventory and the
      objects; without a long artifact, exactly when a raw one is. */
  lemma DecodedRefusal(cs: seq<Captured>, o: Objects, w: seq<Byte>, limit: nat)
    requires Inventory(cs)
    ensures var xs := TextReadings(cs, o);
            && |xs| == |cs|
            && (Refused(xs, w, limit) <==>
                  ZeroIdentity(xs, w)
                  || exists k: nat :: k < |cs| && ShowsLong(cs[k], o) && |AllItems(xs[..k], w)| < limit)
            && ((forall c :: c in cs ==> !NamesLong(c)) ==> (Refused(xs, w, limit) <==> ZeroIdentity(xs, w)))
  {
    if cs != [] { TextAt(cs, o, 0); }
    hide LongGap, AllItems, ShowsLong, NamesLong, Inventory, TextReadings, ZeroIdentity;
    forall k: nat | k < |cs|
      ensures LongGap(TextReadings(cs, o), w, limit, k)
              <==> ShowsLong(cs[k], o) && |AllItems(TextReadings(cs, o)[..k], w)| < limit
      ensures ShowsLong(cs[k], o) ==> NamesLong(cs[k]) && cs[k] in cs
    {
      LongAt(cs, o, w, limit, k);
      ShowsNames(cs[k], o);
    }
  }

  lemma ShowsNames(c: Captured, o: Objects)
    ensures ShowsLong(c, o) ==> NamesLong(c)
  {
  }
}
