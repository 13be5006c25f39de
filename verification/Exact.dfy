/** Exhaustive exact search over a pinned inventory, of retained bytes or of
    retained text: complete accounting, a bounded emitted prefix, and the
    independent validator of the result. */
module Exact {
  import opened Wrappers
  import opened Text
  import opened Literal
  import opened Control

  const MAX_ITEMS: nat := 64
  const MAX_QUERY_BYTES: nat := 4096
  const DIGITS: seq<Byte> := [48, 49, 50, 51, 52, 53, 54, 55, 56, 57, 97, 98, 99, 100, 101, 102]

  datatype SourceRef = SourceRef(
    namespace: Id, id: Id, rowRevision: nat, registrationRevision: nat, input: ObjectRef)
  {
    /** What reading a saved row enforces; its identifiers are any bytes. */
    predicate Recorded() {
      && rowRevision != 0 && registrationRevision != 0
      && input.version == 1 && input.kind == SourceObject && input.length <= MAX_SOURCE_BYTES
    }
    /** What the client demands of a reference: also no zero identifier. */
    predicate Canonical() {
      namespace != 0 && id != 0 && Recorded()
    }
  }

  function RefOf(s: SourceRecord): SourceRef {
    SourceRef(s.namespace, s.id, s.rowRevision, s.registrationRevision, s.objectRef)
  }

  /** What the client demands of an artifact: also a ceiling. */
  predicate ArtifactOk(o: ObjectRef) {
    IsArtifact(o) && o.length <= MAX_PREPARED_BYTES
  }

  datatype Kind = RawKind | DecodedKind

  datatype GapCode = PreparationGap | SourceObjectMissing | PreparedObjectMissing

  /** A raw match or missing object; a match in retained text or a source
      without any. */
  datatype Item =
    | Match(source: SourceRef, start: nat, end: nat, hex: seq<Byte>)
    | Missing(source: SourceRef)
    | Hit(source: SourceRef, prepared: ObjectRef, start: nat, end: nat, sourceStart: nat, sourceEnd: nat, text: seq<Byte>)
    | NoText(source: SourceRef, code: GapCode, artifact: Option<ObjectRef>)
  {
    predicate Found() {
      Match? || Hit?
    }
    function Kind(): Kind {
      if Match? || Missing? then RawKind else DecodedKind
    }
  }

  datatype StopReason = Complete | OutputLimit

  datatype Request = Request(literal: seq<Byte>, ids: Option<seq<Id>>, limit: nat) {
    predicate Ok() {
      && 0 < |literal| <= MAX_QUERY_BYTES && 0 < limit <= MAX_ITEMS
      && (ids.Some? ==>
            && (forall i :: 0 <= i < |ids.value| ==> ids.value[i] != 0)
            && (forall i, j :: 0 <= i < j < |ids.value| ==> ids.value[i] != ids.value[j]))
    }
  }

  datatype ExactResult = ExactResult(
    generation: nat, selected: nat, scanned: nat, missing: nat, scannedBytes: nat, matches: nat,
    items: seq<Item>, scanComplete: bool, completeNegative: bool, stop: StopReason)

  // ---------------------------------------------------------------- hex

  function Hex(bytes: seq<Byte>): (h: seq<Byte>)
    ensures |h| == 2 * |bytes|
  {
    if bytes == [] then []
    else Hex(bytes[..|bytes|-1]) + [DIGITS[bytes[|bytes|-1] / 16], DIGITS[bytes[|bytes|-1] % 16]]
  }

  predicate LowerHex(h: seq<Byte>) {
    forall k :: 0 <= k < |h| ==> 48 <= h[k] <= 57 || 97 <= h[k] <= 102
  }

  lemma {:induction false} HexIsLower(bytes: seq<Byte>)
    ensures LowerHex(Hex(bytes))
  {
    if bytes != [] { HexIsLower(bytes[..|bytes|-1]); }
  }

  /** What one digit stands for. */
  function DigitValue(d: Byte): int {
    if d <= 57 then d - 48 else d - 87
  }

  lemma DigitReads(n: nat)
    requires n < 16
    ensures DigitValue(DIGITS[n]) == n
  {
  }

  /** Two digits stand for each byte, the high one first. */
  lemma {:induction false} HexDecodes(bytes: seq<Byte>, k: nat)
    requires k < |bytes|
    ensures DigitValue(Hex(bytes)[2 * k]) * 16 + DigitValue(Hex(bytes)[2 * k + 1]) == bytes[k]
  {
    hide DigitValue;
    if k < |bytes| - 1 {
      HexDecodes(bytes[..|bytes|-1], k);
      assert Hex(bytes)[..2 * k + 2] == Hex(bytes[..|bytes|-1])[..2 * k + 2];
    } else {
      DigitReads(bytes[k] / 16);
      DigitReads(bytes[k] % 16);
    }
  }

  // ------------------------------------------------------ the whole answer

  /** What was found behind one selected source: its bytes or nothing, its
      retained text or the reason there is none. */
  datatype Content =
    | Bytes(text: seq<Byte>)
    | Lost
    | Retained(artifact: ObjectRef, text: seq<Byte>)
    | Withheld(code: GapCode, named: Option<ObjectRef>)
  {
    predicate Scanned() {
      Bytes? || Retained?
    }
    function Kind(): Kind {
      if Bytes? || Lost? then RawKind else DecodedKind
    }
  }

  datatype Reading = Reading(source: SourceRef, content: Content)

  /** What every reading is known to satisfy. */
  predicate Sound(x: Reading) {
    && x.source.Recorded()
    && (x.content.Scanned() ==> |x.content.text| == x.source.input.length)
    && (x.content.Retained? ==> Valid(x.content.text) && ArtifactOk(x.content.artifact))
    && (x.content.Withheld? ==>
          && (x.content.code.PreparationGap? <==> x.content.named.None?)
          && (x.content.named.Some? ==> IsArtifact(x.content.named.value)))
  }

  /** One occurrence of the literal as it is shown. */
  function ItemAt(x: Reading, w: seq<Byte>, s: nat): Item
    requires x.content.Scanned()
  {
    if x.content.Bytes? then Match(x.source, s, s + |w|, Hex(w))
    else Hit(x.source, x.content.artifact, s, s + |w|, s, s + |w|, w)
  }

  function Matches(x: Reading, w: seq<Byte>, starts: seq<nat>): seq<Item>
    requires x.content.Scanned()
  {
    if starts == [] then []
    else Matches(x, w, starts[..|starts|-1]) + [ItemAt(x, w, starts[|starts|-1])]
  }

  function GapItem(x: Reading): Item
    requires !x.content.Scanned()
  {
    if x.content.Lost? then Missing(x.source) else NoText(x.source, x.content.code, x.content.named)
  }

  /** Everything one source contributes, in byte order. */
  function ItemsOf(x: Reading, w: seq<Byte>): seq<Item> {
    if x.content.Scanned() then Matches(x, w, Occurrences(w, x.content.text)) else [GapItem(x)]
  }

  function AllItems(xs: seq<Reading>, w: seq<Byte>): seq<Item> {
    if xs == [] then [] else AllItems(xs[..|xs|-1], w) + ItemsOf(xs[|xs|-1], w)
  }

  function HitCount(x: Reading, w: seq<Byte>): nat {
    if x.content.Scanned() then |Occurrences(w, x.content.text)| else 0
  }

  function MatchCount(xs: seq<Reading>, w: seq<Byte>): nat {
    if xs == [] then 0 else MatchCount(xs[..|xs|-1], w) + HitCount(xs[|xs|-1], w)
  }

  function FoundCount(xs: seq<Reading>): nat {
    if xs == [] then 0 else FoundCount(xs[..|xs|-1]) + if xs[|xs|-1].content.Scanned() then 1 else 0
  }

  function ByteCount(xs: seq<Reading>): nat {
    if xs == [] then 0
    else ByteCount(xs[..|xs|-1]) + if xs[|xs|-1].content.Scanned() then xs[|xs|-1].source.input.length else 0
  }

  function Prefix<T>(all: seq<T>, limit: nat): seq<T> {
    if |all| <= limit then all else all[..limit]
  }

  /** A result that tells the whole truth about the selected sources and
      shows the first items of it. */
  predicate Accounts(r: ExactResult, generation: nat, xs: seq<Reading>, w: seq<Byte>, limit: nat) {
    var all := AllItems(xs, w);
    && r.generation == generation
    && r.selected == |xs| && r.scanned == FoundCount(xs) && r.missing == |xs| - r.scanned
    && r.scannedBytes == ByteCount(xs)
    && r.matches == MatchCount(xs, w)
    && r.items == Prefix(all, limit)
    && r.scanComplete == (r.missing == 0)
    && r.completeNegative == (r.scanComplete && r.matches == 0)
    && (r.stop == Complete <==> r.items == all)
  }

  // ---------------------------------------------------------- validation

  predicate ItemOk(item: Item) {
    && item.source.Canonical()
    && match item
       case Match(source, start, end, hex) =>
         && start < end <= source.input.length && end - start <= MAX_QUERY_BYTES
         && |hex| == 2 * (end - start) && LowerHex(hex)
       case Missing(_) => true
       case Hit(source, prepared, start, end, sourceStart, sourceEnd, text) =>
         && ArtifactOk(prepared)
         && start < end && sourceStart == start && sourceEnd == end && sourceEnd <= source.input.length
         && |text| <= MAX_QUERY_BYTES && |text| == sourceEnd - sourceStart
       case NoText(_, code, artifact) =>
         if code.PreparationGap? then artifact.None? else artifact.Some? && ArtifactOk(artifact.value)
  }

  /** Neighbours keep source order, and byte order within one source, where
      retained text is that of one artifact. */
  predicate InOrder(left: Item, right: Item) {
    && left.source.namespace == right.source.namespace && left.source.id <= right.source.id
    && (left.source.id == right.source.id ==>
          && left.source == right.source
          && ((left.Match? && right.Match?) || (left.Hit? && right.Hit? && left.prepared == right.prepared))
          && left.start < right.start)
  }

  function KindCount(items: seq<Item>, found: bool): nat {
    if items == [] then 0
    else KindCount(items[..|items|-1], found) + if items[|items|-1].Found() == found then 1 else 0
  }

  predicate CountsOk(r: ExactResult, limit: nat) {
    var total := r.matches + r.missing;
    && total <= U64_MAX
    && r.generation != 0 && 0 < limit <= MAX_ITEMS && |r.items| <= limit
    && r.scanned + r.missing == r.selected
    && r.scanComplete == (r.scanned == r.selected)
    && r.completeNegative == (r.scanComplete && r.matches == 0)
    && r.matches <= r.scannedBytes && (r.scanned == 0 ==> r.scannedBytes == 0)
    && |r.items| <= total && (r.stop == Complete <==> |r.items| == total)
  }

  predicate Validates(r: ExactResult, limit: nat) {
    && CountsOk(r, limit)
    && (forall i :: 0 <= i < |r.items| ==> ItemOk(r.items[i]))
    && (forall i, j :: 0 <= i < |r.items| && 0 <= j < |r.items| && j == i + 1 ==> InOrder(r.items[i], r.items[j]))
    && KindCount(r.items, true) <= r.matches && KindCount(r.items, false) <= r.missing
  }

  /** An item of the requested kind that names a requested source and, if it
      is a match, the literal. */
  predicate ItemAnswers(item: Item, kind: Kind, request: Request) {
    && item.Kind() == kind
    && (request.ids.Some? ==> item.source.id in request.ids.value)
    && (item.Match? ==> item.end - item.start == |request.literal| && item.hex == Hex(request.literal))
    && (item.Hit? ==> item.text == request.literal)
  }

  predicate ValidatesRequest(r: ExactResult, kind: Kind, request: Request) {
    && request.Ok() && Validates(r, request.limit)
    && (request.ids.Some? ==> |request.ids.value| == r.selected)
    && (forall i :: 0 <= i < |r.items| ==> ItemAnswers(r.items[i], kind, request))
  }

  /** The client's independent check, item by item. */
  method ValidateRequest(r: ExactResult, kind: Kind, request: Request) returns (ok: bool)
    ensures ok <==> ValidatesRequest(r, kind, request)
  {
    hide ItemOk, InOrder, ItemAnswers, CountsOk;
    if !request.Ok() || !CountsOk(r, request.limit) { return false; }
    var matches, gaps := 0, 0;
    var index := 0;
    while index < |r.items|
      invariant 0 <= index <= |r.items|
      invariant forall i :: 0 <= i < index ==> ItemOk(r.items[i]) && ItemAnswers(r.items[i], kind, request)
      invariant forall i, j :: 0 <= i < index && 0 <= j < index && j == i + 1 ==> InOrder(r.items[i], r.items[j])
      invariant matches == KindCount(r.items[..index], true) && gaps == KindCount(r.items[..index], false)
    {
      var item := r.items[index];
      assert r.items[..index + 1][..index] == r.items[..index];
      if !ItemOk(item) { return false; }
      if index > 0 && !InOrder(r.items[index - 1], item) { return false; }
      if !ItemAnswers(item, kind, request) { return false; }
      if item.Found() { matches := matches + 1; } else { gaps := gaps + 1; }
      index := index + 1;
    }
    assert r.items[..index] == r.items;
    if matches > r.matches || gaps > r.missing { return false; }
    return !(request.ids.Some? && |request.ids.value| != r.selected);
  }

  // ------------------------------------------------- what each source adds

  /** Readings of a pinned inventory: sound, in ascending order of one
      namespace, and all of one kind. */
  predicate Pinned(xs: seq<Reading>, kind: Kind) {
    && |xs| <= MAX_SOURCES
    && (forall i :: 0 <= i < |xs| ==> Sound(xs[i]) && xs[i].content.Kind() == kind)
    && (forall i, j :: 0 <= i < j < |xs| ==>
          xs[i].source.namespace == xs[j].source.namespace && xs[i].source.id < xs[j].source.id)
  }

  predicate AllSound(xs: seq<Reading>) {
    forall i :: 0 <= i < |xs| ==> Sound(xs[i])
  }

  predicate Ordered(items: seq<Item>) {
    forall i, j :: 0 <= i < |items| && 0 <= j < |items| && j == i + 1 ==> InOrder(items[i], items[j])
  }

  lemma {:induction false} MatchesAt(x: Reading, w: seq<Byte>, starts: seq<nat>, k: nat)
    requires x.content.Scanned() && k < |starts|
    ensures |Matches(x, w, starts)| == |starts| && Matches(x, w, starts)[k] == ItemAt(x, w, starts[k])
    decreases |starts|
  {
    var front := starts[..|starts|-1];
    if k < |front| { MatchesAt(x, w, front, k); }
    else if front != [] { MatchesAt(x, w, front, 0); }
  }

  lemma MatchesSize(x: Reading, w: seq<Byte>, starts: seq<nat>)
    requires x.content.Scanned()
    ensures |Matches(x, w, starts)| == |starts|
  {
    if starts != [] { MatchesAt(x, w, starts, 0); }
  }

  /** Whether the client can accept an item of this sound reading: its source
      has real identifiers and an artifact it only names is within bounds. */
  predicate Presentable(x: Reading) {
    && x.source.namespace != 0 && x.source.id != 0
    && (x.content.Withheld? && x.content.named.Some? ==> x.content.named.value.length <= MAX_PREPARED_BYTES)
  }

  /** What an item of a reading always satisfies. */
  predicate ItemOf(item: Item, x: Reading, w: seq<Byte>) {
    && item.source == x.source && item.Kind() == x.content.Kind() && (item.Found() <==> x.content.Scanned())
    && (ItemOk(item) <==> Presentable(x))
    && (item.Match? ==> item.end - item.start == |w| && item.hex == Hex(w))
    && (item.Hit? ==> item.text == w && item.prepared == x.content.artifact)
  }

  lemma HitIsItem(x: Reading, w: seq<Byte>, s: nat)
    requires Sound(x) && 0 < |w| <= MAX_QUERY_BYTES && x.content.Scanned() && s + |w| <= |x.content.text|
    ensures ItemOf(ItemAt(x, w, s), x, w)
  {
    HexIsLower(w);
    hide LowerHex, Hex, Valid;
  }

  lemma GapIsItem(x: Reading, w: seq<Byte>)
    requires Sound(x) && !x.content.Scanned()
    ensures ItemOf(GapItem(x), x, w)
  {
    hide LowerHex, Hex, Valid;
  }

  /** One source's items are its own, in order, and as many as it adds. */
  lemma SourceItems(x: Reading, w: seq<Byte>)
    requires Sound(x) && 0 < |w| <= MAX_QUERY_BYTES
    ensures var items := ItemsOf(x, w);
            && Ordered(items)
            && (forall i :: 0 <= i < |items| ==> ItemOf(items[i], x, w))
            && |items| == if x.content.Scanned() then HitCount(x, w) else 1
  {
    if x.content.Scanned() {
      var t := x.content.text;
      var starts := Occurrences(w, t);
      OccurrencesAscend(w, t, |t|);
      hide OccurrencesTo, ItemOf, Hex, Valid, Sound;
      MatchesSize(x, w, starts);
      forall i | 0 <= i < |starts|
        ensures Matches(x, w, starts)[i] == ItemAt(x, w, starts[i]) && ItemOf(ItemAt(x, w, starts[i]), x, w)
      {
        MatchesAt(x, w, starts, i);
        HitIsItem(x, w, starts[i]);
      }
    } else {
      GapIsItem(x, w);
    }
  }

  lemma {:induction false} KindCountAppend(a: seq<Item>, b: seq<Item>, found: bool)
    ensures KindCount(a + b, found) == KindCount(a, found) + KindCount(b, found)
  {
    if b == [] {
      assert a + b == a;
    } else {
      KindCountAppend(a, b[..|b|-1], found);
      assert (a + b)[..|a + b|-1] == a + b[..|b|-1];
    }
  }

  lemma {:induction false} KindCountUniform(items: seq<Item>, found: bool)
    requires forall i :: 0 <= i < |items| ==> items[i].Found() == found
    ensures KindCount(items, found) == |items| && KindCount(items, !found) == 0
  {
    if items != [] { KindCountUniform(items[..|items|-1], found); }
  }

  /** What one source adds to each count. */
  lemma SourceCounts(x: Reading, w: seq<Byte>)
    requires Sound(x) && 0 < |w| <= MAX_QUERY_BYTES
    ensures var gap := if x.content.Scanned() then 0 else 1;
            && KindCount(ItemsOf(x, w), true) == HitCount(x, w) && KindCount(ItemsOf(x, w), false) == gap
            && |ItemsOf(x, w)| == HitCount(x, w) + gap
            && (if x.content.Scanned() then HitCount(x, w) <= x.source.input.length else HitCount(x, w) == 0)
  {
    SourceItems(x, w);
    if x.content.Scanned() { OccurrencesAscend(w, x.content.text, |x.content.text|); }
    hide ItemOk, Ordered, ItemsOf, OccurrencesTo, Hex, Presentable;
    KindCountUniform(ItemsOf(x, w), x.content.Scanned());
  }

  /** The items of each kind are as many as the counts say. */
  lemma {:induction false} CountsAgree(xs: seq<Reading>, w: seq<Byte>)
    requires AllSound(xs) && 0 < |w| <= MAX_QUERY_BYTES
    ensures var all := AllItems(xs, w);
            && FoundCount(xs) <= |xs|
            && KindCount(all, true) == MatchCount(xs, w)
            && KindCount(all, false) == |xs| - FoundCount(xs)
            && |all| == MatchCount(xs, w) + |xs| - FoundCount(xs)
  {
    hide ItemsOf, KindCount, HitCount, Sound;
    if xs != [] {
      var front, last := xs[..|xs|-1], xs[|xs|-1];
      CountsAgree(front, w);
      SourceCounts(last, w);
      KindCountAppend(AllItems(front, w), ItemsOf(last, w), true);
      KindCountAppend(AllItems(front, w), ItemsOf(last, w), false);
    } else {
      NoItems();
    }
  }

  lemma NoItems()
    ensures KindCount([], true) == 0 && KindCount([], false) == 0
  {
  }

  /** No more matches than bytes, and no bytes without a scanned source. */
  lemma {:induction false} CountsBounded(xs: seq<Reading>, w: seq<Byte>)
    requires AllSound(xs) && 0 < |w| <= MAX_QUERY_BYTES
    ensures MatchCount(xs, w) <= ByteCount(xs) <= |xs| * MAX_SOURCE_BYTES
    ensures FoundCount(xs) == 0 ==> ByteCount(xs) == 0
  {
    hide ItemsOf, KindCount, HitCount;
    if xs != [] {
      var front, last := xs[..|xs|-1], xs[|xs|-1];
      CountsBounded(front, w);
      SourceCounts(last, w);
      assert last.source.Recorded();
    }
  }

  // ------------------------------------------------ the truth validates

  /** The item is one that some reading contributes. */
  predicate From(item: Item, xs: seq<Reading>, w: seq<Byte>) {
    exists k :: 0 <= k < |xs| && ItemOf(item, xs[k], w) && item in ItemsOf(xs[k], w)
  }

  predicate ItemsFrom(items: seq<Item>, xs: seq<Reading>, w: seq<Byte>) {
    forall i :: 0 <= i < |items| ==> From(items[i], xs, w)
  }

  lemma OrderedAppend(a: seq<Item>, b: seq<Item>)
    requires Ordered(a) && Ordered(b)
    requires a != [] && b != [] ==> InOrder(a[|a|-1], b[0])
    ensures Ordered(a + b)
  {
    hide InOrder;
  }

  lemma ItemsFromAppend(a: seq<Item>, b: seq<Item>, xs: seq<Reading>, last: Reading, w: seq<Byte>)
    requires ItemsFrom(a, xs, w) && b == ItemsOf(last, w) && forall i :: 0 <= i < |b| ==> ItemOf(b[i], last, w)
    ensures ItemsFrom(a + b, xs + [last], w)
  {
    hide ItemOf, ItemsOf;
    var all, ys := a + b, xs + [last];
    forall i | 0 <= i < |all| ensures From(all[i], ys, w) {
      if i < |a| {
        assert all[i] == a[i] && From(a[i], xs, w);
        var k :| 0 <= k < |xs| && ItemOf(a[i], xs[k], w) && a[i] in ItemsOf(xs[k], w);
        assert ys[k] == xs[k];
      } else {
        assert ys[|xs|] == last && all[i] == b[i - |a|];
      }
    }
  }

  lemma PinnedFront(xs: seq<Reading>, kind: Kind)
    requires Pinned(xs, kind) && xs != []
    ensures var front, last := xs[..|xs|-1], xs[|xs|-1];
            && Pinned(front, kind) && Sound(last) && xs == front + [last]
            && (forall x :: x in front ==> x.source.namespace == last.source.namespace && x.source.id < last.source.id)
  {
    hide Sound;
  }

  lemma LastFrom(items: seq<Item>, xs: seq<Reading>, w: seq<Byte>) returns (x: Reading)
    requires ItemsFrom(items, xs, w) && items != []
    ensures x in xs && items[|items|-1].source == x.source
  {
    hide ItemsOf, ItemOk, Hex, Presentable;
    assert From(items[|items|-1], xs, w);
    var k :| 0 <= k < |xs| && ItemOf(items[|items|-1], xs[k], w) && items[|items|-1] in ItemsOf(xs[k], w);
    x := xs[k];
  }

  lemma {:induction false} AllOrdered(xs: seq<Reading>, kind: Kind, w: seq<Byte>)
    requires Pinned(xs, kind) && 0 < |w| <= MAX_QUERY_BYTES
    ensures Ordered(AllItems(xs, w)) && ItemsFrom(AllItems(xs, w), xs, w)
  {
    hide ItemOk, ItemsOf, Ordered, ItemsFrom, Hex, Pinned, Sound, Presentable;
    if xs == [] {
      NothingOrdered(w);
    } else {
      var front, last := xs[..|xs|-1], xs[|xs|-1];
      PinnedFront(xs, kind);
      AllOrdered(front, kind, w);
      SourceItems(last, w);
      var before, items := AllItems(front, w), ItemsOf(last, w);
      if before != [] { var x := LastFrom(before, front, w); }
      OrderedAppend(before, items);
      ItemsFromAppend(before, items, front, last, w);
    }
  }

  lemma NothingOrdered(w: seq<Byte>)
    ensures Ordered([]) && ItemsFrom([], [], w)
  {
  }

  lemma {:induction false} KindCountPrefix(all: seq<Item>, k: nat, found: bool)
    requires k <= |all|
    ensures KindCount(all[..k], found) <= KindCount(all, found)
  {
    assert all == all[..k] + all[k..];
    KindCountAppend(all[..k], all[k..], found);
  }

  /** The first items are the first source's. */
  lemma {:induction false} StartsWithFirst(xs: seq<Reading>, w: seq<Byte>)
    requires xs != []
    ensures ItemsOf(xs[0], w) <= AllItems(xs, w)
  {
    hide ItemsOf;
    if |xs| > 1 { StartsWithFirst(xs[..|xs|-1], w); }
    else { assert xs[..0] == []; assert AllItems(xs, w) == [] + ItemsOf(xs[0], w); }
  }

  /** A source the client cannot accept an item of. */
  predicate ZeroIdentity(xs: seq<Reading>, w: seq<Byte>) {
    && AllItems(xs, w) != []
    && (xs[0].source.namespace == 0 || (xs[0].source.id == 0 && ItemsOf(xs[0], w) != []))
  }

  /** A gap that would be shown as source `k` and names an artifact above the
      ceiling. */
  predicate LongGap(xs: seq<Reading>, w: seq<Byte>, limit: nat, k: nat)
    requires k < |xs|
  {
    && |AllItems(xs[..k], w)| < limit
    && xs[k].content.Withheld? && xs[k].content.named.Some? && xs[k].content.named.value.length > MAX_PREPARED_BYTES
  }

  /** What is selected shows an item the client cannot accept. */
  predicate Refused(xs: seq<Reading>, w: seq<Byte>, limit: nat) {
    ZeroIdentity(xs, w) || exists k: nat :: k < |xs| && LongGap(xs, w, limit, k)
  }

  /** A gap that names an artifact above the ceiling. */
  predicate NamesTooMuch(item: Item) {
    item.NoText? && item.artifact.Some? && item.artifact.value.length > MAX_PREPARED_BYTES
  }

  /** Whose item the `i`-th is, and where that source's items begin. */
  lemma {:induction false} Located(xs: seq<Reading>, w: seq<Byte>, i: nat) returns (k: nat)
    requires i < |AllItems(xs, w)|
    ensures k < |xs|
    ensures var at := |AllItems(xs[..k], w)|;
            at <= i < at + |ItemsOf(xs[k], w)| && AllItems(xs, w)[i] == ItemsOf(xs[k], w)[i - at]
  {
    hide ItemsOf;
    var front := xs[..|xs|-1];
    if i < |AllItems(front, w)| {
      k := Located(front, w, i);
      assert front[..k] == xs[..k];
    } else {
      k := |xs| - 1;
    }
  }

  /** Each source's items stand after those of the sources before it. */
  lemma {:induction false} StandsAt(xs: seq<Reading>, w: seq<Byte>, k: nat)
    requires k < |xs|
    ensures AllItems(xs[..k], w) + ItemsOf(xs[k], w) <= AllItems(xs, w)
  {
    hide ItemsOf;
    var front := xs[..|xs|-1];
    if k < |front| {
      StandsAt(front, w, k);
      assert front[..k] == xs[..k];
    }
  }

  /** Of an item that comes from a pinned inventory, what is wrong is exactly
      one of these. */
  lemma ShownItem(xs: seq<Reading>, kind: Kind, w: seq<Byte>, i: nat)
    requires Pinned(xs, kind) && 0 < |w| <= MAX_QUERY_BYTES && i < |AllItems(xs, w)|
    ensures var item := AllItems(xs, w)[i];
            && xs != [] && item.source.namespace == xs[0].source.namespace && item.Kind() == kind
            && (ItemOk(item) <==> item.source.namespace != 0 && item.source.id != 0 && !NamesTooMuch(item))
            && (item.source.id == 0 ==> xs[0].source.id == 0 && ItemsOf(xs[0], w) != [])
            && (item.Match? ==> item.end - item.start == |w| && item.hex == Hex(w))
            && (item.Hit? ==> item.text == w)
            && exists x :: x in xs && x.source == item.source
  {
    var k := Located(xs, w, i);
    SourceItems(xs[k], w);
    hide Ordered, ItemOk, Hex, AllItems, ItemsOf;
    var item := AllItems(xs, w)[i];
    assert ItemOf(item, xs[k], w) && item in ItemsOf(xs[k], w);
    assert xs[k] in xs;
    NamedBy(item, xs[k], w);
    assert item.source.id == 0 ==> k == 0;
  }

  lemma NamedBy(item: Item, x: Reading, w: seq<Byte>)
    requires Sound(x) && ItemOf(item, x, w) && item in ItemsOf(x, w)
    ensures NamesTooMuch(item) <==>
              x.content.Withheld? && x.content.named.Some? && x.content.named.value.length > MAX_PREPARED_BYTES
  {
    hide ItemOk, Hex, Valid;
  }

  /** A shown item that names too much is the gap of some source, shown. */
  lemma LongGapShown(xs: seq<Reading>, kind: Kind, w: seq<Byte>, limit: nat, i: nat)
    requires Pinned(xs, kind) && 0 < |w| <= MAX_QUERY_BYTES && i < |Prefix(AllItems(xs, w), limit)|
    requires NamesTooMuch(AllItems(xs, w)[i])
    ensures exists k: nat :: k < |xs| && LongGap(xs, w, limit, k)
  {
    var k := Located(xs, w, i);
    SourceItems(xs[k], w);
    hide Ordered, ItemOk, Hex, AllItems;
    NamedBy(AllItems(xs, w)[i], xs[k], w);
    assert LongGap(xs, w, limit, k);
  }

  lemma LongGapAt(xs: seq<Reading>, w: seq<Byte>, limit: nat, k: nat)
    requires k < |xs| && LongGap(xs, w, limit, k)
    ensures var i := |AllItems(xs[..k], w)|; i < |Prefix(AllItems(xs, w), limit)| && NamesTooMuch(AllItems(xs, w)[i])
  {
    StandsAt(xs, w, k);
    hide AllItems;
    var before, all := AllItems(xs[..k], w), AllItems(xs, w);
    assert (before + ItemsOf(xs[k], w))[|before|] == GapItem(xs[k]);
    assert all[|before|] == GapItem(xs[k]);
  }

  lemma CountsValidate(r: ExactResult, generation: nat, xs: seq<Reading>, w: seq<Byte>, limit: nat)
    requires AllSound(xs) && |xs| <= MAX_SOURCES && 0 < |w| <= MAX_QUERY_BYTES && 0 < limit <= MAX_ITEMS
    requires generation != 0 && Accounts(r, generation, xs, w, limit)
    ensures CountsOk(r, limit)
  {
    CountsAgree(xs, w);
    CountsBounded(xs, w);
    hide AllItems, MatchCount, FoundCount, ByteCount, KindCount;
  }

  /** Whether the client accepts everything shown is decided by what is
      selected, before anything is shown. */
  lemma RefusedShows(xs: seq<Reading>, kind: Kind, w: seq<Byte>, limit: nat)
    requires Pinned(xs, kind) && 0 < |w| <= MAX_QUERY_BYTES && 0 < limit
    ensures var shown := Prefix(AllItems(xs, w), limit);
            Refused(xs, w, limit) <==> exists i :: 0 <= i < |shown| && !ItemOk(shown[i])
  {
    hide ItemOk, AllItems, ItemsOf, Hex, Pinned, NamesTooMuch, LongGap;
    var all := AllItems(xs, w);
    var shown := Prefix(all, limit);
    forall i | 0 <= i < |shown| ensures shown[i] == all[i] && (!ItemOk(shown[i]) ==> Refused(xs, w, limit)) {
      ShownItem(xs, kind, w, i);
      if NamesTooMuch(all[i]) { LongGapShown(xs, kind, w, limit, i); }
    }
    if exists k: nat :: k < |xs| && LongGap(xs, w, limit, k) {
      var k: nat :| k < |xs| && LongGap(xs, w, limit, k);
      LongGapAt(xs, w, limit, k);
      var i := |AllItems(xs[..k], w)|;
      ShownItem(xs, kind, w, i);
      assert !ItemOk(shown[i]);
    } else if ZeroIdentity(xs, w) {
      ShownItem(xs, kind, w, 0);
      if xs[0].source.namespace != 0 { FirstIsOwn(xs, kind, w); }
      assert !ItemOk(shown[0]);
    }
  }

  lemma FirstIsOwn(xs: seq<Reading>, kind: Kind, w: seq<Byte>)
    requires Pinned(xs, kind) && xs != [] && 0 < |w| <= MAX_QUERY_BYTES && ItemsOf(xs[0], w) != []
    ensures AllItems(xs, w) != [] && AllItems(xs, w)[0].source == xs[0].source
  {
    StartsWithFirst(xs, w);
    SourceItems(xs[0], w);
    hide ItemOk, ItemsOf, AllItems, Hex, Presentable, Ordered;
    assert AllItems(xs, w)[0] == ItemsOf(xs[0], w)[0];
  }

  /** Truthful accounting passes the client's check exactly when nothing it
      shows is refused: no shown item's source has a zero identifier, and no
      shown gap names an artifact above the ceiling. */
  lemma AccountsValidate(r: ExactResult, generation: nat, xs: seq<Reading>, kind: Kind, request: Request)
    requires Pinned(xs, kind) && request.Ok() && generation != 0
    requires Accounts(r, generation, xs, request.literal, request.limit)
    requires request.ids.Some? ==> |request.ids.value| == |xs| && forall x :: x in xs ==> x.source.id in request.ids.value
    ensures ValidatesRequest(r, kind, request) <==> !Refused(xs, request.literal, request.limit)
  {
    hide Refused, Pinned, Validates, ItemAnswers, AllItems, Accounts;
    var w := request.literal;
    AccountsShow(r, generation, xs, kind, w, request.limit);
    RefusedShows(xs, kind, w, request.limit);
    forall i | 0 <= i < |r.items| ensures ItemAnswers(r.items[i], kind, request) {
      ShownAnswers(r, generation, xs, kind, request, i);
    }
    assert r.selected == |xs| && r.items == Prefix(AllItems(xs, w), request.limit) by {
      AccountsShown(r, generation, xs, w, request.limit);
    }
  }

  lemma AccountsShown(r: ExactResult, generation: nat, xs: seq<Reading>, w: seq<Byte>, limit: nat)
    requires Accounts(r, generation, xs, w, limit)
    ensures r.selected == |xs| && r.items == Prefix(AllItems(xs, w), limit)
  {
  }

  lemma ShownAnswers(r: ExactResult, generation: nat, xs: seq<Reading>, kind: Kind, request: Request, i: nat)
    requires Pinned(xs, kind) && request.Ok() && i < |r.items|
    requires Accounts(r, generation, xs, request.literal, request.limit)
    requires request.ids.Some? ==> forall x :: x in xs ==> x.source.id in request.ids.value
    ensures ItemAnswers(r.items[i], kind, request)
  {
    hide ItemOk, AllItems, MatchCount, FoundCount, ByteCount, Pinned, Hex, NamesTooMuch, ItemsOf;
    assert r.items[i] == AllItems(xs, request.literal)[i];
    ShownItem(xs, kind, request.literal, i);
  }

  lemma ShownOrdered(xs: seq<Reading>, kind: Kind, w: seq<Byte>, limit: nat)
    requires Pinned(xs, kind) && 0 < |w| <= MAX_QUERY_BYTES
    ensures Ordered(Prefix(AllItems(xs, w), limit))
  {
    AllOrdered(xs, kind, w);
    hide ItemsFrom, Pinned, AllItems, InOrder;
  }

  lemma ShownKinds(xs: seq<Reading>, w: seq<Byte>, limit: nat)
    requires AllSound(xs) && 0 < |w| <= MAX_QUERY_BYTES
    ensures var shown := Prefix(AllItems(xs, w), limit);
            && KindCount(shown, true) <= MatchCount(xs, w)
            && KindCount(shown, false) <= |xs| - FoundCount(xs)
  {
    hide AllItems, KindCount, MatchCount, FoundCount, AllSound;
    var all := AllItems(xs, w);
    CountsAgree(xs, w);
    var k := |Prefix(all, limit)|;
    assert Prefix(all, limit) == all[..k];
    KindCountPrefix(all, k, true);
    KindCountPrefix(all, k, false);
  }

  lemma PinnedIsSound(xs: seq<Reading>, kind: Kind)
    requires Pinned(xs, kind)
    ensures AllSound(xs) && |xs| <= MAX_SOURCES
  {
  }

  /** All the client checks of the whole result holds but for its items. */
  lemma AccountsShow(r: ExactResult, generation: nat, xs: seq<Reading>, kind: Kind, w: seq<Byte>, limit: nat)
    requires Pinned(xs, kind) && 0 < |w| <= MAX_QUERY_BYTES && 0 < limit <= MAX_ITEMS && generation != 0
    requires Accounts(r, generation, xs, w, limit)
    ensures Validates(r, limit) <==> forall i :: 0 <= i < |r.items| ==> ItemOk(r.items[i])
  {
    hide ItemOk, AllItems, MatchCount, FoundCount, ByteCount, KindCount, InOrder, CountsOk, Pinned, AllSound;
    PinnedIsSound(xs, kind);
    CountsValidate(r, generation, xs, w, limit);
    ShownOrdered(xs, kind, w, limit);
    ShownKinds(xs, w, limit);
  }

  /** Without a long gap, and so for every raw result, a result is refused
      exactly for a zero namespace over any item, or a zero identifier of the
      first source when that contributes one. */
  lemma RawRefusal(xs: seq<Reading>, w: seq<Byte>, limit: nat)
    requires Pinned(xs, RawKind)
    ensures Refused(xs, w, limit) <==> ZeroIdentity(xs, w)
  {
    forall k: nat | k < |xs| ensures !LongGap(xs, w, limit, k) {
      assert xs[k].content.Kind() == RawKind;
    }
  }

  /** Such a result exists: one lost object of a source whose identifier is
      zero is counted truthfully and refused by the client. */
  lemma ZeroIdIsRefused()
    ensures var xs := [Reading(SourceRef(1, 0, 1, 1, ObjectRef(1, SourceObject, 0, 1)), Lost)];
            var request := Request([97], None, 1);
            var r := ExactResult(1, 1, 0, 1, 0, 0, [Missing(xs[0].source)], false, false, Complete);
            && Pinned(xs, RawKind) && request.Ok() && Accounts(r, 1, xs, request.literal, request.limit)
            && !ValidatesRequest(r, RawKind, request)
  {
    var xs := [Reading(SourceRef(1, 0, 1, 1, ObjectRef(1, SourceObject, 0, 1)), Lost)];
    assert xs[..0] == [];
    assert AllItems(xs, [97]) == [] + [Missing(xs[0].source)];
    var r := ExactResult(1, 1, 0, 1, 0, 0, [Missing(xs[0].source)], false, false, Complete);
    assert !ItemOk(r.items[0]);
  }

  /** The other kind exists too: the lost object of an empty source whose
      artifact is one byte above the ceiling. */
  lemma LongArtifactIsRefused()
    ensures var artifact := ObjectRef(1, PreparedObject, 0, MAX_PREPARED_BYTES + 1);
            var source := SourceRef(1, 1, 1, 1, ObjectRef(1, SourceObject, 0, 0));
            var xs := [Reading(source, Withheld(SourceObjectMissing, Some(artifact)))];
            var request := Request([97], None, 1);
            var gap := NoText(source, SourceObjectMissing, Some(artifact));
            var r := ExactResult(1, 1, 0, 1, 0, 0, [gap], false, false, Complete);
            && Pinned(xs, DecodedKind) && request.Ok() && Accounts(r, 1, xs, request.literal, request.limit)
            && !ZeroIdentity(xs, request.literal) && !ValidatesRequest(r, DecodedKind, request)
  {
    var artifact := ObjectRef(1, PreparedObject, 0, MAX_PREPARED_BYTES + 1);
    var source := SourceRef(1, 1, 1, 1, ObjectRef(1, SourceObject, 0, 0));
    var xs := [Reading(source, Withheld(SourceObjectMissing, Some(artifact)))];
    var gap := NoText(source, SourceObjectMissing, Some(artifact));
    assert xs[..0] == [];
    assert AllItems(xs, [97]) == [] + [gap];
    assert !ItemOk(gap);
    assert [gap][0] == gap;
  }

  // -------------------------------------------------------- selection

  /** The published inventory as its own reader returns it. */
  predicate Inventory(cs: seq<Captured>) {
    && |cs| <= MAX_SOURCES
    && (forall i :: 0 <= i < |cs| ==> Readable(cs[i]))
    && (forall i, j :: 0 <= i < j < |cs| ==>
          cs[i].source.namespace == cs[j].source.namespace && cs[i].source.id < cs[j].source.id)
  }

  /** A saved source row that decodes, with its preparation. */
  predicate Readable(c: Captured) {
    c.Reads() && c.Consistent()
  }

  /** Every requested source is published. */
  predicate Published(inventory: seq<Captured>, ids: Option<seq<Id>>) {
    ids.Some? ==> forall id :: id in ids.value ==> exists c :: c in inventory && c.source.id == id
  }

  /** The inventory restricted to the requested sources, in its own order. */
  function Selection(inventory: seq<Captured>, ids: Option<seq<Id>>): seq<Captured> {
    if ids.None? || inventory == [] then inventory
    else
      var last := inventory[|inventory|-1];
      Selection(inventory[..|inventory|-1], ids) + if last.source.id in ids.value then [last] else []
  }

  lemma {:induction false} SelectionMembers(inventory: seq<Captured>, ids: Option<seq<Id>>, c: Captured)
    ensures c in Selection(inventory, ids) <==> c in inventory && (ids.Some? ==> c.source.id in ids.value)
  {
    if ids.Some? && inventory != [] {
      assert inventory == inventory[..|inventory|-1] + [inventory[|inventory|-1]];
      SelectionMembers(inventory[..|inventory|-1], ids, c);
    }
  }

  lemma {:induction false} SelectionPinned(inventory: seq<Captured>, ids: Option<seq<Id>>)
    requires Inventory(inventory)
    ensures Inventory(Selection(inventory, ids)) && |Selection(inventory, ids)| <= |inventory|
  {
    if ids.Some? && inventory != [] {
      var front, last := inventory[..|inventory|-1], inventory[|inventory|-1];
      SelectionPinned(front, ids);
      forall c | c in Selection(front, ids)
        ensures c.source.namespace == last.source.namespace && c.source.id < last.source.id
      {
        SelectionMembers(front, ids, c);
      }
      hide Readable, Selection;
      assert Readable(last);
      InventoryMore(Selection(front, ids), last);
    }
  }

  /** Selects, or refuses a requested source that is not published. */
  method SelectSources(inventory: seq<Captured>, ids: Option<seq<Id>>) returns (r: Option<seq<Captured>>)
    ensures r == if Published(inventory, ids) then Some(Selection(inventory, ids)) else None
  {
    if ids.None? { return Some(inventory); }
    var i := 0;
    while i < |ids.value|
      invariant 0 <= i <= |ids.value|
      invariant forall id :: id in ids.value[..i] ==> exists c :: c in inventory && c.source.id == id
    {
      assert ids.value[..i + 1] == ids.value[..i] + [ids.value[i]];
      if k :| 0 <= k < |inventory| && inventory[k].source.id == ids.value[i] {
        assert inventory[k] in inventory;
      } else {
        assert ids.value[i] in ids.value;
        return None;
      }
      i := i + 1;
    }
    assert ids.value[..i] == ids.value;
    var selected: seq<Captured> := [];
    var k := 0;
    while k < |inventory|
      invariant 0 <= k <= |inventory| && selected == Selection(inventory[..k], ids)
    {
      assert inventory[..k + 1][..k] == inventory[..k];
      if inventory[k].source.id in ids.value { selected := selected + [inventory[k]]; }
      k := k + 1;
    }
    assert inventory[..k] == inventory;
    return Some(selected);
  }

  lemma InventoryMore(selected: seq<Captured>, c: Captured)
    requires Inventory(selected) && Readable(c) && |selected| < MAX_SOURCES
    requires forall x :: x in selected ==> x.source.namespace == c.source.namespace && x.source.id < c.source.id
    ensures Inventory(selected + [c])
  {
    hide Readable;
  }

  function IdsOf(cs: seq<Captured>): set<Id> {
    set c | c in cs :: c.source.id
  }

  lemma {:induction false} IdsOfSize(cs: seq<Captured>)
    requires Inventory(cs)
    ensures |IdsOf(cs)| == |cs|
  {
    hide Readable;
    if cs != [] {
      var front, last := cs[..|cs|-1], cs[|cs|-1];
      IdsOfSize(front);
      assert cs == front + [last];
      assert forall c :: c in front ==> c.source.id < last.source.id;
      hide Inventory;
      assert IdsOf(cs) == IdsOf(front) + {last.source.id};
    }
  }

  function SetOf(ids: seq<Id>): set<Id> {
    set id | id in ids
  }

  lemma {:induction false} DistinctSize(ids: seq<Id>)
    requires forall i, j :: 0 <= i < j < |ids| ==> ids[i] != ids[j]
    ensures |SetOf(ids)| == |ids|
  {
    if ids != [] {
      var front, last := ids[..|ids|-1], ids[|ids|-1];
      DistinctSize(front);
      assert ids == front + [last];
      assert SetOf(ids) == SetOf(front) + {last};
      assert last !in front;
    }
  }

  /** Distinct requested ids, each published, select exactly as many sources:
      the denominator the client checks. */
  lemma SelectionSize(inventory: seq<Captured>, ids: seq<Id>)
    requires Inventory(inventory) && Published(inventory, Some(ids))
    requires forall i, j :: 0 <= i < j < |ids| ==> ids[i] != ids[j]
    ensures |Selection(inventory, Some(ids))| == |ids|
  {
    var selected := Selection(inventory, Some(ids));
    SelectionPinned(inventory, Some(ids));
    IdsOfSize(selected);
    DistinctSize(ids);
    hide Inventory, Selection;
    forall id | id in ids ensures id in IdsOf(selected) {
      var c :| c in inventory && c.source.id == id;
      SelectionMembers(inventory, Some(ids), c);
    }
    forall id | id in IdsOf(selected) ensures id in ids {
      var c :| c in selected && c.source.id == id;
      SelectionMembers(inventory, Some(ids), c);
    }
    assert IdsOf(selected) == SetOf(ids);
  }

  // ---------------------------------------------------------- execution

  lemma PrefixGrows<T>(all: seq<T>, x: T, limit: nat)
    ensures Prefix(all + [x], limit)
            == if |Prefix(all, limit)| < limit then Prefix(all, limit) + [x] else Prefix(all, limit)
  {
  }

  lemma NoMatchYet(x: Reading, w: seq<Byte>, all: seq<Item>)
    requires x.content.Scanned()
    ensures all + Matches(x, w, []) == all
  {
  }

  lemma OneMoreMatch(x: Reading, w: seq<Byte>, starts: seq<nat>, k: nat, limit: nat, all: seq<Item>)
    requires x.content.Scanned() && k < |starts|
    ensures var shown := Prefix(all + Matches(x, w, starts[..k]), limit);
            Prefix(all + Matches(x, w, starts[..k + 1]), limit)
            == if |shown| < limit then shown + [ItemAt(x, w, starts[k])] else shown
  {
    hide Prefix, ItemAt;
    assert starts[..k + 1][..k] == starts[..k];
    assert all + (Matches(x, w, starts[..k]) + [ItemAt(x, w, starts[k])])
           == (all + Matches(x, w, starts[..k])) + [ItemAt(x, w, starts[k])];
    PrefixGrows(all + Matches(x, w, starts[..k]), ItemAt(x, w, starts[k]), limit);
  }

  datatype ExactError =
    | InvalidRequest | SourceNotPublished | ReadFailed | RangeInvalid | InputLimit | InvalidResult

  /** Cuts a match out of a text, which fails inside a scalar. */
  function Slice(t: seq<Byte>, start: nat, end: nat): Option<seq<Byte>> {
    if start <= end <= |t| && Boundary(t, start) && Boundary(t, end) then Some(t[start..end]) else None
  }

  /** Wherever the literal occurs in a retained text it can be cut out, and
      reads as itself. */
  lemma SliceIsLiteral(x: Reading, w: seq<Byte>, starts: seq<nat>, k: nat)
    requires Sound(x) && x.content.Retained? && Valid(w) && w != []
    requires starts == Occurrences(w, x.content.text) && k < |starts|
    ensures Slice(x.content.text, starts[k], starts[k] + |w|) == Some(w)
  {
    hide Valid, Occurrences, Boundary;
    StartIn(w, x.content.text, starts, k);
    MatchesAreAligned(w, x.content.text, starts[k]);
  }

  /** The running totals of one execution, updated source by source. */
  class Tally {
    var scanned: nat
    var missing: nat
    var scannedBytes: nat
    var matches: nat
    var items: seq<Item>

    constructor ()
      ensures scanned == 0 && missing == 0 && scannedBytes == 0 && matches == 0 && items == []
    {
      scanned, missing, scannedBytes, matches, items := 0, 0, 0, 0, [];
    }

    /** The totals are those of the sources read so far. */
    predicate Tells(xs: seq<Reading>, w: seq<Byte>, limit: nat)
      reads this
    {
      && scanned == FoundCount(xs) && missing + scanned == |xs|
      && scannedBytes == ByteCount(xs) && matches == MatchCount(xs, w)
      && items == Prefix(AllItems(xs, w), limit)
    }

    /** Counts every occurrence in one verified content and shows those that
        fit. In retained text none can fail to be cut out. */
    method CountMatches(x: Reading, w: seq<Byte>, starts: seq<nat>, limit: nat, ghost all: seq<Item>)
      returns (r: Result<(), ExactError>)
      requires Sound(x) && x.content.Scanned() && w != [] && starts == Occurrences(w, x.content.text)
      requires x.content.Retained? ==> Valid(w)
      requires matches + |starts| <= U64_MAX && items == Prefix(all, limit)
      modifies this`matches, this`items
      ensures r.Ok? && matches == old(matches) + |starts|
      ensures items == Prefix(all + Matches(x, w, starts), limit)
    {
      hide Hex, Occurrences, Prefix, Sound, Valid, Slice, Matches;
      var t := x.content.text;
      var k := 0;
      NoMatchYet(x, w, all);
      assert starts[..0] == [];
      while k < |starts|
        invariant 0 <= k <= |starts| && matches == old(matches) + k
        invariant items == Prefix(all + Matches(x, w, starts[..k]), limit)
      {
        if matches >= U64_MAX { return Err(InputLimit); }
        matches := matches + 1;
        var start, end := starts[k], starts[k] + |w|;
        StartIn(w, t, starts, k);
        OneMoreMatch(x, w, starts, k, limit, all);
        if |items| < limit {
          if x.content.Bytes? {
            items := items + [Match(x.source, start, end, Hex(t[start..end]))];
          } else {
            SliceIsLiteral(x, w, starts, k);
            var cut := Slice(t, start, end);
            if cut.None? { return Err(RangeInvalid); }
            items := items + [Hit(x.source, x.content.artifact, start, end, start, end, cut.value)];
          }
        }
        k := k + 1;
      }
      assert starts[..k] == starts;
      return Ok(());
    }

    /** Scans one source's content, or records that there is none. */
    method ScanReading(x: Reading, w: seq<Byte>, prefix: seq<nat>, limit: nat, ghost before: seq<Reading>)
      returns (r: Result<(), ExactError>)
      requires w != [] && |prefix| == |w| && IsTable(w, prefix) && Sound(x)
      requires x.content.Retained? ==> Valid(w)
      requires Tells(before, w, limit)
      requires matches + x.source.input.length <= U64_MAX && scannedBytes + x.source.input.length <= U64_MAX
      modifies this
      ensures r.Ok? && Tells(before + [x], w, limit)
    {
      assert x.content.Scanned() ==> |x.content.text| == x.source.input.length;
      hide IsTable, Hex, Occurrences, Matches, Prefix, Sound, Valid;
      assert (before + [x])[..|before|] == before;
      if !x.content.Scanned() {
        missing := missing + 1;
        PrefixGrows(AllItems(before, w), GapItem(x), limit);
        if |items| < limit { items := items + [GapItem(x)]; }
        return Ok(());
      }
      var starts, _ := Scan(w, prefix, x.content.text);
      NoMoreThanBytes(w, x.content.text);
      var counted := CountMatches(x, w, starts, limit, AllItems(before, w));
      if counted.Err? { return counted; }
      scanned := scanned + 1;
      if scannedBytes + x.source.input.length > U64_MAX { return Err(InputLimit); }
      scannedBytes := scannedBytes + x.source.input.length;
      return Ok(());
    }

    /** Closes the accounts and has them checked; they are refused only for
        what the selected sources themselves hold. */
    method Conclude(generation: nat, kind: Kind, request: Request, ghost xs: seq<Reading>)
      returns (r: Result<ExactResult, ExactError>)
      requires generation != 0 && request.Ok() && Pinned(xs, kind) && Tells(xs, request.literal, request.limit)
      requires request.ids.Some? ==> |request.ids.value| == |xs| && forall x :: x in xs ==> x.source.id in request.ids.value
      ensures r.Ok? ==> Accounts(r.value, generation, xs, request.literal, request.limit)
                        && ValidatesRequest(r.value, kind, request)
      ensures r.Err? ==> r.error == InvalidResult
      ensures r.Err? <==> Refused(xs, request.literal, request.limit)
    {
      hide Tells, Pinned, ValidatesRequest, Refused, Accounts;
      assert xs[..|xs|] == xs;
      Room(this, xs, |xs|, kind, request.literal, request.limit);
      var complete, total := missing == 0, matches + missing;
      if total > U64_MAX { return Err(InputLimit); }
      var result := ExactResult(
        generation, scanned + missing, scanned, missing, scannedBytes, matches, items, complete,
        complete && matches == 0, if |items| == total then Complete else OutputLimit);
      Truth(this, result, generation, xs, kind, request.literal, request.limit);
      AccountsValidate(result, generation, xs, kind, request);
      var ok := ValidateRequest(result, kind, request);
      return if ok then Ok(result) else Err(InvalidResult);
    }
  }

  lemma StartIn(w: seq<Byte>, t: seq<Byte>, starts: seq<nat>, k: nat)
    requires starts == Occurrences(w, t) && w != [] && k < |starts|
    ensures starts[k] + |w| <= |t| && t[starts[k]..starts[k] + |w|] == w
    ensures OccursAt(w, t, starts[k])
  {
    assert starts[k] in starts;
    OccurrencesAre(w, t, |t|, starts[k]);
  }

  lemma NoMoreThanBytes(w: seq<Byte>, t: seq<Byte>)
    requires w != []
    ensures |Occurrences(w, t)| <= |t|
  {
    OccurrencesAscend(w, t, |t|);
  }

  lemma TellsNothing(tally: Tally, w: seq<Byte>, limit: nat)
    requires tally.scanned == 0 && tally.missing == 0 && tally.scannedBytes == 0 && tally.matches == 0 && tally.items == []
    ensures tally.Tells([], w, limit)
  {
  }

  /** The totals of a pinned inventory never come near a 64-bit limit. */
  lemma Room(tally: Tally, xs: seq<Reading>, k: nat, kind: Kind, w: seq<Byte>, limit: nat)
    requires 0 < |w| <= MAX_QUERY_BYTES && Pinned(xs, kind) && k <= |xs| && tally.Tells(xs[..k], w, limit)
    ensures tally.matches + MAX_SOURCE_BYTES <= U64_MAX && tally.scannedBytes + MAX_SOURCE_BYTES <= U64_MAX
    ensures tally.matches + tally.missing <= U64_MAX
  {
    hide MatchCount, ByteCount, FoundCount, AllItems, Prefix, Sound;
    CountsBounded(xs[..k], w);
    assert tally.scannedBytes <= k * MAX_SOURCE_BYTES <= MAX_SOURCES * MAX_SOURCE_BYTES;
    assert xs[..|xs|] == xs;
  }

  lemma Truth(tally: Tally, r: ExactResult, generation: nat, xs: seq<Reading>, kind: Kind, w: seq<Byte>, limit: nat)
    requires 0 < |w| <= MAX_QUERY_BYTES && Pinned(xs, kind) && tally.Tells(xs, w, limit)
    requires r == ExactResult(
               generation, tally.scanned + tally.missing, tally.scanned, tally.missing, tally.scannedBytes,
               tally.matches, tally.items, tally.missing == 0, tally.missing == 0 && tally.matches == 0,
               if |tally.items| == tally.matches + tally.missing then Complete else OutputLimit)
    ensures Accounts(r, generation, xs, w, limit)
  {
    CountsAgree(xs, w);
    hide MatchCount, ByteCount, FoundCount, AllItems, KindCount, Sound;
  }

  // ----------------------------------------------------------- raw search

  /** What the object store returns for a reference. */
  datatype Read = Found(bytes: seq<Byte>) | Absent | Failed

  type ObjectStore = ObjectRef -> Read

  /** The store verifies an object's length before it returns it. */
  ghost predicate Verified(read: ObjectStore) {
    forall o: ObjectRef :: read(o).Found? ==> |read(o).bytes| == o.length
  }

  /** A source's retained bytes as they are found; nothing when the read
      itself fails. */
  function RawContent(c: Captured, read: ObjectStore): Option<Content> {
    match read(c.source.objectRef)
    case Found(t) => Some(Bytes(t))
    case Absent => Some(Lost)
    case Failed => None
  }

  /** What is found behind each source; a failed read never reaches it. */
  function RawReadings(cs: seq<Captured>, read: ObjectStore): seq<Reading> {
    if cs == [] then []
    else
      var last := cs[|cs|-1];
      RawReadings(cs[..|cs|-1], read)
      + [Reading(RefOf(last.source), if RawContent(last, read).Some? then RawContent(last, read).value else Lost)]
  }

  /** Readings that follow a selection, source by source. */
  predicate Follow(xs: seq<Reading>, cs: seq<Captured>) {
    |xs| == |cs| && forall i :: 0 <= i < |cs| ==> xs[i].source == RefOf(cs[i].source)
  }

  lemma {:induction false} RawPinned(cs: seq<Captured>, read: ObjectStore)
    requires Inventory(cs) && Verified(read)
    ensures Pinned(RawReadings(cs, read), RawKind) && Follow(RawReadings(cs, read), cs)
  {
    if cs != [] {
      var front, last := cs[..|cs|-1], cs[|cs|-1];
      assert Inventory(front) by { hide Readable; }
      RawPinned(front, read);
      assert Readable(last);
      RawSound(last, RawReadings(cs, read)[|front|], read);
      PinnedMore(cs, RawReadings(front, read), RawReadings(cs, read)[|front|], RawKind);
    }
  }

  lemma RawSound(c: Captured, x: Reading, read: ObjectStore)
    requires Readable(c) && Verified(read) && x.source == RefOf(c.source)
    requires x.content == if RawContent(c, read).Some? then RawContent(c, read).value else Lost
    ensures Sound(x) && x.content.Kind() == RawKind
  {
  }

  lemma PinnedMore(cs: seq<Captured>, xs: seq<Reading>, x: Reading, kind: Kind)
    requires Inventory(cs) && cs != [] && Pinned(xs, kind) && Follow(xs, cs[..|cs|-1])
    requires Sound(x) && x.content.Kind() == kind && x.source == RefOf(cs[|cs|-1].source)
    ensures Pinned(xs + [x], kind) && Follow(xs + [x], cs)
  {
    hide Sound, Readable;
  }

  /** What the client's denominator check needs of a selection's readings. */
  lemma SelectionFacts(inventory: seq<Captured>, request: Request, xs: seq<Reading>)
    requires request.Ok() && Inventory(inventory) && Published(inventory, request.ids)
    requires Follow(xs, Selection(inventory, request.ids))
    ensures request.ids.Some? ==>
              |request.ids.value| == |xs| && forall x :: x in xs ==> x.source.id in request.ids.value
  {
    if request.ids.Some? {
      var selected := Selection(inventory, request.ids);
      SelectionSize(inventory, request.ids.value);
      hide Inventory, Selection;
      forall x | x in xs ensures x.source.id in request.ids.value {
        var i :| 0 <= i < |xs| && xs[i] == x;
        SelectionMembers(inventory, request.ids, selected[i]);
      }
    }
  }

  /** Runs a raw query over the pinned inventory. A completed result tells the
      whole truth about every selected source, no total overflows, and the
      outcome is decided by the request, the inventory and the store: the
      final check refuses a result only for a zero identifier it would show. */
  method Execute(generation: nat, inventory: seq<Captured>, request: Request, read: ObjectStore)
    returns (r: Result<ExactResult, ExactError>)
    requires generation != 0 && Inventory(inventory) && Verified(read)
    ensures var selected := Selection(inventory, request.ids);
            var xs := RawReadings(selected, read);
            if !request.Ok() then r == Err(InvalidRequest)
            else if !Published(inventory, request.ids) then r == Err(SourceNotPublished)
            else if exists c :: c in selected && RawContent(c, read).None? then r == Err(ReadFailed)
            else if Refused(xs, request.literal, request.limit) then r == Err(InvalidResult)
            else && r.Ok? && Pinned(xs, RawKind)
                 && Accounts(r.value, generation, xs, request.literal, request.limit)
                 && ValidatesRequest(r.value, RawKind, request)
  {
    hide IsTable, Tally.Tells, Pinned, Inventory, ValidatesRequest, Verified, Accounts, Refused, Sound, Follow, Selection,
         RawContent, Published;
    if !request.Ok() { return Err(InvalidRequest); }
    var w := request.literal;
    var prefix := Compile(w);
    var chosen := SelectSources(inventory, request.ids);
    if chosen.None? { return Err(SourceNotPublished); }
    var selected := chosen.value;
    SelectionPinned(inventory, request.ids);
    RawPinned(selected, read);
    ghost var xs := RawReadings(selected, read);
    SelectionFacts(inventory, request, xs);
    var tally := new Tally();
    TellsNothing(tally, w, request.limit);
    var k: nat := 0;
    while k < |selected|
      invariant k <= |selected| && fresh(tally) && tally.Tells(RawReadings(selected[..k], read), w, request.limit)
      invariant forall i :: 0 <= i < k ==> RawContent(selected[i], read).Some?
    {
      var c := selected[k];
      assert c in selected;
      var content := RawContent(c, read);
      if content.None? { return Err(ReadFailed); }
      var x := Reading(RefOf(c.source), content.value);
      ghost var before := RawReadings(selected[..k], read);
      assert selected[..k + 1][..k] == selected[..k];
      assert RawReadings(selected[..k + 1], read) == before + [x];
      RawStep(selected, k, x, read);
      Room(tally, before, |before|, RawKind, w, request.limit);
      var scanned := tally.ScanReading(x, w, prefix.value, request.limit, before);
      k := k + 1;
    }
    assert selected[..k] == selected;
    r := tally.Conclude(generation, RawKind, request, xs);
  }

  lemma RawStep(cs: seq<Captured>, k: nat, x: Reading, read: ObjectStore)
    requires Inventory(cs) && Verified(read) && k < |cs|
    requires x.source == RefOf(cs[k].source) && RawContent(cs[k], read) == Some(x.content)
    ensures Pinned(RawReadings(cs[..k], read), RawKind)
    ensures var before := RawReadings(cs[..k], read); before[..|before|] == before
    ensures Sound(x) && !x.content.Retained? && x.source.input.length <= MAX_SOURCE_BYTES
  {
    assert Inventory(cs[..k]) by { hide Readable; }
    RawPinned(cs[..k], read);
    assert Readable(cs[k]);
    RawSound(cs[k], x, read);
  }
}
