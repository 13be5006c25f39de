/** Pages of one retained result: how the daemon cuts them, and why the
    client's own check accepts every one of them. */
module Window {
  import opened Wrappers
  import Control
  import Decoded
  import Exact
  import Text

  const MAX_ITEMS: nat := Exact.MAX_ITEMS
  const MAX_FRAME_BYTES: nat := 8 * 1024 * 1024
  const WINDOW_ID: nat := 1

  /** A ranked hit carries its rank and point; `sound` is the outcome of the
      checks on its own text, score and citation. An occurrence is a raw or a
      decoded item of an exact search. */
  datatype Item = Ranked(rank: nat, point: nat, sound: bool) | Occurrence(item: Exact.Item)

  datatype Query = RankedQuery(limit: nat) | ExactQuery(kind: Exact.Kind, request: Exact.Request) {
    function Limit(): nat {
      if RankedQuery? then limit else request.limit
    }
    predicate Ok() {
      if RankedQuery? then 0 < limit <= MAX_ITEMS else request.Ok()
    }
  }

  datatype Summary = Summary(
    generation: nat, retained: nat, found: Option<nat>, scanComplete: Option<bool>, completeNegative: Option<bool>,
    stop: Exact.StopReason)

  datatype Entry = Entry(index: nat, item: Item)

  datatype Page = Page(
    windowId: nat, summary: Summary, start: nat, next: nat, items: seq<Entry>, hasMore: bool, stop: Exact.StopReason)

  // ---------------------------------------------------------- validation

  predicate ItemValid(item: Item) {
    if item.Ranked? then item.sound else Exact.ItemOk(item.item)
  }

  /** What a page must satisfy on its own. */
  predicate PageValid(p: Page) {
    && p.windowId == WINDOW_ID && p.summary.generation != 0 && p.summary.retained <= MAX_ITEMS
    && p.start <= p.next <= p.summary.retained && p.next - p.start == |p.items|
    && p.hasMore == (p.next < p.summary.retained) && (p.items == [] ==> !p.hasMore)
    && (p.summary.found.Some? == p.summary.scanComplete.Some? == p.summary.completeNegative.Some?)
    && (p.summary.found.Some? ==>
          p.summary.completeNegative.value == (p.summary.scanComplete.value && p.summary.found.value == 0))
    && (forall i :: 0 <= i < |p.items| ==>
          && p.items[i].index == p.start + i && ItemValid(p.items[i].item)
          && (p.items[i].item.Ranked? <==> p.summary.found.None?)
          && (p.items[i].item.Ranked? ==> p.items[i].item.rank == p.items[i].index + 1))
  }

  predicate Answers(item: Item, query: Query) {
    && item.Ranked? == query.RankedQuery?
    && ItemValid(item)
    && (item.Occurrence? ==> Exact.ItemAnswers(item.item, query.kind, query.request))
  }

  /** The order the client demands of neighbours. */
  predicate Follows(left: Item, right: Item) {
    && left.Ranked? == right.Ranked?
    && (left.Ranked? ==> right.rank == left.rank + 1)
    && (left.Occurrence? ==>
          var a, b := left.item, right.item;
          && a.Kind() == b.Kind() && a.source.namespace == b.source.namespace
          && (a.source.id < b.source.id
              || (a.source == b.source
                  && ((a.Match? && b.Match?) || (a.Hit? && b.Hit? && a.prepared == b.prepared))
                  && a.start < b.start)))
  }

  function Items(entries: seq<Entry>): seq<Item> {
    seq(|entries|, i requires 0 <= i < |entries| => entries[i].item)
  }

  /** Matches, or gaps, among exact items. */
  function Count(items: seq<Item>, found: bool): nat {
    if items == [] then 0
    else
      var last := items[|items|-1];
      Count(items[..|items|-1], found) + if last.Occurrence? && last.item.Found() == found then 1 else 0
  }

  predicate Sequence(items: seq<Item>, query: Query) {
    && (forall i :: 0 <= i < |items| ==> Answers(items[i], query))
    && (forall i, j :: 0 <= i < |items| && 0 <= j < |items| && j == i + 1 ==> Follows(items[i], items[j]))
    && (forall i, j :: 0 <= i < j < |items| && items[i].Ranked? && items[j].Ranked? ==> items[i].point != items[j].point)
  }

  predicate TotalsOk(p: Page, found: nat, gaps: nat) {
    p.summary.found.Some? && p.summary.scanComplete.Some? ==>
      && found <= p.summary.found.value
      && !(gaps > 0 && p.summary.scanComplete.value)
      && (p.next == p.summary.retained && p.summary.stop == Exact.Complete ==>
            found == p.summary.found.value && p.summary.scanComplete.value == (gaps == 0))
  }

  /** Everything the client checks of a page against what it already holds. */
  predicate PageAccepted(p: Page, query: Query, emitted: seq<Entry>, pageSize: nat) {
    var room := if |emitted| <= p.summary.retained then p.summary.retained - |emitted| else 0;
    var expected := if pageSize <= room then pageSize else room;
    var all := Items(emitted + p.items);
    && PageValid(p) && query.Ok() && 0 < pageSize <= MAX_ITEMS
    && p.start == |emitted| && p.summary.retained <= query.Limit()
    && |p.items| <= expected && (p.stop == Exact.Complete <==> |p.items| == expected)
    && (query.RankedQuery? <==> p.summary.found.None?)
    && Sequence(all, query)
    && TotalsOk(p, Count(all, true), Count(all, false))
  }

  // ------------------------------------------------------------- results

  /** A retained result: what the query execution hands to the window. */
  predicate Retained(items: seq<Item>, summary: Summary, query: Query) {
    && query.Ok() && summary.generation != 0
    && |items| == summary.retained <= query.Limit() <= MAX_ITEMS
    && Sequence(items, query)
    && (if query.RankedQuery? then
          && summary.found.None? && summary.scanComplete.None? && summary.completeNegative.None?
          && (forall i :: 0 <= i < |items| ==> items[i].Ranked? && items[i].rank == i + 1)
        else
          && summary.found.Some? && summary.scanComplete.Some? && summary.completeNegative.Some?
          && summary.completeNegative.value == (summary.scanComplete.value && summary.found.value == 0)
          && Count(items, true) <= summary.found.value
          && (summary.scanComplete.value ==> Count(items, false) == 0)
          && (summary.stop == Exact.Complete ==>
                Count(items, true) == summary.found.value && summary.scanComplete.value == (Count(items, false) == 0)))
  }

  function Wrapped(items: seq<Exact.Item>): seq<Item> {
    seq(|items|, i requires 0 <= i < |items| => Occurrence(items[i]))
  }

  lemma {:induction false} WrappedCount(items: seq<Exact.Item>, found: bool)
    ensures Count(Wrapped(items), found) == Exact.KindCount(items, found)
  {
    if items != [] {
      WrappedCount(items[..|items|-1], found);
      assert Wrapped(items)[..|items|-1] == Wrapped(items[..|items|-1]);
    }
  }

  function ExactSummary(r: Exact.ExactResult): Summary {
    Summary(r.generation, |r.items|, Some(r.matches), Some(r.scanComplete), Some(r.completeNegative), r.stop)
  }

  /** Every completed exact execution, of bytes or of text, is a result a
      window may retain. */
  lemma ExactIsRetained(r: Exact.ExactResult, generation: nat, xs: seq<Exact.Reading>, kind: Exact.Kind,
                        request: Exact.Request)
    requires Exact.Pinned(xs, kind) && generation != 0
    requires Exact.Accounts(r, generation, xs, request.literal, request.limit)
    requires Exact.ValidatesRequest(r, kind, request)
    ensures Retained(Wrapped(r.items), ExactSummary(r), ExactQuery(kind, request))
  {
    hide Exact.AllItems, Exact.MatchCount, Exact.FoundCount, Exact.ByteCount, Exact.KindCount, Exact.ItemOk,
         Exact.ItemAnswers, Exact.Pinned, Exact.CountsOk;
    WrappedCount(r.items, true);
    WrappedCount(r.items, false);
    ExactCounts(r, generation, xs, kind, request);
    WrappedSequence(r.items, kind, request);
  }

  lemma ExactCounts(r: Exact.ExactResult, generation: nat, xs: seq<Exact.Reading>, kind: Exact.Kind,
                    request: Exact.Request)
    requires Exact.Pinned(xs, kind) && request.Ok() && Exact.Validates(r, request.limit)
    requires Exact.Accounts(r, generation, xs, request.literal, request.limit)
    ensures Exact.KindCount(r.items, true) <= r.matches && Exact.KindCount(r.items, false) <= r.missing
    ensures r.stop == Exact.Complete ==>
              Exact.KindCount(r.items, true) == r.matches && Exact.KindCount(r.items, false) == r.missing
    ensures r.scanComplete == (r.missing == 0) && |r.items| <= request.limit && r.generation == generation
    ensures r.completeNegative == (r.scanComplete && r.matches == 0)
  {
    Exact.CountsAgree(xs, request.literal);
    hide Exact.AllItems, Exact.MatchCount, Exact.FoundCount, Exact.ByteCount, Exact.KindCount, Exact.Sound;
  }

  lemma WrappedSequence(items: seq<Exact.Item>, kind: Exact.Kind, request: Exact.Request)
    requires forall i :: 0 <= i < |items| ==> Exact.ItemOk(items[i]) && Exact.ItemAnswers(items[i], kind, request)
    requires forall i, j :: 0 <= i < |items| && 0 <= j < |items| && j == i + 1 ==> Exact.InOrder(items[i], items[j])
    ensures Sequence(Wrapped(items), ExactQuery(kind, request))
  {
    assert forall i :: 0 <= i < |items| ==> items[i].Kind() == kind;
    hide Exact.ItemOk, Exact.ItemAnswers;
  }

  // --------------------------------------------------------------- pages

  /** Entries of the retained items from `start` to `end`. */
  function Entries(items: seq<Item>, start: nat, end: nat): (e: seq<Entry>)
    requires start <= end <= |items|
    ensures |e| == end - start
    ensures forall i :: 0 <= i < |e| ==> e[i] == Entry(start + i, items[start + i])
  {
    seq(end - start, i requires 0 <= i < end - start => Entry(start + i, items[start + i]))
  }

  /** The page of `count` items at a cursor when `wanted` were asked for. */
  function PageAt(items: seq<Item>, summary: Summary, cursor: nat, count: nat, wanted: nat): Page
    requires cursor + count <= |items|
  {
    Page(WINDOW_ID, summary, cursor, cursor + count, Entries(items, cursor, cursor + count),
         cursor + count < |items|, if count == wanted then Exact.Complete else Exact.OutputLimit)
  }

  function Wanted(retained: nat, cursor: nat, pageSize: nat): nat
    requires cursor <= retained
  {
    if pageSize <= retained - cursor then pageSize else retained - cursor
  }

  lemma PrefixSequence(items: seq<Item>, query: Query, k: nat)
    requires Sequence(items, query) && k <= |items|
    ensures Sequence(items[..k], query)
  {
    hide Answers, Follows;
  }

  lemma {:induction false} PrefixCount(items: seq<Item>, k: nat, found: bool)
    requires k <= |items|
    ensures Count(items[..k], found) <= Count(items, found)
    decreases |items|
  {
    if k < |items| {
      PrefixCount(items[..|items|-1], k, found);
      assert items[..|items|-1][..k] == items[..k];
    } else {
      assert items[..k] == items;
    }
  }

  lemma PageIsValid(items: seq<Item>, summary: Summary, query: Query, cursor: nat, count: nat, wanted: nat)
    requires Retained(items, summary, query) && cursor + count <= |items|
    requires count > 0 || cursor == |items|
    ensures PageValid(PageAt(items, summary, cursor, count, wanted))
  {
    hide Count, Follows, Exact.ItemOk, Exact.ItemAnswers;
    forall k | cursor <= k < cursor + count ensures ItemValid(items[k]) && items[k].Ranked? == query.RankedQuery? {
      assert Answers(items[k], query);
    }
  }

  /** The client accepts every page the daemon can cut at the cursor, also
      one shortened to fit a frame, and then holds the longer prefix. */
  lemma ClientAccepts(items: seq<Item>, summary: Summary, query: Query, cursor: nat, count: nat, pageSize: nat)
    requires Retained(items, summary, query) && cursor <= |items| && 0 < pageSize <= MAX_ITEMS
    requires count <= Wanted(|items|, cursor, pageSize) && (count > 0 || cursor == |items|)
    ensures var page := PageAt(items, summary, cursor, count, Wanted(|items|, cursor, pageSize));
            && PageAccepted(page, query, Entries(items, 0, cursor), pageSize)
            && Entries(items, 0, cursor) + page.items == Entries(items, 0, cursor + count)
  {
    var wanted := Wanted(|items|, cursor, pageSize);
    var page := PageAt(items, summary, cursor, count, wanted);
    PageIsValid(items, summary, query, cursor, count, wanted);
    assert Entries(items, 0, cursor) + page.items == Entries(items, 0, cursor + count);
    assert Items(Entries(items, 0, cursor + count)) == items[..cursor + count];
    PrefixSequence(items, query, cursor + count);
    PrefixCount(items, cursor + count, true);
    PrefixCount(items, cursor + count, false);
    assert cursor + count == |items| ==> items[..cursor + count] == items;
    hide Sequence, Count, PageValid;
  }

  // --------------------------------------------------------------- window

  datatype PageError = ItemTooLarge | Invalid

  class Window {
    const items: seq<Item>
    const summary: Summary
    const query: Query
    var cursor: nat

    ghost predicate Valid()
      reads this
    {
      cursor <= |items| && Retained(items, summary, query)
    }

    constructor (items: seq<Item>, summary: Summary, query: Query)
      requires Retained(items, summary, query)
      ensures Valid() && cursor == 0 && this.items == items && this.summary == summary && this.query == query
    {
      this.items, this.summary, this.query, cursor := items, summary, query, 0;
    }

    /** Cuts the page at the cursor, dropping items from its end until the
        reply fits a frame. The page it returns is the longest that fits, its
        own check never refuses it and the client accepts it. */
    method CutPage(pageSize: nat, size: Page -> nat) returns (r: Result<Page, PageError>)
      requires Valid() && 0 < pageSize <= MAX_ITEMS
      ensures r.Ok? ==>
                var wanted, count := Wanted(|items|, cursor, pageSize), |r.value.items|;
                && count <= wanted && r.value == PageAt(items, summary, cursor, count, wanted)
                && size(r.value) <= MAX_FRAME_BYTES
                && (forall k :: count < k <= wanted ==> size(PageAt(items, summary, cursor, k, wanted)) > MAX_FRAME_BYTES)
                && PageAccepted(r.value, query, Entries(items, 0, cursor), pageSize)
                && (count == 0 ==> cursor == |items|)
      ensures r.Err? ==>
                var wanted := Wanted(|items|, cursor, pageSize);
                && r.error == ItemTooLarge
                && forall k :: (if wanted == 0 then 0 else 1) <= k <= wanted ==>
                     size(PageAt(items, summary, cursor, k, wanted)) > MAX_FRAME_BYTES
    {
      hide Retained, PageValid, PageAccepted;
      var wanted := Wanted(|items|, cursor, pageSize);
      var page := PageAt(items, summary, cursor, wanted, wanted);
      while true
        invariant |page.items| <= wanted && page == PageAt(items, summary, cursor, |page.items|, wanted)
        invariant |page.items| == 0 ==> wanted == 0
        invariant forall k :: |page.items| < k <= wanted ==> size(PageAt(items, summary, cursor, k, wanted)) > MAX_FRAME_BYTES
        decreases |page.items|
      {
        ClientAccepts(items, summary, query, cursor, |page.items|, pageSize);
        PageIsValid(items, summary, query, cursor, |page.items|, wanted);
        if !PageValid(page) { return Err(Invalid); }
        if size(page) <= MAX_FRAME_BYTES { return Ok(page); }
        if |page.items| <= 1 { return Err(ItemTooLarge); }
        var shorter := page.items[..|page.items|-1];
        page := page.(items := shorter, next := page.next - 1, hasMore := true, stop := Exact.OutputLimit);
      }
    }

    /** Only a whole flushed page moves the cursor, and only from where it
        stands. */
    method CommitPage(expected: nat, next: nat) returns (ok: bool)
      requires Valid()
      modifies this`cursor
      ensures Valid()
      ensures ok <==> old(cursor) == expected <= next <= |items|
      ensures cursor == if ok then next else old(cursor)
    {
      if cursor != expected || next < expected || next > |items| { return false; }
      cursor := next;
      return true;
    }
  }

  function RankedSummary(generation: nat, retained: nat): Summary {
    Summary(generation, retained, None, None, None, Exact.Complete)
  }

  /** What an exact query finds behind the sources it selects. */
  ghost function Readings(inventory: seq<Control.Captured>, kind: Exact.Kind, request: Exact.Request, o: Decoded.Objects)
    : seq<Exact.Reading>
  {
    var selected := Exact.Selection(inventory, request.ids);
    if kind.RawKind? then Exact.RawReadings(selected, o.read) else Decoded.TextReadings(selected, o)
  }

  /** Opens a window by executing its query once. An exact query of either
      kind yields a window that holds the first items of the whole answer,
      with the whole answer's totals. Ranked retrieval is a backend's work:
      that its result is sound is required here. */
  method Open(generation: nat, inventory: seq<Control.Captured>, query: Query, o: Decoded.Objects, ranked: seq<Item>)
    returns (r: Result<Window, Exact.ExactError>)
    requires generation != 0 && Exact.Inventory(inventory) && Exact.Verified(o.read)
    requires query.ExactQuery? && query.kind.DecodedKind? ==> Text.Valid(query.request.literal)
    requires query.RankedQuery? && query.Ok() ==> Retained(ranked, RankedSummary(generation, |ranked|), query)
    ensures r.Ok? ==> fresh(r.value) && r.value.Valid() && r.value.cursor == 0 && r.value.query == query
    ensures r.Ok? && query.ExactQuery? ==>
              var xs := Readings(inventory, query.kind, query.request, o);
              && Exact.Pinned(xs, query.kind)
              && r.value.items == Wrapped(Exact.Prefix(Exact.AllItems(xs, query.request.literal), query.request.limit))
              && r.value.summary.found == Some(Exact.MatchCount(xs, query.request.literal))
              && r.value.summary.scanComplete == Some(Exact.FoundCount(xs) == |xs|)
    ensures query.RankedQuery? ==> (r.Ok? <==> query.Ok())
    ensures query.ExactQuery? ==>
              (r == Err(Exact.InvalidRequest) <==> !query.Ok())
              && (r.Err? ==> r.error != Exact.RangeInvalid && r.error != Exact.InputLimit)
  {
    hide Retained, Exact.Inventory, Exact.Verified, Exact.Pinned, Exact.ValidatesRequest, Exact.Selection,
         Exact.Published, Exact.RawContent, Decoded.TextContent, Exact.RawReadings, Decoded.TextReadings, Exact.Refused,
         Exact.AllItems, Exact.MatchCount, Exact.FoundCount, Exact.ByteCount, Exact.Prefix, Wrapped;
    if !query.Ok() { return Err(Exact.InvalidRequest); }
    if query.RankedQuery? {
      var window := new Window(ranked, RankedSummary(generation, |ranked|), query);
      return Ok(window);
    }
    var result: Result<Exact.ExactResult, Exact.ExactError>;
    if query.kind.RawKind? {
      result := Exact.Execute(generation, inventory, query.request, o.read);
    } else {
      result := Decoded.Execute(generation, inventory, query.request, o);
    }
    if result.Err? { return Err(result.error); }
    ExactIsRetained(result.value, generation, Readings(inventory, query.kind, query.request, o), query.kind, query.request);
    var window := new Window(Wrapped(result.value.items), ExactSummary(result.value), query);
    return Ok(window);
  }

  // --------------------------------------------------------------- client

  lemma ItemsSnoc(all: seq<Entry>, i: nat)
    requires i < |all|
    ensures Items(all[..i + 1]) == Items(all[..i]) + [all[i].item]
    ensures Count(Items(all[..i + 1]), true) == Count(Items(all[..i]), true) + (if all[i].item.Occurrence? && all[i].item.item.Found() then 1 else 0)
    ensures Count(Items(all[..i + 1]), false) == Count(Items(all[..i]), false) + (if all[i].item.Occurrence? && !all[i].item.item.Found() then 1 else 0)
  {
    assert Items(all[..i + 1]) == Items(all[..i]) + [all[i].item];
    assert Items(all[..i + 1])[..i] == Items(all[..i]);
  }

  lemma SequenceSnoc(items: seq<Item>, x: Item, query: Query)
    ensures Sequence(items + [x], query)
            <==> && Sequence(items, query) && Answers(x, query) && (items != [] ==> Follows(items[|items|-1], x))
                 && (x.Ranked? ==> forall i :: 0 <= i < |items| && items[i].Ranked? ==> items[i].point != x.point)
  {
    hide Answers, Follows;
    var more := items + [x];
    assert forall i :: 0 <= i < |items| ==> more[i] == items[i];
    assert more[|items|] == x;
  }

  lemma {:induction false} SequenceFront(items: seq<Item>, query: Query, k: nat)
    requires k <= |items| && !Sequence(items[..k], query)
    ensures !Sequence(items, query)
  {
    if Sequence(items, query) { PrefixSequence(items, query, k); }
  }

  /** What the parent process holds of one window. */
  class Client {
    const query: Query
    var emitted: seq<Entry>
    var summary: Option<Summary>

    constructor (query: Query)
      ensures this.query == query && emitted == [] && summary == None
    {
      this.query, emitted, summary := query, [], None;
    }

    /** Re-checks the whole prefix it would then hold, entry by entry. */
    method CheckEntries(p: Page) returns (r: Option<(nat, nat)>)
      ensures r.Some? <==> Sequence(Items(emitted + p.items), query)
      ensures r.Some? ==> r.value == (Count(Items(emitted + p.items), true), Count(Items(emitted + p.items), false))
    {
      hide Sequence, Answers, Follows, Items, Count;
      var all := emitted + p.items;
      var found: nat, gaps: nat, index: nat := 0, 0, 0;
      EmptySequence(all, query);
      while index < |all|
        invariant index <= |all| && Sequence(Items(all[..index]), query)
        invariant found == Count(Items(all[..index]), true) && gaps == Count(Items(all[..index]), false)
      {
        var item := all[index].item;
        ItemsSnoc(all, index);
        ItemsAt(all, index);
        SequenceSnoc(Items(all[..index]), item, query);
        ItemsFront(all, index + 1);
        if !Sequence(Items(all[..index + 1]), query) { SequenceFront(Items(all), query, index + 1); }
        if !Answers(item, query) { return None; }
        if item.Ranked? && exists i :: 0 <= i < index && all[i].item.Ranked? && all[i].item.point == item.point {
          return None;
        }
        if index > 0 && !Follows(all[index - 1].item, item) { return None; }
        if item.Occurrence? {
          if item.item.Found() { found := found + 1; } else { gaps := gaps + 1; }
        }
        index := index + 1;
      }
      assert all[..index] == all;
      return Some((found, gaps));
    }

    /** Accepts a page only if it continues what was already accepted. */
    method AcceptPage(p: Page, pageSize: nat) returns (ok: bool)
      modifies this
      ensures ok <==> PageAccepted(p, query, old(emitted), pageSize)
                      && (old(summary).None? || old(summary).value == p.summary)
      ensures emitted == if ok then old(emitted) + p.items else old(emitted)
      ensures summary == if ok then Some(p.summary) else old(summary)
    {
      hide Sequence, PageValid, Items, Count;
      if summary.Some? && summary.value != p.summary { return false; }
      if !PageValid(p) || !query.Ok() || pageSize == 0 || pageSize > MAX_ITEMS { return false; }
      var room := if |emitted| <= p.summary.retained then p.summary.retained - |emitted| else 0;
      var expected := if pageSize <= room then pageSize else room;
      if p.start != |emitted| || p.summary.retained > query.Limit() || |p.items| > expected
         || (p.stop == Exact.Complete) != (|p.items| == expected) || query.RankedQuery? != p.summary.found.None? {
        return false;
      }
      var totals := CheckEntries(p);
      if totals.None? || !TotalsOk(p, totals.value.0, totals.value.1) { return false; }
      summary := Some(p.summary);
      emitted := emitted + p.items;
      return true;
    }
  }

  lemma EmptySequence(all: seq<Entry>, query: Query)
    ensures Sequence(Items(all[..0]), query)
    ensures Count(Items(all[..0]), true) == 0 && Count(Items(all[..0]), false) == 0
  {
  }

  lemma ItemsAt(all: seq<Entry>, i: nat)
    requires i < |all|
    ensures |Items(all[..i])| == i && forall k :: 0 <= k < i ==> Items(all[..i])[k] == all[k].item
  {
  }

  lemma ItemsFront(all: seq<Entry>, i: nat)
    requires i <= |all|
    ensures |Items(all)| == |all| && Items(all)[..i] == Items(all[..i])
  {
  }

  /** A client fed the pages of one window, each cut at the committed cursor,
      always accepts and always holds exactly the committed prefix. */
  method ServePage(window: Window, client: Client, pageSize: nat, size: Page -> nat) returns (r: Result<bool, PageError>)
    requires window.Valid() && client.query == window.query && 0 < pageSize <= MAX_ITEMS
    requires client.emitted == Entries(window.items, 0, window.cursor)
    requires client.summary.Some? ==> client.summary.value == window.summary
    modifies window, client
    ensures window.Valid() && client.emitted == Entries(window.items, 0, window.cursor)
    ensures r.Ok? ==> r.value && (old(window.cursor) < |window.items| ==> old(window.cursor) < window.cursor)
    ensures r.Err? ==> window.cursor == old(window.cursor)
  {
    hide Retained, PageValid, Sequence;
    var cut := window.CutPage(pageSize, size);
    if cut.Err? { return Err(cut.error); }
    ClientAccepts(window.items, window.summary, window.query, window.cursor, |cut.value.items|, pageSize);
    var accepted := client.AcceptPage(cut.value, pageSize);
    var moved := window.CommitPage(cut.value.start, cut.value.next);
    return Ok(accepted && moved);
  }
}
