/** What an exact search shows, read off the inventory and the objects alone,
    and what a client may conclude from a result it accepts. */
module Answers {
  import opened Wrappers
  import opened Text
  import opened Literal
  import opened Control
  import opened Exact
  import Decoded
  import Window

  // ------------------------------------------------- items, source by source

  lemma {:induction false} ItemIn(xs: seq<Reading>, w: seq<Byte>, item: Item)
    ensures item in AllItems(xs, w) <==> exists i :: 0 <= i < |xs| && item in ItemsOf(xs[i], w)
  {
    hide ItemsOf;
    if xs != [] {
      var front := xs[..|xs|-1];
      ItemIn(front, w, item);
      if i :| 0 <= i < |front| && item in ItemsOf(front[i], w) { assert xs[i] == front[i]; }
      if i :| 0 <= i < |xs| && item in ItemsOf(xs[i], w) { assert i < |front| ==> front[i] == xs[i]; }
    }
  }

  lemma {:induction false} MatchIn(x: Reading, w: seq<Byte>, starts: seq<nat>, item: Item)
    requires x.content.Scanned()
    ensures item in Matches(x, w, starts) <==> exists s :: s in starts && item == ItemAt(x, w, s)
  {
    hide ItemAt;
    if starts != [] {
      var front, last := starts[..|starts|-1], starts[|starts|-1];
      MatchIn(x, w, front, item);
      assert forall s :: s in starts <==> s in front || s == last;
    }
  }

  /** What is shown of a text: one item for each place where the literal
      stands. */
  predicate ShownOf(x: Reading, w: seq<Byte>, item: Item)
    requires x.content.Scanned()
  {
    exists s: nat :: s <= |x.content.text| && OccursAt(w, x.content.text, s) && item == ItemAt(x, w, s)
  }

  lemma ShownOfText(x: Reading, w: seq<Byte>, item: Item)
    requires x.content.Scanned() && w != []
    ensures item in ItemsOf(x, w) <==> ShownOf(x, w, item)
  {
    hide ItemAt, Matches, OccurrencesTo;
    var t := x.content.text;
    MatchIn(x, w, Occurrences(w, t), item);
    forall s: nat ensures s in Occurrences(w, t) <==> OccursAt(w, t, s) {
      OccurrencesAre(w, t, |t|, s);
    }
    hide OccursAt;
  }

  // ---------------------------------------------------------- raw results

  /** What a raw search has to say of one source: each place in its bytes where
      the literal stands, or that its object is missing. */
  predicate RawSays(c: Captured, read: ObjectStore, w: seq<Byte>, item: Item) {
    match read(c.source.objectRef)
    case Found(t) =>
      exists s: nat :: s <= |t| && OccursAt(w, t, s) && item == Match(RefOf(c.source), s, s + |w|, Hex(w))
    case Absent => item == Missing(RefOf(c.source))
    case Failed => false
  }

  lemma RawReadingAt(cs: seq<Captured>, read: ObjectStore, i: nat)
    requires i < |cs|
    ensures |RawReadings(cs, read)| == |cs|
    ensures RawReadings(cs, read)[i]
            == Reading(RefOf(cs[i].source), if RawContent(cs[i], read).Some? then RawContent(cs[i], read).value else Lost)
  {
    if i < |cs| - 1 {
      RawReadingAt(cs[..|cs|-1], read, i);
    } else if |cs| > 1 {
      RawReadingAt(cs[..|cs|-1], read, 0);
    }
  }

  lemma RawSaysOne(c: Captured, read: ObjectStore, w: seq<Byte>, item: Item)
    requires w != [] && !read(c.source.objectRef).Failed?
    ensures RawContent(c, read).Some?
    ensures item in ItemsOf(Reading(RefOf(c.source), RawContent(c, read).value), w) <==> RawSays(c, read, w, item)
  {
    var x := Reading(RefOf(c.source), RawContent(c, read).value);
    if x.content.Scanned() { ShownOfText(x, w, item); }
    hide OccursAt, Matches, Hex;
  }

  /** An item belongs to the whole raw answer exactly when some selected source
      says it. A search fails exactly when the read of some object does. */
  lemma RawItemsAre(cs: seq<Captured>, read: ObjectStore, w: seq<Byte>, item: Item)
    requires w != []
    ensures (exists c :: c in cs && RawContent(c, read).None?) <==> (exists c :: c in cs && read(c.source.objectRef).Failed?)
    ensures (forall c :: c in cs ==> !read(c.source.objectRef).Failed?) ==>
              (item in AllItems(RawReadings(cs, read), w) <==> exists c :: c in cs && RawSays(c, read, w, item))
  {
    hide ItemsOf, AllItems, RawReadings, RawSays;
    var xs := RawReadings(cs, read);
    if cs == [] { assert xs == [] by { NoReadings(read); } }
    else { RawReadingAt(cs, read, 0); }
    ItemIn(xs, w, item);
    if forall c :: c in cs ==> !read(c.source.objectRef).Failed? {
      forall i | 0 <= i < |cs| ensures item in ItemsOf(xs[i], w) <==> RawSays(cs[i], read, w, item) {
        RawReadingAt(cs, read, i);
        assert cs[i] in cs;
        RawSaysOne(cs[i], read, w, item);
      }
      if c :| c in cs && RawSays(c, read, w, item) {
        var i :| 0 <= i < |cs| && cs[i] == c;
      }
    }
  }

  lemma NoReadings(read: ObjectStore)
    ensures RawReadings([], read) == []
  {
  }

  // ------------------------------------------------------ decoded results

  /** What a decoded search has to say of one source: each place in its text
      where the literal stands, or why it has no text. */
  ghost predicate TextSays(c: Captured, o: Decoded.Objects, w: seq<Byte>, item: Item) {
    && c.preparation.outcome.Some?
    && match c.preparation.outcome.value.result
       case Gap(_) => item == NoText(RefOf(c.source), PreparationGap, None)
       case Ready(artifact) =>
         match o.read(c.source.objectRef)
         case Absent => item == NoText(RefOf(c.source), SourceObjectMissing, Some(artifact))
         case Failed => false
         case Found(t) =>
           match o.read(artifact)
           case Absent => item == NoText(RefOf(c.source), PreparedObjectMissing, Some(artifact))
           case Failed => false
           case Found(_) =>
             exists s: nat :: s <= |t| && OccursAt(w, t, s)
                              && item == Hit(RefOf(c.source), artifact, s, s + |w|, s, s + |w|, w)
  }

  lemma TextSaysOne(c: Captured, o: Decoded.Objects, w: seq<Byte>, item: Item)
    requires w != [] && Decoded.TextContent(c, o).Some?
    ensures item in ItemsOf(Reading(RefOf(c.source), Decoded.TextContent(c, o).value), w) <==> TextSays(c, o, w, item)
  {
    hide Decoded.Holds, Hex;
    var x := Reading(RefOf(c.source), Decoded.TextContent(c, o).value);
    if x.content.Scanned() { ShownOfText(x, w, item); }
    hide OccursAt, Matches;
  }

  /** An item belongs to the whole decoded answer exactly when some selected
      source says it. */
  lemma TextItemsAre(cs: seq<Captured>, o: Decoded.Objects, w: seq<Byte>, item: Item)
    requires w != [] && forall c :: c in cs ==> Decoded.TextContent(c, o).Some?
    ensures item in AllItems(Decoded.TextReadings(cs, o), w) <==> exists c :: c in cs && TextSays(c, o, w, item)
  {
    hide ItemsOf, AllItems, Decoded.TextReadings, TextSays, Decoded.TextContent;
    var xs := Decoded.TextReadings(cs, o);
    if cs == [] { assert xs == [] by { NoTexts(o); } }
    else { Decoded.TextAt(cs, o, 0); }
    ItemIn(xs, w, item);
    forall i | 0 <= i < |cs| ensures item in ItemsOf(xs[i], w) <==> TextSays(cs[i], o, w, item) {
      Decoded.TextAt(cs, o, i);
      assert cs[i] in cs;
      TextSaysOne(cs[i], o, w, item);
      assert xs[i] == Reading(RefOf(cs[i].source), Decoded.TextContent(cs[i], o).value);
    }
    if c :| c in cs && TextSays(c, o, w, item) {
      var i :| 0 <= i < |cs| && cs[i] == c;
    }
  }

  lemma NoTexts(o: Decoded.Objects)
    ensures Decoded.TextReadings([], o) == []
  {
  }

  // ----------------------------------------------- what acceptance means

  /** One item comes before another: an earlier source, or an earlier place in
      the same bytes. */
  predicate Before(left: Item, right: Item) {
    && left.source.namespace == right.source.namespace
    && (left.source.id < right.source.id
        || (left.source == right.source && left.Found() && right.Found() && left.start < right.start))
  }

  lemma OrderIsBefore(left: Item, right: Item)
    requires InOrder(left, right)
    ensures Before(left, right)
  {
  }

  lemma BeforeTrans(a: Item, b: Item, c: Item)
    requires Before(a, b) && Before(b, c)
    ensures Before(a, c)
  {
  }

  lemma {:induction false} ShownInOrder(items: seq<Item>, i: nat, j: nat)
    requires Ordered(items) && i < j < |items|
    ensures Before(items[i], items[j])
    decreases j
  {
    hide InOrder, Before;
    assert InOrder(items[j - 1], items[j]);
    OrderIsBefore(items[j - 1], items[j]);
    if i < j - 1 {
      ShownInOrder(items, i, j - 1);
      BeforeTrans(items[i], items[j - 1], items[j]);
    }
  }

  /** What an accepted raw match shows: bytes inside its source, as many as the
      literal has, whose digits read as the literal. */
  predicate ShowsLiteral(item: Item, w: seq<Byte>) {
    item.Match? ==>
      && item.start < item.end <= item.source.input.length && item.end - item.start == |w|
      && |item.hex| == 2 * |w|
      && forall k :: 0 <= k < |w| ==> DigitValue(item.hex[2 * k]) * 16 + DigitValue(item.hex[2 * k + 1]) == w[k]
  }

  /** Whoever made it, a result the client accepts shows each item at most once
      and in order, each raw match reads as the literal, and it claims to be
      complete exactly when it shows all it counts. */
  lemma AcceptedShows(r: ExactResult, kind: Kind, request: Request)
    requires ValidatesRequest(r, kind, request)
    ensures forall i: nat, j: nat :: i < j < |r.items| ==> Before(r.items[i], r.items[j]) && r.items[i] != r.items[j]
    ensures forall i :: 0 <= i < |r.items| ==> ShowsLiteral(r.items[i], request.literal)
    ensures r.stop == Complete <==> |r.items| == r.matches + r.missing
    ensures r.completeNegative <==> r.scanned == r.selected && r.matches == 0
  {
    hide ItemOk, InOrder, KindCount, Hex, ItemAnswers, ShowsLiteral, Before;
    forall i: nat, j: nat | i < j < |r.items| ensures Before(r.items[i], r.items[j]) && r.items[i] != r.items[j] {
      ShownInOrder(r.items, i, j);
      NotBeforeItself(r.items[i]);
    }
    forall i | 0 <= i < |r.items| ensures ShowsLiteral(r.items[i], request.literal) {
      AnswerShows(r.items[i], kind, request);
    }
  }

  lemma NotBeforeItself(item: Item)
    ensures !Before(item, item)
  {
  }

  lemma AnswerShows(item: Item, kind: Kind, request: Request)
    requires ItemOk(item) && ItemAnswers(item, kind, request)
    ensures ShowsLiteral(item, request.literal)
  {
    var w := request.literal;
    hide Hex, LowerHex;
    if item.Match? {
      forall k | 0 <= k < |w| ensures DigitValue(item.hex[2 * k]) * 16 + DigitValue(item.hex[2 * k + 1]) == w[k] {
        HexDecodes(w, k);
      }
    }
  }

  // ---------------------------------------------- what a client holds

  /** One entry comes before another in what a client holds: ranks count up,
      occurrences keep their order. */
  predicate Precedes(left: Window.Item, right: Window.Item) {
    && left.Ranked? == right.Ranked?
    && (left.Ranked? ==> left.rank < right.rank)
    && (left.Occurrence? ==> Before(left.item, right.item))
  }

  lemma FollowsPrecedes(left: Window.Item, right: Window.Item)
    requires Window.Follows(left, right)
    ensures Precedes(left, right)
  {
    if left.Occurrence? { InOrderOf(left.item, right.item); }
  }

  lemma InOrderOf(left: Item, right: Item)
    requires Window.Follows(Window.Occurrence(left), Window.Occurrence(right))
    ensures Before(left, right)
  {
  }

  lemma RankedBoth(left: Window.Item, right: Window.Item)
    requires Precedes(left, right)
    ensures left.Ranked? == right.Ranked?
  {
  }

  lemma PrecedesTrans(a: Window.Item, b: Window.Item, c: Window.Item)
    requires Precedes(a, b) && Precedes(b, c)
    ensures Precedes(a, c)
  {
  }

  lemma {:induction false} HeldInOrder(items: seq<Window.Item>, query: Window.Query, i: nat, j: nat)
    requires Window.Sequence(items, query) && i < j < |items|
    ensures Precedes(items[i], items[j])
    decreases j
  {
    hide Window.Follows, Window.Answers, Precedes;
    FollowsPrecedes(items[j - 1], items[j]);
    if i < j - 1 {
      HeldInOrder(items, query, i, j - 1);
      PrecedesTrans(items[i], items[j - 1], items[j]);
    }
  }

  /** What a client holds: entries numbered from zero, each an answer of the
      query, in order. */
  predicate Held(entries: seq<Window.Entry>, query: Window.Query) {
    && (forall i :: 0 <= i < |entries| ==>
          && entries[i].index == i && entries[i].item.Ranked? == query.RankedQuery?
          && (entries[i].item.Ranked? ==> entries[i].item.rank == i + 1)
          && (entries[i].item.Occurrence? ==>
                entries[i].item.item.Kind() == query.kind && ShowsLiteral(entries[i].item.item, query.request.literal)))
    && (forall i, j :: 0 <= i < j < |entries| ==>
          && Precedes(entries[i].item, entries[j].item)
          && (entries[i].item.Ranked? ==> entries[i].item.point != entries[j].item.point))
  }

  lemma EntryShows(item: Window.Item, query: Window.Query)
    requires Window.Answers(item, query)
    ensures item.Ranked? == query.RankedQuery?
    ensures item.Occurrence? ==> item.item.Kind() == query.kind && ShowsLiteral(item.item, query.request.literal)
  {
    hide ItemOk, ShowsLiteral;
    if item.Occurrence? { AnswerShows(item.item, query.kind, query.request); }
  }

  /** Whoever made the pages, a client that accepted them holds an ordered
      prefix of at most as many answers as it asked for; it is told that there
      is more exactly while it holds fewer than the result has; and once it
      holds a complete exact result, its own counts are the totals. */
  lemma AcceptedPrefix(p: Window.Page, query: Window.Query, emitted: seq<Window.Entry>, pageSize: nat)
    requires Held(emitted, query) && Window.PageAccepted(p, query, emitted, pageSize)
    ensures var all := emitted + p.items;
            && Held(all, query) && |all| <= p.summary.retained <= query.Limit() && |p.items| <= pageSize
            && (p.hasMore <==> |all| < p.summary.retained) && (p.hasMore ==> p.items != [])
            && (query.ExactQuery? && !p.hasMore && p.summary.stop == Complete ==>
                  && p.summary.found == Some(Window.Count(Window.Items(all), true))
                  && p.summary.scanComplete == Some(Window.Count(Window.Items(all), false) == 0))
  {
    hide Window.Count, Window.Answers, Window.Follows, Precedes, ShowsLiteral, Window.ItemValid;
    var all := emitted + p.items;
    var items := Window.Items(all);
    forall i | 0 <= i < |all|
      ensures all[i].item.Ranked? == query.RankedQuery?
      ensures all[i].item.Occurrence? ==>
                all[i].item.item.Kind() == query.kind && ShowsLiteral(all[i].item.item, query.request.literal)
    {
      assert Window.Answers(items[i], query);
      EntryShows(items[i], query);
    }
    forall i, j | 0 <= i < j < |all|
      ensures Precedes(all[i].item, all[j].item)
      ensures all[i].item.Ranked? ==> all[i].item.point != all[j].item.point
    {
      HeldInOrder(items, query, i, j);
      assert items[i] == all[i].item && items[j] == all[j].item;
      RankedBoth(items[i], items[j]);
    }
  }
}
