/** `fetch_decklist_breakdown` of decks/api.py: the stored decks, optionally
    filtered by investigator, ordered by deck id and cut to one page; for each
    the presence of the requested cards and the experience total, keyed by the
    deck id's decimal string. */
module Breakdown {
  import opened Errors
  import opened Text
  import opened Sets
  import opened CardModels
  import opened DeckModels

  /** `DecklistsRequestSchema`. */
  datatype BreakdownRequest = BreakdownRequest(
    investigatorName: Option<string>,
    cardIds: seq<string>,
    numEntities: int,
    offset: int)

  /** `DeckListBreakdownSchema`. */
  datatype DeckBreakdown = DeckBreakdown(investigatorName: string, cardPresence: map<string, bool>, deckXp: int)

  /** The walrus test filters only on a truthy name: None and "" select every deck. */
  predicate Selected(req: BreakdownRequest, d: DeckList) {
    req.investigatorName.None? || req.investigatorName.value == [] || d.investigatorName == req.investigatorName.value
  }

  /** The ids of the decks the filter keeps. */
  function SelectedIds(decks: map<int, DeckList>, req: BreakdownRequest): set<int> {
    set id | id in decks && Selected(req, decks[id])
  }

  predicate StrictlyIncreasing(r: seq<int>) {
    forall i, j :: 0 <= i < j < |r| ==> r[i] < r[j]
  }

  /** `order_by("deck_id")`: the ids in increasing order, each once. */
  function SortedIds(ids: set<int>): (r: seq<int>)
    ensures StrictlyIncreasing(r)
    ensures forall x :: x in r <==> x in ids
    ensures |r| == |ids|
    decreases |ids|
  {
    if ids == {} then []
    else
      var m := Min(ids);
      var rest := SortedIds(ids - {m});
      [m] + rest
  }

  /** An increasing sequence is fixed by its elements, so `SortedIds` is the
      only order `order_by` can produce. */
  lemma {:induction false} IncreasingUnique(a: seq<int>, b: seq<int>)
    requires StrictlyIncreasing(a) && StrictlyIncreasing(b)
    requires forall x :: x in a <==> x in b
    ensures a == b
    decreases |a|
  {
    if a != [] {
      IncreasingHeads(a, b);
      IncreasingTails(a, b);
      IncreasingUnique(a[1..], b[1..]);
      assert a == [a[0]] + a[1..];
      assert b == [b[0]] + b[1..];
    } else if b != [] {
      IncreasingHeads(b, a);
    }
  }

  /** Two increasing sequences with the same elements start alike. */
  lemma IncreasingHeads(a: seq<int>, b: seq<int>)
    requires StrictlyIncreasing(a) && StrictlyIncreasing(b)
    requires forall x :: x in a <==> x in b
    requires a != []
    ensures b != [] && a[0] == b[0]
  {
    assert a[0] in a;
    var ka :| 0 <= ka < |b| && b[ka] == a[0];
    assert b[0] in b;
    var kb :| 0 <= kb < |a| && a[kb] == b[0];
    assert b[0] <= b[ka];
    assert a[0] <= a[kb];
  }

  /** ... and, past their common head, still have the same elements. */
  lemma IncreasingTails(a: seq<int>, b: seq<int>)
    requires StrictlyIncreasing(a) && StrictlyIncreasing(b)
    requires forall x :: x in a <==> x in b
    requires a != [] && b != [] && a[0] == b[0]
    ensures forall x :: x in a[1..] <==> x in b[1..]
  {
    forall x
      ensures x in a[1..] <==> x in b[1..]
    {
      if x in a[1..] {
        var k :| 1 <= k < |a| && a[k] == x;
        assert a[0] < x && x in b;
      }
      if x in b[1..] {
        var k :| 1 <= k < |b| && b[k] == x;
        assert b[0] < x && x in a;
      }
    }
  }

  /** A queryset slice `[offset : offset + num]`. A negative bound raises
      ValueError; an end before the start yields nothing, since the low mark
      is clamped to the high mark; both bounds are clipped to the length. */
  function Window<T>(xs: seq<T>, offset: int, num: int): (r: Result<seq<T>>)
    ensures r.Err? <==> offset < 0 || offset + num < 0
    ensures r.Err? ==> r.error == Raised(ValueError)
    ensures r.Ok? ==> |r.value| <= |xs| && (r.value == [] || |r.value| <= num)
    ensures r.Ok? ==> forall i :: 0 <= i < |r.value| ==> offset + i < |xs| && r.value[i] == xs[offset + i]
    ensures r.Ok? && 0 <= num && offset + num <= |xs| ==> |r.value| == num
    ensures r.Ok? && offset + num > |xs| ==> |r.value| == (if offset < |xs| then |xs| - offset else 0)
    ensures r.Ok? && num < 0 ==> r.value == []
  {
    if offset < 0 || offset + num < 0 then Err(Raised(ValueError))
    else
      var low := if offset < |xs| then offset else |xs|;
      var high := if offset + num < |xs| then offset + num else |xs|;
      Ok(if high <= low then [] else xs[low..high])
  }

  /** Consecutive pages tile the sequence: the page after `[o : o + n]` is
      `[o + n : o + n + m]`, and together they are `[o : o + n + m]`. */
  lemma Pages<T>(xs: seq<T>, o: int, n: int, m: int)
    requires 0 <= o && 0 <= n && 0 <= m
    ensures Window(xs, o, n).Ok? && Window(xs, o + n, m).Ok? && Window(xs, o, n + m).Ok?
    ensures Window(xs, o, n).value + Window(xs, o + n, m).value == Window(xs, o, n + m).value
  {
    var lo := if o < |xs| then o else |xs|;
    var mid := if o + n < |xs| then o + n else |xs|;
    var hi := if o + n + m < |xs| then o + n + m else |xs|;
    assert xs[lo..hi] == xs[lo..mid] + xs[mid..hi];
  }

  /** `decklist.deck_cards.filter(card_data__card_id=cardId).exists()`. */
  function HasCard(entries: seq<DeckCard>, deckId: int, cardId: string): (b: bool)
    ensures b <==> exists i :: 0 <= i < |entries| && entries[i].deck == deckId && entries[i].card == cardId
  {
    if entries == [] then false
    else if entries[0].deck == deckId && entries[0].card == cardId then true
    else
      var b := HasCard(entries[1..], deckId, cardId);
      assert b ==> exists i :: 0 <= i < |entries| && entries[i].deck == deckId && entries[i].card == cardId by {
        if b {
          var i :| 0 <= i < |entries[1..]| && entries[1..][i].deck == deckId && entries[1..][i].card == cardId;
          assert entries[i + 1] == entries[1..][i];
        }
      }
      assert !b ==> forall i :: 1 <= i < |entries| ==> !(entries[i].deck == deckId && entries[i].card == cardId) by {
        if !b {
          forall i | 1 <= i < |entries|
            ensures !(entries[i].deck == deckId && entries[i].card == cardId)
          {
            assert entries[i] == entries[1..][i - 1];
          }
        }
      }
      b
  }

  /** The `card_presence` dict: one flag per requested card id, true exactly
      when the deck has an entry for that card. */
  function Presence(entries: seq<DeckCard>, deckId: int, cardIds: seq<string>): (m: map<string, bool>)
    ensures m.Keys == set c | c in cardIds
    ensures forall c :: c in m ==> (m[c] <==> exists i :: 0 <= i < |entries| && entries[i].deck == deckId && entries[i].card == c)
  {
    if cardIds == [] then map[]
    else
      var last := cardIds[|cardIds| - 1];
      var init := cardIds[..|cardIds| - 1];
      assert cardIds == init + [last];
      Presence(entries, deckId, init)[last := HasCard(entries, deckId, last)]
  }

  /** The products `quantity * xp` the aggregate sums over: the deck's
      entries joined with their cards, the rows with a null xp dropped. */
  function Terms(cards: CardStore, entries: seq<DeckCard>, deckId: int): seq<int> {
    if entries == [] then []
    else
      var e := entries[|entries| - 1];
      var init := Terms(cards, entries[..|entries| - 1], deckId);
      if e.deck == deckId && e.card in cards && cards[e.card].xp.Some? then init + [e.quantity * cards[e.card].xp.value]
      else init
  }

  function Sum(xs: seq<int>): int {
    if xs == [] then 0 else Sum(xs[..|xs| - 1]) + xs[|xs| - 1]
  }

  /** An entry of the deck whose card carries an experience value. */
  predicate Counted(cards: CardStore, e: DeckCard, deckId: int) {
    e.deck == deckId && e.card in cards && cards[e.card].xp.Some?
  }

  /** `Sum(F("quantity") * F("card_data__xp"))` with SQL's null handling: a
      null product is skipped, and the sum of no values is null. The running
      total is threaded through the entries in order. */
  function TotalXp(cards: CardStore, entries: seq<DeckCard>, deckId: int): (r: Option<int>)
    ensures r.None? <==> forall i :: 0 <= i < |entries| ==> !Counted(cards, entries[i], deckId)
  {
    if entries == [] then None
    else
      var e := entries[|entries| - 1];
      var init := entries[..|entries| - 1];
      var before := TotalXp(cards, init, deckId);
      assert forall i :: 0 <= i < |init| ==> init[i] == entries[i];
      if !Counted(cards, e, deckId) then before
      else
        var term := e.quantity * cards[e.card].xp.value;
        Some(before.GetOr(0) + term)
  }

  /** The aggregate is the plain sum of the non-null products whenever there
      is one. */
  lemma {:induction false} TotalXpIsSum(cards: CardStore, entries: seq<DeckCard>, deckId: int)
    ensures TotalXp(cards, entries, deckId).None? <==> Terms(cards, entries, deckId) == []
    ensures TotalXp(cards, entries, deckId).Some? ==> TotalXp(cards, entries, deckId).value == Sum(Terms(cards, entries, deckId))
    decreases |entries|
  {
    if entries != [] {
      TotalXpIsSum(cards, entries[..|entries| - 1], deckId);
    }
  }

  /** `out` is keyed by the decimal strings of the ids in `ids` whose
      experience total is not null ... */
  ghost predicate CollectedKeys(s: Store, ids: seq<int>, out: map<string, DeckBreakdown>) {
    forall id :: DecimalString(id) in out <==> id in ids && TotalXp(s.cards, s.entries, id).Some?
  }

  /** ... every key of `out` being such a string ... */
  ghost predicate CollectedFrom(ids: seq<int>, out: map<string, DeckBreakdown>) {
    forall k :: k in out ==> exists i :: 0 <= i < |ids| && k == DecimalString(ids[i])
  }

  /** ... and holds for each of them the deck's breakdown. */
  ghost predicate CollectedValues(s: Store, ids: seq<int>, cardIds: seq<string>, out: map<string, DeckBreakdown>)
    requires forall i :: 0 <= i < |ids| ==> ids[i] in s.decks
  {
    forall id :: id in ids && TotalXp(s.cards, s.entries, id).Some? ==>
      && DecimalString(id) in out
      && out[DecimalString(id)]
           == DeckBreakdown(s.decks[id].investigatorName, Presence(s.entries, id, cardIds),
                            TotalXp(s.cards, s.entries, id).value)
  }

  /** The output entries for the page's ids, in page order; a deck with a
      null experience total is skipped. */
  function Collect(s: Store, ids: seq<int>, cardIds: seq<string>): (out: map<string, DeckBreakdown>)
    requires forall i :: 0 <= i < |ids| ==> ids[i] in s.decks
    ensures forall id :: DecimalString(id) in out <==> id in ids && TotalXp(s.cards, s.entries, id).Some?
    ensures forall k :: k in out ==> exists i :: 0 <= i < |ids| && k == DecimalString(ids[i])
    ensures forall id :: id in ids && TotalXp(s.cards, s.entries, id).Some? ==>
              out[DecimalString(id)]
                == DeckBreakdown(s.decks[id].investigatorName, Presence(s.entries, id, cardIds),
                                 TotalXp(s.cards, s.entries, id).value)
  {
    if ids == [] then map[]
    else
      var id := ids[|ids| - 1];
      var init := ids[..|ids| - 1];
      var before := Collect(s, init, cardIds);
      var out := CollectOne(s, id, cardIds, before);
      CollectKeysStep(s, ids, cardIds, before);
      CollectFromStep(s, ids, cardIds, before);
      CollectValuesStep(s, ids, cardIds, before);
      out
  }

  /** `before` with the entry for deck `id` added when its total is not null. */
  function CollectOne(s: Store, id: int, cardIds: seq<string>, before: map<string, DeckBreakdown>)
    : map<string, DeckBreakdown>
    requires id in s.decks
  {
    match TotalXp(s.cards, s.entries, id)
    case None => before
    case Some(xp) =>
      before[DecimalString(id) := DeckBreakdown(s.decks[id].investigatorName, Presence(s.entries, id, cardIds), xp)]
  }

  lemma CollectKeysStep(s: Store, ids: seq<int>, cardIds: seq<string>, before: map<string, DeckBreakdown>)
    requires |ids| > 0 && forall i :: 0 <= i < |ids| ==> ids[i] in s.decks
    requires CollectedKeys(s, ids[..|ids| - 1], before)
    ensures CollectedKeys(s, ids, CollectOne(s, ids[|ids| - 1], cardIds, before))
  {
    var id := ids[|ids| - 1];
    var init := ids[..|ids| - 1];
    assert ids == init + [id];
    var out := CollectOne(s, id, cardIds, before);
    forall other
      ensures DecimalString(other) in out <==> other in ids && TotalXp(s.cards, s.entries, other).Some?
    {
      DecimalStringInjective(other, id);
    }
  }

  lemma CollectFromStep(s: Store, ids: seq<int>, cardIds: seq<string>, before: map<string, DeckBreakdown>)
    requires |ids| > 0 && forall i :: 0 <= i < |ids| ==> ids[i] in s.decks
    requires CollectedFrom(ids[..|ids| - 1], before)
    ensures CollectedFrom(ids, CollectOne(s, ids[|ids| - 1], cardIds, before))
  {
    var id := ids[|ids| - 1];
    var init := ids[..|ids| - 1];
    var out := CollectOne(s, id, cardIds, before);
    assert out.Keys <= before.Keys + {DecimalString(id)};
    forall k | k in out
      ensures exists i :: 0 <= i < |ids| && k == DecimalString(ids[i])
    {
      if k in before {
        var i :| 0 <= i < |init| && k == DecimalString(init[i]);
        assert ids[i] == init[i];
      } else {
        assert ids[|ids| - 1] == id;
      }
    }
  }

  lemma CollectValuesStep(s: Store, ids: seq<int>, cardIds: seq<string>, before: map<string, DeckBreakdown>)
    requires |ids| > 0 && forall i :: 0 <= i < |ids| ==> ids[i] in s.decks
    requires CollectedValues(s, ids[..|ids| - 1], cardIds, before)
    ensures CollectedValues(s, ids, cardIds, CollectOne(s, ids[|ids| - 1], cardIds, before))
  {
    var id := ids[|ids| - 1];
    var init := ids[..|ids| - 1];
    assert ids == init + [id];
    var out := CollectOne(s, id, cardIds, before);
    forall other | other in ids && TotalXp(s.cards, s.entries, other).Some?
      ensures DecimalString(other) in out
      ensures out[DecimalString(other)]
                == DeckBreakdown(s.decks[other].investigatorName, Presence(s.entries, other, cardIds),
                                 TotalXp(s.cards, s.entries, other).value)
    {
      DecimalStringInjective(other, id);
    }
  }

  /** A page of an increasing sequence is increasing and takes its
      elements from it. */
  lemma WindowOfIncreasing(xs: seq<int>, offset: int, num: int)
    requires StrictlyIncreasing(xs) && Window(xs, offset, num).Ok?
    ensures StrictlyIncreasing(Window(xs, offset, num).value)
    ensures forall x :: x in Window(xs, offset, num).value ==> x in xs
  {
    var page := Window(xs, offset, num).value;
    forall i, j | 0 <= i < j < |page|
      ensures page[i] < page[j]
    {
      assert page[i] == xs[offset + i] && page[j] == xs[offset + j];
    }
    forall x | x in page
      ensures x in xs
    {
      var i :| 0 <= i < |page| && page[i] == x;
      assert xs[offset + i] == x;
    }
  }

  /** How many of `n` ordered rows the slice `[offset:offset + num]` keeps
      once the bounds are known not to be negative. */
  function SliceLength(n: int, offset: int, num: int): int {
    if num <= 0 || offset >= n then 0
    else if offset + num <= n then num
    else n - offset
  }

  /** The ids of the requested page: the filtered decks ordered by id, cut
      to `[offset : offset + numEntities]`. */
  function Page(decks: map<int, DeckList>, req: BreakdownRequest): (r: Result<seq<int>>)
    ensures r.Err? <==> req.offset < 0 || req.offset + req.numEntities < 0
    ensures r.Err? ==> r.error == Raised(ValueError)
    ensures r.Ok? ==> StrictlyIncreasing(r.value)
    ensures r.Ok? ==> forall id :: id in r.value ==> id in decks && Selected(req, decks[id])
    ensures r.Ok? ==> |r.value| == SliceLength(|SelectedIds(decks, req)|, req.offset, req.numEntities)
  {
    var ordered := SortedIds(SelectedIds(decks, req));
    var page := Window(ordered, req.offset, req.numEntities);
    if page.Ok? then
      WindowOfIncreasing(ordered, req.offset, req.numEntities);
      page
    else
      page
  }

  /** The page lists exactly the selected decks whose rank in id order falls
      in `[offset, offset + numEntities)`: below `|ordered|` the page is a
      contiguous run of `SortedIds`, which `IncreasingUnique` makes the only
      increasing listing of the selected ids. */
  lemma PageIsRun(decks: map<int, DeckList>, req: BreakdownRequest, ordered: seq<int>)
    requires Page(decks, req).Ok?
    requires StrictlyIncreasing(ordered) && forall x :: x in ordered <==> x in SelectedIds(decks, req)
    ensures var page := Page(decks, req).value;
            && |page| == SliceLength(|ordered|, req.offset, req.numEntities)
            && forall i :: 0 <= i < |page| ==> req.offset + i < |ordered| && page[i] == ordered[req.offset + i]
  {
    IncreasingUnique(ordered, SortedIds(SelectedIds(decks, req)));
  }

  /** `fetch_decklist_breakdown`: filter, order by deck id, take the page,
      and collect the page's decks. The result has an entry for a deck
      exactly when the deck is on the page and its experience total is not
      null; the entry carries the deck's investigator, a flag per requested
      card, and the total. Every key is the decimal string of a page id. */
  function FetchBreakdown(s: Store, req: BreakdownRequest): (r: Result<map<string, DeckBreakdown>>)
    ensures r.Err? <==> req.offset < 0 || req.offset + req.numEntities < 0
    ensures r.Err? ==> r.error == Raised(ValueError)
    ensures r.Ok? ==> forall id :: DecimalString(id) in r.value <==> id in Page(s.decks, req).value && TotalXp(s.cards, s.entries, id).Some?
    ensures r.Ok? ==> forall k :: k in r.value ==> exists i :: 0 <= i < |Page(s.decks, req).value| && k == DecimalString(Page(s.decks, req).value[i])
    ensures r.Ok? ==> forall id :: DecimalString(id) in r.value ==>
              id in s.decks
              && r.value[DecimalString(id)]
                   == DeckBreakdown(s.decks[id].investigatorName, Presence(s.entries, id, req.cardIds),
                                    TotalXp(s.cards, s.entries, id).value)
  {
    match Page(s.decks, req)
    case Err(e) => Err(e)
    case Ok(ids) => Ok(Collect(s, ids, req.cardIds))
  }

  /** Without a filter or a page limit, the page is every stored deck. */
  lemma UnfilteredPageIsAll(s: Store, req: BreakdownRequest)
    requires req.investigatorName == None && req.offset == 0 && req.numEntities >= |s.decks|
    ensures var page := Page(s.decks, req);
            page.Ok? && |page.value| == |s.decks| && forall id :: id in page.value <==> id in s.decks
  {
    var ordered := SortedIds(SelectedIds(s.decks, req));
    assert SelectedIds(s.decks, req) == s.decks.Keys by {
      forall id | id in s.decks
        ensures id in SelectedIds(s.decks, req)
      {
        assert Selected(req, s.decks[id]);
      }
    }
    assert Window(ordered, 0, req.numEntities).value == ordered;
    assert Page(s.decks, req).value == ordered;
  }
}
