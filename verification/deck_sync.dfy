/** Saving decklists and the day-by-day sync of decks/api.py:
    `save_decklist_info`, `fetch_latest_decklists` and `fetch_decklist`.
    The network is a parameter: `byDate` is what the by-date endpoint answers
    for a day ordinal, `pages` what a deck page answers for a deck id. */
module DeckSync {
  import opened Errors
  import opened Http
  import opened Json
  import opened Text
  import opened Calendar
  import opened CardModels
  import opened DeckRecords
  import opened DeckMetadata
  import opened PlayerCount
  import opened Constants
  import opened DeckModels
  import opened Sets

  /** No row appears twice. */
  predicate NoDuplicateRows(entries: seq<DeckCard>) {
    forall e :: e in entries ==> multiset(entries)[e] <= 1
  }

  /** `DeckCard.objects.update_or_create(deck=, card_data=, quantity=)`: all
      three fields form the lookup and there are no defaults, so a match is
      left as it is, no match inserts the row, and several matches raise. */
  function UpdateOrCreate(entries: seq<DeckCard>, e: DeckCard): Result<seq<DeckCard>> {
    var n := multiset(entries)[e];
    if n == 0 then Ok(entries + [e])
    else if n == 1 then Ok(entries)
    else Err(Raised(MultipleObjectsReturned))
  }

  /** The lookup succeeds unless the row is already duplicated; afterwards
      the row is present exactly once, no other row's count changes, and the
      earlier rows keep their places. */
  lemma UpdateOrCreateSpec(entries: seq<DeckCard>, e: DeckCard)
    ensures var r := UpdateOrCreate(entries, e);
            && (r.Ok? <==> multiset(entries)[e] <= 1)
            && (r.Err? ==> r.error == Raised(MultipleObjectsReturned))
            && (r.Ok? ==> |r.value| >= |entries| && r.value[..|entries|] == entries)
            && (r.Ok? ==> multiset(r.value)[e] == 1
                          && forall x :: x != e ==> multiset(r.value)[x] == multiset(entries)[x])
  {
    assert (entries + [e])[..|entries|] == entries;
  }

  /** The slot loop: a code with no stored card is skipped (the
      `CardInfo.DoesNotExist` branch), and the first raising lookup ends the
      loop with the rows written so far left in place. */
  function WriteSlots(cards: CardStore, entries: seq<DeckCard>, deckId: int, slots: seq<(string, int)>)
    : (Result<()>, seq<DeckCard>)
    decreases |slots|
  {
    if slots == [] then (Ok(()), entries)
    else if slots[0].0 !in cards then WriteSlots(cards, entries, deckId, slots[1..])
    else
      match UpdateOrCreate(entries, DeckCard(deckId, slots[0].0, slots[0].1))
      case Err(e) => (Err(e), entries)
      case Ok(next) => WriteSlots(cards, next, deckId, slots[1..])
  }

  /** A row written for this deck from one of its slots with a stored card. */
  predicate FromSlots(cards: CardStore, deckId: int, slots: seq<(string, int)>, e: DeckCard) {
    e.deck == deckId && e.card in cards && (e.card, e.quantity) in slots
  }

  /** The slot loop keeps every earlier row in place, adds only rows for
      this deck built from slots whose card is stored, and never creates a
      duplicate row; from a store without duplicates it cannot fail. */
  lemma {:induction false} WriteSlotsSpec(cards: CardStore, entries: seq<DeckCard>, deckId: int, slots: seq<(string, int)>)
    ensures var (r, after) := WriteSlots(cards, entries, deckId, slots);
            && |after| >= |entries| && after[..|entries|] == entries
            && (forall i :: |entries| <= i < |after| ==> FromSlots(cards, deckId, slots, after[i]))
            && (NoDuplicateRows(entries) ==> r.Ok? && NoDuplicateRows(after))
            && (r.Err? ==> r.error == Raised(MultipleObjectsReturned))
    decreases |slots|
  {
    if slots != [] {
      var rest := slots[1..];
      var e := DeckCard(deckId, slots[0].0, slots[0].1);
      UpdateOrCreateSpec(entries, e);
      if slots[0].0 !in cards {
        WriteSlotsSpec(cards, entries, deckId, rest);
        FromSlotsWiden(cards, deckId, slots, entries, WriteSlots(cards, entries, deckId, rest).1);
      } else if UpdateOrCreate(entries, e).Ok? {
        var next := UpdateOrCreate(entries, e).value;
        WriteSlotsSpec(cards, next, deckId, rest);
        var after := WriteSlots(cards, next, deckId, rest).1;
        assert after[..|entries|] == after[..|next|][..|entries|];
        FromSlotsWiden(cards, deckId, slots, next, after);
        forall i | |entries| <= i < |next|
          ensures FromSlots(cards, deckId, slots, after[i])
        {
          assert next == entries + [e];
          assert after[i] == next[i];
        }
      }
    }
  }

  /** Rows built from the tail of the slots are built from the slots. */
  lemma FromSlotsWiden(cards: CardStore, deckId: int, slots: seq<(string, int)>, before: seq<DeckCard>, after: seq<DeckCard>)
    requires |slots| > 0 && |after| >= |before|
    requires forall i :: |before| <= i < |after| ==> FromSlots(cards, deckId, slots[1..], after[i])
    ensures forall i :: |before| <= i < |after| ==> FromSlots(cards, deckId, slots, after[i])
  {
    forall i | |before| <= i < |after|
      ensures FromSlots(cards, deckId, slots, after[i])
    {
      var k :| 0 <= k < |slots[1..]| && slots[1..][k] == (after[i].card, after[i].quantity);
      assert slots[k + 1] == slots[1..][k];
    }
  }

  /** After a complete slot loop every slot with a stored card has its row. */
  lemma {:induction false} WriteSlotsComplete(cards: CardStore, entries: seq<DeckCard>, deckId: int, slots: seq<(string, int)>)
    requires WriteSlots(cards, entries, deckId, slots).0.Ok?
    ensures forall k :: 0 <= k < |slots| && slots[k].0 in cards ==>
              DeckCard(deckId, slots[k].0, slots[k].1) in WriteSlots(cards, entries, deckId, slots).1
    decreases |slots|
  {
    if slots != [] {
      var rest := slots[1..];
      var e := DeckCard(deckId, slots[0].0, slots[0].1);
      UpdateOrCreateSpec(entries, e);
      var next := if slots[0].0 in cards then UpdateOrCreate(entries, e).value else entries;
      var after := WriteSlots(cards, next, deckId, rest).1;
      WriteSlotsComplete(cards, next, deckId, rest);
      WriteSlotsSpec(cards, next, deckId, rest);
      if slots[0].0 in cards {
        assert e in next;
        assert e in after[..|next|];
      }
      forall k | 1 <= k < |slots| && slots[k].0 in cards
        ensures DeckCard(deckId, slots[k].0, slots[k].1) in after
      {
        assert slots[k] == rest[k - 1];
      }
    }
  }

  /** Rewriting slots whose rows are all present, in a store without
      duplicates, changes nothing: every lookup finds its single match. */
  lemma {:induction false} WriteSlotsPresent(cards: CardStore, entries: seq<DeckCard>, deckId: int, slots: seq<(string, int)>)
    requires NoDuplicateRows(entries)
    requires forall k :: 0 <= k < |slots| && slots[k].0 in cards ==> DeckCard(deckId, slots[k].0, slots[k].1) in entries
    ensures WriteSlots(cards, entries, deckId, slots) == (Ok(()), entries)
    decreases |slots|
  {
    if slots != [] {
      var rest := slots[1..];
      forall k | 0 <= k < |rest| && rest[k].0 in cards
        ensures DeckCard(deckId, rest[k].0, rest[k].1) in entries
      {
        assert rest[k] == slots[k + 1];
      }
      WriteSlotsPresent(cards, entries, deckId, rest);
    }
  }

  /** The tags column: `decklist.tags.split(", ")` for a non-empty string,
      no tags for the empty one. */
  function SplitTags(tags: string): (r: seq<string>)
    ensures r == [] <==> tags == []
    ensures Join(r, ", ") == tags
    ensures forall t, i :: t in r && 0 <= i ==> !OccursAt(t, ", ", i)
  {
    JoinSplitOn(tags, ", ");
    SplitOnPieces(tags, ", ");
    if tags != [] then SplitOn(tags, ", ") else []
  }

  /** The deck row `get_or_create` yields: the stored one, or a new row from
      the dumped fields. */
  function StoredDeck(s: Store, r: DecklistResponse): (d: DeckList)
    requires Integrity(s) && Storable(Dump(r))
    ensures d.deckId == r.deckId && Valid(d.creationDate) && Valid(d.updateDate)
    ensures Persisted(d) == (if r.deckId in s.decks then Persisted(s.decks[r.deckId]) else Dump(r))
  {
    if r.deckId in s.decks then s.decks[r.deckId]
    else
      NewDeckListPersists(Dump(r));
      NewDeckList(Dump(r))
  }

  /** The store once the deck row exists and the slot loop has run:
      - the card table is untouched, and only the saved deck's row can be new;
      - earlier rows stay and new rows come from slots with stored cards;
      - the absence of duplicate rows survives and then the loop cannot fail. */
  function Created(s: Store, r: DecklistResponse): (out: (Result<()>, Store))
    requires Integrity(s) && Storable(Dump(r))
    ensures out.1.cards == s.cards && out.1.decks == s.decks[r.deckId := StoredDeck(s, r)]
    ensures |out.1.entries| >= |s.entries| && out.1.entries[..|s.entries|] == s.entries
    ensures forall i :: |s.entries| <= i < |out.1.entries| ==> FromSlots(s.cards, r.deckId, r.slots, out.1.entries[i])
    ensures NoDuplicateRows(s.entries) ==> out.0.Ok? && NoDuplicateRows(out.1.entries)
    ensures Integrity(out.1)
  {
    WriteSlotsSpec(s.cards, s.entries, r.deckId, r.slots);
    var (written, entries) := WriteSlots(s.cards, s.entries, r.deckId, r.slots);
    var deck := StoredDeck(s, r);
    ExtendIntegrity(s, deck, entries, r.slots);
    (written, Store(s.cards, s.decks[r.deckId := deck], entries))
  }

  /** Storing a deck row with valid dates and appending rows for it from its
      slots keeps the schema's integrity. */
  lemma ExtendIntegrity(s: Store, d: DeckList, entries: seq<DeckCard>, slots: seq<(string, int)>)
    requires Integrity(s) && Valid(d.creationDate) && Valid(d.updateDate)
    requires |entries| >= |s.entries| && entries[..|s.entries|] == s.entries
    requires forall i :: |s.entries| <= i < |entries| ==> FromSlots(s.cards, d.deckId, slots, entries[i])
    ensures Integrity(Store(s.cards, s.decks[d.deckId := d], entries))
  {
    var decks := s.decks[d.deckId := d];
    forall i | 0 <= i < |entries|
      ensures entries[i].deck in decks && entries[i].card in s.cards
    {
      if i < |s.entries| {
        assert entries[i] == s.entries[i];
      }
    }
  }

  /** The derived attributes a save recomputes: the tags column, the player
      count from the stored name and description, and the counters from the
      memoised page metadata. A failing metadata fetch yields its error. */
  function Refresh(deck: DeckList, r: DecklistResponse, sim: Similarity, cache: MetadataCache, page: Response<Page>)
    : (out: (Result<DeckList>, MetadataCache))
    ensures out.0.Err? <==> CachedMetadata(cache, r.deckId, page).0.Err?
    ensures out.1 == CachedMetadata(cache, r.deckId, page).1
    ensures out.0.Ok? ==>
              var d := out.0.value;
              var m := CachedMetadata(cache, r.deckId, page).0.value;
              && d.(tags := deck.tags, playerCount := deck.playerCount, likes := deck.likes,
                    favorites := deck.favorites, comments := deck.comments) == deck
              && d.tags == SplitTags(r.tags)
              && d.playerCount.Some? && d.playerCount.value != Multiplayer
              && DeterminePlayerCount(sim, deck.deckName, Some(deck.description), d.tags) == Ok(d.playerCount.value)
              && d.likes == Some(m.likes) && d.favorites == Some(m.favorites) && d.comments == Some(m.comments)
  {
    var tags := SplitTags(r.tags);
    var count := DeterminePlayerCount(sim, deck.deckName, Some(deck.description), tags);
    var (meta, cache') := CachedMetadata(cache, r.deckId, page);
    match meta
    case Err(e) => (Err(e), cache')
    case Ok(m) =>
      (Ok(deck.(tags := tags, playerCount := Some(count.value), comments := Some(m.comments),
                favorites := Some(m.favorites), likes := Some(m.likes))), cache')
  }

  /** `save_decklist_info`. The deck row is created from the dumped fields
      only if its id is new; the slot rows follow; then the derived
      attributes are recomputed and written back. A raising slot lookup or
      metadata fetch leaves the deck row and the rows written so far in
      place, without the derived attributes. Whatever the outcome:
      - the card table is untouched and no other deck changes;
      - an existing deck keeps its persisted fields, a new one takes the
        dumped fields;
      - earlier rows stay, new rows come from slots with stored cards, and
        no duplicate row appears;
      - the schema's integrity survives. */
  function SaveDecklist(s: Store, cache: MetadataCache, sim: Similarity, r: DecklistResponse, page: Response<Page>)
    : (out: (Result<()>, Store, MetadataCache))
    requires Integrity(s) && Storable(Dump(r))
    ensures Integrity(out.1)
    ensures out.1.cards == s.cards
    ensures out.1.decks.Keys == s.decks.Keys + {r.deckId}
    ensures forall k :: k in s.decks && k != r.deckId ==> out.1.decks[k] == s.decks[k]
    ensures Persisted(out.1.decks[r.deckId]) == Persisted(StoredDeck(s, r))
    ensures out.1.entries == WriteSlots(s.cards, s.entries, r.deckId, r.slots).1
  {
    var (written, created) := Created(s, r);
    if written.Err? then (Err(written.error), created, cache)
    else
      var deck := StoredDeck(s, r);
      var (refreshed, cache') := Refresh(deck, r, sim, cache, page);
      match refreshed
      case Err(e) => (Err(e), created, cache')
      case Ok(d) =>
        ReplaceDeck(created, d);
        (Ok(()), created.(decks := created.decks[r.deckId := d]), cache')
  }

  /** How a save ends: it succeeds exactly when the slot loop and the
      metadata fetch both do; a raising slot lookup comes first and skips
      the fetch; and a failed save leaves the deck row as `get_or_create`
      made it, without the derived attributes. */
  lemma SaveDecklistOutcome(s: Store, cache: MetadataCache, sim: Similarity, r: DecklistResponse, page: Response<Page>)
    requires Integrity(s) && Storable(Dump(r))
    ensures var out := SaveDecklist(s, cache, sim, r, page);
            var written := WriteSlots(s.cards, s.entries, r.deckId, r.slots).0;
            var meta := CachedMetadata(cache, r.deckId, page);
            && (out.0.Ok? <==> written.Ok? && meta.0.Ok?)
            && (written.Err? ==> out.0 == written && out.2 == cache)
            && (written.Ok? ==> out.2 == meta.1)
            && (written.Ok? && meta.0.Err? ==> out.0 == Err(meta.0.error))
            && (out.0.Err? ==> out.1.decks[r.deckId] == StoredDeck(s, r))
  {
    var (written, created) := Created(s, r);
    assert written == WriteSlots(s.cards, s.entries, r.deckId, r.slots).0;
    if written.Ok? {
      var deck := StoredDeck(s, r);
      assert Refresh(deck, r, sim, cache, page).0.Err? <==> CachedMetadata(cache, r.deckId, page).0.Err?;
    }
  }

  /** Overwriting a stored deck's row with one of the same id and valid
      dates keeps the schema's integrity. */
  lemma ReplaceDeck(s: Store, d: DeckList)
    requires Integrity(s) && d.deckId in s.decks && Valid(d.creationDate) && Valid(d.updateDate)
    ensures Integrity(s.(decks := s.decks[d.deckId := d]))
  {
  }

  /** A successful save overwrites the derived attributes: the tags from the
      upstream string, the player count determined from the stored row's
      name and description and the new tags (never MULTIPLAYER), and the
      three counters of the memoised metadata. */
  lemma SaveDecklistDerived(s: Store, cache: MetadataCache, sim: Similarity, r: DecklistResponse, page: Response<Page>)
    requires Integrity(s) && Storable(Dump(r))
    requires SaveDecklist(s, cache, sim, r, page).0.Ok?
    ensures var d := SaveDecklist(s, cache, sim, r, page).1.decks[r.deckId];
            var m := CachedMetadata(cache, r.deckId, page).0;
            var stored := StoredDeck(s, r);
            && m.Ok?
            && d.tags == SplitTags(r.tags)
            && d.playerCount.Some? && d.playerCount.value != Multiplayer
            && DeterminePlayerCount(sim, stored.deckName, Some(stored.description), d.tags) == Ok(d.playerCount.value)
            && d.likes == Some(m.value.likes) && d.favorites == Some(m.value.favorites)
            && d.comments == Some(m.value.comments)
  {
    var deck := StoredDeck(s, r);
    assert Refresh(deck, r, sim, cache, page).0.Ok?;
  }

  /** Saving the same decklist again adds no rows: with all its slot rows
      present and no duplicates, each lookup finds exactly its row. */
  lemma ResaveAddsNoRows(s: Store, cache: MetadataCache, sim: Similarity, r: DecklistResponse,
                         page1: Response<Page>, page2: Response<Page>)
    requires Integrity(s) && Storable(Dump(r)) && NoDuplicateRows(s.entries)
    ensures var (res1, s1, c1) := SaveDecklist(s, cache, sim, r, page1);
            var (res2, s2, c2) := SaveDecklist(s1, c1, sim, r, page2);
            s2.entries == s1.entries
  {
    var s1 := SaveDecklist(s, cache, sim, r, page1).1;
    WriteSlotsSpec(s.cards, s.entries, r.deckId, r.slots);
    WriteSlotsComplete(s.cards, s.entries, r.deckId, r.slots);
    WriteSlotsPresent(s1.cards, s1.entries, r.deckId, r.slots);
  }

  /** Because the quantity is part of the lookup, a slot whose quantity
      differs from the stored row adds a second row for the same deck and
      card, and the old row stays. */
  lemma ChangedQuantityAddsRow(s: Store, cache: MetadataCache, sim: Similarity, r: DecklistResponse,
                               page: Response<Page>, k: int, stored: int)
    requires Integrity(s) && Storable(Dump(r)) && NoDuplicateRows(s.entries)
    requires 0 <= k < |r.slots| && r.slots[k].0 in s.cards && r.slots[k].1 != stored
    requires DeckCard(r.deckId, r.slots[k].0, stored) in s.entries
    ensures var after := SaveDecklist(s, cache, sim, r, page).1;
            && DeckCard(r.deckId, r.slots[k].0, stored) in after.entries
            && DeckCard(r.deckId, r.slots[k].0, r.slots[k].1) in after.entries
  {
    WriteSlotsSpec(s.cards, s.entries, r.deckId, r.slots);
    WriteSlotsComplete(s.cards, s.entries, r.deckId, r.slots);
    var after := SaveDecklist(s, cache, sim, r, page).1;
    assert DeckCard(r.deckId, r.slots[k].0, stored) in after.entries[..|s.entries|];
  }

  /** `fetch_decklist`: one decklist by id, then saved. */
  function FetchDecklist(s: Store, cache: MetadataCache, sim: Similarity, response: Response<Json>, page: Response<Page>)
    : (out: (Result<()>, Store, MetadataCache))
    requires Integrity(s)
    ensures ById(response).Err? ==> out == (Err(ById(response).error), s, cache)
    ensures ById(response).Ok? ==> Storable(Dump(ById(response).value))
                                   && out == SaveDecklist(s, cache, sim, ById(response).value, page)
  {
    match ById(response)
    case Err(e) => (Err(e), s, cache)
    case Ok(r) =>
      TruncatedDatesStorable(r, AsRecord(response.body.value.members));
      SaveDecklist(s, cache, sim, r, page)
  }

  /** A validated decklist's dates are ones a `DateField` stores. */
  lemma TruncatedDatesStorable(r: DecklistResponse, raw: Record)
    requires ParseDecklist(raw) == Ok(r)
    ensures Storable(Dump(r))
  {
  }

  /** Every decklist a by-date fetch returns can be saved. */
  lemma FetchedStorable(response: Response<Json>)
    requires ByDate(response).Ok?
    ensures forall i :: 0 <= i < |ByDate(response).value| ==> Storable(Dump(ByDate(response).value[i]))
  {
    var v := ByDate(response).value;
    forall i | 0 <= i < |v|
      ensures Storable(Dump(v[i]))
    {
      assert ParseItem(response.body.value.items[i]) == Ok(v[i]);
      ParseItemSpec(response.body.value.items[i]);
      TruncatedDatesStorable(v[i], AsRecord(response.body.value.items[i].members));
    }
  }

  /** The deck ids of a day's decklists. */
  function DeckIds(decks: seq<DecklistResponse>): set<int> {
    set d | d in decks :: d.deckId
  }

  /** The inner loop over one day's decklists; the first failing save ends
      it, keeping what earlier saves wrote. */
  function SaveAll(s: Store, cache: MetadataCache, sim: Similarity, decks: seq<DecklistResponse>,
                   pages: int -> Response<Page>): (out: (Result<()>, Store, MetadataCache))
    requires Integrity(s)
    requires forall i :: 0 <= i < |decks| ==> Storable(Dump(decks[i]))
    ensures Integrity(out.1) && out.1.cards == s.cards
    ensures s.decks.Keys <= out.1.decks.Keys
    ensures out.0.Ok? ==> DeckIds(decks) <= out.1.decks.Keys
    decreases |decks|
  {
    if decks == [] then (Ok(()), s, cache)
    else
      var (res, s1, c1) := SaveDecklist(s, cache, sim, decks[0], pages(decks[0].deckId));
      if res.Err? then (res, s1, c1)
      else
        var rest := decks[1..];
        assert forall i :: 0 <= i < |rest| ==> rest[i] == decks[i + 1];
        SaveAll(s1, c1, sim, rest, pages)
  }

  /** Store `t` keeps everything of `s`: the same card table, every row of
      `s` still in place at the front, and every stored deck still stored
      with the same persisted fields. */
  predicate Extends(s: Store, t: Store)
    requires Integrity(s) && Integrity(t)
  {
    && t.cards == s.cards
    && |s.entries| <= |t.entries| && t.entries[..|s.entries|] == s.entries
    && s.decks.Keys <= t.decks.Keys
    && forall id :: id in s.decks ==> Persisted(t.decks[id]) == Persisted(s.decks[id])
  }

  lemma ExtendsTransitive(a: Store, b: Store, c: Store)
    requires Integrity(a) && Integrity(b) && Integrity(c)
    requires Extends(a, b) && Extends(b, c)
    ensures Extends(a, c)
  {
    assert c.entries[..|a.entries|] == c.entries[..|b.entries|][..|a.entries|];
  }

  /** Decklist `r` is stored in `t`: its deck row exists, and every slot whose
      card is stored has its deck-card row. */
  predicate DeckSaved(t: Store, r: DecklistResponse) {
    && r.deckId in t.decks
    && forall k :: 0 <= k < |r.slots| && r.slots[k].0 in t.cards ==>
         DeckCard(r.deckId, r.slots[k].0, r.slots[k].1) in t.entries
  }

  /** A saved decklist stays saved in any store that keeps everything. */
  lemma DeckSavedKept(s: Store, t: Store, r: DecklistResponse)
    requires Integrity(s) && Integrity(t) && Extends(s, t) && DeckSaved(s, r)
    ensures DeckSaved(t, r)
  {
    forall k | 0 <= k < |r.slots| && r.slots[k].0 in t.cards
      ensures DeckCard(r.deckId, r.slots[k].0, r.slots[k].1) in t.entries
    {
      assert DeckCard(r.deckId, r.slots[k].0, r.slots[k].1) in t.entries[..|s.entries|];
    }
  }

  /** What a run of saves over `decks` leaves of `s` in `t`: everything is
      kept, a deck not among `decks` is exactly as it was, and when the run
      succeeded (`ok`) every decklist of `decks` is saved. */
  predicate DayKept(s: Store, t: Store, decks: seq<DecklistResponse>, ok: bool)
    requires Integrity(s) && Integrity(t)
  {
    && Extends(s, t)
    && (forall id :: id in s.decks && id !in DeckIds(decks) ==> t.decks[id] == s.decks[id])
    && (ok ==> forall x :: x in decks ==> DeckSaved(t, x))
  }

  lemma DayKeptUnchanged(s: Store, decks: seq<DecklistResponse>)
    requires Integrity(s)
    ensures DayKept(s, s, decks, false)
  {
    assert s.entries[..|s.entries|] == s.entries;
  }

  lemma DeckIdsCons(decks: seq<DecklistResponse>)
    requires decks != []
    ensures DeckIds(decks) == DeckIds([decks[0]]) + DeckIds(decks[1..])
  {
    assert decks == [decks[0]] + decks[1..];
  }

  /** The first save followed by the saves of the rest keep what the whole
      run keeps. */
  lemma DayKeptCons(s: Store, s1: Store, t: Store, decks: seq<DecklistResponse>, ok1: bool, ok2: bool)
    requires Integrity(s) && Integrity(s1) && Integrity(t) && decks != []
    requires DayKept(s, s1, [decks[0]], ok1) && DayKept(s1, t, decks[1..], ok2)
    ensures DayKept(s, t, decks, ok1 && ok2)
  {
    ExtendsTransitive(s, s1, t);
    DeckIdsCons(decks);
    if ok1 && ok2 {
      assert decks[0] in [decks[0]];
      DeckSavedKept(s1, t, decks[0]);
      assert decks == [decks[0]] + decks[1..];
    }
  }

  /** One save keeps everything already stored and changes no other deck,
      and a successful one leaves the decklist saved with a row for each
      stored slot. */
  lemma SaveDecklistExtends(s: Store, cache: MetadataCache, sim: Similarity, r: DecklistResponse, page: Response<Page>)
    requires Integrity(s) && Storable(Dump(r))
    ensures var out := SaveDecklist(s, cache, sim, r, page);
            DayKept(s, out.1, [r], out.0.Ok?)
  {
    var out := SaveDecklist(s, cache, sim, r, page);
    SaveDecklistOutcome(s, cache, sim, r, page);
    SavedRowsKept(s, r, out.1, out.0.Ok?);
  }

  /** The store a save leaves, described by its contract alone, keeps what
      `SaveDecklistExtends` says. */
  lemma SavedRowsKept(s: Store, r: DecklistResponse, t: Store, ok: bool)
    requires Integrity(s) && Integrity(t) && Storable(Dump(r))
    requires t.cards == s.cards && t.decks.Keys == s.decks.Keys + {r.deckId}
    requires forall k :: k in s.decks && k != r.deckId ==> t.decks[k] == s.decks[k]
    requires Persisted(t.decks[r.deckId]) == Persisted(StoredDeck(s, r))
    requires t.entries == WriteSlots(s.cards, s.entries, r.deckId, r.slots).1
    requires ok ==> WriteSlots(s.cards, s.entries, r.deckId, r.slots).0.Ok?
    ensures DayKept(s, t, [r], ok)
  {
    SavedFieldsKept(s, r, t);
    if ok {
      SavedSlots(s, r, t);
    }
    assert DeckIds([r]) == {r.deckId};
  }

  lemma SavedFieldsKept(s: Store, r: DecklistResponse, t: Store)
    requires Integrity(s) && Integrity(t) && Storable(Dump(r))
    requires t.cards == s.cards && t.decks.Keys == s.decks.Keys + {r.deckId}
    requires forall k :: k in s.decks && k != r.deckId ==> t.decks[k] == s.decks[k]
    requires Persisted(t.decks[r.deckId]) == Persisted(StoredDeck(s, r))
    requires t.entries == WriteSlots(s.cards, s.entries, r.deckId, r.slots).1
    ensures Extends(s, t)
  {
    WriteSlotsSpec(s.cards, s.entries, r.deckId, r.slots);
    forall id | id in s.decks
      ensures Persisted(t.decks[id]) == Persisted(s.decks[id])
    {
      if id == r.deckId {
        assert Persisted(StoredDeck(s, r)) == Persisted(s.decks[id]);
      }
    }
  }

  lemma SavedSlots(s: Store, r: DecklistResponse, t: Store)
    requires t.cards == s.cards && r.deckId in t.decks
    requires t.entries == WriteSlots(s.cards, s.entries, r.deckId, r.slots).1
    requires WriteSlots(s.cards, s.entries, r.deckId, r.slots).0.Ok?
    ensures DeckSaved(t, r)
  {
    WriteSlotsComplete(s.cards, s.entries, r.deckId, r.slots);
  }

  /** A day's saves keep everything already stored and leave every deck not
      of that day exactly as it was; when they all succeed, every decklist
      of the day is saved with a row for each stored slot. */
  lemma {:induction false} SaveAllExtends(s: Store, cache: MetadataCache, sim: Similarity,
                                          decks: seq<DecklistResponse>, pages: int -> Response<Page>)
    requires Integrity(s)
    requires forall i :: 0 <= i < |decks| ==> Storable(Dump(decks[i]))
    ensures var out := SaveAll(s, cache, sim, decks, pages);
            DayKept(s, out.1, decks, out.0.Ok?)
    decreases |decks|
  {
    if decks == [] {
      DayKeptUnchanged(s, decks);
      assert s.entries[..|s.entries|] == s.entries;
    } else {
      SaveAllCons(s, cache, sim, decks, pages);
      SaveDecklistExtends(s, cache, sim, decks[0], pages(decks[0].deckId));
      var (res, s1, c1) := SaveDecklist(s, cache, sim, decks[0], pages(decks[0].deckId));
      if res.Ok? {
        SaveAllExtends(s1, c1, sim, decks[1..], pages);
        var out := SaveAll(s1, c1, sim, decks[1..], pages);
        DayKeptCons(s, s1, out.1, decks, true, out.0.Ok?);
      } else {
        DayKeptUnchanged(s1, decks[1..]);
        DayKeptCons(s, s1, s1, decks, false, false);
      }
    }
  }

  /** Whether the page counters of deck `id` can be had: memoised, or a
      page that scrapes. */
  predicate MetadataAvailable(cache: MetadataCache, pages: int -> Response<Page>, id: int) {
    id in cache || Scrape(pages(id)).Ok?
  }

  /** The error a failed save of `decks` can end with: a duplicated slot
      row's lookup, or the scrape of a deck whose counters cannot be had. */
  predicate SaveFailure(e: Error, cache: MetadataCache, pages: int -> Response<Page>, decks: seq<DecklistResponse>) {
    || e == Raised(MultipleObjectsReturned)
    || exists i :: 0 <= i < |decks| && !MetadataAvailable(cache, pages, decks[i].deckId) &&
                   e == Scrape(pages(decks[i].deckId)).error
  }

  /** One save, seen from the loop: its memo never changes which counters
      can be had; a failure is a duplicated row's lookup or the failing
      scrape of this deck; and from a store without duplicate rows it
      succeeds exactly when this deck's counters can be had, adding no
      duplicate row. */
  lemma SaveDecklistStep(s: Store, cache: MetadataCache, sim: Similarity, r: DecklistResponse,
                         pages: int -> Response<Page>)
    requires Integrity(s) && Storable(Dump(r))
    ensures var out := SaveDecklist(s, cache, sim, r, pages(r.deckId));
            && SameAvailability(out.2, cache, pages)
            && (out.0.Err? ==> out.0.error == Raised(MultipleObjectsReturned) ||
                                (!MetadataAvailable(cache, pages, r.deckId) &&
                                 out.0.error == Scrape(pages(r.deckId)).error))
            && (NoDuplicateRows(s.entries) ==>
                  NoDuplicateRows(out.1.entries) && (out.0.Ok? <==> MetadataAvailable(cache, pages, r.deckId)))
  {
    SaveDecklistOutcome(s, cache, sim, r, pages(r.deckId));
    WriteSlotsSpec(s.cards, s.entries, r.deckId, r.slots);
    var out := SaveDecklist(s, cache, sim, r, pages(r.deckId));
    forall id
      ensures MetadataAvailable(out.2, pages, id) <==> MetadataAvailable(cache, pages, id)
    {
    }
  }

  /** The inner loop with one decklist peeled off. */
  lemma SaveAllCons(s: Store, cache: MetadataCache, sim: Similarity, decks: seq<DecklistResponse>,
                    pages: int -> Response<Page>)
    requires Integrity(s) && decks != []
    requires forall i :: 0 <= i < |decks| ==> Storable(Dump(decks[i]))
    ensures forall i :: 0 <= i < |decks[1..]| ==> Storable(Dump(decks[1..][i]))
    ensures var (res, s1, c1) := SaveDecklist(s, cache, sim, decks[0], pages(decks[0].deckId));
            SaveAll(s, cache, sim, decks, pages) == if res.Err? then (res, s1, c1) else SaveAll(s1, c1, sim, decks[1..], pages)
  {
    assert forall i :: 0 <= i < |decks[1..]| ==> decks[1..][i] == decks[i + 1];
  }

  /** The inner loop's memo never changes which counters can be had. */
  lemma {:induction false} SaveAllAvailable(s: Store, cache: MetadataCache, sim: Similarity, decks: seq<DecklistResponse>,
                                            pages: int -> Response<Page>)
    requires Integrity(s)
    requires forall i :: 0 <= i < |decks| ==> Storable(Dump(decks[i]))
    ensures SameAvailability(SaveAll(s, cache, sim, decks, pages).2, cache, pages)
    decreases |decks|
  {
    if decks != [] {
      SaveDecklistStep(s, cache, sim, decks[0], pages);
      SaveAllCons(s, cache, sim, decks, pages);
      var (res, s1, c1) := SaveDecklist(s, cache, sim, decks[0], pages(decks[0].deckId));
      if res.Ok? {
        SaveAllAvailable(s1, c1, sim, decks[1..], pages);
      }
    }
  }

  /** A failure after a first successful save that kept the available
      counters is a failure of the whole list. */
  lemma SaveFailureCons(e: Error, cache: MetadataCache, c1: MetadataCache, pages: int -> Response<Page>,
                        decks: seq<DecklistResponse>)
    requires decks != []
    requires SameAvailability(c1, cache, pages)
    requires SaveFailure(e, c1, pages, decks[1..])
    ensures SaveFailure(e, cache, pages, decks)
  {
    if e != Raised(MultipleObjectsReturned) {
      var i :| 0 <= i < |decks[1..]| && !MetadataAvailable(c1, pages, decks[1..][i].deckId) &&
               e == Scrape(pages(decks[1..][i].deckId)).error;
      assert decks[i + 1] == decks[1..][i];
    }
  }

  /** Any failure of the inner loop is a duplicated row's lookup or the
      failing scrape of one of its decks whose counters cannot be had. */
  lemma {:induction false} SaveAllFailure(s: Store, cache: MetadataCache, sim: Similarity, decks: seq<DecklistResponse>,
                                          pages: int -> Response<Page>)
    requires Integrity(s)
    requires forall i :: 0 <= i < |decks| ==> Storable(Dump(decks[i]))
    ensures SaveAll(s, cache, sim, decks, pages).0.Err? ==>
              SaveFailure(SaveAll(s, cache, sim, decks, pages).0.error, cache, pages, decks)
    decreases |decks|
  {
    if decks != [] {
      SaveDecklistStep(s, cache, sim, decks[0], pages);
      SaveAllCons(s, cache, sim, decks, pages);
      var (res, s1, c1) := SaveDecklist(s, cache, sim, decks[0], pages(decks[0].deckId));
      if res.Ok? {
        SaveAllFailure(s1, c1, sim, decks[1..], pages);
        var out := SaveAll(s1, c1, sim, decks[1..], pages);
        if out.0.Err? {
          SaveFailureCons(out.0.error, cache, c1, pages, decks);
        }
      } else if res.error != Raised(MultipleObjectsReturned) {
        assert !MetadataAvailable(cache, pages, decks[0].deckId);
      }
    }
  }

  /** Deck `i` is the first of `decks` whose counters cannot be had. */
  predicate FirstUnavailable(cache: MetadataCache, pages: int -> Response<Page>, decks: seq<DecklistResponse>, i: int) {
    && 0 <= i < |decks|
    && !MetadataAvailable(cache, pages, decks[i].deckId)
    && forall j :: 0 <= j < i ==> MetadataAvailable(cache, pages, decks[j].deckId)
  }

  /** `r` is the scrape error of the first deck of `decks` whose counters
      cannot be had. */
  ghost predicate FailsAtFirstUnavailable(r: Result<()>, cache: MetadataCache, pages: int -> Response<Page>,
                                    decks: seq<DecklistResponse>) {
    exists i :: FirstUnavailable(cache, pages, decks, i) && r == Err(Scrape(pages(decks[i].deckId)).error)
  }

  /** Two memos under which the same counters can be had. */
  ghost predicate SameAvailability(c1: MetadataCache, c2: MetadataCache, pages: int -> Response<Page>) {
    forall id :: MetadataAvailable(c1, pages, id) <==> MetadataAvailable(c2, pages, id)
  }

  /** What a save's outcome says about the counters depends on the memo only
      through which counters it makes available. */
  lemma AvailabilityTransfer(c1: MetadataCache, c2: MetadataCache, pages: int -> Response<Page>,
                             decks: seq<DecklistResponse>, r: Result<()>)
    requires SameAvailability(c1, c2, pages)
    ensures AllAvailable(c1, pages, decks) <==> AllAvailable(c2, pages, decks)
    ensures r.Err? ==> (SaveFailure(r.error, c1, pages, decks) <==> SaveFailure(r.error, c2, pages, decks))
    ensures FailsAtFirstUnavailable(r, c1, pages, decks) <==> FailsAtFirstUnavailable(r, c2, pages, decks)
  {
    if FailsAtFirstUnavailable(r, c1, pages, decks) {
      var i :| FirstUnavailable(c1, pages, decks, i) && r == Err(Scrape(pages(decks[i].deckId)).error);
      assert FirstUnavailable(c2, pages, decks, i);
    }
    if FailsAtFirstUnavailable(r, c2, pages, decks) {
      var i :| FirstUnavailable(c2, pages, decks, i) && r == Err(Scrape(pages(decks[i].deckId)).error);
      assert FirstUnavailable(c1, pages, decks, i);
    }
  }

  /** Every deck of the list has counters to be had. */
  predicate AllAvailable(cache: MetadataCache, pages: int -> Response<Page>, decks: seq<DecklistResponse>) {
    forall i :: 0 <= i < |decks| ==> MetadataAvailable(cache, pages, decks[i].deckId)
  }

  /** The outcome of the tail after a first successful save is the outcome
      of the whole list. */
  lemma OutcomeCons(cache: MetadataCache, c1: MetadataCache, pages: int -> Response<Page>,
                    decks: seq<DecklistResponse>, out: Result<()>)
    requires decks != [] && MetadataAvailable(cache, pages, decks[0].deckId)
    requires SameAvailability(c1, cache, pages)
    requires out.Ok? <==> AllAvailable(c1, pages, decks[1..])
    requires out.Err? ==> FailsAtFirstUnavailable(out, c1, pages, decks[1..])
    ensures out.Ok? <==> AllAvailable(cache, pages, decks)
    ensures out.Err? ==> FailsAtFirstUnavailable(out, cache, pages, decks)
  {
    var rest := decks[1..];
    assert forall i :: 0 <= i < |rest| ==> rest[i] == decks[i + 1];
    if out.Err? {
      var i :| FirstUnavailable(c1, pages, rest, i) && out == Err(Scrape(pages(rest[i].deckId)).error);
      assert FirstUnavailable(cache, pages, decks, i + 1);
    } else {
      forall i | 0 <= i < |decks|
        ensures MetadataAvailable(cache, pages, decks[i].deckId)
      {
        if i > 0 {
          assert MetadataAvailable(c1, pages, rest[i - 1].deckId);
        }
      }
    }
  }

  /** From a store without duplicate rows no lookup fails: the inner loop
      adds no duplicate row, succeeds exactly when every deck's counters can
      be had, and otherwise fails with the scrape error of the first deck
      whose counters cannot. */
  lemma {:induction false} SaveAllOutcome(s: Store, cache: MetadataCache, sim: Similarity, decks: seq<DecklistResponse>,
                                          pages: int -> Response<Page>)
    requires Integrity(s) && NoDuplicateRows(s.entries)
    requires forall i :: 0 <= i < |decks| ==> Storable(Dump(decks[i]))
    ensures var out := SaveAll(s, cache, sim, decks, pages);
            && NoDuplicateRows(out.1.entries)
            && (out.0.Ok? <==> AllAvailable(cache, pages, decks))
            && (out.0.Err? ==> FailsAtFirstUnavailable(out.0, cache, pages, decks))
    decreases |decks|
  {
    if decks != [] {
      SaveDecklistStep(s, cache, sim, decks[0], pages);
      SaveAllCons(s, cache, sim, decks, pages);
      var (res, s1, c1) := SaveDecklist(s, cache, sim, decks[0], pages(decks[0].deckId));
      if res.Ok? {
        SaveAllOutcome(s1, c1, sim, decks[1..], pages);
        OutcomeCons(cache, c1, pages, decks, SaveAll(s1, c1, sim, decks[1..], pages).0);
      } else {
        assert FirstUnavailable(cache, pages, decks, 0);
      }
    }
  }

  /** The stored deck with the latest creation date, as
      `order_by("arkhamdb_creation_date").last()` finds it. */
  method LatestCreation(decks: map<int, DeckList>) returns (latest: Date)
    requires decks != map[]
    ensures exists id :: id in decks && decks[id].creationDate == latest
    ensures forall id :: id in decks ==> !Before(latest, decks[id].creationDate)
  {
    ghost var some := Member(decks.Keys);
    var first :| first in decks.Keys;
    latest := decks[first].creationDate;
    var rest := decks.Keys - {first};
    while rest != {}
      invariant rest <= decks.Keys
      invariant exists id :: id in decks && decks[id].creationDate == latest
      invariant forall id :: id in decks && id !in rest ==> !Before(latest, decks[id].creationDate)
      decreases |rest|
    {
      ghost var next := Member(rest);
      var id :| id in rest;
      if Before(latest, decks[id].creationDate) {
        latest := decks[id].creationDate;
      }
      rest := rest - {id};
    }
  }

  /** The days `from`, `from + 1`, ..., up to but excluding `until`. */
  function Days(from: int, until: int): (r: seq<int>)
    ensures |r| == (if until > from then until - from else 0)
    ensures forall i :: 0 <= i < |r| ==> r[i] == from + i
  {
    seq(if until > from then until - from else 0, i => from + i)
  }

  /** Visiting one more day extends the visited days by that day, and the
      days visited so far are a prefix of all the days to visit. */
  lemma DaysStep(from: int, day: int, today: int)
    requires from <= day < today
    ensures Days(from, day + 1) == Days(from, day) + [day]
    ensures Days(from, day + 1) == Days(from, today)[..day + 1 - from]
  {
  }

  /** What the first day to fetch is: `firstDay` on an empty deck table,
      otherwise the day after the latest creation date, which cannot be
      stepped past 9999-12-31. */
  predicate IsStartDay(decks: map<int, DeckList>, firstDay: int, r: Result<int>)
    requires forall id :: id in decks ==> Valid(decks[id].creationDate)
  {
    && (decks == map[] ==> r == Ok(firstDay))
    && (decks != map[] && r.Ok? ==>
          && (exists id :: id in decks && Ordinal(decks[id].creationDate) + 1 == r.value)
          && (forall id :: id in decks ==> Ordinal(decks[id].creationDate) < r.value))
    && (r.Err? <==> (exists id :: id in decks && decks[id].creationDate == Date(MaxYear, 12, 31)))
    && (r.Err? ==> r.error == Raised(OverflowError))
  }

  /** The first day the walk fetches. */
  method StartDay(decks: map<int, DeckList>, firstDay: int) returns (r: Result<int>)
    requires forall id :: id in decks ==> Valid(decks[id].creationDate)
    ensures IsStartDay(decks, firstDay, r)
  {
    if decks == map[] {
      return Ok(firstDay);
    }
    var latest := LatestCreation(decks);
    LastOrdinalBound(latest);
    forall id | id in decks
      ensures Ordinal(decks[id].creationDate) <= Ordinal(latest)
      ensures decks[id].creationDate == Date(MaxYear, 12, 31) ==> latest == Date(MaxYear, 12, 31)
    {
      OrdinalOrder(latest, decks[id].creationDate);
      LastOrdinalBound(decks[id].creationDate);
    }
    if Ordinal(latest) == LastOrdinal {
      return Err(Raised(OverflowError));
    }
    r := Ok(Ordinal(latest) + 1);
  }

  /** One day of the walk: fetch that day's decklists and save each. */
  method SyncDay(s: Store, cache: MetadataCache, sim: Similarity, response: Response<Json>,
                 pages: int -> Response<Page>)
    returns (r: Result<()>, after: Store, cacheAfter: MetadataCache)
    requires Integrity(s)
    ensures Integrity(after) && after.cards == s.cards && s.decks.Keys <= after.decks.Keys
    ensures ByDate(response).Err? ==> r == Err(ByDate(response).error) && after == s
    ensures Extends(s, after)
    ensures ByDate(response).Ok? ==>
              forall id :: id in s.decks && id !in DeckIds(ByDate(response).value) ==> after.decks[id] == s.decks[id]
    ensures r.Ok? ==> ByDate(response).Ok? && forall d :: d in ByDate(response).value ==> DeckSaved(after, d)
    ensures SameAvailability(cacheAfter, cache, pages)
    ensures r.Err? && ByDate(response).Ok? ==> SaveFailure(r.error, cache, pages, ByDate(response).value)
    ensures NoDuplicateRows(s.entries) ==> NoDuplicateRows(after.entries)
    ensures NoDuplicateRows(s.entries) && ByDate(response).Ok? ==>
              var decks := ByDate(response).value;
              && (r.Ok? <==> AllAvailable(cache, pages, decks))
              && (r.Err? ==> FailsAtFirstUnavailable(r, cache, pages, decks))
  {
    var fetched := ByDate(response);
    if fetched.Err? {
      return Err(fetched.error), s, cache;
    }
    FetchedStorable(response);
    var saved := SaveAll(s, cache, sim, fetched.value, pages);
    SaveAllAvailable(s, cache, sim, fetched.value, pages);
    SaveAllFailure(s, cache, sim, fetched.value, pages);
    SaveAllExtends(s, cache, sim, fetched.value, pages);
    if NoDuplicateRows(s.entries) {
      SaveAllOutcome(s, cache, sim, fetched.value, pages);
    }
    r, after, cacheAfter := saved.0, saved.1, saved.2;
  }

  /** Day `d`'s by-date fetch succeeded and every decklist it returned is
      saved in `t`: its deck row and a row for each slot with a stored card. */
  predicate DaySaved(byDate: int -> Response<Json>, d: int, t: Store) {
    ByDate(byDate(d)).Ok? && forall x :: x in ByDate(byDate(d)).value ==> DeckSaved(t, x)
  }

  /** A saved day stays saved in any store that keeps everything. */
  lemma DaySavedKept(byDate: int -> Response<Json>, d: int, s: Store, t: Store)
    requires Integrity(s) && Integrity(t) && Extends(s, t) && DaySaved(byDate, d, s)
    ensures DaySaved(byDate, d, t)
  {
    forall x | x in ByDate(byDate(d)).value
      ensures DeckSaved(t, x)
    {
      DeckSavedKept(s, t, x);
    }
  }

  /** What the walk from day `from` has kept and established on reaching
      day `day` with store `after` and memo `cacheAfter`: everything of `s`
      is kept, every day before `day` is saved, the memo makes the same
      counters available, and no duplicate row appeared. */
  ghost predicate Walked(s: Store, cache: MetadataCache, pages: int -> Response<Page>, byDate: int -> Response<Json>,
                         from: int, day: int, after: Store, cacheAfter: MetadataCache)
    requires Integrity(s)
  {
    && Integrity(after) && after.cards == s.cards && s.decks.Keys <= after.decks.Keys
    && Extends(s, after)
    && (forall d :: from <= d < day ==> DaySaved(byDate, d, after))
    && SameAvailability(cacheAfter, cache, pages)
    && (NoDuplicateRows(s.entries) ==> NoDuplicateRows(after.entries))
  }

  /** How day `day` failed: its by-date fetch's error, or a failure of saving
      its decks, which from a table without duplicates is the scrape error
      of the first deck whose counters cannot be had. */
  ghost predicate DayFailed(r: Result<()>, cache: MetadataCache, pages: int -> Response<Page>,
                            byDate: int -> Response<Json>, day: int, noDuplicates: bool)
  {
    && r.Err?
    && (ByDate(byDate(day)).Err? ==> r == Err(ByDate(byDate(day)).error))
    && (ByDate(byDate(day)).Ok? ==> SaveFailure(r.error, cache, pages, ByDate(byDate(day)).value))
    && (ByDate(byDate(day)).Ok? && noDuplicates ==> FailsAtFirstUnavailable(r, cache, pages, ByDate(byDate(day)).value))
  }

  /** One iteration of the walk: day `day` is synced. On success the day is
      saved as well; on failure the earlier days stay saved and the day's
      failure is classified; from a table without duplicates a day that
      fetches with every deck's counters available succeeds. */
  method WalkStep(s: Store, cache: MetadataCache, sim: Similarity, from: int, day: int,
                  byDate: int -> Response<Json>, pages: int -> Response<Page>, before: Store, memo: MetadataCache)
    returns (r: Result<()>, after: Store, cacheAfter: MetadataCache)
    requires Integrity(s) && from <= day
    requires Walked(s, cache, pages, byDate, from, day, before, memo)
    ensures r.Ok? ==> Walked(s, cache, pages, byDate, from, day + 1, after, cacheAfter)
    ensures r.Err? ==> Walked(s, cache, pages, byDate, from, day, after, cacheAfter)
    ensures r.Err? ==> DayFailed(r, cache, pages, byDate, day, NoDuplicateRows(s.entries))
    ensures NoDuplicateRows(s.entries) && ByDate(byDate(day)).Ok? && AllAvailable(cache, pages, ByDate(byDate(day)).value)
            ==> r.Ok?
  {
    r, after, cacheAfter := SyncDay(before, memo, sim, byDate(day), pages);
    ExtendsTransitive(s, before, after);
    forall d | from <= d < day
      ensures DaySaved(byDate, d, after)
    {
      DaySavedKept(byDate, d, before, after);
    }
    if ByDate(byDate(day)).Ok? {
      AvailabilityTransfer(memo, cache, pages, ByDate(byDate(day)).value, r);
    }
  }

  /** The walk of `fetch_latest_decklists` from day `from`: each day before
      `today` is visited once, in order. There is no per-day or per-deck
      isolation: the first failure ends the walk with what was saved so far
      kept.
      - on success every day was fetched and all its decks stored;
      - on failure every day before the last visited one was, and the last
        day's failure is its by-date fetch's error or a failure of saving
        its decks;
      - from a store without duplicate rows, a walk whose days all fetch
        and whose decks' counters can all be had succeeds, and a failed save
        is the scrape error of the first deck whose counters cannot. */
  method WalkDays(s: Store, cache: MetadataCache, sim: Similarity, from: int, today: int,
                  byDate: int -> Response<Json>, pages: int -> Response<Page>)
    returns (r: Result<()>, after: Store, cacheAfter: MetadataCache, visited: seq<int>)
    requires Integrity(s)
    ensures Integrity(after) && after.cards == s.cards && s.decks.Keys <= after.decks.Keys
    ensures Extends(s, after)
    ensures r.Ok? ==> visited == Days(from, today)
    ensures r.Err? ==> 0 < |visited| <= |Days(from, today)| && visited == Days(from, today)[..|visited|]
    ensures r.Ok? ==> forall d :: from <= d < today ==> DaySaved(byDate, d, after)
    ensures r.Err? ==>
              && (forall d :: from <= d < from + |visited| - 1 ==> DaySaved(byDate, d, after))
              && DayFailed(r, cache, pages, byDate, from + |visited| - 1, NoDuplicateRows(s.entries))
    ensures (&& NoDuplicateRows(s.entries)
             && forall d :: from <= d < today ==>
                              ByDate(byDate(d)).Ok? && AllAvailable(cache, pages, ByDate(byDate(d)).value))
            ==> r.Ok?
  {
    after := s;
    cacheAfter := cache;
    visited := [];
    var day := from;
    assert s.entries[..|s.entries|] == s.entries;
    while day < today
      invariant from <= day
      invariant day > from ==> day <= today
      invariant visited == Days(from, day)
      invariant Walked(s, cache, pages, byDate, from, day, after, cacheAfter)
      decreases today - day
    {
      DaysStep(from, day, today);
      visited := visited + [day];
      r, after, cacheAfter := WalkStep(s, cache, sim, from, day, byDate, pages, after, cacheAfter);
      if r.Err? {
        assert from + |visited| - 1 == day;
        return;
      }
      day := day + 1;
    }
    r := Ok(());
  }

  /** `fetch_latest_decklists` with day ordinals and `today` as a parameter:
      the start day, then the walk from it. */
  method FetchLatest(s: Store, cache: MetadataCache, sim: Similarity, firstDay: int, today: int,
                     byDate: int -> Response<Json>, pages: int -> Response<Page>)
    returns (r: Result<()>, after: Store, cacheAfter: MetadataCache, start: Result<int>, visited: seq<int>)
    requires Integrity(s)
    ensures IsStartDay(s.decks, firstDay, start)
    ensures Integrity(after) && after.cards == s.cards && s.decks.Keys <= after.decks.Keys
    ensures Extends(s, after)
    ensures start.Err? ==> r == Err(start.error) && visited == [] && after == s
    ensures start.Ok? && r.Ok? ==> visited == Days(start.value, today)
    ensures start.Ok? && r.Err? ==>
              0 < |visited| <= |Days(start.value, today)| && visited == Days(start.value, today)[..|visited|]
    ensures start.Ok? && r.Ok? ==> forall d :: start.value <= d < today ==> DaySaved(byDate, d, after)
    ensures start.Ok? && r.Err? ==>
              && (forall d :: start.value <= d < start.value + |visited| - 1 ==> DaySaved(byDate, d, after))
              && DayFailed(r, cache, pages, byDate, start.value + |visited| - 1, NoDuplicateRows(s.entries))
    ensures (&& start.Ok? && NoDuplicateRows(s.entries)
             && forall d :: start.value <= d < today ==>
                              ByDate(byDate(d)).Ok? && AllAvailable(cache, pages, ByDate(byDate(d)).value))
            ==> r.Ok?
  {
    start := StartDay(s.decks, firstDay);
    if start.Err? {
      assert s.entries[..|s.entries|] == s.entries;
      return Err(start.error), s, cache, start, [];
    }
    r, after, cacheAfter, visited := WalkDays(s, cache, sim, start.value, today, byDate, pages);
  }
}
