/** The deck tables of decks/models.py: `DeckList` keyed by `deck_id`, and
    `DeckCard` rows that point at a deck (deleted with it) and at a card
    (which they protect from deletion). */
module DeckModels {
  import opened Errors
  import opened Calendar
  import opened Constants
  import opened CardModels
  import opened DeckRecords

  datatype DeckList = DeckList(
    deckId: int,
    deckName: string,
    creationDate: Date,
    updateDate: Date,
    description: string,
    userId: int,
    investigatorCode: string,
    investigatorName: string,
    likes: Option<int>,
    favorites: Option<int>,
    comments: Option<int>,
    tags: seq<string>,
    playerCount: Option<PlayerCounts>)

  /** A `DeckCard` row: the deck's primary key, the card's primary key and
      the quantity. No uniqueness is declared on any of them. */
  datatype DeckCard = DeckCard(deck: int, card: string, quantity: int)

  /** The three tables. Entries keep their insertion order. */
  datatype Store = Store(cards: CardStore, decks: map<int, DeckList>, entries: seq<DeckCard>)

  /** What the schema guarantees: every deck sits under its own primary key
      with valid dates, and every entry's foreign keys resolve. */
  predicate Integrity(s: Store) {
    && (forall id :: id in s.decks ==> s.decks[id].deckId == id)
    && (forall id :: id in s.decks ==> Valid(s.decks[id].creationDate) && Valid(s.decks[id].updateDate))
    && (forall i :: 0 <= i < |s.entries| ==> s.entries[i].deck in s.decks && s.entries[i].card in s.cards)
  }

  /** Dumped fields whose dates a `DateField` accepts. */
  predicate Storable(fields: DeckFields) {
    ParseIsoDate(fields.creationDate).Some? && ParseIsoDate(fields.updateDate).Some?
  }

  /** The row `get_or_create(deck_id=..., defaults=fields)` inserts: the
      dumped fields, no tags, and null counters and player count. */
  function NewDeckList(fields: DeckFields): (d: DeckList)
    requires Storable(fields)
    ensures Valid(d.creationDate) && Valid(d.updateDate)
    ensures d.tags == [] && d.likes.None? && d.favorites.None? && d.comments.None? && d.playerCount.None?
  {
    DeckList(fields.deckId, fields.deckName, ParseIsoDate(fields.creationDate).value,
             ParseIsoDate(fields.updateDate).value, fields.description, fields.userId, fields.investigatorCode,
             fields.investigatorName, None, None, None, [], None)
  }

  /** The persisted fields of a stored deck, as `dict()` would dump them. */
  function Persisted(d: DeckList): DeckFields
    requires Valid(d.creationDate) && Valid(d.updateDate)
  {
    DeckFields(d.deckId, d.deckName, IsoFormat(d.creationDate), IsoFormat(d.updateDate), d.description,
               d.userId, d.investigatorCode, d.investigatorName)
  }

  /** A new row stores exactly the dumped fields: dumping it again gives them back. */
  lemma NewDeckListPersists(fields: DeckFields)
    requires Storable(fields)
    ensures Persisted(NewDeckList(fields)) == fields
  {
    IsoFormatOfParse(fields.creationDate);
    IsoFormatOfParse(fields.updateDate);
  }

  /** The entries not pointing at deck `id`, in order. */
  function EntriesNotOf(entries: seq<DeckCard>, id: int): (r: seq<DeckCard>)
    ensures forall e :: e in r <==> e in entries && e.deck != id
    ensures forall e :: multiset(r)[e] == if e.deck == id then 0 else multiset(entries)[e]
    ensures |r| <= |entries|
  {
    if entries == [] then []
    else
      var rest := EntriesNotOf(entries[1..], id);
      assert entries == [entries[0]] + entries[1..];
      (if entries[0].deck == id then [] else [entries[0]]) + rest
  }

  /** Whether any entry points at card `cardId`. */
  predicate Referenced(entries: seq<DeckCard>, cardId: string) {
    exists i :: 0 <= i < |entries| && entries[i].card == cardId
  }

  /** `DeckList.delete()`: the deck goes and `on_delete=CASCADE` takes every
      entry pointing at it; other rows stay. */
  function DeleteDeck(s: Store, id: int): (r: Store)
    ensures id !in r.decks && r.decks == s.decks - {id} && r.cards == s.cards
    ensures forall e :: e in r.entries <==> e in s.entries && e.deck != id
    ensures forall e :: multiset(r.entries)[e] == if e.deck == id then 0 else multiset(s.entries)[e]
  {
    Store(s.cards, s.decks - {id}, EntriesNotOf(s.entries, id))
  }

  /** `CardInfo.delete()`: `on_delete=PROTECT` refuses while an entry points
      at the card and then nothing changes. */
  function DeleteCard(s: Store, cardId: string): (r: Result<Store>)
    ensures r.Err? <==> Referenced(s.entries, cardId)
    ensures r.Err? ==> r.error == Raised(ProtectedError)
    ensures r.Ok? ==> r.value == s.(cards := s.cards - {cardId})
  {
    if Referenced(s.entries, cardId) then Err(Raised(ProtectedError)) else Ok(s.(cards := s.cards - {cardId}))
  }

  /** Both deletions leave a store whose foreign keys all resolve. */
  lemma DeletePreservesIntegrity(s: Store, id: int, cardId: string)
    requires Integrity(s)
    ensures Integrity(DeleteDeck(s, id))
    ensures DeleteCard(s, cardId).Ok? ==> Integrity(DeleteCard(s, cardId).value)
  {
    DeleteDeckPreservesIntegrity(s, id);
    if DeleteCard(s, cardId).Ok? {
      forall i | 0 <= i < |s.entries|
        ensures s.entries[i].card != cardId
      {
        assert !Referenced(s.entries, cardId);
      }
    }
  }

  lemma DeleteDeckPreservesIntegrity(s: Store, id: int)
    requires Integrity(s)
    ensures Integrity(DeleteDeck(s, id))
  {
    var kept := EntriesNotOf(s.entries, id);
    forall i | 0 <= i < |kept|
      ensures kept[i].deck in s.decks - {id} && kept[i].card in s.cards
    {
      assert kept[i] in kept;
      var j :| 0 <= j < |s.entries| && s.entries[j] == kept[i];
    }
  }

  /** Card rows are only ever added; adding cards keeps every reference valid. */
  lemma MoreCardsPreserveIntegrity(s: Store, cards: CardStore)
    requires Integrity(s) && s.cards.Keys <= cards.Keys
    ensures Integrity(s.(cards := cards))
  {
  }

  /** Nothing in the schema forbids two rows for one deck and card: a store
      holding the same pair at two quantities is well formed. */
  lemma DuplicatePairsAllowed(s: Store, id: int, cardId: string, q1: int, q2: int)
    requires Integrity(s) && id in s.decks && cardId in s.cards
    ensures var t := s.(entries := s.entries + [DeckCard(id, cardId, q1), DeckCard(id, cardId, q2)]);
            Integrity(t) && |t.entries| == |s.entries| + 2
  {
    var t := s.(entries := s.entries + [DeckCard(id, cardId, q1), DeckCard(id, cardId, q2)]);
    forall i | 0 <= i < |t.entries|
      ensures t.entries[i].deck in t.decks && t.entries[i].card in t.cards
    {
      if i < |s.entries| {
        assert t.entries[i] == s.entries[i];
      }
    }
  }
}
