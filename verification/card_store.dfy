/** The card endpoints of cards/api.py as transitions of the card table:
    `card_info` looks a card up and fetches it only when absent, and
    `fetch_cards` runs get-or-create over the whole upstream catalogue. Neither
    ever overwrites a stored row. */
module CardStore {
  import opened Errors
  import opened Json
  import opened Http
  import opened CardModels
  import opened CardNormaliser

  /** Whether the row can be inserted: every column is nullable except those
      the validated record always fills, and `restrictions`, whose None
      Django writes as SQL NULL into a NOT NULL column. */
  predicate Insertable(c: Card) {
    c.restrictions.Some?
  }

  /** `card_info`: the stored row when there is one (the upstream response is
      then never read), otherwise the fetched card stored under the requested
      id. A failed retrieval, or a card whose insert the NOT NULL constraint
      refuses with IntegrityError, leaves the table untouched. */
  function CardInfo(store: CardStore, cardId: string, response: Response<Json>): (r: (Result<Card>, CardStore))
    ensures cardId in store ==> r == (Ok(store[cardId]), store)
    ensures cardId !in store && RetrieveOne(response).Err? ==> r == (RetrieveOne(response), store)
    ensures cardId !in store && RetrieveOne(response).Ok? && !Insertable(RetrieveOne(response).value) ==>
              r == (Err(Raised(IntegrityError)), store)
    ensures cardId !in store && RetrieveOne(response).Ok? && Insertable(RetrieveOne(response).value) ==>
              && r.0.Ok?
              && r.1 == store[cardId := r.0.value]
              && r.1.Keys == store.Keys + {cardId}
              && r.0.value == RetrieveOne(response).value.(cardId := cardId)
    ensures r.0.Err? ==> r.1 == store
    ensures KeyedByCardId(store) ==> KeyedByCardId(r.1)
  {
    if cardId in store then (Ok(store[cardId]), store)
    else
      match RetrieveOne(response)
      case Err(e) => (Err(e), store)
      case Ok(card) =>
        var row := card.(cardId := cardId);
        if !Insertable(row) then (Err(Raised(IntegrityError)), store)
        else (Ok(row), store[cardId := row])
  }

  /** `get_or_create` for each fetched card in order, collecting the row each
      call returns. A create the NOT NULL constraint refuses raises
      IntegrityError and ends the loop; rows created before it stay. */
  function GetOrCreateAll(store: CardStore, cards: seq<Card>): (Result<seq<Card>>, CardStore)
    decreases |cards|
  {
    if |cards| == 0 then (Ok([]), store)
    else
      var c := cards[0];
      if c.cardId !in store && !Insertable(c) then (Err(Raised(IntegrityError)), store)
      else
        var next := if c.cardId in store then store else store[c.cardId := c];
        var (rows, last) := GetOrCreateAll(next, cards[1..]);
        (if rows.Ok? then Ok([next[c.cardId]] + rows.value) else rows, last)
  }

  /** The card codes of a batch. */
  function Codes(cards: seq<Card>): set<string> {
    set c | c in cards :: c.cardId
  }

  /** The first card of the batch with code `k`. */
  function FirstWithCode(cards: seq<Card>, k: string): (c: Card)
    requires k in Codes(cards)
    ensures c in cards && c.cardId == k
  {
    if cards[0].cardId == k then cards[0]
    else
      assert k in Codes(cards[1..]) by {
        var c :| c in cards && c.cardId == k;
        assert c in cards[1..];
      }
      FirstWithCode(cards[1..], k)
  }

  /** The batch can be stored: the first card of every code not yet in the
      table passes the NOT NULL constraint. */
  predicate Storable(store: CardStore, cards: seq<Card>) {
    forall k :: k in Codes(cards) && k !in store ==> Insertable(FirstWithCode(cards, k))
  }

  lemma CodesCons(cards: seq<Card>)
    requires |cards| > 0
    ensures Codes(cards) == {cards[0].cardId} + Codes(cards[1..])
  {
    assert cards == [cards[0]] + cards[1..];
  }

  /** The loop succeeds exactly when the batch can be stored, and a failure is
      always the IntegrityError. */
  lemma {:induction false} GetOrCreateAllOutcome(store: CardStore, cards: seq<Card>)
    ensures GetOrCreateAll(store, cards).0.Ok? <==> Storable(store, cards)
    ensures GetOrCreateAll(store, cards).0.Err? ==> GetOrCreateAll(store, cards).0.error == Raised(IntegrityError)
    decreases |cards|
  {
    if |cards| > 0 {
      var c := cards[0];
      var tail := cards[1..];
      CodesCons(cards);
      assert FirstWithCode(cards, c.cardId) == c;
      if c.cardId in store || Insertable(c) {
        var next := if c.cardId in store then store else store[c.cardId := c];
        GetOrCreateAllOutcome(next, tail);
        assert GetOrCreateAll(store, cards).0.Ok? <==> GetOrCreateAll(next, tail).0.Ok?;
        forall k | k in Codes(tail) && k != c.cardId
          ensures FirstWithCode(cards, k) == FirstWithCode(tail, k)
        {
        }
        assert Storable(next, tail) <==> Storable(store, cards);
      } else {
        assert !Storable(store, cards);
      }
    } else {
      assert Codes(cards) == {};
    }
  }

  /** The key set only grows, and by at most the fetched codes; after a
      successful loop it is the old keys plus the fetched codes. */
  lemma {:induction false} GetOrCreateAllKeys(store: CardStore, cards: seq<Card>)
    ensures store.Keys <= GetOrCreateAll(store, cards).1.Keys <= store.Keys + Codes(cards)
    ensures GetOrCreateAll(store, cards).0.Ok? ==> GetOrCreateAll(store, cards).1.Keys == store.Keys + Codes(cards)
    decreases |cards|
  {
    if |cards| > 0 {
      var c := cards[0];
      var tail := cards[1..];
      CodesCons(cards);
      if c.cardId in store || Insertable(c) {
        var next := if c.cardId in store then store else store[c.cardId := c];
        GetOrCreateAllKeys(next, tail);
        assert GetOrCreateAll(store, cards).1 == GetOrCreateAll(next, tail).1;
        assert GetOrCreateAll(store, cards).0.Ok? <==> GetOrCreateAll(next, tail).0.Ok?;
        assert next.Keys == store.Keys + {c.cardId};
      }
    } else {
      assert Codes(cards) == {};
    }
  }

  /** Stored rows keep their fields. */
  lemma {:induction false} GetOrCreateAllKeeps(store: CardStore, cards: seq<Card>)
    ensures forall k :: k in store ==> k in GetOrCreateAll(store, cards).1 && GetOrCreateAll(store, cards).1[k] == store[k]
    decreases |cards|
  {
    if |cards| > 0 {
      var c := cards[0];
      var tail := cards[1..];
      if c.cardId in store || Insertable(c) {
        var next := if c.cardId in store then store else store[c.cardId := c];
        GetOrCreateAllKeeps(next, tail);
        assert GetOrCreateAll(store, cards).1 == GetOrCreateAll(next, tail).1;
        forall k | k in store
          ensures k in next && next[k] == store[k]
        {
        }
      }
    }
  }

  /** A new row holds the first fetched card with its code, which passed the
      NOT NULL constraint. */
  lemma {:induction false} GetOrCreateAllFirst(store: CardStore, cards: seq<Card>)
    ensures var after := GetOrCreateAll(store, cards).1;
            forall k :: k in after && k !in store ==>
              k in Codes(cards) && after[k] == FirstWithCode(cards, k) && Insertable(after[k])
    decreases |cards|
  {
    if |cards| > 0 {
      var c := cards[0];
      var tail := cards[1..];
      CodesCons(cards);
      if c.cardId in store || Insertable(c) {
        var next := if c.cardId in store then store else store[c.cardId := c];
        GetOrCreateAllFirst(next, tail);
        GetOrCreateAllKeeps(next, tail);
        var after := GetOrCreateAll(next, tail).1;
        assert GetOrCreateAll(store, cards).1 == after;
        forall k | k in after && k !in store
          ensures k in Codes(cards) && after[k] == FirstWithCode(cards, k) && Insertable(after[k])
        {
          if k == c.cardId {
            assert k in next && next[k] == c;
          } else {
            assert k !in next;
            assert FirstWithCode(cards, k) == FirstWithCode(tail, k);
          }
        }
      }
    }
  }

  /** Get-or-create never overwrites: stored rows keep their fields, a new
      row holds the first fetched card with its code, and the key set grows
      by the fetched codes, all of them when the loop succeeds. */
  lemma GetOrCreateAllStore(store: CardStore, cards: seq<Card>)
    ensures var (rows, after) := GetOrCreateAll(store, cards);
      && store.Keys <= after.Keys <= store.Keys + Codes(cards)
      && (rows.Ok? ==> after.Keys == store.Keys + Codes(cards))
      && (forall k :: k in store ==> after[k] == store[k])
      && (forall k :: k in after && k !in store ==> after[k] == FirstWithCode(cards, k) && Insertable(after[k]))
  {
    GetOrCreateAllKeys(store, cards);
    GetOrCreateAllKeeps(store, cards);
    GetOrCreateAllFirst(store, cards);
  }

  /** On success the i-th returned row is the row stored under the i-th
      card's code once the whole batch is processed. */
  lemma {:induction false} GetOrCreateAllRows(store: CardStore, cards: seq<Card>)
    ensures var (rows, after) := GetOrCreateAll(store, cards);
      rows.Ok? ==>
        && |rows.value| == |cards|
        && (forall i :: 0 <= i < |cards| ==> cards[i].cardId in after && rows.value[i] == after[cards[i].cardId])
    decreases |cards|
  {
    if |cards| > 0 {
      var c := cards[0];
      var tail := cards[1..];
      if c.cardId in store || Insertable(c) {
        var next := if c.cardId in store then store else store[c.cardId := c];
        GetOrCreateAllRows(next, tail);
        GetOrCreateAllKeeps(next, tail);
        var (rows, after) := GetOrCreateAll(next, tail);
        if rows.Ok? {
          assert GetOrCreateAll(store, cards) == (Ok([next[c.cardId]] + rows.value), after);
          var all := [next[c.cardId]] + rows.value;
          forall i | 0 <= i < |cards|
            ensures cards[i].cardId in after && all[i] == after[cards[i].cardId]
          {
            if i > 0 {
              assert cards[i] == tail[i - 1] && all[i] == rows.value[i - 1];
            } else {
              assert c.cardId in next && after[c.cardId] == next[c.cardId];
            }
          }
        }
      }
    }
  }

  /** A second get-or-create pass over the same batch gives the same outcome
      and changes nothing: after a success every code is stored, and after a
      failure the rerun stops at the same card with nothing new to insert. */
  lemma {:induction false} GetOrCreateAllIdempotent(store: CardStore, cards: seq<Card>)
    ensures var (rows, after) := GetOrCreateAll(store, cards);
            GetOrCreateAll(after, cards) == (rows, after)
    decreases |cards|
  {
    if |cards| > 0 {
      var c := cards[0];
      var tail := cards[1..];
      if c.cardId in store || Insertable(c) {
        var next := if c.cardId in store then store else store[c.cardId := c];
        GetOrCreateAllIdempotent(next, tail);
        GetOrCreateAllKeeps(next, tail);
        var (rows, after) := GetOrCreateAll(next, tail);
        assert c.cardId in after && after[c.cardId] == next[c.cardId];
        assert GetOrCreateAll(after, cards) == (if rows.Ok? then Ok([after[c.cardId]] + rows.value) else rows, after);
      }
    }
  }

  /** Get-or-create over codes that are all stored only reads, and succeeds. */
  lemma {:induction false} StoredBatchUnchanged(store: CardStore, cards: seq<Card>)
    requires forall c :: c in cards ==> c.cardId in store
    ensures GetOrCreateAll(store, cards).0.Ok? && GetOrCreateAll(store, cards).1 == store
    decreases |cards|
  {
    if |cards| > 0 {
      StoredBatchUnchanged(store, cards[1..]);
    }
  }

  /** A fetched card with null restrictions and a code the table lacks makes
      the loop fail, whatever comes after it. */
  lemma NullRestrictionsFail(store: CardStore, c: Card, rest: seq<Card>)
    requires c.cardId !in store && c.restrictions.None?
    ensures GetOrCreateAll(store, [c] + rest) == (Err(Raised(IntegrityError)), store)
  {
  }

  /** `fetch_cards`: the bulk retrieval, then get-or-create per card. A failed
      retrieval leaves the table untouched; a refused insert keeps the rows
      created before it. */
  function FetchCards(store: CardStore, response: Response<Json>): (r: (Result<seq<Card>>, CardStore))
    ensures RetrieveAll(response).Err? ==> r == (RetrieveAll(response), store)
    ensures RetrieveAll(response).Ok? ==>
              var cards := RetrieveAll(response).value;
              && (r.0.Ok? <==> Storable(store, cards))
              && (r.0.Err? ==> r.0.error == Raised(IntegrityError))
              && store.Keys <= r.1.Keys <= store.Keys + Codes(cards)
              && (r.0.Ok? ==> r.1.Keys == store.Keys + Codes(cards))
              && (forall k :: k in store ==> r.1[k] == store[k])
              && (forall k :: k in r.1 && k !in store ==> r.1[k] == FirstWithCode(cards, k))
              && (r.0.Ok? ==> |r.0.value| == |cards|
                              && forall i :: 0 <= i < |cards| ==> r.0.value[i] == r.1[cards[i].cardId])
    ensures KeyedByCardId(store) ==> KeyedByCardId(r.1)
  {
    match RetrieveAll(response)
    case Err(e) => (Err(e), store)
    case Ok(cards) =>
      GetOrCreateAllOutcome(store, cards);
      GetOrCreateAllStore(store, cards);
      GetOrCreateAllRows(store, cards);
      GetOrCreateAll(store, cards)
  }

  /** Running `fetch_cards` twice on the same upstream answer leaves the table
      as running it once, and returns the same outcome. */
  lemma FetchCardsIdempotent(store: CardStore, response: Response<Json>)
    ensures var (first, once) := FetchCards(store, response);
            FetchCards(once, response) == (first, once)
  {
    if RetrieveAll(response).Ok? {
      GetOrCreateAllIdempotent(store, RetrieveAll(response).value);
    }
  }
}
