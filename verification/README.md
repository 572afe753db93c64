# Miskatonic ingestion core in Dafny

Miskatonic is a Django service for Arkham Horror: The Card Game. It pulls
the player-card catalogue and the published decklists from ArkhamDB and
normalises them into its own tables. It then answers one analytical
question: for each deck on a page, which of a set of cards it contains and
how much experience it costs. This project models that ingestion core as pure
Dafny functions over immutable values and proves what the code promises about
them.

The modules follow the program's structure:

- `Errors`, `Constants`, `Json`, `Http`, `Text`: the shared vocabulary.
  - `Errors` holds the exceptions the pipeline raises (the three retrieval
    errors, the Python, pydantic and Django built-ins that escape unwrapped,
    and the bare `Exception` chained to its cause) with `Option`/`Result`.
  - `Constants` holds the string enums of constants.py.
  - `Json` is a decoded JSON value and the field-level validation pydantic
    applies.
  - `Http` is a response reduced to "no response" or a status and a decoded
    body.
  - `Text` holds the string operations the code uses: Python's `str.split()`,
    `str.split(", ")` and its join, `lower()`, `replace`, and `int()` of a
    decimal string with optional underscores between digits.
- `CardNormaliser` (cards/arkhamdb.py) covers the three pre-validators of
  `ArkhamDBCardInfoResponse`:
  - the five skills, with missing ones 0;
  - the traits, split on whitespace with dots removed and lower-cased;
  - the factions from the four faction fields, with mythos rejected.

  It also covers the player-card filter of the bulk retrieval, the bulk
  loop's error handling, and the single-card retrieval.
- `CardModels`, `CardStore` (cards/models.py, cards/api.py): the card table,
  and the `card_info` and `fetch_cards` endpoints as transitions of it. Both
  endpoints are get-or-create and never overwrite a stored row.
- `Calendar`: Python dates as needed here. It covers validity, the
  proleptic Gregorian ordinal, and the ISO 8601 calendar-date form
  `YYYY-MM-DD` that `date.isoformat()` writes and `fromisoformat` reads. It
  also covers the truncation of an upstream timestamp to its date.
- `DeckRecords` (decks/arkhamdb.py): validation of an upstream decklist,
  the fields kept when it is dumped for storage, and the status handling of
  the by-date and by-id retrievals. Status 500 means "no decks that day" in
  the first and "no such deck" in the second.
- `DeckMetadata` (decks/arkhamdb.py): the likes, favourites and comments
  scraped from a deck's page, which is an abstract tree standing for the HTML.
  It includes the author-link match, and the `lru_cache` as a map from deck id
  to metadata that keeps only successful results.
- `PlayerCount` (decks/api.py): `determine_player_count`.
  - A `solo` tag decides at once.
  - A `multiplayer` tag removes the one-player keywords.
  - Otherwise the first keyword with the strictly highest fuzzy score in
    the title, then in the description, names the bucket if the score exceeds
    60. The fuzzy score is a parameter with values 0..100.
- `DeckModels` (decks/models.py): the deck and deck-card tables and the
  integrity their foreign keys keep. Deleting a deck cascades to its rows.
  Deleting a card that a row references is refused.
- `DeckSync` (decks/api.py): `save_decklist_info`, `fetch_decklist` and
  `fetch_latest_decklists`.
  - The slot rows use `update_or_create` with the quantity inside the lookup.
  - The derived attributes are the tags, the player count and the counters.
  - The day-by-day walk from the day after the newest stored deck runs up to
    `today`. The first failure ends the walk and keeps what was saved.
- `Breakdown` (decks/api.py): `fetch_decklist_breakdown`.
  - The investigator filter applies only for a truthy name.
  - Decks are ordered by id, and Django's slice semantics give the page.
  - Each deck on the page gets a card-presence map and the SQL `SUM` of
    quantity times experience, in which null products are skipped. A deck
    whose sum is null is left out.

The network, the clock and the fuzzy matcher are parameters. A response is a
value handed to the function that reads it. `fetch_latest_decklists` takes
`today` and the first decklist date as day ordinals, together with one
function from day to the by-date response and one from deck id to the deck
page. decks/constants.py, which defines the first decklist date, is not part
of this model.

## Model

| member | source | states |
|---|---|---|
| `Constants.FactionOf` | constants.py:9-16 | `Faction(value)` succeeds exactly for the seven faction strings and returns the member whose value is that string |
| `Text.SplitWhitespaceTokens` | cards/arkhamdb.py:64-66 | `str.split()` yields non-empty tokens free of whitespace whose concatenation is the input with all whitespace removed |
| `Text.SplitWhitespaceJoin` | cards/arkhamdb.py:64-66 | `str.split()` inverts joining with whitespace: whitespace-free tokens joined by any non-empty whitespace run split back into exactly those tokens, so the split breaks at every whitespace run and nowhere else |
| `Text.JoinSplitOn` | decks/api.py:141-142 | joining the pieces of `split(sep)` with `sep` gives back the original string |
| `Text.SplitOnPieces` | decks/api.py:141-142 | no piece of `split(sep)` contains the separator |
| `Text.ParseDecimalString` | decks/arkhamdb.py:185 | `int()` reads back every integer's decimal rendering |
| `Text.DecimalStringInjective` | decks/api.py:236 | `str(deck_id)` gives distinct keys to distinct deck ids |
| `Text.FindFirst` | decks/api.py:141-142 | the separator search returns a position where the separator occurs and before which it does not occur, and None only when it occurs nowhere |
| `Text.ParseIgnoresUnderscores` | decks/arkhamdb.py:185 | for every string of digits with single underscores between them, `int()` gives the same value as for the string with its underscores removed |
| `Text.ParseGroupedThousand` | decks/arkhamdb.py:185 | one instance: `"1_000"` reads as 1000 |
| `Text.ParseRejectsMisplacedUnderscore` | decks/arkhamdb.py:185 | instances of the rejections: a leading, trailing or doubled underscore makes `int()` fail |
| `Json.FirstKeys` | cards/arkhamdb.py:103 | the keys of a decoded object, each listed once, are exactly the keys that occur in it |
| `Json.LastValue` | cards/arkhamdb.py:103 | the value kept for a repeated key is the value of its last occurrence |
| `Json.Collapse` | cards/arkhamdb.py:103 | a loaded object names each key once, has exactly the document's keys, and pairs each with the value of its last occurrence |
| `Json.Loads` | cards/arkhamdb.py:103 | `json.loads` keeps the kind of every value and the scalars unchanged, and gives every object, at any depth, distinct keys and the same key set |
| `Json.LoadsScalarPair` | decks/arkhamdb.py:43-44 | an object that gives one key two scalar values loads to that key with the second value |
| `Json.AsRecord` | cards/arkhamdb.py:103 | the dictionary built from a decoded object has exactly the object's keys, and a repeated key holds the loaded value of its last occurrence |
| `Json.RecordValue` | cards/arkhamdb.py:103 | a key present in the object holds the loaded value of its last occurrence in the dictionary |
| `CardNormaliser.RawSkillsShape` | cards/arkhamdb.py:47-56 | the skills map has exactly the five skills as keys, each holding the raw `skill_<name>` value or 0 when the field is absent |
| `CardNormaliser.SkillPoints` | cards/arkhamdb.py:30 | the `dict[Skill, int]` field accepts exactly when every value is an integer, keeping keys and values |
| `CardNormaliser.NormaliseTraitShape` | cards/arkhamdb.py:64-66 | a normalised trait has no dot, no upper-case letter and no whitespace, and is no longer than its token |
| `CardNormaliser.NormaliseTraitIdempotent` | cards/arkhamdb.py:64-66 | normalising an already normalised trait changes nothing |
| `CardNormaliser.TraitsSpec` | cards/arkhamdb.py:58-67 | traits validate exactly when absent or a string; absent gives no traits, null is rejected, and a string gives one normalised trait per whitespace token, in order |
| `CardNormaliser.CollectFactionsAccepts` | cards/arkhamdb.py:69-83 | the faction loop succeeds exactly when every truthy faction field holds a player faction code |
| `CardNormaliser.CollectFactionsValues` | cards/arkhamdb.py:69-83 | on success the factions correspond one to one, in field order, to the truthy faction fields, and none is mythos |
| `CardNormaliser.FactionsSpec` | cards/arkhamdb.py:69-83 | factions validate exactly when every truthy faction field is a player faction code, giving at most four factions, never mythos, in field order |
| `CardNormaliser.MythosRejected` | cards/arkhamdb.py:78-81 | a mythos code in any faction field rejects the card |
| `CardNormaliser.BuildCard` | cards/arkhamdb.py:18-39 | a validated card carries the given skills, traits and factions, its id from the `code` alias, and the upstream name, url and experience |
| `CardNormaliser.BuildCardAccepts` | cards/arkhamdb.py:18-39 | the field typing accepts a record exactly when every required string and boolean is present with its type, every optional string or integer is absent, null or of its type, and `restrictions` is absent, null or an object |
| `CardNormaliser.BuildCardRestrictions` | cards/arkhamdb.py:39 | a validated card's restrictions are the `restrictions` field as the record holds it: the empty default when absent, null, or the object |
| `CardNormaliser.RestrictionsCollapsed` | cards/arkhamdb.py:39 | restrictions read from a loaded record name each key once, whatever the document repeats |
| `CardNormaliser.Elements` | cards/arkhamdb.py:127 | iterating a decoded body visits a list's items, an object's distinct keys once each, or a string's characters |
| `CardNormaliser.NormaliseSpec` | cards/arkhamdb.py:18-83 | a rejected trait or faction field rejects the card; an accepted card has five skills as upstream (0 when absent), the validated traits and factions, and the upstream id and name |
| `CardNormaliser.NormaliseAccepts` | cards/arkhamdb.py:18-83 | a record validates exactly when its traits, factions and skill points validate and every other field has its declared type |
| `CardNormaliser.Screen` | cards/arkhamdb.py:127-138 | a record is kept exactly when it is a player card by type or a weakness by subtype; a skipped record without a name is the one that raises |
| `CardNormaliser.GatherSpec` | cards/arkhamdb.py:127-156 | the loop succeeds exactly when every record passes, then returns the kept records' cards in order; every failure is a bare Exception |
| `CardNormaliser.KeptCardsArePlayerRecords` | cards/arkhamdb.py:125-150 | the cards the loop collects are the validated player records in upstream order |
| `CardNormaliser.CollectSpec` | cards/arkhamdb.py:125-158 | the bulk loop succeeds exactly when every kept record validates and every skipped one has a name; it then returns the validated player records in order, and any failure aborts the batch as a bare Exception |
| `CardNormaliser.CollectItemsSpec` | cards/arkhamdb.py:125-158 | the loop over the decoded elements succeeds exactly when each element is an object whose record passes, then returns the validated player records in order; any failure, a non-object element included, is a bare Exception |
| `CardNormaliser.RetrieveAll` | cards/arkhamdb.py:110-158 | a failed request or an undecodable body is a request error, a body `len` rejects is TypeError, and a non-ok status is a status error; otherwise the retrieval succeeds exactly when every element is an object whose record the loop accepts, then returns the validated player records in order, and any failure inside the loop is a bare Exception |
| `CardNormaliser.RetrieveAllNotAList` | cards/arkhamdb.py:127-156 | an ok object or string body is iterated by key or by character: an empty one gives no cards, any other fails in `.get` with AttributeError, which becomes a bare Exception |
| `CardNormaliser.RetrieveOne` | cards/arkhamdb.py:90-107 | a failed request and a bad status are retrieval errors, an undecodable body escapes as a JSON error, a body that is not an object as TypeError, and a rejected record is a retrieval error; success is exactly an ok object body whose record validates |
| `CardStore.CardInfo` | cards/api.py:13-23 | a stored card is returned unchanged without reading the response; otherwise a fetched card with restrictions is stored under the requested id, a fetched card with null restrictions raises IntegrityError, and every failure leaves the table as it was |
| `CardStore.GetOrCreateAllOutcome` | cards/api.py:30-34 | get-or-create over a batch succeeds exactly when the first card of every new id has restrictions, and otherwise fails with IntegrityError |
| `CardStore.GetOrCreateAllKeys` | cards/api.py:30-34 | the table gains only ids of the batch, and all of them when the batch succeeds |
| `CardStore.GetOrCreateAllKeeps` | cards/api.py:33 | a stored row is never overwritten |
| `CardStore.GetOrCreateAllFirst` | cards/api.py:30-34 | a new row holds the first card of the batch with that id, and that card has restrictions |
| `CardStore.GetOrCreateAllRows` | cards/api.py:30-34 | a successful batch returns one row per card, in order, each the stored row of its id |
| `CardStore.GetOrCreateAllIdempotent` | cards/api.py:30-34 | running the same batch again returns the same rows and changes nothing |
| `CardStore.StoredBatchUnchanged` | cards/api.py:30-34 | a batch whose ids are all stored leaves the table unchanged |
| `CardStore.NullRestrictionsFail` | cards/models.py:52 | a new card with null restrictions at the head of a batch fails it with IntegrityError and leaves the table unchanged |
| `CardStore.FetchCards` | cards/api.py:26-35 | a failed retrieval changes nothing; otherwise the batch succeeds exactly when every new card has restrictions and fails with IntegrityError otherwise, the table gains only retrieved ids (all of them on success) and keeps every old row, a new row is the first retrieved card with its id, and on success the response lists the stored row of each retrieved card in order |
| `CardStore.FetchCardsIdempotent` | cards/api.py:26-35 | fetching the same catalogue twice gives the same response and table as fetching it once |
| `Calendar.OrdinalOrder` | decks/api.py:158-162 | ordering by creation date is ordering by day ordinal, and equal ordinals mean equal dates |
| `Calendar.LastOrdinalBound` | decks/api.py:166-169 | 9999-12-31 has the largest ordinal of all dates and is the only date with it |
| `Calendar.IsoDateRoundTrip` | decks/arkhamdb.py:61-69 | parsing the ISO form of a valid date gives the date back |
| `Calendar.IsoFormatOfParse` | decks/arkhamdb.py:61-69 | a string the ISO date parser accepts is exactly the ISO form of the date it yields |
| `Calendar.TruncateToDateIdempotent` | decks/arkhamdb.py:61-69 | truncation keeps the first ten characters of the timestamp, and truncating again changes nothing |
| `DeckRecords.DateField` | decks/arkhamdb.py:61-69 | a date field validates exactly when it is a string whose leading date parses, and it becomes that date's ISO form |
| `DeckRecords.TruncatedDateParses` | decks/models.py:30-31 | a truncated timestamp is accepted by the date column and denotes the timestamp's date |
| `DeckRecords.Header` | decks/arkhamdb.py:33-42 | the stored fields validate exactly when id, name, both dates, description, user id and investigator fields have their declared types, the aliased ones read under their alias first, and each holds the upstream value, the dates truncated to valid ISO dates |
| `DeckRecords.Contents` | decks/arkhamdb.py:43-55 | the excluded fields validate exactly when each required field is present with its declared type, null allowed where declared; each holds the upstream value, and `ignoreDeckLimitSlots` defaults to null |
| `DeckRecords.ParseDecklist` | decks/arkhamdb.py:33-69 | a record validates exactly when both its stored and its excluded fields do, and the decklist is made of the two validated groups |
| `DeckRecords.IntMapOfRecordDistinct` | decks/arkhamdb.py:43-44 | a `dict[str, int]` field read from a loaded record lists each card code once |
| `DeckRecords.SlotCodesDistinct` | decks/arkhamdb.py:43-44 | a validated decklist's `slots` and `sideSlots` name each card code once, whatever the document repeats |
| `DeckRecords.RepeatedSlotKeepsLast` | decks/arkhamdb.py:43 | `{"01001": 1, "01001": 2}` as slots gives the one slot `("01001", 2)` |
| `DeckRecords.RepeatedSlotOverwritten` | decks/arkhamdb.py:43 | `{"01001": "x", "01001": 2}` as slots validates to `("01001", 2)`: the overwritten string is never typed |
| `DeckRecords.ParseDecklistStored` | decks/arkhamdb.py:34-69 | a validated decklist carries the upstream id from its alias, both dates truncated to valid ISO dates, and the upstream tags string |
| `DeckRecords.ParseItemSpec` | decks/arkhamdb.py:104 | an element of the list validates exactly when it is an object whose record validates, and then gives that decklist |
| `DeckRecords.ParseAll` | decks/arkhamdb.py:103-108 | the list validates exactly when every element does, then element by element |
| `DeckRecords.ByDate` | decks/arkhamdb.py:87-108 | status 500 gives no decks, any other non-ok status or a failed request a retrieval error, and an undecodable body a JSON error; an ok decoded body succeeds exactly when it is a list whose elements all validate, with those decklists in order, and is otherwise a validation retrieval error |
| `DeckRecords.ById` | decks/arkhamdb.py:111-131 | status 500 is "not found", another non-ok status or a failed request a retrieval error, an undecodable body a JSON error, a body that is not an object TypeError, and a rejected record a retrieval error; success is exactly an ok object body whose record validates |
| `DeckMetadata.Count` | decks/arkhamdb.py:178-185 | a missing anchor or span counts 0, a span without a single string raises TypeError, and otherwise the count is `int()` of its text, with ValueError when that is not an integer |
| `DeckMetadata.CountOfRendered` | decks/arkhamdb.py:178-189 | a count rendered as a decimal string is read back exactly |
| `DeckMetadata.MatchAuthorPath` | decks/arkhamdb.py:192 | a match names a user id of digits and a non-empty user name that form a prefix of the href up to the first line break |
| `DeckMetadata.MatchAuthorPathComplete` | decks/arkhamdb.py:192-194 | every well-formed profile path, alone or followed by a new line, is matched and yields its author |
| `DeckMetadata.AuthorOf` | decks/arkhamdb.py:191-194 | a missing author link raises TypeError, a link without href raises KeyError, and success is exactly a matching href |
| `DeckMetadata.Scrape` | decks/arkhamdb.py:158-196 | a failed request, a bad status, an empty page and a missing social-icons container each give their retrieval error; success means an author link matched and the three counts were read |
| `DeckMetadata.ScrapeOfWellFormedPage` | decks/arkhamdb.py:174-196 | a page rendering three counts and a well-formed author link scrapes to exactly those counts |
| `DeckMetadata.ScrapeOrder` | decks/arkhamdb.py:187-196 | with the container present, the likes, favourites and comments counts are read in that order and the first failing one is the result, then the author link; when all succeed the result is the three counts |
| `DeckMetadata.ScrapeWithoutAnchors` | decks/arkhamdb.py:178-196 | a page whose three anchors are all missing, with a well-formed author link, scrapes to zero likes, favourites and comments |
| `DeckMetadata.CachedMetadata` | decks/arkhamdb.py:157-158 | a cached deck is answered from the cache without a request; otherwise the page is scraped, and only a success is remembered |
| `DeckMetadata.CachedMetadataRepeat` | decks/arkhamdb.py:157-158 | after a success a second lookup returns the same metadata and leaves the cache alone; after a failure it scrapes afresh |
| `PlayerCount.Scan` | decks/api.py:86-91 | the running best score never decreases, and a change of bucket comes only with a strictly higher score |
| `PlayerCount.ScanSpec` | decks/api.py:86-91 | after the scan no keyword scores above the best, and a new best comes from the first keyword that reaches it |
| `PlayerCount.ScanPicksFirstBest` | decks/api.py:86-91 | the scan ends on the first keyword with the highest score when that score beats the starting best |
| `PlayerCount.DeterminePlayerCount` | decks/api.py:33-118 | a `solo` tag gives SOLO whatever the text, the verdict is never MULTIPLAYER, and the call fails, with AttributeError, exactly when there is no `solo` tag, no title keyword scores above 60 and the description is missing |
| `PlayerCount.MultiplayerExcludesSolo` | decks/api.py:76-80 | with a `multiplayer` tag and no `solo` tag the verdict is never SOLO |
| `PlayerCount.MultiplayerCandidates` | decks/api.py:77-80 | the multiplayer keyword set holds no one-player keyword |
| `PlayerCount.TitleDecides` | decks/api.py:85-100 | a title keyword scoring above 60, first among the highest, decides the count whatever the description |
| `PlayerCount.DescriptionDecides` | decks/api.py:102-116 | when no title keyword scores above 60, the first highest description keyword above 60 decides the count |
| `PlayerCount.UnknownIffNoStrongMatch` | decks/api.py:82-118 | without a `solo` tag the verdict is UNKNOWN exactly when no keyword scores above 60 in the title or the description |
| `DeckModels.NewDeckList` | decks/models.py:26-56 | a new deck row has valid dates, no tags, and null counters and player count |
| `DeckModels.NewDeckListPersists` | decks/api.py:126-129 | a row created from dumped fields persists exactly those fields |
| `DeckModels.DeleteDeck` | decks/models.py:60-66 | deleting a deck removes it and exactly its rows, counted with their duplicates, and nothing else |
| `DeckModels.DeleteCard` | decks/models.py:67-69 | deleting a card is refused exactly when a row references it, and otherwise removes only that card |
| `DeckModels.DeletePreservesIntegrity` | decks/models.py:59-69 | both deletions keep every row's foreign keys resolvable |
| `DeckModels.MoreCardsPreserveIntegrity` | decks/models.py:67-69 | adding cards to the card table keeps the schema's integrity |
| `DeckModels.DuplicatePairsAllowed` | decks/models.py:59-70 | the schema admits two rows for the same deck and card |
| `DeckSync.UpdateOrCreateSpec` | decks/api.py:134-136 | with the quantity inside the lookup, the call fails exactly when the row already exists twice; otherwise it leaves exactly one copy of the row and touches no other |
| `DeckSync.WriteSlotsSpec` | decks/api.py:130-138 | the slot loop keeps earlier rows, adds only rows for slots whose card is stored, and on a table without duplicates cannot fail and adds none |
| `DeckSync.WriteSlotsComplete` | decks/api.py:130-138 | after a successful loop every slot with a stored card has its row |
| `DeckSync.WriteSlotsPresent` | decks/api.py:130-138 | when every slot's row already exists the loop changes nothing |
| `DeckSync.SplitTags` | decks/api.py:140-142 | an empty tags string gives no tags; a non-empty one splits into pieces without the separator that join back to the string |
| `DeckSync.StoredDeck` | decks/api.py:126-129 | `get_or_create` yields the stored row for a known id and a row of the dumped fields for a new one |
| `DeckSync.Created` | decks/api.py:129-138 | after the row exists and the slot loop runs, the card table is unchanged, only this deck's row can be new, earlier rows stay, new rows come from the slots, and integrity holds |
| `DeckSync.Refresh` | decks/api.py:140-151 | the derived step changes only the tags, player count and counters; the tags come from the tags string, the count is `determine_player_count` of the stored row's name and description with the new tags (never MULTIPLAYER), the counters come from the memoised metadata, and a failed fetch is its error |
| `DeckSync.SaveDecklist` | decks/api.py:125-153 | a save keeps integrity and the card table, stores this deck's id, leaves other decks alone, keeps an existing deck's persisted fields, and writes the slot rows |
| `DeckSync.SaveDecklistOutcome` | decks/api.py:129-153 | a save succeeds exactly when the slot loop and the metadata fetch do; a slot-loop error is returned with the cache untouched, a metadata error is returned after the slots are written, and on failure the deck row is the one get-or-create produced |
| `DeckSync.SaveDecklistDerived` | decks/api.py:140-153 | a successful save stores the split tags, the player count determined from the stored row's name and description (never MULTIPLAYER) and the scraped counters |
| `DeckSync.SaveDecklistExtends` | decks/api.py:125-153 | a save keeps every existing deck-card row in place, every stored deck's persisted fields and every other deck unchanged; a successful one leaves a row for each slot whose card is stored |
| `DeckSync.ResaveAddsNoRows` | decks/api.py:129-138 | saving the same decklist again adds no deck-card rows |
| `DeckSync.ChangedQuantityAddsRow` | decks/api.py:134-136 | a slot whose quantity changed keeps its old row and gains a second one |
| `DeckSync.FetchDecklist` | decks/api.py:182-185 | a failed by-id retrieval changes nothing; a retrieved decklist is storable and is saved |
| `DeckSync.TruncatedDatesStorable` | decks/arkhamdb.py:37-38 | a validated decklist always has dates the deck table accepts |
| `DeckSync.FetchedStorable` | decks/arkhamdb.py:103-104 | every decklist of a successful by-date retrieval is storable |
| `DeckSync.SaveAll` | decks/api.py:173-174 | saving a day's decklists keeps integrity, the card table and every stored deck id, and a full success gives every deck of the day a row |
| `DeckSync.SaveAllExtends` | decks/api.py:173-174 | a day's saves keep every existing deck-card row in place and every stored deck's persisted fields, leave decks not of that day unchanged, and on success every decklist of the day has its deck row and a row for each slot whose card is stored |
| `DeckSync.SaveDecklistStep` | decks/api.py:125-153 | one save leaves unchanged which decks' counters can be had; its failure is a duplicated row's lookup or this deck's failing scrape; on a table without duplicates it adds none and succeeds exactly when this deck's counters can be had |
| `DeckSync.SaveAllAvailable` | decks/api.py:173-174 | the day's saves leave unchanged which decks' counters can be had |
| `DeckSync.SaveAllFailure` | decks/api.py:173-174 | a failed day's save is a duplicated row's lookup or the failing scrape of one of the day's decks whose counters are neither memoised nor scrapable |
| `DeckSync.SaveAllOutcome` | decks/api.py:173-174 | on a table without duplicate rows the day's saves add none, succeed exactly when every deck's counters are memoised or scrapable, and otherwise fail with the scrape error of the first deck whose are not |
| `DeckSync.AvailabilityTransfer` | decks/api.py:157-158 | two memos that make the same counters available give the same verdict on a day's outcome |
| `DeckSync.LatestCreation` | decks/api.py:158-162 | the newest stored deck's creation date is some deck's date and no deck was created later |
| `DeckSync.StartDay` | decks/api.py:158-169 | the walk starts at the first decklist date on an empty table, otherwise the day after the newest creation date, and overflows exactly when that date is 9999-12-31 |
| `DeckSync.SyncDay` | decks/api.py:172-174 | a failed retrieval changes nothing; a successful day stores every decklist of that day with its slot rows; integrity, the card table, every existing deck-card row and every stored deck's persisted fields are kept, and decks not of that day are unchanged; a failed save is a duplicated row's lookup or the scrape error of a deck whose counters cannot be had; on a table without duplicates the day succeeds exactly when every deck's counters can be had, and otherwise fails with the first such deck's scrape error |
| `DeckSync.WalkStep` | decks/api.py:171-175 | one day of the walk keeps everything stored before and every earlier saved day; a successful day is saved too, and a failed one is its fetch's error or a classified save failure |
| `DeckSync.WalkDays` | decks/api.py:171-179 | the walk visits each day from its first day up to but excluding today, in order, and stops at the first failure; every existing deck-card row and every stored deck's persisted fields are kept; after a full walk every day was fetched and all its decks stored with their slot rows; after a failure every earlier day was, and the last day's error is its failed fetch or a failed save of its decks; on a table without duplicates, days that all fetch with every deck's counters available make the walk succeed, and a failed save is the first unavailable deck's scrape error |
| `DeckSync.FetchLatest` | decks/api.py:156-179 | the start day, then the walk from it with the same guarantees; an overflowing start day is the error and changes nothing; integrity, the card table, every existing deck-card row and every stored deck's persisted fields are kept |
| `Breakdown.SortedIds` | decks/api.py:197 | ordering by deck id lists each selected id exactly once, in increasing order |
| `Breakdown.IncreasingUnique` | decks/api.py:197 | two increasing listings of the same ids are equal |
| `Breakdown.Window` | decks/api.py:197-200 | a queryset slice raises ValueError exactly for a negative bound, and otherwise is the contiguous run from the offset, clipped to the end and empty when the end precedes the start |
| `Breakdown.Pages` | decks/api.py:197-200 | consecutive pages tile the ordered decks |
| `Breakdown.HasCard` | decks/api.py:205-207 | the presence test holds exactly when some row links the deck to the card |
| `Breakdown.Presence` | decks/api.py:202-207 | the presence map has one entry per requested card, true exactly when the deck holds it |
| `Breakdown.TotalXp` | decks/api.py:219-222 | the experience sum is null exactly when none of the deck's rows has a card with non-null experience |
| `Breakdown.TotalXpIsSum` | decks/api.py:219-221 | a non-null sum is the plain sum of quantity times experience over the deck's rows whose experience is not null |
| `Breakdown.Collect` | decks/api.py:201-240 | the output has an entry for a page deck exactly when its sum is not null, keyed by the id's decimal string, holding investigator, presence map and sum |
| `Breakdown.WindowOfIncreasing` | decks/api.py:197-200 | a page of an increasing listing is increasing and drawn from it |
| `Breakdown.Page` | decks/api.py:194-200 | the page fails with ValueError exactly for a negative bound; otherwise it lists selected decks in increasing id order, as many as the slice of the selection holds |
| `Breakdown.PageIsRun` | decks/api.py:197-200 | the page is exactly the run of the id-ordered selection that starts at the offset and has the length of the slice |
| `Breakdown.FetchBreakdown` | decks/api.py:189-241 | the endpoint fails exactly for a negative bound; otherwise it has an entry exactly for each page deck with a non-null sum, carrying its investigator, card presence and total |
| `Breakdown.UnfilteredPageIsAll` | decks/api.py:194-200 | with no filter, offset 0 and a large enough page, the page lists every stored deck, each once |

## Left out

- HTTP transport, `response.json()` and BeautifulSoup parsing are not modelled. A response is a value whose body is the decoded JSON document, or None when `response.json()` raises. A document of the wrong shape is still a body, and each retrieval fails on it as Python does. For a deck page the body is an abstract tree of the nodes the scraper looks up, and None stands for an empty text.
- The regular expression engine: the author-link match is written out by hand for the one pattern used.
- `fuzz.partial_ratio` is a parameter constrained to 0..100, because its computation is a foreign library.
- The nltk downloads, logging and the debug messages. The one exception is the eager f-string of a skipped card's debug message, whose KeyError is modelled.
- `determine_deck_campaign_standalone` is an empty stub with no behaviour.
- `retrieve_arkhamdb_user_data` is not called by the core: its call is commented out, and the scraper only evaluates the two match groups.
- The commented-out reprint lookup and restriction filter are not modelled, because they are not code.
- Routing, authentication and response schemas are not modelled (decks/schemas.py and cards/schemas.py only shape the output).
- `Json.Json` has no float: a JSON number with a fraction or an exponent, which `json.loads` turns into a Python `float`, is not representable, so JSON numbers are modelled as integers only. No field of the core is declared `float`.
- pydantic coercions (a number accepted for a string, a numeric string for an integer, a list of key-value pairs for a `dict` field) are not modelled: a field validates only on its exact JSON type. `json_encoders` sorting is not modelled either.
- Database column constraints `max_length` and `choices` are not modelled, and neither are the `TimeStampedModel` timestamps.
- SQL integer width: `quantity * xp` and its sum are unbounded integers.
- `datetime.fromisoformat` is not modelled in general: only its date prefix `YYYY-MM-DD`, optionally followed by a separator and a time that is not inspected.
- `str.lower()` is modelled for ASCII letters only.
- `lru_cache` eviction (100000 entries) and thread safety are not modelled. The cache is an unbounded map that remembers successes only, which is what `lru_cache` does with raised calls.
- The clock is the `today` parameter, a day ordinal of a real date. Stepping past 9999-12-31 inside the walk therefore cannot arise and is not modelled. Stepping from the newest stored date is modelled.
- miskatonic/exceptions.py, the base class `MiskatonicException`, is not part of this model. It is taken to derive from `Exception` and not from `ValueError`. So the CardDataRetrievalError raised inside the bulk loop is caught by its `except Exception` and re-raised as a bare Exception (`Unexpected`).
- `DeckSync.SyncDay`: when a save fails partway, the contract does not say which of the day's decks were stored. On a table that already holds a duplicated row, it says only which errors can end the day, not which one does. Its result is tied to the day's saves through these properties, not through an equation with `SaveAll`.
- `DeckSync.FetchLatest`: `today` is read once, whereas the source calls `date.today()` again on every iteration, so a walk that runs past midnight is not modelled. After a failure, which decks of the last visited day were stored is not said.
- `DeckSync.WalkDays`: the same reading of `today` as `DeckSync.FetchLatest`, and the same silence on the last day's stored decks after a failure. The derived columns (tags, player count, counters) of a deck saved on an earlier day may be rewritten when it is saved again, and the walk's contract does not follow them across days.
- `DeckSync.SaveAll`: on a failing save the contract does not say which earlier decklists of the day were stored.
- `DeckMetadata.Count`: `int()` also accepts non-ASCII Unicode decimal digits, which are not modelled. Only ASCII digits, with single underscores between them, are read.
- A failed insert (IntegrityError) stops `fetch_cards` after its earlier inserts, which are kept: the database is taken to run in autocommit mode, without a surrounding transaction.

## Where the model follows the code over its description

- The experience total follows SQL `SUM`, which skips rows whose card has no experience; a deck is left out only when every product is null.
- A record rejected inside the bulk card loop aborts the batch as a bare Exception, not as a CardDataRetrievalError.
- `response.ok` is false exactly for statuses 400..599.
- A skipped non-player record without a `name` raises KeyError in its debug message, which aborts the batch.
- In the bulk card retrieval the body is decoded before the status is checked, inside the `RequestException` handler, so an undecodable body is a request error whatever the status.
- Status 500 from the by-date endpoint means "no decks"; from the by-id endpoint it means "not found".
- A page slice whose end precedes its start is empty rather than an error.
- A decoded body of the wrong shape fails where Python fails: `len` of a number is TypeError, `.get` on a string element is AttributeError, `**` of a non-object is TypeError, and `parse_obj_as` of a non-list is a validation error.
- `restrictions` may validate as null, but its column is not nullable, so storing such a card raises IntegrityError.
