/** The decklist record of decks/arkhamdb.py: validation of an upstream
    decklist into `ArkhamDBDecklistResponse` (with both timestamps truncated to
    calendar dates), the fields kept when it is dumped for storage, and the
    status handling of the by-date and by-id retrievals. */
module DeckRecords {
  import opened Errors
  import opened Json
  import opened Http
  import opened Calendar

  /** A validated upstream decklist. Both dates hold `YYYY-MM-DD`. */
  datatype DecklistResponse = DecklistResponse(
    deckId: int,
    deckName: string,
    creationDate: string,
    updateDate: string,
    description: string,
    userId: int,
    investigatorCode: string,
    investigatorName: string,
    slots: seq<(string, int)>,
    sideSlots: seq<(string, int)>,
    ignoreDeckLimitSlots: Json,
    version: string,
    xp: Option<int>,
    xpSpent: Option<int>,
    xpAdjustment: Option<int>,
    exileString: Json,
    tabooId: Json,
    meta: string,
    tags: string,
    previousDeck: Json,
    nextDeck: Json)

  /** The fields `dict(by_alias=False)` keeps: every field not declared with
      `exclude=True`. Slots, side slots, version, experience, exile, taboo,
      meta, tags and the deck links are left behind. */
  datatype DeckFields = DeckFields(
    deckId: int,
    deckName: string,
    creationDate: string,
    updateDate: string,
    description: string,
    userId: int,
    investigatorCode: string,
    investigatorName: string)

  function Dump(r: DecklistResponse): DeckFields {
    DeckFields(r.deckId, r.deckName, r.creationDate, r.updateDate, r.description, r.userId,
               r.investigatorCode, r.investigatorName)
  }

  /** A timestamp field with its truncating validator: the raw value must be
      a string `datetime.fromisoformat` reads; the field keeps its date. */
  function DateField(v: Option<Json>): (r: Result<string>)
    ensures r.Ok? <==> v.Some? && v.value.JStr? && TruncateToDate(v.value.s).Some?
    ensures r.Ok? ==> Some(r.value) == TruncateToDate(v.value.s)
  {
    if v.Some? && v.value.JStr? then
      match TruncateToDate(v.value.s)
      case Some(d) => Ok(d)
      case None => Rejected()
    else Rejected()
  }

  /** The fields of the record that are dumped for storage, validated. The
      id, name, dates and description are read under their upstream aliases
      first. */
  function Header(raw: Record): (r: Result<DeckFields>)
    ensures r.Ok? <==>
              && IsInt(Aliased(raw, "id", "deck_id"))
              && IsStr(Aliased(raw, "name", "deck_name"))
              && DateField(Aliased(raw, "date_creation", "arkhamdb_creation_date")).Ok?
              && DateField(Aliased(raw, "date_update", "arkhamdb_update_date")).Ok?
              && IsStr(Aliased(raw, "description_md", "description"))
              && IsInt(Get(raw, "user_id"))
              && IsStr(Get(raw, "investigator_code"))
              && IsStr(Get(raw, "investigator_name"))
    ensures r.Ok? ==>
              && Aliased(raw, "id", "deck_id") == Some(JInt(r.value.deckId))
              && Aliased(raw, "name", "deck_name") == Some(JStr(r.value.deckName))
              && DateField(Aliased(raw, "date_creation", "arkhamdb_creation_date")) == Ok(r.value.creationDate)
              && DateField(Aliased(raw, "date_update", "arkhamdb_update_date")) == Ok(r.value.updateDate)
              && ParseIsoDate(r.value.creationDate).Some? && ParseIsoDate(r.value.updateDate).Some?
              && Aliased(raw, "description_md", "description") == Some(JStr(r.value.description))
              && Get(raw, "user_id") == Some(JInt(r.value.userId))
              && Get(raw, "investigator_code") == Some(JStr(r.value.investigatorCode))
              && Get(raw, "investigator_name") == Some(JStr(r.value.investigatorName))
  {
    var deckId :- RequiredInt(Aliased(raw, "id", "deck_id"));
    var deckName :- RequiredStr(Aliased(raw, "name", "deck_name"));
    var creationDate :- DateField(Aliased(raw, "date_creation", "arkhamdb_creation_date"));
    var updateDate :- DateField(Aliased(raw, "date_update", "arkhamdb_update_date"));
    var description :- RequiredStr(Aliased(raw, "description_md", "description"));
    var userId :- RequiredInt(Get(raw, "user_id"));
    var investigatorCode :- RequiredStr(Get(raw, "investigator_code"));
    var investigatorName :- RequiredStr(Get(raw, "investigator_name"));
    TruncatedDateParses(Aliased(raw, "date_creation", "arkhamdb_creation_date").value.s);
    TruncatedDateParses(Aliased(raw, "date_update", "arkhamdb_update_date").value.s);
    Ok(DeckFields(deckId, deckName, creationDate, updateDate, description, userId, investigatorCode,
                  investigatorName))
  }

  /** The fields declared with `exclude=True`, which storage leaves behind. */
  datatype DeckContents = DeckContents(
    slots: seq<(string, int)>,
    sideSlots: seq<(string, int)>,
    ignoreDeckLimitSlots: Json,
    version: string,
    xp: Option<int>,
    xpSpent: Option<int>,
    xpAdjustment: Option<int>,
    exileString: Json,
    tabooId: Json,
    meta: string,
    tags: string,
    previousDeck: Json,
    nextDeck: Json)

  /** The excluded fields, validated. Those declared with `Field(...)` must be
      present even where null is allowed; `ignoreDeckLimitSlots` has a
      default. */
  function Contents(raw: Record): (r: Result<DeckContents>)
    ensures r.Ok? <==>
              && IsIntMap(Get(raw, "slots")) && IsIntMap(Get(raw, "sideSlots"))
              && IsStr(Get(raw, "version"))
              && IsIntOrNull(Get(raw, "xp")) && IsIntOrNull(Get(raw, "xp_spent"))
              && IsIntOrNull(Get(raw, "xp_adjustment"))
              && "exile_string" in raw && "taboo_id" in raw
              && IsStr(Get(raw, "meta")) && IsStr(Get(raw, "tags"))
              && "previous_deck" in raw && "next_deck" in raw
    ensures r.Ok? ==>
              && RequiredIntMap(Get(raw, "slots")) == Ok(r.value.slots)
              && RequiredIntMap(Get(raw, "sideSlots")) == Ok(r.value.sideSlots)
              && r.value.ignoreDeckLimitSlots == Get(raw, "ignoreDeckLimitSlots").GetOr(JNull)
              && Get(raw, "version") == Some(JStr(r.value.version))
              && NullableInt(Get(raw, "xp")) == Ok(r.value.xp)
              && NullableInt(Get(raw, "xp_spent")) == Ok(r.value.xpSpent)
              && NullableInt(Get(raw, "xp_adjustment")) == Ok(r.value.xpAdjustment)
              && Get(raw, "exile_string") == Some(r.value.exileString)
              && Get(raw, "taboo_id") == Some(r.value.tabooId)
              && Get(raw, "meta") == Some(JStr(r.value.meta))
              && Get(raw, "tags") == Some(JStr(r.value.tags))
              && Get(raw, "previous_deck") == Some(r.value.previousDeck)
              && Get(raw, "next_deck") == Some(r.value.nextDeck)
  {
    var slots :- RequiredIntMap(Get(raw, "slots"));
    var sideSlots :- RequiredIntMap(Get(raw, "sideSlots"));
    var version :- RequiredStr(Get(raw, "version"));
    var xp :- NullableInt(Get(raw, "xp"));
    var xpSpent :- NullableInt(Get(raw, "xp_spent"));
    var xpAdjustment :- NullableInt(Get(raw, "xp_adjustment"));
    var exileString :- RequiredAny(Get(raw, "exile_string"));
    var tabooId :- RequiredAny(Get(raw, "taboo_id"));
    var meta :- RequiredStr(Get(raw, "meta"));
    var tags :- RequiredStr(Get(raw, "tags"));
    var previousDeck :- RequiredAny(Get(raw, "previous_deck"));
    var nextDeck :- RequiredAny(Get(raw, "next_deck"));
    Ok(DeckContents(slots, sideSlots, Get(raw, "ignoreDeckLimitSlots").GetOr(JNull), version, xp, xpSpent,
                    xpAdjustment, exileString, tabooId, meta, tags, previousDeck, nextDeck))
  }

  /** The part of a decklist that storage leaves behind. */
  function ContentsOf(r: DecklistResponse): DeckContents {
    DeckContents(r.slots, r.sideSlots, r.ignoreDeckLimitSlots, r.version, r.xp, r.xpSpent, r.xpAdjustment,
                 r.exileString, r.tabooId, r.meta, r.tags, r.previousDeck, r.nextDeck)
  }

  /** `ArkhamDBDecklistResponse(**raw)`: pydantic checks every field and
      reports all failures as one ValidationError, so the record validates
      exactly when both groups of fields do, and the decklist is made of the
      two groups. */
  function ParseDecklist(raw: Record): (r: Result<DecklistResponse>)
    ensures r.Ok? <==> Header(raw).Ok? && Contents(raw).Ok?
    ensures r.Ok? ==> Dump(r.value) == Header(raw).value && ContentsOf(r.value) == Contents(raw).value
  {
    var h :- Header(raw);
    var c :- Contents(raw);
    Ok(DecklistResponse(h.deckId, h.deckName, h.creationDate, h.updateDate, h.description, h.userId,
                        h.investigatorCode, h.investigatorName, c.slots, c.sideSlots, c.ignoreDeckLimitSlots,
                        c.version, c.xp, c.xpSpent, c.xpAdjustment, c.exileString, c.tabooId, c.meta, c.tags,
                        c.previousDeck, c.nextDeck))
  }

  /** The card codes of a slot list, each at most once. */
  predicate DistinctCodes(slots: seq<(string, int)>) {
    forall i, j :: 0 <= i < j < |slots| ==> slots[i].0 != slots[j].0
  }

  /** A typed `dict[str, int]` read from a loaded record lists each card code
      once, in the order of its first occurrence in the document. */
  lemma IntMapOfRecordDistinct(members: seq<(string, Json)>, field: string)
    requires RequiredIntMap(Get(AsRecord(members), field)).Ok?
    ensures DistinctCodes(RequiredIntMap(Get(AsRecord(members), field)).value)
  {
    RecordValue(members, field);
    var v := Get(AsRecord(members), field).value;
    var m := RequiredIntMap(Get(AsRecord(members), field)).value;
    assert v == Loads(LastValue(members, field));
    assert DistinctKeys(v.members);
    forall i, j | 0 <= i < j < |m|
      ensures m[i].0 != m[j].0
    {
      assert v.members[i].0 == m[i].0 && v.members[j].0 == m[j].0;
    }
  }

  /** Whatever the document repeats, a validated decklist's `slots` and
      `sideSlots` name each card once, so storage writes one row per card. */
  lemma SlotCodesDistinct(members: seq<(string, Json)>)
    requires ParseDecklist(AsRecord(members)).Ok?
    ensures DistinctCodes(ParseDecklist(AsRecord(members)).value.slots)
    ensures DistinctCodes(ParseDecklist(AsRecord(members)).value.sideSlots)
  {
    IntMapOfRecordDistinct(members, "slots");
    IntMapOfRecordDistinct(members, "sideSlots");
  }

  /** An object with one integer member types to that one slot. */
  lemma SingleSlot(code: string, n: int)
    ensures RequiredIntMap(Some(JObject([(code, JInt(n))]))) == Ok([(code, n)])
  {
    var r := RequiredIntMap(Some(JObject([(code, JInt(n))])));
    assert (code, JInt(n)) in [(code, JInt(n))];
    assert r.Ok?;
    assert |r.value| == 1 && r.value[0] == (code, n);
    assert r.value == [(code, n)];
  }

  /** A card code repeated in `slots` keeps its last count. */
  lemma RepeatedSlotKeepsLast()
    ensures RequiredIntMap(Some(Loads(JObject([("01001", JInt(1)), ("01001", JInt(2))])))) == Ok([("01001", 2)])
  {
    LoadsScalarPair("01001", JInt(1), JInt(2));
    SingleSlot("01001", 2);
  }

  /** A value the last occurrence of a code replaces is never typed: an
      earlier string count does not reject the map. */
  lemma RepeatedSlotOverwritten()
    ensures RequiredIntMap(Some(Loads(JObject([("01001", JStr("x")), ("01001", JInt(2))])))) == Ok([("01001", 2)])
  {
    LoadsScalarPair("01001", JStr("x"), JInt(2));
    SingleSlot("01001", 2);
  }

  /** The stored fields a validated decklist carries: its id under the
      upstream alias, both dates truncated and readable by a `DateField`,
      and the tags string. */
  lemma ParseDecklistStored(raw: Record)
    requires ParseDecklist(raw).Ok?
    ensures var d := ParseDecklist(raw).value;
            && Aliased(raw, "id", "deck_id") == Some(JInt(d.deckId))
            && ParseIsoDate(d.creationDate).Some? && ParseIsoDate(d.updateDate).Some?
            && DateField(Aliased(raw, "date_creation", "arkhamdb_creation_date")) == Ok(d.creationDate)
            && DateField(Aliased(raw, "date_update", "arkhamdb_update_date")) == Ok(d.updateDate)
            && Get(raw, "tags") == Some(JStr(d.tags))
  {
    var d := ParseDecklist(raw).value;
    assert Dump(d) == Header(raw).value;
    assert ContentsOf(d) == Contents(raw).value;
  }

  /** A truncated timestamp is a date the `DateField` column accepts. */
  lemma TruncatedDateParses(ts: string)
    ensures TruncateToDate(ts).Some? ==> ParseIsoDate(TruncateToDate(ts).value) == TimestampDate(ts)
  {
    if TruncateToDate(ts).Some? {
      IsoDateRoundTrip(TimestampDate(ts).value);
    }
  }

  /** The decklist an element of the body validates to: only an object is
      a record. */
  function ParseItem(item: Json): (r: Result<DecklistResponse>)
  {
    if item.JObject? then ParseDecklist(AsRecord(item.members)) else Rejected()
  }

  /** An element validates exactly when it is an object whose record (the
      last of duplicate keys winning) is a valid decklist, and then gives
      that decklist. */
  lemma ParseItemSpec(item: Json)
    ensures ParseItem(item).Ok? <==> item.JObject? && ParseDecklist(AsRecord(item.members)).Ok?
    ensures ParseItem(item).Ok? ==> ParseItem(item) == ParseDecklist(AsRecord(item.members))
    ensures !item.JObject? ==> ParseItem(item) == Rejected()
  {
  }

  /** Validation of a list whose elements are validated by `f`: all or
      nothing, in order. */
  function ValidateAll<T, U>(f: T -> Result<U>, items: seq<T>): (r: Result<seq<U>>)
    ensures r.Ok? <==> forall i :: 0 <= i < |items| ==> f(items[i]).Ok?
    ensures r.Ok? ==> |r.value| == |items| && forall i :: 0 <= i < |items| ==> f(items[i]) == Ok(r.value[i])
  {
    if forall i :: 0 <= i < |items| ==> f(items[i]).Ok? then
      Ok(seq(|items|, i requires 0 <= i < |items| => f(items[i]).value))
    else Rejected()
  }

  /** `parse_obj_as(list[ArkhamDBDecklistResponse], body)` on a list: all or
      nothing, each element an object that validates, in order. */
  function ParseAll(items: seq<Json>): (r: Result<seq<DecklistResponse>>)
    ensures r.Ok? <==> forall i :: 0 <= i < |items| ==> ParseItem(items[i]).Ok?
    ensures r.Ok? ==> |r.value| == |items| && forall i :: 0 <= i < |items| ==> ParseItem(items[i]) == Ok(r.value[i])
  {
    ValidateAll(ParseItem, items)
  }

  /** `retrieve_arkhamdb_decklists_by_date`: status 500 is the upstream's way
      of saying there were no decks that day and gives the empty list; every
      other failure raises, a body that is not JSON unwrapped. A document
      that is not a list is rejected by validation. */
  function ByDate(response: Response<Json>): (r: Result<seq<DecklistResponse>>)
    ensures response.RequestFailed? ==> r == Err(DecklistRetrievalError(RequestError))
    ensures response.Received? && response.status == 500 ==> r == Ok([])
    ensures response.Received? && response.status != 500 && !IsOk(response.status) ==>
              r == Err(DecklistRetrievalError(BadStatus(response.status)))
    ensures response.Received? && IsOk(response.status) && response.body.Some? ==>
              && (r.Ok? <==> response.body.value.JList? && ParseAll(response.body.value.items).Ok?)
              && (r.Ok? ==> r == ParseAll(response.body.value.items))
              && (r.Err? ==> r == Err(DecklistRetrievalError(Invalid)))
    ensures response.Received? && response.status != 500 && IsOk(response.status) && response.body.None? ==>
              r == Err(Raised(JsonDecodeError))
    ensures r.Ok? && r.value != [] ==> response.Received? && IsOk(response.status) && response.body.Some?
                                       && response.body.value.JList?
  {
    match response
    case RequestFailed => Err(DecklistRetrievalError(RequestError))
    case Received(status, body) =>
      if status == 500 then Ok([])
      else if !IsOk(status) then Err(DecklistRetrievalError(BadStatus(status)))
      else if body.None? then Err(Raised(JsonDecodeError))
      else if !body.value.JList? then Err(DecklistRetrievalError(Invalid))
      else match ParseAll(body.value.items)
        case Err(_) => Err(DecklistRetrievalError(Invalid))
        case Ok(decks) => Ok(decks)
  }

  /** `retrieve_arkhamdb_decklist_by_id`: here status 500 means the deck does
      not exist and raises instead of returning nothing, and `**` on a
      document that is not an object raises TypeError. */
  function ById(response: Response<Json>): (r: Result<DecklistResponse>)
    ensures response.RequestFailed? ==> r == Err(DecklistRetrievalError(RequestError))
    ensures response.Received? && response.status == 500 ==> r == Err(DecklistRetrievalError(NotFound))
    ensures response.Received? && response.status != 500 && !IsOk(response.status) ==>
              r == Err(DecklistRetrievalError(BadStatus(response.status)))
    ensures r.Ok? <==> (response.Received? && IsOk(response.status) && response.body.Some?
                        && response.body.value.JObject? && ParseDecklist(AsRecord(response.body.value.members)).Ok?)
    ensures r.Ok? ==> r == ParseDecklist(AsRecord(response.body.value.members))
    ensures response.Received? && response.status != 500 && IsOk(response.status) && response.body.None? ==>
              r == Err(Raised(JsonDecodeError))
    ensures response.Received? && IsOk(response.status) && response.body.Some? && !response.body.value.JObject? ==>
              r == Err(Raised(TypeError))
    ensures response.Received? && IsOk(response.status) && response.body.Some? && response.body.value.JObject? && r.Err? ==>
              r == Err(DecklistRetrievalError(Invalid))
  {
    match response
    case RequestFailed => Err(DecklistRetrievalError(RequestError))
    case Received(status, body) =>
      if status == 500 then Err(DecklistRetrievalError(NotFound))
      else if !IsOk(status) then Err(DecklistRetrievalError(BadStatus(status)))
      else if body.None? then Err(Raised(JsonDecodeError))
      else if !body.value.JObject? then Err(Raised(TypeError))
      else match ParseDecklist(AsRecord(body.value.members))
        case Err(_) => Err(DecklistRetrievalError(Invalid))
        case Ok(deck) => Ok(deck)
  }
}
