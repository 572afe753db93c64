/** The stored card row, `CardInfo` of cards/models.py. Its fields are those of
    the validated upstream card record, so one datatype serves both. */
module CardModels {
  import opened Errors
  import opened Json
  import opened Constants

  datatype Card = Card(
    name: string,
    subname: Option<string>,
    packName: string,
    typeName: string,
    subtypeName: Option<string>,
    factions: seq<Faction>,
    exceptional: bool,
    myriad: bool,
    cardId: string,
    cost: Option<int>,
    text: Option<string>,
    skills: map<Skill, int>,
    xp: Option<int>,
    deckLimit: Option<int>,
    traits: seq<string>,
    isUnique: bool,
    permanent: bool,
    octgnId: Option<string>,
    url: string,
    imagesrc: Option<string>,
    restrictions: Option<seq<(string, Json)>>)

  /** The card table keyed by its primary key `card_id`. */
  type CardStore = map<string, Card>

  /** Every row sits under its own primary key. */
  predicate KeyedByCardId(store: CardStore) {
    forall k :: k in store ==> store[k].cardId == k
  }
}
