/** The card normaliser of cards/arkhamdb.py: the three pre-validators of
    `ArkhamDBCardInfoResponse` (skills, traits, factions), the strict typing of
    the remaining fields, and the status handling and player-card filter of
    the single-card and bulk retrievals. */
module CardNormaliser {
  import opened Errors
  import opened Json
  import opened Text
  import opened Constants
  import opened CardModels
  import opened Http

  /** The upstream field holding the points of one skill, `skill_<name>`. */
  function SkillField(s: Skill): string {
    "skill_" + SkillValue(s)
  }

  /** The loop of `set_skills`: one entry per skill visited, the raw field's
      value, or 0 when the field is absent. */
  function CollectSkills(raw: Record, skills: seq<Skill>, acc: map<Skill, Json>): (m: map<Skill, Json>)
    ensures forall s :: s in m <==> s in acc || s in skills
    ensures forall s :: s in skills ==> m[s] == (if SkillField(s) in raw then raw[SkillField(s)] else JInt(0))
    ensures forall s :: s in acc && s !in skills ==> m[s] == acc[s]
    decreases |skills|
  {
    if |skills| == 0 then acc
    else
      var s := skills[0];
      var v := if SkillField(s) in raw then raw[SkillField(s)] else JInt(0);
      CollectSkills(raw, skills[1..], acc[s := v])
  }

  /** `set_skills`: the skills map built from the raw record. */
  function RawSkills(raw: Record): map<Skill, Json> {
    CollectSkills(raw, AllSkills, map[])
  }

  /** The skills map always has the five Skill keys, each holding the raw
      `skill_<name>` field or 0 when that field is absent. */
  lemma RawSkillsShape(raw: Record)
    ensures forall s: Skill :: s in RawSkills(raw)
    ensures |RawSkills(raw).Keys| == 5
    ensures forall s: Skill :: RawSkills(raw)[s] == Get(raw, SkillField(s)).GetOr(JInt(0))
  {
    var m := RawSkills(raw);
    forall s: Skill ensures s in m {
      SkillListed(s);
    }
    FiveKeys(m);
  }

  lemma FiveKeys<V>(m: map<Skill, V>)
    requires forall s: Skill :: s in m
    ensures |m.Keys| == 5
  {
    var all := {Intellect, Agility, Willpower, Combat, Wild};
    forall s | s in m.Keys ensures s in all {
      match s
      case Intellect =>
      case Agility =>
      case Willpower =>
      case Combat =>
      case Wild =>
    }
    assert m.Keys == all;
  }

  lemma SkillListed(s: Skill)
    ensures s in AllSkills
  {
    match s
    case Intellect => assert AllSkills[0] == s;
    case Agility => assert AllSkills[1] == s;
    case Willpower => assert AllSkills[2] == s;
    case Combat => assert AllSkills[3] == s;
    case Wild => assert AllSkills[4] == s;
  }

  /** The `dict[Skill, int]` typing of the skills map: every value must be an integer. */
  function SkillPoints(m: map<Skill, Json>): (r: Result<map<Skill, int>>)
    ensures r.Ok? <==> forall s :: s in m ==> m[s].JInt?
    ensures r.Ok? ==> r.value.Keys == m.Keys && forall s :: s in m ==> m[s] == JInt(r.value[s])
  {
    if forall s :: s in m ==> m[s].JInt? then Ok(map s | s in m :: m[s].i) else Rejected()
  }

  /** One trait as `set_traits` writes it: `token.replace(".", "").lower()`. */
  function NormaliseTrait(token: string): string {
    Lower(RemoveChar(token, '.'))
  }

  /** `set_traits`: the raw `traits` field (the empty string when absent) must
      be a string; its whitespace-separated tokens are normalised one by one. */
  function TraitsOf(raw: Record): Result<seq<string>> {
    var v := if "traits" in raw then raw["traits"] else JStr("");
    if !v.JStr? then Rejected()
    else
      var tokens := SplitWhitespace(v.s);
      Ok(seq(|tokens|, i requires 0 <= i < |tokens| => NormaliseTrait(tokens[i])))
  }

  /** A normalised trait has no period, no upper-case ASCII letter and no
      whitespace. */
  predicate IsNormalTrait(t: string) {
    forall i :: 0 <= i < |t| ==> t[i] != '.' && !IsUpper(t[i]) && !IsSpace(t[i])
  }

  lemma NormaliseTraitShape(token: string)
    requires NoSpace(token)
    ensures IsNormalTrait(NormaliseTrait(token))
    ensures |NormaliseTrait(token)| <= |token|
  {
    var r := RemoveChar(token, '.');
    RemoveCharKeeps(token, '.');
  }

  lemma {:induction false} RemoveCharKeeps(s: string, c: char)
    ensures forall i :: 0 <= i < |RemoveChar(s, c)| ==> RemoveChar(s, c)[i] in s
    decreases |s|
  {
    if |s| > 0 {
      RemoveCharKeeps(s[1..], c);
      var tail := RemoveChar(s[1..], c);
      var head := if s[0] == c then "" else [s[0]];
      assert RemoveChar(s, c) == head + tail;
      forall i | 0 <= i < |RemoveChar(s, c)| ensures RemoveChar(s, c)[i] in s {
        if i < |head| {
          assert RemoveChar(s, c)[i] == s[0];
        } else {
          assert RemoveChar(s, c)[i] == tail[i - |head|];
          assert tail[i - |head|] in s[1..];
        }
      }
    }
  }

  lemma {:induction false} RemoveCharAbsent(s: string, c: char)
    requires forall i :: 0 <= i < |s| ==> s[i] != c
    ensures RemoveChar(s, c) == s
    decreases |s|
  {
    if |s| > 0 {
      RemoveCharAbsent(s[1..], c);
      assert s == [s[0]] + s[1..];
    }
  }

  /** Normalising an already normalised trait changes nothing. */
  lemma NormaliseTraitIdempotent(t: string)
    ensures NormaliseTrait(NormaliseTrait(t)) == NormaliseTrait(t)
  {
    var n := NormaliseTrait(t);
    RemoveCharAbsent(n, '.');
  }

  /** Traits: a present field that is not a string, null included, is
      rejected, and an absent one gives no traits; otherwise there is one
      normalised trait per whitespace-separated token, in token order. */
  lemma TraitsSpec(raw: Record)
    ensures TraitsOf(raw).Ok? <==> "traits" !in raw || raw["traits"].JStr?
    ensures "traits" !in raw ==> TraitsOf(raw) == Ok([])
    ensures "traits" in raw && raw["traits"] == JNull ==> TraitsOf(raw).Err?
    ensures "traits" in raw && raw["traits"].JStr? ==>
              var tokens := SplitWhitespace(raw["traits"].s);
              && |TraitsOf(raw).value| == |tokens|
              && forall i :: 0 <= i < |tokens| ==>
                   TraitsOf(raw).value[i] == NormaliseTrait(tokens[i]) && IsNormalTrait(TraitsOf(raw).value[i])
  {
    if "traits" !in raw {
      SplitWhitespaceOfWord("");
    } else if raw["traits"].JStr? {
      var tokens := SplitWhitespace(raw["traits"].s);
      SplitWhitespaceTokens(raw["traits"].s);
      forall i | 0 <= i < |tokens| ensures IsNormalTrait(NormaliseTrait(tokens[i])) {
        assert tokens[i] in tokens;
        NormaliseTraitShape(tokens[i]);
      }
    }
  }

  /** The fields `set_factions` reads, in the order it reads them. */
  const FactionFields: seq<string> := ["faction_code", "faction1_code", "faction2_code", "faction3_code"]

  /** The loop of `set_factions` over `fields`: a falsy or absent field is
      passed over, `"mythos"` rejects the record as an encounter card, and any
      other value must be a Faction value. */
  function CollectFactions(raw: Record, fields: seq<string>): Result<seq<Faction>>
    decreases |fields|
  {
    if |fields| == 0 then Ok([])
    else
      var v := Get(raw, fields[0]);
      if v.Some? && Truthy(v.value) then
        if v.value == JStr(FactionValue(Mythos)) then Rejected()
        else if v.value.JStr? && FactionOf(v.value.s).Some? then
          var rest :- CollectFactions(raw, fields[1..]);
          Ok([FactionOf(v.value.s).value] + rest)
        else Rejected()
      else CollectFactions(raw, fields[1..])
  }

  function FactionsOf(raw: Record): Result<seq<Faction>> {
    CollectFactions(raw, FactionFields)
  }

  /** The truthy values among `fields`, in order. */
  function TruthyValues(raw: Record, fields: seq<string>): (vs: seq<Json>)
    ensures |vs| <= |fields|
  {
    if |fields| == 0 then []
    else
      var v := Get(raw, fields[0]);
      (if v.Some? && Truthy(v.value) then [v.value] else []) + TruthyValues(raw, fields[1..])
  }

  /** A faction code `set_factions` accepts: a Faction value other than mythos. */
  predicate IsPlayerFactionCode(v: Json) {
    v.JStr? && FactionOf(v.s).Some? && FactionOf(v.s).value != Mythos
  }

  predicate AllPlayerFactionCodes(vs: seq<Json>) {
    forall i :: 0 <= i < |vs| ==> IsPlayerFactionCode(vs[i])
  }

  /** The loop accepts exactly when every truthy value is a player faction code. */
  lemma {:induction false} CollectFactionsAccepts(raw: Record, fields: seq<string>)
    ensures CollectFactions(raw, fields).Ok? <==> AllPlayerFactionCodes(TruthyValues(raw, fields))
    decreases |fields|
  {
    if |fields| > 0 {
      CollectFactionsAccepts(raw, fields[1..]);
      var v := Get(raw, fields[0]);
      var vs := TruthyValues(raw, fields);
      var rest := TruthyValues(raw, fields[1..]);
      if v.Some? && Truthy(v.value) {
        assert vs == [v.value] + rest;
        AllPlayerFactionCodesCons(v.value, rest);
        if IsPlayerFactionCode(v.value) {
          assert v.value != JStr(FactionValue(Mythos));
          assert CollectFactions(raw, fields).Ok? <==> CollectFactions(raw, fields[1..]).Ok?;
        } else {
          assert CollectFactions(raw, fields).Err?;
        }
      } else {
        assert vs == rest;
        assert CollectFactions(raw, fields) == CollectFactions(raw, fields[1..]);
      }
    }
  }

  lemma AllPlayerFactionCodesCons(v: Json, rest: seq<Json>)
    ensures AllPlayerFactionCodes([v] + rest) <==> IsPlayerFactionCode(v) && AllPlayerFactionCodes(rest)
  {
    var vs := [v] + rest;
    assert vs[0] == v;
    assert forall j :: 0 <= j < |rest| ==> vs[j + 1] == rest[j];
  }

  /** An accepted record's factions correspond one to one, in order, to its
      truthy faction values, and none is MYTHOS. */
  lemma {:induction false} CollectFactionsValues(raw: Record, fields: seq<string>)
    requires CollectFactions(raw, fields).Ok?
    ensures var vs := TruthyValues(raw, fields);
            var fs := CollectFactions(raw, fields).value;
            |fs| == |vs| && forall i :: 0 <= i < |fs| ==> vs[i] == JStr(FactionValue(fs[i])) && fs[i] != Mythos
    decreases |fields|
  {
    if |fields| > 0 {
      var v := Get(raw, fields[0]);
      var vs := TruthyValues(raw, fields);
      var rest := TruthyValues(raw, fields[1..]);
      CollectFactionsValues(raw, fields[1..]);
      var tail := CollectFactions(raw, fields[1..]).value;
      if v.Some? && Truthy(v.value) {
        assert vs == [v.value] + rest;
        assert IsPlayerFactionCode(v.value);
        assert CollectFactions(raw, fields).value == [FactionOf(v.value.s).value] + tail;
        FactionsCons(v.value, rest, tail);
      } else {
        assert vs == rest;
      }
    }
  }

  /** Prepending a player faction code and its faction keeps the two lists
      in correspondence. */
  lemma FactionsCons(v: Json, rest: seq<Json>, tail: seq<Faction>)
    requires IsPlayerFactionCode(v)
    requires |tail| == |rest| && forall i :: 0 <= i < |tail| ==> rest[i] == JStr(FactionValue(tail[i])) && tail[i] != Mythos
    ensures var vs := [v] + rest;
            var fs := [FactionOf(v.s).value] + tail;
            |fs| == |vs| && forall i :: 0 <= i < |fs| ==> vs[i] == JStr(FactionValue(fs[i])) && fs[i] != Mythos
  {
    var vs := [v] + rest;
    var fs := [FactionOf(v.s).value] + tail;
    forall i | 0 <= i < |fs|
      ensures vs[i] == JStr(FactionValue(fs[i])) && fs[i] != Mythos
    {
      if i > 0 {
        assert vs[i] == rest[i - 1] && fs[i] == tail[i - 1];
      }
    }
  }

  /** Factions are the truthy values of faction_code, faction1_code,
      faction2_code and faction3_code in that order, without de-duplication,
      so at most four; a record is rejected exactly when one of them is
      `"mythos"` or no Faction value at all, so MYTHOS never appears. */
  lemma FactionsSpec(raw: Record)
    ensures var vs := TruthyValues(raw, FactionFields);
      && (FactionsOf(raw).Ok? <==> forall i :: 0 <= i < |vs| ==> IsPlayerFactionCode(vs[i]))
      && (FactionsOf(raw).Ok? ==>
            var fs := FactionsOf(raw).value;
            && |fs| == |vs| <= 4
            && Mythos !in fs
            && forall i :: 0 <= i < |fs| ==> vs[i] == JStr(FactionValue(fs[i])))
  {
    CollectFactionsAccepts(raw, FactionFields);
    if FactionsOf(raw).Ok? {
      CollectFactionsValues(raw, FactionFields);
    }
  }

  /** A record carrying `"mythos"` in any faction field is rejected. */
  lemma MythosRejected(raw: Record, field: string)
    requires field in FactionFields
    requires Get(raw, field) == Some(JStr("mythos"))
    ensures FactionsOf(raw).Err?
  {
    FactionsSpec(raw);
    MythosAmongTruthy(raw, FactionFields, field);
  }

  lemma {:induction false} MythosAmongTruthy(raw: Record, fields: seq<string>, field: string)
    requires field in fields
    requires Get(raw, field) == Some(JStr("mythos"))
    ensures JStr("mythos") in TruthyValues(raw, fields)
    decreases |fields|
  {
    if fields[0] != field {
      MythosAmongTruthy(raw, fields[1..], field);
    }
  }

  /** `restrictions: dict | None = Field(default_factory=dict)`. */
  function RestrictionsOf(v: Option<Json>): Result<Option<seq<(string, Json)>>> {
    if v.None? then Ok(Some([]))
    else if v.value.JNull? then Ok(None)
    else if v.value.JObject? then Ok(Some(v.value.members))
    else Rejected()
  }

  /** The strict typing of every field of `ArkhamDBCardInfoResponse`, once the
      pre-validators have put the derived skills, traits and factions in place. */
  function BuildCard(raw: Record, skills: map<Skill, int>, traits: seq<string>, factions: seq<Faction>): (r: Result<Card>)
    ensures r.Ok? ==> r.value.skills == skills && r.value.traits == traits && r.value.factions == factions
    ensures r.Ok? ==> Aliased(raw, "code", "card_id") == Some(JStr(r.value.cardId))
    ensures r.Ok? ==> Get(raw, "name") == Some(JStr(r.value.name)) && Get(raw, "url") == Some(JStr(r.value.url))
    ensures r.Ok? ==> OptionalInt(Get(raw, "xp")) == Ok(r.value.xp)
  {
    var name :- RequiredStr(Get(raw, "name"));
    var subname :- OptionalStr(Get(raw, "subname"));
    var packName :- RequiredStr(Get(raw, "pack_name"));
    var typeName :- RequiredStr(Get(raw, "type_name"));
    var subtypeName :- OptionalStr(Get(raw, "subtype_name"));
    var exceptional :- RequiredBool(Get(raw, "exceptional"));
    var myriad :- RequiredBool(Get(raw, "myriad"));
    var cardId :- RequiredStr(Aliased(raw, "code", "card_id"));
    var cost :- OptionalInt(Get(raw, "cost"));
    var text :- OptionalStr(Get(raw, "text"));
    var xp :- OptionalInt(Get(raw, "xp"));
    var deckLimit :- OptionalInt(Get(raw, "deck_limit"));
    var isUnique :- RequiredBool(Get(raw, "is_unique"));
    var permanent :- RequiredBool(Get(raw, "permanent"));
    var octgnId :- OptionalStr(Get(raw, "octgn_id"));
    var url :- RequiredStr(Get(raw, "url"));
    var imagesrc :- OptionalStr(Get(raw, "imagesrc"));
    var restrictions :- RestrictionsOf(Get(raw, "restrictions"));
    Ok(Card(name, subname, packName, typeName, subtypeName, factions, exceptional, myriad, cardId,
            cost, text, skills, xp, deckLimit, traits, isUnique, permanent, octgnId, url, imagesrc,
            restrictions))
  }

  /** Every remaining field of the record has the type `ArkhamDBCardInfoResponse`
      declares: the required strings and booleans present with that type, the
      optional strings and integers absent, null or of that type, and
      `restrictions` absent, null or an object. */
  predicate CardFieldsTyped(raw: Record) {
    && IsStr(Get(raw, "name")) && MaybeStr(Get(raw, "subname"))
    && IsStr(Get(raw, "pack_name")) && IsStr(Get(raw, "type_name")) && MaybeStr(Get(raw, "subtype_name"))
    && IsBool(Get(raw, "exceptional")) && IsBool(Get(raw, "myriad"))
    && IsStr(Aliased(raw, "code", "card_id"))
    && MaybeInt(Get(raw, "cost")) && MaybeStr(Get(raw, "text"))
    && MaybeInt(Get(raw, "xp")) && MaybeInt(Get(raw, "deck_limit"))
    && IsBool(Get(raw, "is_unique")) && IsBool(Get(raw, "permanent"))
    && MaybeStr(Get(raw, "octgn_id")) && IsStr(Get(raw, "url")) && MaybeStr(Get(raw, "imagesrc"))
    && var rs := Get(raw, "restrictions"); rs.None? || rs.value.JNull? || rs.value.JObject?
  }

  /** The field typing accepts a record exactly when every field has its
      declared type; the derived skills, traits and factions play no part. */
  lemma BuildCardAccepts(raw: Record, skills: map<Skill, int>, traits: seq<string>, factions: seq<Faction>)
    ensures BuildCard(raw, skills, traits, factions).Ok? <==> CardFieldsTyped(raw)
  {
    FieldsCheckedTyped(raw);
    TypedFieldsBuild(raw, skills, traits, factions);
  }

  /** Each field's own check, in the order the typing runs them. */
  predicate FieldsChecked(raw: Record) {
    && RequiredStr(Get(raw, "name")).Ok? && OptionalStr(Get(raw, "subname")).Ok?
    && RequiredStr(Get(raw, "pack_name")).Ok? && RequiredStr(Get(raw, "type_name")).Ok?
    && OptionalStr(Get(raw, "subtype_name")).Ok?
    && RequiredBool(Get(raw, "exceptional")).Ok? && RequiredBool(Get(raw, "myriad")).Ok?
    && RequiredStr(Aliased(raw, "code", "card_id")).Ok?
    && OptionalInt(Get(raw, "cost")).Ok? && OptionalStr(Get(raw, "text")).Ok?
    && OptionalInt(Get(raw, "xp")).Ok? && OptionalInt(Get(raw, "deck_limit")).Ok?
    && RequiredBool(Get(raw, "is_unique")).Ok? && RequiredBool(Get(raw, "permanent")).Ok?
    && OptionalStr(Get(raw, "octgn_id")).Ok? && RequiredStr(Get(raw, "url")).Ok?
    && OptionalStr(Get(raw, "imagesrc")).Ok? && RestrictionsOf(Get(raw, "restrictions")).Ok?
  }

  lemma FieldsCheckedTyped(raw: Record)
    ensures FieldsChecked(raw) <==> CardFieldsTyped(raw)
  {
  }

  /** The typing fails exactly when some field's check fails. */
  lemma TypedFieldsBuild(raw: Record, skills: map<Skill, int>, traits: seq<string>, factions: seq<Faction>)
    ensures BuildCard(raw, skills, traits, factions).Ok? <==> FieldsChecked(raw)
  {
  }

  /** `ArkhamDBCardInfoResponse(**raw)` succeeds exactly when the traits,
      factions and skill points validate and every other field has its
      declared type. */
  lemma NormaliseAccepts(raw: Record)
    ensures Normalise(raw).Ok? <==>
              && TraitsOf(raw).Ok? && FactionsOf(raw).Ok? && SkillPoints(RawSkills(raw)).Ok?
              && CardFieldsTyped(raw)
  {
    if TraitsOf(raw).Ok? && FactionsOf(raw).Ok? && SkillPoints(RawSkills(raw)).Ok? {
      BuildCardAccepts(raw, SkillPoints(RawSkills(raw)).value, TraitsOf(raw).value, FactionsOf(raw).value);
    }
  }

  /** A card's restrictions are what `RestrictionsOf` reads from the record. */
  lemma BuildCardRestrictions(raw: Record, skills: map<Skill, int>, traits: seq<string>, factions: seq<Faction>)
    requires BuildCard(raw, skills, traits, factions).Ok?
    ensures RestrictionsOf(Get(raw, "restrictions")) == Ok(BuildCard(raw, skills, traits, factions).value.restrictions)
  {
  }

  /** Restrictions read from a loaded record, when present, name each key
      once, whatever the document repeats: absent, they are the empty
      default; given, they are the object as loaded. */
  lemma RestrictionsCollapsed(members: seq<(string, Json)>)
    requires RestrictionsOf(Get(AsRecord(members), "restrictions")).Ok?
    requires RestrictionsOf(Get(AsRecord(members), "restrictions")).value.Some?
    ensures DistinctKeys(RestrictionsOf(Get(AsRecord(members), "restrictions")).value.value)
  {
    if "restrictions" in AsRecord(members) {
      RecordValue(members, "restrictions");
    }
  }

  /** `ArkhamDBCardInfoResponse(**raw)`: the pre-validators, then the field types. */
  function Normalise(raw: Record): Result<Card> {
    var traits :- TraitsOf(raw);
    var factions :- FactionsOf(raw);
    var skills :- SkillPoints(RawSkills(raw));
    BuildCard(raw, skills, traits, factions)
  }

  /** A normalised card carries the five skill keys with the raw points (0
      when absent), the traits and factions the validators derive (so no
      MYTHOS and at most four factions), and the code read from `code`. */
  lemma NormaliseSpec(raw: Record)
    ensures TraitsOf(raw).Err? || FactionsOf(raw).Err? ==> Normalise(raw).Err?
    ensures Normalise(raw).Ok? ==>
      var c := Normalise(raw).value;
      && (forall s: Skill :: s in c.skills && JInt(c.skills[s]) == Get(raw, SkillField(s)).GetOr(JInt(0)))
      && |c.skills.Keys| == 5
      && TraitsOf(raw) == Ok(c.traits)
      && FactionsOf(raw) == Ok(c.factions)
      && Mythos !in c.factions && |c.factions| <= 4
      && Aliased(raw, "code", "card_id") == Some(JStr(c.cardId))
      && Get(raw, "name") == Some(JStr(c.name))
  {
    if Normalise(raw).Ok? {
      var traits := TraitsOf(raw).value;
      var factions := FactionsOf(raw).value;
      var m := RawSkills(raw);
      var skills := SkillPoints(m).value;
      assert Normalise(raw) == BuildCard(raw, skills, traits, factions);
      var c := Normalise(raw).value;
      assert c.skills == skills && c.traits == traits && c.factions == factions;
      RawSkillsShape(raw);
      FactionsSpec(raw);
      forall s: Skill
        ensures s in c.skills && JInt(c.skills[s]) == Get(raw, SkillField(s)).GetOr(JInt(0))
      {
        assert s in m && m[s] == JInt(skills[s]);
      }
      FiveKeys(c.skills);
    }
  }

  /** The card types the bulk retrieval keeps, the values of PlayerCardType. */
  const PlayerCardTypeValues: set<string> :=
    {PlayerCardTypeValue(AssetType), PlayerCardTypeValue(EventType), PlayerCardTypeValue(SkillType)}

  /** The bulk filter: a player card by type, or a weakness by subtype. */
  predicate IsPlayerCard(raw: Record) {
    var t := Get(raw, "type_code");
    var st := Get(raw, "subtype_code");
    || (t.Some? && t.value.JStr? && t.value.s in PlayerCardTypeValues)
    || st == Some(JStr("basicweakness"))
    || st == Some(JStr("weakness"))
  }

  /** What the bulk loop does with one upstream element. A skipped record is
      named in a debug message built before the level check, so one without
      `name` raises KeyError; a kept record is validated; an element that is
      not an object has no `.get` and raises AttributeError. */
  datatype Verdict = Skipped | Unnamed | Kept(card: Result<Card>) | NotObject

  function Screen(raw: Record): (v: Verdict)
    ensures v.Kept? <==> IsPlayerCard(raw)
    ensures v.Kept? ==> v.card == Normalise(raw)
    ensures v == Unnamed <==> !IsPlayerCard(raw) && "name" !in raw
  {
    if !IsPlayerCard(raw) then (if "name" in raw then Skipped else Unnamed)
    else Kept(Normalise(raw))
  }

  /** The loop of the bulk retrieval over the screened records. A KeyError or
      a CardDataRetrievalError raised for one record escapes through
      `except Exception` as a bare Exception that aborts the whole batch. */
  function Gather(verdicts: seq<Verdict>): Result<seq<Card>>
    decreases |verdicts|
  {
    if |verdicts| == 0 then Ok([])
    else
      match verdicts[0]
      case Skipped => Gather(verdicts[1..])
      case Unnamed => Err(Unexpected(Raised(KeyError)))
      case NotObject => Err(Unexpected(Raised(AttributeError)))
      case Kept(Err(_)) => Err(Unexpected(CardDataRetrievalError(Invalid)))
      case Kept(Ok(card)) =>
        var rest :- Gather(verdicts[1..]);
        Ok([card] + rest)
  }

  /** A verdict the loop gets past without raising. */
  predicate Passes(v: Verdict) {
    v == Skipped || (v.Kept? && v.card.Ok?)
  }

  /** The validated cards of the kept records, in order. */
  function KeptCards(verdicts: seq<Verdict>): seq<Card>
    requires forall i :: 0 <= i < |verdicts| ==> Passes(verdicts[i])
  {
    if |verdicts| == 0 then []
    else
      assert Passes(verdicts[0]);
      (if verdicts[0].Kept? then [verdicts[0].card.value] else []) + KeptCards(verdicts[1..])
  }

  /** The loop succeeds exactly when every record passes, and then returns
      the kept records' cards in upstream order; a failure is always a bare
      Exception. */
  lemma {:induction false} GatherSpec(verdicts: seq<Verdict>)
    ensures Gather(verdicts).Ok? <==> forall i :: 0 <= i < |verdicts| ==> Passes(verdicts[i])
    ensures Gather(verdicts).Ok? ==> Gather(verdicts).value == KeptCards(verdicts)
    ensures Gather(verdicts).Err? ==> Gather(verdicts).error.Unexpected?
    decreases |verdicts|
  {
    if |verdicts| > 0 {
      var tail := verdicts[1..];
      GatherSpec(tail);
      assert (forall i :: 0 <= i < |verdicts| ==> Passes(verdicts[i]))
         <==> Passes(verdicts[0]) && (forall j :: 0 <= j < |tail| ==> Passes(tail[j])) by {
        if Passes(verdicts[0]) && (forall j :: 0 <= j < |tail| ==> Passes(tail[j])) {
          forall i | 0 <= i < |verdicts| ensures Passes(verdicts[i]) {
            if i > 0 {
              assert verdicts[i] == tail[i - 1];
            }
          }
        }
      }
    }
  }

  /** The verdict on each upstream record, in order. */
  function Screens(records: seq<Record>): (vs: seq<Verdict>)
    ensures |vs| == |records| && forall i :: 0 <= i < |records| ==> vs[i] == Screen(records[i])
  {
    seq(|records|, i requires 0 <= i < |records| => Screen(records[i]))
  }

  function Collect(records: seq<Record>): Result<seq<Card>> {
    Gather(Screens(records))
  }

  /** The records the bulk filter keeps, in upstream order. */
  function PlayerRecords(records: seq<Record>): (kept: seq<Record>)
    ensures forall r :: r in kept ==> r in records && IsPlayerCard(r)
  {
    if |records| == 0 then [] else HeadRecord(records) + PlayerRecords(records[1..])
  }

  /** The first record if the filter keeps it. */
  function HeadRecord(records: seq<Record>): seq<Record>
    requires |records| > 0
  {
    if IsPlayerCard(records[0]) then [records[0]] else []
  }

  function NormaliseAll(records: seq<Record>): (cards: seq<Card>)
    requires forall r :: r in records ==> Normalise(r).Ok?
    ensures |cards| == |records|
    ensures forall i :: 0 <= i < |records| ==> Ok(cards[i]) == Normalise(records[i])
    decreases |records|
  {
    if records == [] then []
    else
      var rest := NormaliseAll(records[1..]);
      assert forall i :: 1 <= i < |records| ==> records[i] == records[1..][i - 1];
      [Normalise(records[0]).value] + rest
  }

  /** When every record passes, every kept record validates. */
  lemma PlayerRecordsValidate(records: seq<Record>)
    requires forall i :: 0 <= i < |records| ==> Passes(Screen(records[i]))
    ensures forall r :: r in PlayerRecords(records) ==> Normalise(r).Ok?
  {
    forall r | r in PlayerRecords(records)
      ensures Normalise(r).Ok?
    {
      var i :| 0 <= i < |records| && records[i] == r;
      assert Passes(Screen(records[i]));
    }
  }

  lemma KeptCardsStep(records: seq<Record>)
    requires |records| > 0 && forall i :: 0 <= i < |records| ==> Passes(Screen(records[i]))
    ensures Passes(Screen(records[0]))
    ensures forall j :: 0 <= j < |records[1..]| ==> Passes(Screen(records[1..][j]))
    ensures IsPlayerCard(records[0]) ==>
              Normalise(records[0]).Ok? &&
              KeptCards(Screens(records)) == [Normalise(records[0]).value] + KeptCards(Screens(records[1..]))
    ensures !IsPlayerCard(records[0]) ==> KeptCards(Screens(records)) == KeptCards(Screens(records[1..]))
  {
    var vs := Screens(records);
    var tail := records[1..];
    assert Passes(Screen(records[0]));
    forall j | 0 <= j < |tail|
      ensures Passes(Screen(tail[j]))
    {
      assert tail[j] == records[j + 1];
    }
    assert vs[1..] == Screens(tail);
  }

  lemma PlayerRecordsKept(records: seq<Record>)
    requires |records| > 0 && IsPlayerCard(records[0])
    requires forall r :: r in PlayerRecords(records) ==> Normalise(r).Ok?
    ensures Normalise(records[0]).Ok?
    ensures forall r :: r in PlayerRecords(records[1..]) ==> Normalise(r).Ok?
    ensures NormaliseAll(PlayerRecords(records)) == [Normalise(records[0]).value] + NormaliseAll(PlayerRecords(records[1..]))
  {
    var kept := PlayerRecords(records[1..]);
    var all := PlayerRecords(records);
    assert all == [records[0]] + kept;
    assert records[0] in all;
    assert forall r :: r in kept ==> r in all;
    NormaliseAllCons(records[0], kept);
  }

  lemma PlayerRecordsSkipped(records: seq<Record>)
    requires |records| > 0 && !IsPlayerCard(records[0])
    requires forall r :: r in PlayerRecords(records) ==> Normalise(r).Ok?
    ensures PlayerRecords(records) == PlayerRecords(records[1..])
  {
    assert HeadRecord(records) == [];
  }

  lemma NormaliseAllCons(r: Record, rs: seq<Record>)
    requires Normalise(r).Ok? && forall x :: x in rs ==> Normalise(x).Ok?
    ensures NormaliseAll([r] + rs) == [Normalise(r).value] + NormaliseAll(rs)
  {
    assert ([r] + rs)[1..] == rs;
  }

  /** The cards the loop keeps are the validated kept records, in order. */
  lemma {:induction false} KeptCardsArePlayerRecords(records: seq<Record>)
    requires forall i :: 0 <= i < |records| ==> Passes(Screen(records[i]))
    ensures forall r :: r in PlayerRecords(records) ==> Normalise(r).Ok?
    ensures KeptCards(Screens(records)) == NormaliseAll(PlayerRecords(records))
    decreases |records|
  {
    PlayerRecordsValidate(records);
    if |records| > 0 {
      KeptCardsStep(records);
      if IsPlayerCard(records[0]) {
        PlayerRecordsKept(records);
      } else {
        PlayerRecordsSkipped(records);
      }
      KeptCardsArePlayerRecords(records[1..]);
    }
  }

  /** The bulk loop keeps a record exactly when its type is asset, event or
      skill or its subtype is basicweakness or weakness; it succeeds exactly
      when every kept record validates and every skipped one has a name, and
      then returns the kept records' cards in upstream order. Any failure
      aborts the whole batch with a bare Exception. */
  lemma CollectSpec(records: seq<Record>)
    ensures Collect(records).Ok? <==>
              forall i :: 0 <= i < |records| ==>
                (if IsPlayerCard(records[i]) then Normalise(records[i]).Ok? else "name" in records[i])
    ensures Collect(records).Ok? ==>
              (forall r :: r in PlayerRecords(records) ==> Normalise(r).Ok?) &&
              Collect(records).value == NormaliseAll(PlayerRecords(records))
    ensures Collect(records).Err? ==> Collect(records).error.Unexpected?
  {
    var vs := Screens(records);
    GatherSpec(vs);
    assert forall i :: 0 <= i < |records| ==>
      (Passes(vs[i]) <==> if IsPlayerCard(records[i]) then Normalise(records[i]).Ok? else "name" in records[i]);
    if Collect(records).Ok? {
      KeptCardsArePlayerRecords(records);
    }
  }

  /** A record the bulk loop gets past: a kept record that validates, or a
      skipped one with a name. */
  predicate Acceptable(raw: Record) {
    if IsPlayerCard(raw) then Normalise(raw).Ok? else "name" in raw
  }

  /** The verdict on one element of the decoded body. */
  function ScreenItem(item: Json): (v: Verdict)
    ensures item.JObject? ==> v == Screen(AsRecord(item.members))
    ensures !item.JObject? ==> v == NotObject
  {
    if item.JObject? then Screen(AsRecord(item.members)) else NotObject
  }

  function ScreenItems(items: seq<Json>): (vs: seq<Verdict>)
    ensures |vs| == |items| && forall i :: 0 <= i < |items| ==> vs[i] == ScreenItem(items[i])
  {
    seq(|items|, i requires 0 <= i < |items| => ScreenItem(items[i]))
  }

  /** The records of a body all of whose elements are objects. */
  function ItemRecords(items: seq<Json>): (records: seq<Record>)
    requires forall i :: 0 <= i < |items| ==> items[i].JObject?
    ensures |records| == |items| && forall i :: 0 <= i < |items| ==> records[i] == AsRecord(items[i].members)
  {
    seq(|items|, i requires 0 <= i < |items| => AsRecord(items[i].members))
  }

  /** What `for card_info in response.json()` iterates over: a list's items,
      an object's keys (each once, a repeated key collapsed as `json.loads`
      does) or a string's characters. */
  function Elements(v: Json): (items: seq<Json>)
    requires Sized(v)
    ensures v.JList? ==> items == v.items
    ensures !v.JList? ==> forall i :: 0 <= i < |items| ==> items[i].JStr?
    ensures v.JObject? ==> |items| == |FirstKeys(v.members)| && forall k :: JStr(k) in items <==> HasKey(v.members, k)
    ensures v.JStr? ==> |items| == |v.s|
  {
    match v
    case JList(items) => items
    case JObject(members) =>
      var ks := FirstKeys(members);
      var items := seq(|ks|, i requires 0 <= i < |ks| => JStr(ks[i]));
      assert forall k :: JStr(k) in items <==> k in ks by {
        forall k ensures JStr(k) in items <==> k in ks {
          if JStr(k) in items {
            var i :| 0 <= i < |items| && items[i] == JStr(k);
            assert ks[i] == k;
          }
          if k in ks {
            var i :| 0 <= i < |ks| && ks[i] == k;
            assert items[i] == JStr(k);
          }
        }
      }
      items
    case JStr(text) => seq(|text|, i requires 0 <= i < |text| => JStr([text[i]]))
  }

  function CollectItems(items: seq<Json>): Result<seq<Card>> {
    Gather(ScreenItems(items))
  }

  /** The bulk loop over decoded elements succeeds exactly when every element
      is an object the loop gets past, and then it is the loop over their
      records; any failure is a bare Exception. */
  lemma CollectItemsSpec(items: seq<Json>)
    ensures CollectItems(items).Ok? <==>
              forall i :: 0 <= i < |items| ==> items[i].JObject? && Acceptable(AsRecord(items[i].members))
    ensures CollectItems(items).Ok? ==>
              && (forall i :: 0 <= i < |items| ==> items[i].JObject?)
              && (forall raw :: raw in PlayerRecords(ItemRecords(items)) ==> Normalise(raw).Ok?)
              && CollectItems(items).value == NormaliseAll(PlayerRecords(ItemRecords(items)))
    ensures CollectItems(items).Err? ==> CollectItems(items).error.Unexpected?
  {
    var vs := ScreenItems(items);
    GatherSpec(vs);
    if forall i :: 0 <= i < |items| ==> items[i].JObject? {
      var records := ItemRecords(items);
      assert vs == Screens(records);
      CollectSpec(records);
    } else {
      var i :| 0 <= i < |items| && !items[i].JObject?;
      assert !Passes(vs[i]);
    }
  }

  /** `retrieve_all_card_info_from_arkhamdb`. The body is decoded and measured
      with `len` before the status is checked: a body that is not JSON is
      reported as a failed request whatever the status, and one `len` rejects
      raises TypeError unwrapped. The loop then runs over the body's
      elements. */
  function RetrieveAll(response: Response<Json>): (r: Result<seq<Card>>)
    ensures response.RequestFailed? || response.body.None? ==> r == Err(CardDataRetrievalError(RequestError))
    ensures response.Received? && response.body.Some? && !Sized(response.body.value) ==> r == Err(Raised(TypeError))
    ensures response.Received? && response.body.Some? && Sized(response.body.value) && !IsOk(response.status) ==>
              r == Err(CardDataRetrievalError(BadStatus(response.status)))
    ensures r.Ok? <==> (response.Received? && IsOk(response.status) && response.body.Some?
                        && Sized(response.body.value)
                        && var items := Elements(response.body.value);
                           forall i :: 0 <= i < |items| ==> items[i].JObject? && Acceptable(AsRecord(items[i].members)))
    ensures r.Ok? ==> var items := Elements(response.body.value);
                      && (forall i :: 0 <= i < |items| ==> items[i].JObject?)
                      && (forall raw :: raw in PlayerRecords(ItemRecords(items)) ==> Normalise(raw).Ok?)
                      && r.value == NormaliseAll(PlayerRecords(ItemRecords(items)))
    ensures r.Err? && response.Received? && IsOk(response.status) && response.body.Some? && Sized(response.body.value) ==>
              r.error.Unexpected?
  {
    match response
    case RequestFailed => Err(CardDataRetrievalError(RequestError))
    case Received(status, body) =>
      if body.None? then Err(CardDataRetrievalError(RequestError))
      else if !Sized(body.value) then Err(Raised(TypeError))
      else if !IsOk(status) then Err(CardDataRetrievalError(BadStatus(status)))
      else
        var items := Elements(body.value);
        CollectItemsSpec(items);
        CollectItems(items)
  }

  /** A body that is an object or a string rather than a list yields no card
      when it is empty and aborts the batch otherwise, since its first
      element is a string with no `.get`. */
  lemma RetrieveAllNotAList(status: int, body: Json)
    requires IsOk(status) && (body.JObject? || body.JStr?)
    ensures var r := RetrieveAll(Received(status, Some(body)));
            && (Elements(body) == [] ==> r == Ok([]))
            && (Elements(body) != [] ==> r == Err(Unexpected(Raised(AttributeError))))
  {
    var items := Elements(body);
    if items != [] {
      assert ScreenItems(items)[0] == NotObject;
    }
  }

  /** `retrieve_card_info_from_arkhamdb`: no player-card filter. A failed
      request, a non-ok status or a rejected record is a
      CardDataRetrievalError; a body that is not JSON escapes unwrapped, and
      so does the TypeError of `len` or `**` on a body that is not an
      object. */
  function RetrieveOne(response: Response<Json>): (r: Result<Card>)
    ensures r.Ok? <==> (response.Received? && IsOk(response.status) && response.body.Some?
                        && response.body.value.JObject? && Normalise(AsRecord(response.body.value.members)).Ok?)
    ensures r.Ok? ==> Ok(r.value) == Normalise(AsRecord(response.body.value.members))
    ensures response.RequestFailed? ==> r == Err(CardDataRetrievalError(RequestError))
    ensures response.Received? && !IsOk(response.status) ==> r == Err(CardDataRetrievalError(BadStatus(response.status)))
    ensures response.Received? && IsOk(response.status) && response.body.None? ==> r == Err(Raised(JsonDecodeError))
    ensures response.Received? && IsOk(response.status) && response.body.Some? && !response.body.value.JObject? ==>
              r == Err(Raised(TypeError))
    ensures response.Received? && IsOk(response.status) && response.body.Some? && response.body.value.JObject? && r.Err? ==>
              r == Err(CardDataRetrievalError(Invalid))
  {
    match response
    case RequestFailed => Err(CardDataRetrievalError(RequestError))
    case Received(status, body) =>
      if !IsOk(status) then Err(CardDataRetrievalError(BadStatus(status)))
      else if body.None? then Err(Raised(JsonDecodeError))
      else if !body.value.JObject? then Err(Raised(TypeError))
      else match Normalise(AsRecord(body.value.members))
        case Err(_) => Err(CardDataRetrievalError(Invalid))
        case Ok(card) => Ok(card)
  }
}
