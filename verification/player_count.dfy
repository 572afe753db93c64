/** `determine_player_count` of decks/api.py: a deck's title, description and
    tags are matched against three keyword buckets with a fuzzy similarity
    score, and the best match above a threshold names the player count. */
module PlayerCount {
  import opened Errors
  import opened Constants
  import opened Text

  /** `fuzz.partial_ratio(keyword, text)`: a similarity score in 0..100 whose
      computation is not modelled. */
  type Similarity = f: (string, string) -> int | forall a: string, b: string :: 0 <= f(a, b) <= 100
    witness (a: string, b: string) => 0

  /** The keys 1, 2 and 4 of the keyword dictionary. */
  datatype Bucket = One | Two | Four

  const OneKeywords: seq<string> :=
    ["solo", "single", "single-player", "alone", "one player", "1 player", "1-player", "one-player",
     "single player"]
  const TwoKeywords: seq<string> :=
    ["two-handed", "two handed", "2 handed", "2-handed", "duo", "pair", "2 players", "two players",
     "2-player", "two-player", "partner"]
  const FourKeywords: seq<string> :=
    ["four players", "4 players", "4 player", "four player", "4-player", "four-player", "group", "team",
     "quad"]

  /** A score must exceed this to count. */
  const Threshold := 60

  function Tagged(b: Bucket, keywords: seq<string>): (r: seq<(Bucket, string)>)
    ensures |r| == |keywords| && forall i :: 0 <= i < |r| ==> r[i] == (b, keywords[i])
  {
    seq(|keywords|, i requires 0 <= i < |keywords| => (b, keywords[i]))
  }

  /** The dictionary in iteration order, one pair per keyword; a
      "multiplayer" tag leaves out bucket 1. */
  function Candidates(multiplayer: bool): seq<(Bucket, string)> {
    (if multiplayer then [] else Tagged(One, OneKeywords)) + Tagged(Two, TwoKeywords) + Tagged(Four, FourKeywords)
  }

  function Verdict(b: Bucket): PlayerCounts {
    match b
    case One => Solo
    case Two => TwoPlayer
    case Four => FourPlayer
  }

  /** `highest_score` and `num_players` (None for UNKNOWN). */
  datatype Tally = Tally(best: int, bucket: Option<Bucket>)

  /** One scoring loop: a candidate replaces the tally only when its score is
      strictly higher. */
  function Scan(sim: Similarity, cands: seq<(Bucket, string)>, text: string, t: Tally): (r: Tally)
    ensures r.best >= t.best
    ensures r.best == t.best ==> r == t
    ensures r.best > t.best ==> r.bucket.Some?
    decreases |cands|
  {
    if cands == [] then t
    else
      var s := sim(cands[0].1, text);
      Scan(sim, cands[1..], text, if s > t.best then Tally(s, Some(cands[0].0)) else t)
  }

  /** Candidate `i` reaches `m` and no earlier candidate does. */
  predicate FirstReaching(sim: Similarity, cands: seq<(Bucket, string)>, text: string, i: int, m: int)
    requires 0 <= i < |cands|
  {
    sim(cands[i].1, text) == m && forall j :: 0 <= j < i ==> sim(cands[j].1, text) < m
  }

  /** What a scan computes: the maximum of the incoming best and every
      candidate's score, and the bucket of the first candidate reaching it
      when that maximum is new; ties go to the earlier candidate. */
  lemma {:induction false} ScanSpec(sim: Similarity, cands: seq<(Bucket, string)>, text: string, t: Tally)
    ensures var r := Scan(sim, cands, text, t);
            && (forall i :: 0 <= i < |cands| ==> sim(cands[i].1, text) <= r.best)
            && (r.best > t.best ==>
                  exists i :: 0 <= i < |cands| && FirstReaching(sim, cands, text, i, r.best)
                              && r.bucket == Some(cands[i].0))
    decreases |cands|
  {
    if cands != [] {
      var s := sim(cands[0].1, text);
      var t' := if s > t.best then Tally(s, Some(cands[0].0)) else t;
      var rest := cands[1..];
      var r := Scan(sim, rest, text, t');
      assert r == Scan(sim, cands, text, t);
      ScanSpec(sim, rest, text, t');
      forall i | 0 <= i < |cands|
        ensures sim(cands[i].1, text) <= r.best
      {
        if i > 0 {
          assert cands[i] == rest[i - 1];
        }
      }
      if r.best > t.best {
        if r.best > t'.best {
          var k :| 0 <= k < |rest| && FirstReaching(sim, rest, text, k, r.best) && r.bucket == Some(rest[k].0);
          assert cands[k + 1] == rest[k];
          forall j | 0 <= j < k + 1
            ensures sim(cands[j].1, text) < r.best
          {
            if j > 0 {
              assert cands[j] == rest[j - 1];
            }
          }
          assert FirstReaching(sim, cands, text, k + 1, r.best);
        } else {
          assert FirstReaching(sim, cands, text, 0, r.best);
        }
      }
    }
  }

  /** The candidate reaching a scan's maximum first is the one whose bucket
      the scan reports. */
  lemma ScanPicksFirstBest(sim: Similarity, cands: seq<(Bucket, string)>, text: string, t: Tally, i: int)
    requires 0 <= i < |cands|
    requires FirstReaching(sim, cands, text, i, sim(cands[i].1, text))
    requires forall j :: 0 <= j < |cands| ==> sim(cands[j].1, text) <= sim(cands[i].1, text)
    requires sim(cands[i].1, text) > t.best
    ensures Scan(sim, cands, text, t) == Tally(sim(cands[i].1, text), Some(cands[i].0))
  {
    ScanSpec(sim, cands, text, t);
    var r := Scan(sim, cands, text, t);
    var k :| 0 <= k < |cands| && FirstReaching(sim, cands, text, k, r.best) && r.bucket == Some(cands[k].0);
    assert k == i;
  }

  /** The tags after `tag.lower()`. */
  function LoweredTags(tags: seq<string>): seq<string> {
    seq(|tags|, i requires 0 <= i < |tags| => Lower(tags[i]))
  }

  function TitleTally(sim: Similarity, title: string, tags: seq<string>): Tally {
    Scan(sim, Candidates("multiplayer" in LoweredTags(tags)), Lower(title), Tally(0, None))
  }

  /** `determine_player_count`. A "solo" tag decides at once; otherwise the
      title is scored, and a best title score above the threshold decides
      without reading the description; otherwise the description scan
      continues from the title's tally, and a missing description raises
      (`None.lower()`). */
  function DeterminePlayerCount(sim: Similarity, title: string, description: Option<string>, tags: seq<string>)
    : (r: Result<PlayerCounts>)
    ensures "solo" in LoweredTags(tags) ==> r == Ok(Solo)
    ensures r.Ok? ==> r.value != Multiplayer
    ensures r.Err? ==> r == Err(Raised(AttributeError)) && description.None?
    ensures r.Err? <==> "solo" !in LoweredTags(tags) && TitleTally(sim, title, tags).best <= Threshold && description.None?
  {
    if "solo" in LoweredTags(tags) then Ok(Solo)
    else
      var cands := Candidates("multiplayer" in LoweredTags(tags));
      var t := TitleTally(sim, title, tags);
      if t.best > Threshold then Ok(Verdict(t.bucket.value))
      else if description.None? then Err(Raised(AttributeError))
      else
        var d := Scan(sim, cands, Lower(description.value), t);
        if d.best > Threshold then Ok(Verdict(d.bucket.value)) else Ok(Unknown)
  }

  /** With a "multiplayer" tag (and no "solo" tag) only buckets 2 and 4 are
      scored, so the verdict is never SOLO. */
  lemma MultiplayerExcludesSolo(sim: Similarity, title: string, description: Option<string>, tags: seq<string>)
    requires "multiplayer" in LoweredTags(tags) && "solo" !in LoweredTags(tags)
    ensures DeterminePlayerCount(sim, title, description, tags) != Ok(Solo)
  {
    var cands := Candidates(true);
    var r := DeterminePlayerCount(sim, title, description, tags);
    MultiplayerCandidates();
    var t := TitleTally(sim, title, tags);
    ScanSpec(sim, cands, Lower(title), Tally(0, None));
    if t.best > Threshold {
      var k :| 0 <= k < |cands| && FirstReaching(sim, cands, Lower(title), k, t.best) && t.bucket == Some(cands[k].0);
      assert r == Ok(Verdict(cands[k].0));
    } else if description.Some? {
      var d := Scan(sim, cands, Lower(description.value), t);
      ScanSpec(sim, cands, Lower(description.value), t);
      if d.best > Threshold {
        var k :| 0 <= k < |cands| && FirstReaching(sim, cands, Lower(description.value), k, d.best) && d.bucket == Some(cands[k].0);
        assert r == Ok(Verdict(cands[k].0));
      } else {
        assert r == Ok(Unknown);
      }
    } else {
      assert r.Err?;
    }
  }

  /** Without bucket 1 every candidate is a two- or four-player keyword. */
  lemma MultiplayerCandidates()
    ensures forall i :: 0 <= i < |Candidates(true)| ==> Candidates(true)[i].0 != One
  {
    var two := Tagged(Two, TwoKeywords);
    var four := Tagged(Four, FourKeywords);
    var cands: seq<(Bucket, string)> := two + four;
    assert Candidates(true) == cands;
    forall i | 0 <= i < |cands|
      ensures cands[i].0 != One
    {
      if i < |two| {
        assert cands[i] == two[i];
      } else {
        assert cands[i] == four[i - |two|];
      }
    }
  }

  /** A title keyword scoring above the threshold decides the verdict
      whatever the description is, even a missing one: the bucket of the
      first candidate reaching the title's best score. */
  lemma TitleDecides(sim: Similarity, title: string, description: Option<string>, tags: seq<string>, i: int)
    requires "solo" !in LoweredTags(tags)
    requires var cands := Candidates("multiplayer" in LoweredTags(tags));
             && 0 <= i < |cands|
             && sim(cands[i].1, Lower(title)) > Threshold
             && FirstReaching(sim, cands, Lower(title), i, sim(cands[i].1, Lower(title)))
             && forall j :: 0 <= j < |cands| ==> sim(cands[j].1, Lower(title)) <= sim(cands[i].1, Lower(title))
    ensures DeterminePlayerCount(sim, title, description, tags)
            == Ok(Verdict(Candidates("multiplayer" in LoweredTags(tags))[i].0))
  {
    ScanPicksFirstBest(sim, Candidates("multiplayer" in LoweredTags(tags)), Lower(title), Tally(0, None), i);
  }

  /** When no title keyword clears the threshold, a description keyword
      that does decides: the first candidate reaching the description's best
      score, which necessarily beats the title's best. */
  lemma DescriptionDecides(sim: Similarity, title: string, description: string, tags: seq<string>, i: int)
    requires "solo" !in LoweredTags(tags)
    requires var cands := Candidates("multiplayer" in LoweredTags(tags));
             && (forall j :: 0 <= j < |cands| ==> sim(cands[j].1, Lower(title)) <= Threshold)
             && 0 <= i < |cands|
             && sim(cands[i].1, Lower(description)) > Threshold
             && FirstReaching(sim, cands, Lower(description), i, sim(cands[i].1, Lower(description)))
             && forall j :: 0 <= j < |cands| ==> sim(cands[j].1, Lower(description)) <= sim(cands[i].1, Lower(description))
    ensures DeterminePlayerCount(sim, title, Some(description), tags)
            == Ok(Verdict(Candidates("multiplayer" in LoweredTags(tags))[i].0))
  {
    var cands := Candidates("multiplayer" in LoweredTags(tags));
    var t := TitleTally(sim, title, tags);
    ScanSpec(sim, cands, Lower(title), Tally(0, None));
    if t.best > 0 {
      var k :| 0 <= k < |cands| && FirstReaching(sim, cands, Lower(title), k, t.best);
    }
    assert t.best <= Threshold;
    ScanPicksFirstBest(sim, cands, Lower(description), t, i);
  }

  /** Without a "solo" tag and with a description, the verdict is UNKNOWN
      exactly when no candidate scores above the threshold on either text. */
  lemma UnknownIffNoStrongMatch(sim: Similarity, title: string, description: string, tags: seq<string>)
    requires "solo" !in LoweredTags(tags)
    ensures var cands := Candidates("multiplayer" in LoweredTags(tags));
            DeterminePlayerCount(sim, title, Some(description), tags) == Ok(Unknown) <==>
              forall j :: 0 <= j < |cands| ==>
                sim(cands[j].1, Lower(title)) <= Threshold && sim(cands[j].1, Lower(description)) <= Threshold
  {
    var cands := Candidates("multiplayer" in LoweredTags(tags));
    var t := TitleTally(sim, title, tags);
    ScanSpec(sim, cands, Lower(title), Tally(0, None));
    ScanSpec(sim, cands, Lower(description), t);
    var d := Scan(sim, cands, Lower(description), t);
    if t.best > 0 {
      var k :| 0 <= k < |cands| && FirstReaching(sim, cands, Lower(title), k, t.best);
    }
    if d.best > t.best {
      var k :| 0 <= k < |cands| && FirstReaching(sim, cands, Lower(description), k, d.best);
    }
  }
}
