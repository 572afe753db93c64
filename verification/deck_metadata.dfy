/** Deck page metadata scraping from decks/arkhamdb.py: the page is an
    abstract optional tree (the social-icons container, its three anchors,
    their `num` spans and the author link); the HTML parser itself is not
    modelled. */
module DeckMetadata {
  import opened Errors
  import opened Http
  import opened Text

  /** A `span.num`. `text` is bs4's `.string`: None when the span does not
      hold exactly one string. */
  datatype NumSpan = NumSpan(text: Option<string>)
  /** A social-icon anchor and the `num` span found inside it, if any. */
  datatype Anchor = Anchor(num: Option<NumSpan>)
  /** The `span.social-icons` container with the like, favorite and comments anchors. */
  datatype SocialIcons = SocialIcons(like: Option<Anchor>, favorite: Option<Anchor>, comments: Option<Anchor>)
  /** The `a.username` link and its `href` attribute. */
  datatype UserLink = UserLink(href: Option<string>)
  datatype Page = Page(socialIcons: Option<SocialIcons>, username: Option<UserLink>)

  datatype Metadata = Metadata(likes: int, favorites: int, comments: int)

  /** `_get_count`: a missing anchor or a missing num span counts 0 (bs4 tags
      are always truthy, so only absence is checked); otherwise `int` of the
      span's text, which raises on a span without a single string or on
      text that is not an integer. */
  function Count(anchor: Option<Anchor>): (r: Result<int>)
    ensures (anchor.None? || anchor.value.num.None?) ==> r == Ok(0)
    ensures anchor.Some? && anchor.value.num.Some? && anchor.value.num.value.text.None? ==> r == Err(Raised(TypeError))
    ensures anchor.Some? && anchor.value.num.Some? && anchor.value.num.value.text.Some? ==>
              && (r.Ok? <==> ParseInt(anchor.value.num.value.text.value).Some?)
              && (r.Ok? ==> Some(r.value) == ParseInt(anchor.value.num.value.text.value))
              && (r.Err? ==> r == Err(Raised(ValueError)))
  {
    match anchor
    case None => Ok(0)
    case Some(Anchor(None)) => Ok(0)
    case Some(Anchor(Some(NumSpan(None)))) => Err(Raised(TypeError))
    case Some(Anchor(Some(NumSpan(Some(text))))) =>
      match ParseInt(text)
      case Some(n) => Ok(n)
      case None => Err(Raised(ValueError))
  }

  /** A counter span showing the decimal rendering of `n` is read back as `n`. */
  lemma CountOfRendered(n: int)
    ensures Count(Some(Anchor(Some(NumSpan(Some(DecimalString(n))))))) == Ok(n)
  {
    ParseDecimalString(n);
  }

  const ProfilePrefix: string := "/user/profile/"

  /** The two groups of the author pattern. */
  datatype Author = Author(userId: string, username: string)

  /** What the groups can hold: `[0-9]+` and `.+` (no newline). */
  predicate WellFormedAuthor(a: Author) {
    && |a.userId| > 0 && AllDigits(a.userId)
    && |a.username| > 0 && '\n' !in a.username
  }

  function AuthorPath(a: Author): string {
    ProfilePrefix + a.userId + "/" + a.username
  }

  /** Length of the leading run of ASCII digits. */
  function DigitRun(s: string): (n: nat)
    ensures n <= |s| && AllDigits(s[..n])
    ensures n < |s| ==> !IsDigit(s[n])
  {
    if |s| > 0 && IsDigit(s[0]) then
      var n := 1 + DigitRun(s[1..]);
      assert s[..n] == [s[0]] + s[1..][..n - 1];
      n
    else 0
  }

  /** Length of the prefix before the first newline. */
  function LineLength(s: string): (n: nat)
    ensures n <= |s| && '\n' !in s[..n]
    ensures n < |s| ==> s[n] == '\n'
  {
    if |s| > 0 && s[0] != '\n' then
      var n := 1 + LineLength(s[1..]);
      assert s[..n] == [s[0]] + s[1..][..n - 1];
      n
    else 0
  }

  /** `re.match(r"\/user\/profile\/([0-9]+)\/(.+)", href)`: anchored at the
      start only; the greedy `.+` stops at the first newline. */
  function MatchAuthorPath(href: string): (r: Option<Author>)
    ensures r.Some? ==> WellFormedAuthor(r.value)
    ensures r.Some? ==> var p := AuthorPath(r.value);
                        |p| <= |href| && href[..|p|] == p && (|p| == |href| || href[|p|] == '\n')
  {
    var k := |ProfilePrefix|;
    if |href| < k || href[..k] != ProfilePrefix then None
    else
      var rest := href[k..];
      var r := MatchProfile(rest);
      if r.Some? then
        var q := r.value.userId + "/" + r.value.username;
        assert AuthorPath(r.value) == ProfilePrefix + q;
        assert href[..k + |q|] == ProfilePrefix + rest[..|q|];
        assert k + |q| < |href| ==> href[k + |q|] == rest[|q|];
        Some(r.value)
      else None
  }

  /** The pattern after its literal `/user/profile/` prefix. */
  function MatchProfile(rest: string): (r: Option<Author>)
    ensures r.Some? ==> WellFormedAuthor(r.value)
    ensures r.Some? ==> var p := r.value.userId + "/" + r.value.username;
                        |p| <= |rest| && rest[..|p|] == p && (|p| == |rest| || rest[|p|] == '\n')
  {
    var n := DigitRun(rest);
    if n == 0 || n == |rest| || rest[n] != '/' then None
    else
      var tail := rest[n + 1..];
      var u := LineLength(tail);
      if u == 0 then None
      else
        var a := Author(rest[..n], tail[..u]);
        assert a.userId + "/" + a.username == rest[..n + 1 + u];
        Some(a)
  }

  /** Completeness of the match: every well-formed profile path, followed by
      nothing or by a new line, matches with exactly its two groups. */
  lemma {:induction false} MatchAuthorPathComplete(a: Author, tail: string)
    requires WellFormedAuthor(a)
    requires tail == [] || tail[0] == '\n'
    ensures MatchAuthorPath(AuthorPath(a) + tail) == Some(a)
  {
    var href := AuthorPath(a) + tail;
    var k := |ProfilePrefix|;
    assert href == ProfilePrefix + (a.userId + "/" + a.username + tail);
    assert href[..k] == ProfilePrefix;
    assert href[k..] == a.userId + "/" + a.username + tail;
    MatchProfileComplete(a, tail);
  }

  lemma {:induction false} MatchProfileComplete(a: Author, tail: string)
    requires WellFormedAuthor(a)
    requires tail == [] || tail[0] == '\n'
    ensures MatchProfile(a.userId + "/" + a.username + tail) == Some(a)
  {
    var rest := a.userId + "/" + a.username + tail;
    var n := |a.userId|;
    assert rest == a.userId + ("/" + a.username + tail);
    DigitRunOf(a.userId, "/" + a.username + tail);
    assert rest[n] == '/' && rest[..n] == a.userId;
    var t := rest[n + 1..];
    assert t == a.username + tail;
    LineLengthOf(a.username, tail);
    assert t[..|a.username|] == a.username;
  }

  lemma {:induction false} DigitRunOf(digits: string, after: string)
    requires AllDigits(digits)
    requires after == [] || !IsDigit(after[0])
    ensures DigitRun(digits + after) == |digits|
    decreases |digits|
  {
    if |digits| > 0 {
      assert (digits + after)[1..] == digits[1..] + after;
      DigitRunOf(digits[1..], after);
    } else {
      assert digits + after == after;
    }
  }

  lemma {:induction false} LineLengthOf(line: string, after: string)
    requires '\n' !in line
    requires after == [] || after[0] == '\n'
    ensures LineLength(line + after) == |line|
    decreases |line|
  {
    if |line| > 0 {
      assert line[0] in line;
      assert (line + after)[1..] == line[1..] + after;
      assert forall c :: c in line[1..] ==> c in line;
      LineLengthOf(line[1..], after);
    } else {
      assert line + after == after;
    }
  }

  /** The author lookup: no `a.username` link is subscripting None
      (TypeError), a link without `href` is a KeyError, and a path that does
      not match leaves `None[1]` (TypeError). */
  function AuthorOf(page: Page): (r: Result<Author>)
    ensures page.username.None? ==> r == Err(Raised(TypeError))
    ensures page.username.Some? && page.username.value.href.None? ==> r == Err(Raised(KeyError))
    ensures r.Ok? <==> page.username.Some? && page.username.value.href.Some?
                       && MatchAuthorPath(page.username.value.href.value).Some?
    ensures r.Ok? ==> Some(r.value) == MatchAuthorPath(page.username.value.href.value)
  {
    match page.username
    case None => Err(Raised(TypeError))
    case Some(UserLink(None)) => Err(Raised(KeyError))
    case Some(UserLink(Some(href))) =>
      match MatchAuthorPath(href)
      case None => Err(Raised(TypeError))
      case Some(a) => Ok(a)
  }

  /** `retrieve_arkhamdb_decklist_metadata` without its cache: transport,
      status and empty-page failures first, then the social-icons container,
      then the three counters in order, then the author path, whose groups
      are read and discarded. */
  function Scrape(response: Response<Page>): (r: Result<Metadata>)
    ensures response.RequestFailed? ==> r == Err(DeckDetailsRetrievalError(RequestError))
    ensures response.Received? && !IsOk(response.status) ==>
              r == Err(DeckDetailsRetrievalError(BadStatus(response.status)))
    ensures response.Received? && IsOk(response.status) && response.body.None? ==>
              r == Err(DeckDetailsRetrievalError(EmptyPage))
    ensures response.Received? && IsOk(response.status) && response.body.Some? && response.body.value.socialIcons.None? ==>
              r == Err(DeckDetailsRetrievalError(MissingLandmark))
    ensures r.Ok? ==> response.Received? && response.body.Some? && response.body.value.socialIcons.Some?
                      && AuthorOf(response.body.value).Ok?
                      && var icons := response.body.value.socialIcons.value;
                         && Count(icons.like) == Ok(r.value.likes)
                         && Count(icons.favorite) == Ok(r.value.favorites)
                         && Count(icons.comments) == Ok(r.value.comments)
  {
    match response
    case RequestFailed => Err(DeckDetailsRetrievalError(RequestError))
    case Received(status, body) =>
      if !IsOk(status) then Err(DeckDetailsRetrievalError(BadStatus(status)))
      else if body.None? then Err(DeckDetailsRetrievalError(EmptyPage))
      else
        var page := body.value;
        if page.socialIcons.None? then Err(DeckDetailsRetrievalError(MissingLandmark))
        else
          var icons := page.socialIcons.value;
          var likes :- Count(icons.like);
          var favorites :- Count(icons.favorite);
          var comments :- Count(icons.comments);
          var _ :- AuthorOf(page);
          Ok(Metadata(likes, favorites, comments))
  }

  /** A well-formed page with bare counters and a matching author link
      scrapes to exactly those counts. */
  lemma ScrapeOfWellFormedPage(likes: int, favorites: int, comments: int, author: Author, status: int)
    requires IsOk(status) && WellFormedAuthor(author)
    ensures var icons := SocialIcons(Some(Anchor(Some(NumSpan(Some(DecimalString(likes)))))),
                                     Some(Anchor(Some(NumSpan(Some(DecimalString(favorites)))))),
                                     Some(Anchor(Some(NumSpan(Some(DecimalString(comments)))))));
            Scrape(Received(status, Some(Page(Some(icons), Some(UserLink(Some(AuthorPath(author))))))))
              == Ok(Metadata(likes, favorites, comments))
  {
    CountOfRendered(likes);
    CountOfRendered(favorites);
    CountOfRendered(comments);
    MatchAuthorPathComplete(author, []);
    assert AuthorPath(author) + [] == AuthorPath(author);
  }

  /** Past the container, the three counters are read in order and then the
      author path: the first of them to fail gives the scrape's error, and
      when none fails the scrape yields the three counts. */
  lemma ScrapeOrder(response: Response<Page>)
    requires response.Received? && IsOk(response.status) && response.body.Some?
    requires response.body.value.socialIcons.Some?
    ensures var page := response.body.value;
            var icons := page.socialIcons.value;
            var r := Scrape(response);
            && (Count(icons.like).Err? ==> r == Err(Count(icons.like).error))
            && (Count(icons.like).Ok? && Count(icons.favorite).Err? ==> r == Err(Count(icons.favorite).error))
            && (Count(icons.like).Ok? && Count(icons.favorite).Ok? && Count(icons.comments).Err? ==>
                  r == Err(Count(icons.comments).error))
            && (Count(icons.like).Ok? && Count(icons.favorite).Ok? && Count(icons.comments).Ok? ==>
                  && (AuthorOf(page).Err? ==> r == Err(AuthorOf(page).error))
                  && (AuthorOf(page).Ok? ==>
                        r == Ok(Metadata(Count(icons.like).value, Count(icons.favorite).value,
                                         Count(icons.comments).value))))
  {
  }

  /** A page whose container holds none of the three anchors still scrapes,
      with every count 0, as long as the author link matches. */
  lemma ScrapeWithoutAnchors(author: Author, status: int)
    requires IsOk(status) && WellFormedAuthor(author)
    ensures Scrape(Received(status, Some(Page(Some(SocialIcons(None, None, None)), Some(UserLink(Some(AuthorPath(author))))))))
              == Ok(Metadata(0, 0, 0))
  {
    MatchAuthorPathComplete(author, []);
    assert AuthorPath(author) + [] == AuthorPath(author);
  }

  /** The `lru_cache` keyed by deck id; eviction is not modelled. */
  type MetadataCache = map<int, Metadata>

  /** The cached call: a deck id seen before with a successful scrape gives
      the remembered metadata; otherwise `response` is what fetching the deck
      page would give, a success is remembered and a failure is not. */
  function CachedMetadata(cache: MetadataCache, deckId: int, response: Response<Page>): (out: (Result<Metadata>, MetadataCache))
    ensures deckId in cache ==> out == (Ok(cache[deckId]), cache)
    ensures deckId !in cache ==> out.0 == Scrape(response)
    ensures out.0.Err? ==> out.1 == cache
    ensures out.0.Ok? ==> out.1 == cache[deckId := out.0.value]
  {
    if deckId in cache then (Ok(cache[deckId]), cache)
    else
      match Scrape(response)
      case Ok(m) => (Ok(m), cache[deckId := m])
      case Err(e) => (Err(e), cache)
  }

  /** A repeat call after a success returns the same metadata without
      consulting the page, whatever it would now say; after a failure the
      next call scrapes afresh. */
  lemma {:induction false} CachedMetadataRepeat(cache: MetadataCache, deckId: int, first: Response<Page>, second: Response<Page>)
    ensures var (r1, c1) := CachedMetadata(cache, deckId, first);
            var (r2, c2) := CachedMetadata(c1, deckId, second);
            && (r1.Ok? ==> r2 == r1 && c2 == c1)
            && (r1.Err? ==> r2 == (if deckId in cache then Ok(cache[deckId]) else Scrape(second)))
  {
  }
}
