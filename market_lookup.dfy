/** Finding a market in the paged Gamma market listing, by token id or by
    market id / slug, and reading its two outcome-token ids. The listing is
    an oracle `fetch(offset)` giving the page of markets at that offset. */
module MarketLookup {
  import opened PyValue

  /** A market's token-id field as the listing may carry it: missing, a
      list of ids, or text (the listing may encode the list as a JSON
      string, which the lookup then treats as plain text). */
  datatype TokenIds = Absent | Ids(ids: seq<string>) | Text(text: string)

  datatype Market = Market(id: Value, slug: Value, clobTokenIds: TokenIds, clobTokenIdsSnake: TokenIds)

  datatype LookupError = MarketNotFound | FewerThanTwoTokenIds

  datatype Found = Found(market: Market, tokenIds: TokenIds)

  const MaxPages: int := 20
  const PageSize: int := 500

  predicate TruthyIds(t: TokenIds) {
    match t
    case Absent => false
    case Ids(xs) => xs != []
    case Text(s) => s != ""
  }

  /** `m.get("clobTokenIds") or m.get("clob_token_ids")` */
  function TokenIdsOf(m: Market): (t: TokenIds)
    ensures TruthyIds(m.clobTokenIds) ==> t == m.clobTokenIds
    ensures !TruthyIds(m.clobTokenIds) ==> t == m.clobTokenIdsSnake
  {
    if TruthyIds(m.clobTokenIds) then m.clobTokenIds else m.clobTokenIdsSnake
  }

  /** Python's `token_id in cti`: list membership, or substring for text. */
  predicate HasToken(t: TokenIds, token: string) {
    match t
    case Absent => false
    case Ids(xs) => token in xs
    case Text(s) => Contains(s, token)
  }

  /** The match of find_market_by_token_id. */
  predicate HoldsToken(m: Market, token: string) {
    TruthyIds(TokenIdsOf(m)) && HasToken(TokenIdsOf(m), token)
  }

  /** The match of find_market_by_id_or_slug: a non-empty id equal to the
      market's id, or a non-empty slug equal to the market's slug. */
  predicate HasIdOrSlug(m: Market, marketId: Option<string>, slug: Option<string>) {
    || (marketId.Some? && marketId.value != "" && m.id == Str(marketId.value))
    || (slug.Some? && slug.value != "" && m.slug == Str(slug.value))
  }

  predicate NoMatch(page: seq<Market>, matches: Market -> bool) {
    forall m :: m in page ==> !matches(m)
  }

  /** The first market of the page that matches. */
  function FirstIn(page: seq<Market>, matches: Market -> bool): (r: Option<Market>)
    ensures r.None? <==> NoMatch(page, matches)
    ensures r.Some? ==> r.value in page && matches(r.value)
  {
    if page == [] then None
    else if matches(page[0]) then Some(page[0])
    else FirstIn(page[1..], matches)
  }

  /** What FirstIn finds is the earliest match: nothing before it matches. */
  lemma {:induction false} FirstInIsFirst(page: seq<Market>, matches: Market -> bool)
    requires FirstIn(page, matches).Some?
    ensures exists i :: 0 <= i < |page| && page[i] == FirstIn(page, matches).value &&
                        NoMatch(page[..i], matches)
  {
    if matches(page[0]) {
      assert page[..0] == [];
      assert page[0] == FirstIn(page, matches).value && NoMatch(page[..0], matches);
    } else {
      FirstInIsFirst(page[1..], matches);
      var i :| 0 <= i < |page[1..]| && page[1..][i] == FirstIn(page[1..], matches).value &&
               NoMatch(page[1..][..i], matches);
      assert page[..i + 1] == [page[0]] + page[1..][..i];
      assert page[i + 1] == FirstIn(page, matches).value && NoMatch(page[..i + 1], matches);
    }
  }

  /** The pages a search reads and what it finds: starting at `offset`, read
      at most `pagesLeft` pages, stop at the first empty page, and return the
      first match in page order. The second component lists the offsets read. */
  function Search(fetch: int -> seq<Market>, matches: Market -> bool, offset: int, pagesLeft: int, pageSize: int)
    : (r: (Option<Market>, seq<int>))
    ensures pagesLeft <= 0 <==> r.1 == []
    decreases pagesLeft
  {
    if pagesLeft <= 0 then (None, [])
    else
      var page := fetch(offset);
      if page == [] then (None, [offset])
      else
        var hit := FirstIn(page, matches);
        if hit.Some? then (hit, [offset])
        else
          var rest := Search(fetch, matches, offset + pageSize, pagesLeft - 1, pageSize);
          (rest.0, [offset] + rest.1)
  }

  /** A non-empty page without a match sends the search on to the next page. */
  lemma SearchStep(fetch: int -> seq<Market>, matches: Market -> bool, offset: int, pagesLeft: int, pageSize: int)
    requires pagesLeft > 0 && fetch(offset) != [] && FirstIn(fetch(offset), matches).None?
    ensures var rest := Search(fetch, matches, offset + pageSize, pagesLeft - 1, pageSize);
            Search(fetch, matches, offset, pagesLeft, pageSize) == (rest.0, [offset] + rest.1)
  {
  }

  /** The page loop's invariant carried past a non-empty page without a match. */
  lemma SearchAdvance(fetch: int -> seq<Market>, matches: Market -> bool, offset: int, pagesLeft: int,
                      pageSize: int, offsets: seq<int>, whole: (Option<Market>, seq<int>))
    requires pagesLeft > 0 && fetch(offset) != [] && FirstIn(fetch(offset), matches).None?
    requires whole.0 == Search(fetch, matches, offset, pagesLeft, pageSize).0
    requires whole.1 == offsets + Search(fetch, matches, offset, pagesLeft, pageSize).1
    ensures whole.0 == Search(fetch, matches, offset + pageSize, pagesLeft - 1, pageSize).0
    ensures whole.1 == (offsets + [offset]) + Search(fetch, matches, offset + pageSize, pagesLeft - 1, pageSize).1
  {
    var rest := Search(fetch, matches, offset + pageSize, pagesLeft - 1, pageSize);
    SearchStep(fetch, matches, offset, pagesLeft, pageSize);
    assert offsets + ([offset] + rest.1) == (offsets + [offset]) + rest.1;
  }

  /** A search reads at most `pagesLeft` pages, at consecutive offsets. */
  lemma {:induction false} SearchOffsets(fetch: int -> seq<Market>, matches: Market -> bool, offset: int,
                                         pagesLeft: int, pageSize: int)
    ensures var offs := Search(fetch, matches, offset, pagesLeft, pageSize).1;
      && (pagesLeft > 0 ==> 1 <= |offs| <= pagesLeft)
      && forall k :: 0 <= k < |offs| ==> offs[k] == offset + k * pageSize
    decreases pagesLeft
  {
    var offs := Search(fetch, matches, offset, pagesLeft, pageSize).1;
    if pagesLeft > 0 && fetch(offset) != [] && FirstIn(fetch(offset), matches).None? {
      SearchOffsets(fetch, matches, offset + pageSize, pagesLeft - 1, pageSize);
      var rest := Search(fetch, matches, offset + pageSize, pagesLeft - 1, pageSize).1;
      assert offs == [offset] + rest;
      forall k | 1 <= k < |offs|
        ensures offs[k] == offset + k * pageSize
      {
        assert (k - 1) * pageSize + pageSize == k * pageSize;
        assert offs[k] == rest[k - 1];
      }
    }
  }

  /** Every page a search reads before its last one was non-empty and held no
      match; and the search stops at its first match, which is the first
      match of the last page read. */
  lemma {:induction false} SearchStopsAtFirstMatch(fetch: int -> seq<Market>, matches: Market -> bool,
                                                   offset: int, pagesLeft: int, pageSize: int)
    ensures var r := Search(fetch, matches, offset, pagesLeft, pageSize);
      && (forall k :: 0 <= k < |r.1| - 1 ==> fetch(r.1[k]) != [] && NoMatch(fetch(r.1[k]), matches))
      && (r.0.Some? ==> r.1 != [] && FirstIn(fetch(r.1[|r.1| - 1]), matches) == r.0)
    decreases pagesLeft
  {
    var r := Search(fetch, matches, offset, pagesLeft, pageSize);
    if pagesLeft > 0 && fetch(offset) != [] && FirstIn(fetch(offset), matches).None? {
      SearchStopsAtFirstMatch(fetch, matches, offset + pageSize, pagesLeft - 1, pageSize);
      var rest := Search(fetch, matches, offset + pageSize, pagesLeft - 1, pageSize);
      assert r.1 == [offset] + rest.1;
      forall k | 1 <= k < |r.1|
        ensures r.1[k] == rest.1[k - 1]
      {
      }
    }
  }

  /** A search that finds nothing saw no match on any page it read, and
      stopped either on an empty page or after `pagesLeft` pages. */
  lemma {:induction false} SearchMissesOnlyWithoutMatch(fetch: int -> seq<Market>, matches: Market -> bool,
                                                        offset: int, pagesLeft: int, pageSize: int)
    ensures var r := Search(fetch, matches, offset, pagesLeft, pageSize);
      r.0.None? ==>
        && (forall k :: 0 <= k < |r.1| ==> NoMatch(fetch(r.1[k]), matches))
        && (pagesLeft > 0 ==> |r.1| == pagesLeft || fetch(r.1[|r.1| - 1]) == [])
    decreases pagesLeft
  {
    var r := Search(fetch, matches, offset, pagesLeft, pageSize);
    if pagesLeft > 0 && fetch(offset) != [] && FirstIn(fetch(offset), matches).None? {
      SearchMissesOnlyWithoutMatch(fetch, matches, offset + pageSize, pagesLeft - 1, pageSize);
      var rest := Search(fetch, matches, offset + pageSize, pagesLeft - 1, pageSize);
      assert r.1 == [offset] + rest.1;
      forall k | 1 <= k < |r.1|
        ensures r.1[k] == rest.1[k - 1]
      {
      }
    }
  }

  /** The scan of one page for its first match. */
  method FirstMatchIn(page: seq<Market>, matches: Market -> bool) returns (found: Option<Market>)
    ensures found == FirstIn(page, matches)
  {
    var j := 0;
    while j < |page|
      invariant 0 <= j <= |page|
      invariant FirstIn(page, matches) == FirstIn(page[j..], matches)
    {
      if matches(page[j]) {
        return Some(page[j]);
      }
      assert page[j..][1..] == page[j + 1..];
      j := j + 1;
    }
    return None;
  }

  /** The page loop shared by both searches: offset starts at 0 and grows by
      the page size after each page without a match. */
  method SearchPages(fetch: int -> seq<Market>, matches: Market -> bool, maxPages: int, pageSize: int)
    returns (found: Option<Market>, offsets: seq<int>)
    ensures (found, offsets) == Search(fetch, matches, 0, maxPages, pageSize)
  {
    var offset := 0;
    offsets := [];
    var left := maxPages;
    ghost var whole := Search(fetch, matches, 0, maxPages, pageSize);
    assert whole.1 == offsets + whole.1;
    while left > 0
      invariant whole.0 == Search(fetch, matches, offset, left, pageSize).0
      invariant whole.1 == offsets + Search(fetch, matches, offset, left, pageSize).1
    {
      var markets := fetch(offset);
      ghost var before := offsets;
      offsets := offsets + [offset];
      if |markets| == 0 {
        return None, offsets;
      }
      var hit := FirstMatchIn(markets, matches);
      if hit.Some? {
        return hit, offsets;
      }
      SearchAdvance(fetch, matches, offset, left, pageSize, before, whole);
      offset := offset + pageSize;
      left := left - 1;
    }
    assert offsets + [] == offsets;
    return None, offsets;
  }

  /** find_market_by_token_id */
  method FindMarketByTokenId(token: string, fetch: int -> seq<Market>, maxPages: int, pageSize: int)
    returns (found: Option<Market>, offsets: seq<int>)
    ensures (found, offsets) == Search(fetch, m => HoldsToken(m, token), 0, maxPages, pageSize)
    ensures found.Some? ==> HoldsToken(found.value, token)
    ensures maxPages > 0 ==> 1 <= |offsets| <= maxPages
  {
    found, offsets := SearchPages(fetch, m => HoldsToken(m, token), maxPages, pageSize);
    SearchOffsets(fetch, m => HoldsToken(m, token), 0, maxPages, pageSize);
    SearchStopsAtFirstMatch(fetch, m => HoldsToken(m, token), 0, maxPages, pageSize);
  }

  /** find_market_by_id_or_slug */
  method FindMarketByIdOrSlug(marketId: Option<string>, slug: Option<string>, fetch: int -> seq<Market>,
                              maxPages: int, pageSize: int)
    returns (found: Option<Market>, offsets: seq<int>)
    ensures (found, offsets) == Search(fetch, m => HasIdOrSlug(m, marketId, slug), 0, maxPages, pageSize)
    ensures found.Some? ==> HasIdOrSlug(found.value, marketId, slug)
    ensures maxPages > 0 ==> 1 <= |offsets| <= maxPages
  {
    found, offsets := SearchPages(fetch, m => HasIdOrSlug(m, marketId, slug), maxPages, pageSize);
    SearchOffsets(fetch, m => HasIdOrSlug(m, marketId, slug), 0, maxPages, pageSize);
    SearchStopsAtFirstMatch(fetch, m => HasIdOrSlug(m, marketId, slug), 0, maxPages, pageSize);
  }

  function IdCount(t: TokenIds): nat {
    match t
    case Absent => 0
    case Ids(xs) => |xs|
    case Text(s) => |s|
  }

  /** `token_ids[:2]` */
  function FirstTwo(t: TokenIds): (r: TokenIds)
    requires IdCount(t) >= 2
    ensures IdCount(r) == 2
    ensures t.Ids? ==> r == Ids([t.ids[0], t.ids[1]])
    ensures t.Text? ==> r == Text([t.text[0], t.text[1]])
  {
    match t
    case Ids(xs) => Ids(xs[..2])
    case Text(s) => Text(s[..2])
  }

  /** The market the lookup settles on: by id or slug when either is given,
      else (or when that finds nothing) by token id when one is given. */
  function ChosenMarket(tokenId: Option<string>, marketId: Option<string>, slug: Option<string>,
                        fetch: int -> seq<Market>): Option<Market>
  {
    var byId :=
      if (marketId.Some? && marketId.value != "") || (slug.Some? && slug.value != "")
      then Search(fetch, m => HasIdOrSlug(m, marketId, slug), 0, MaxPages, PageSize).0
      else None;
    if byId.None? && tokenId.Some? && tokenId.value != ""
    then Search(fetch, m => HoldsToken(m, tokenId.value), 0, MaxPages, PageSize).0
    else byId
  }

  /** get_market_and_tokens */
  method GetMarketAndTokens(tokenId: Option<string>, marketId: Option<string>, slug: Option<string>,
                            fetch: int -> seq<Market>)
    returns (r: Result<Found, LookupError>)
    ensures ChosenMarket(tokenId, marketId, slug, fetch).None? <==> r == Err(MarketNotFound)
    ensures r == Err(FewerThanTwoTokenIds) <==>
              ChosenMarket(tokenId, marketId, slug, fetch).Some? &&
              IdCount(TokenIdsOf(ChosenMarket(tokenId, marketId, slug, fetch).value)) < 2
    ensures r.Ok? ==> Some(r.value.market) == ChosenMarket(tokenId, marketId, slug, fetch)
    ensures r.Ok? ==> IdCount(TokenIdsOf(r.value.market)) >= 2 &&
                      r.value.tokenIds == FirstTwo(TokenIdsOf(r.value.market))
    ensures r.Ok? ==> HasIdOrSlug(r.value.market, marketId, slug) ||
                      (tokenId.Some? && HoldsToken(r.value.market, tokenId.value))
  {
    var market: Option<Market> := None;
    if (marketId.Some? && marketId.value != "") || (slug.Some? && slug.value != "") {
      var offsets;
      market, offsets := FindMarketByIdOrSlug(marketId, slug, fetch, MaxPages, PageSize);
    }
    if market.None? && tokenId.Some? && tokenId.value != "" {
      var offsets;
      market, offsets := FindMarketByTokenId(tokenId.value, fetch, MaxPages, PageSize);
    }
    if market.None? {
      return Err(MarketNotFound);
    }
    var tokenIds := TokenIdsOf(market.value);
    if !TruthyIds(tokenIds) || IdCount(tokenIds) < 2 {
      return Err(FewerThanTwoTokenIds);
    }
    return Ok(Found(market.value, FirstTwo(tokenIds)));
  }

  /** When the listing carries the ids as JSON text, the "two ids" returned
      are the text's first two characters. */
  lemma EncodedIdsYieldCharacters(m: Market)
    requires m.clobTokenIds == Text("[\"1\", \"2\"]")
    ensures FirstTwo(TokenIdsOf(m)) == Text("[\"")
  {
  }
}
