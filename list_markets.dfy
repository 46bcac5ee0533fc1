/** Listing markets (data_updater/list_markets.py): reading the fields of a
    market dict, shaping the saved record, paging through the sampling
    endpoint, the end-date window of the listing and merging the fetched
    order books into the records. The sampling endpoint and the ISO-8601
    parser are parameters. */
module ListMarkets {
  import opened PyValue
  import opened OrderBooks

  type Dict = map<string, Value>

  /* ---- pick ---- */

  /** `key in value and value[key] is not None` */
  predicate Present(value: Dict, key: string)
  {
    key in value && value[key] != Null
  }

  /** pick: the value of the first listed key that is present and not None,
      else the default. */
  function Pick(value: Dict, keys: seq<string>, default: Value): (r: Value)
    ensures (forall i :: 0 <= i < |keys| ==> !Present(value, keys[i])) ==> r == default
    ensures r != default ==> exists i :: 0 <= i < |keys| && Present(value, keys[i]) && r == value[keys[i]]
  {
    if keys == [] then default
    else if Present(value, keys[0]) then value[keys[0]]
    else
      var r := Pick(value, keys[1..], default);
      assert r != default ==> exists i :: 0 <= i < |keys| && Present(value, keys[i]) && r == value[keys[i]] by {
        if r != default {
          var i :| 0 <= i < |keys[1..]| && Present(value, keys[1..][i]) && r == value[keys[1..][i]];
          assert keys[1..][i] == keys[i + 1];
        }
      }
      r
  }

  /** The first present key wins, whatever the keys after it hold. */
  lemma {:induction false} PickFirstPresent(value: Dict, keys: seq<string>, default: Value, i: int)
    requires 0 <= i < |keys| && Present(value, keys[i])
    requires forall j :: 0 <= j < i ==> !Present(value, keys[j])
    ensures Pick(value, keys, default) == value[keys[i]]
  {
    if i > 0 {
      forall j | 0 <= j < i - 1
        ensures !Present(value, keys[1..][j])
      {
        assert keys[1..][j] == keys[j + 1];
      }
      PickFirstPresent(value, keys[1..], default, i - 1);
    }
  }

  /** Three spellings of a market's end date, in order of preference. */
  const EndDateKeys: seq<string> := ["end_date_iso", "endDateIso", "endDate"]

  /** A None under the preferred key falls through to the next spelling. */
  lemma EndDateFallsThrough(m: Dict)
    requires "end_date_iso" in m && m["end_date_iso"] == Null && Present(m, "endDateIso")
    ensures Pick(m, EndDateKeys, Null) == m["endDateIso"]
  {
    PickFirstPresent(m, EndDateKeys, Null, 1);
  }

  /* ---- extract_reward_fields ---- */

  /** The USDC token contract on Polygon. */
  const UsdcAddress: string := "0x2791Bca1f2de4661ED88A30C99A7a9449Aa84174"

  /** The code calls `.get` on something that is not a dict, or iterates
      something that is not iterable. */
  datatype ShapeError = ShapeError

  /** A reward rate that pays in USDC and names a daily rate. */
  predicate UsdcRate(r: Dict)
  {
    Get(r, "asset_address") == Str(UsdcAddress) && Get(r, "rewards_daily_rate") != Null
  }

  /** The daily rate of the first USDC rate, None if there is none; a
      non-dict met before it raises. */
  function FirstUsdcRate(rates: seq<Value>): (r: Result<Value, ShapeError>)
  {
    if rates == [] then Ok(Null)
    else if !rates[0].Dict? then Err(ShapeError)
    else if UsdcRate(rates[0].entries) then Ok(Get(rates[0].entries, "rewards_daily_rate"))
    else FirstUsdcRate(rates[1..])
  }

  /** With dict rates, the rate found is that of the first USDC entry, and
      None exactly when there is no USDC entry. */
  lemma {:induction false} FirstUsdcRateIsFirst(rates: seq<Value>)
    requires forall k :: 0 <= k < |rates| ==> rates[k].Dict?
    ensures FirstUsdcRate(rates).Ok?
    ensures FirstUsdcRate(rates).value == Null <==> forall k :: 0 <= k < |rates| ==> !UsdcRate(rates[k].entries)
    ensures forall k :: (0 <= k < |rates| && UsdcRate(rates[k].entries)
                         && forall j :: 0 <= j < k ==> !UsdcRate(rates[j].entries)) ==>
              FirstUsdcRate(rates).value == Get(rates[k].entries, "rewards_daily_rate")
  {
    if rates != [] && !UsdcRate(rates[0].entries) {
      var rest := rates[1..];
      forall k | 0 <= k < |rest|
        ensures rest[k].Dict?
      {
        assert rest[k] == rates[k + 1];
      }
      FirstUsdcRateIsFirst(rest);
      forall k | 0 <= k < |rates| && UsdcRate(rates[k].entries) && (forall j :: 0 <= j < k ==> !UsdcRate(rates[j].entries))
        ensures FirstUsdcRate(rates).value == Get(rates[k].entries, "rewards_daily_rate")
      {
        assert rest[k - 1] == rates[k];
        forall j | 0 <= j < k - 1
          ensures !UsdcRate(rest[j].entries)
        {
          assert rest[j] == rates[j + 1];
        }
      }
      if FirstUsdcRate(rates).value == Null {
        forall k | 0 <= k < |rates|
          ensures !UsdcRate(rates[k].entries)
        {
          if k > 0 {
            assert rest[k - 1] == rates[k];
          }
        }
      } else {
        var k :| 0 <= k < |rest| && UsdcRate(rest[k].entries);
        assert rest[k] == rates[k + 1];
      }
    }
  }

  datatype RewardFields = RewardFields(rewardsDailyRate: Value, minSize: Value, maxSpread: Value)

  /** The items a `for` loop over `v or []` visits when it calls `.get` on
      each: a list's items, nothing for a falsy value. A truthy string or
      dict yields strings, on which the first `.get` raises, and a truthy
      number is not iterable. */
  function Iterated(v: Value): (r: Result<seq<Value>, ShapeError>)
    ensures !Truthy(v) ==> r == Ok([])
    ensures v.List? ==> r == Ok(v.items)
    ensures r.Ok? <==> v.List? || !Truthy(v)
  {
    if !Truthy(v) then Ok([])
    else if v.List? then Ok(v.items)
    else Err(ShapeError)
  }

  /** extract_reward_fields: `m.get("rewards") or {}` must be a dict, the
      rates are read from its "rates", and the min size and max spread are
      copied as they are. */
  function ExtractRewardFields(m: Dict): (r: Result<RewardFields, ShapeError>)
    ensures var rewards := Or(Get(m, "rewards"), Dict(map[]));
            r.Ok? ==> rewards.Dict?
                      && r.value.minSize == Get(rewards.entries, "min_size")
                      && r.value.maxSpread == Get(rewards.entries, "max_spread")
    ensures !Truthy(Get(m, "rewards")) ==> r == Ok(RewardFields(Null, Null, Null))
  {
    var rewards := Or(Get(m, "rewards"), Dict(map[]));
    if !rewards.Dict? then Err(ShapeError)
    else
      var rates := Get(rewards.entries, "rates");
      match Iterated(Or(rates, List([])))
      case Err(e) => Err(e)
      case Ok(items) =>
        match FirstUsdcRate(items)
        case Err(e) => Err(e)
        case Ok(rate) => Ok(RewardFields(rate, Get(rewards.entries, "min_size"), Get(rewards.entries, "max_spread")))
  }

  /** With a dict of rewards whose rates are a list of dicts, the fields are
      read: the daily rate is the first USDC rate's, None when no entry pays
      in USDC. */
  lemma ExtractRewardFieldsRate(m: Dict, rewards: Dict, rates: seq<Value>)
    requires "rewards" in m && m["rewards"] == Dict(rewards)
    requires "rates" in rewards && rewards["rates"] == List(rates)
    requires forall k :: 0 <= k < |rates| ==> rates[k].Dict?
    ensures ExtractRewardFields(m).Ok?
    ensures var f := ExtractRewardFields(m).value;
            && (f.rewardsDailyRate == Null <==> forall k :: 0 <= k < |rates| ==> !UsdcRate(rates[k].entries))
            && (forall k :: (0 <= k < |rates| && UsdcRate(rates[k].entries)
                             && forall j :: 0 <= j < k ==> !UsdcRate(rates[j].entries)) ==>
                  f.rewardsDailyRate == Get(rates[k].entries, "rewards_daily_rate"))
  {
    FirstUsdcRateIsFirst(rates);
  }

  /** A reward list whose USDC entry follows another asset's entry: the
      USDC daily rate is taken. */
  lemma RewardFieldsExample(other: Dict, usdc: Dict)
    requires other == map["asset_address" := Str("0xabc"), "rewards_daily_rate" := Int(5)]
    requires usdc == map["asset_address" := Str(UsdcAddress), "rewards_daily_rate" := Int(20)]
    ensures var m := map["rewards" := Dict(map["rates" := List([Dict(other), Dict(usdc)]), "min_size" := Int(50)])];
            ExtractRewardFields(m) == Ok(RewardFields(Int(20), Int(50), Null))
  {
    var rates := [Dict(other), Dict(usdc)];
    assert !UsdcRate(other) by {
      assert Str("0xabc") != Str(UsdcAddress) by {
        assert "0xabc"[2] != UsdcAddress[2];
      }
    }
    assert rates[1..] == [Dict(usdc)];
    assert FirstUsdcRate(rates) == Ok(Int(20));
  }

  /* ---- build_market_record ---- */

  datatype TokenEntry = TokenEntry(tokenId: Value, outcome: Value, price: Value, bids: seq<Level>, asks: seq<Level>)

  datatype MarketRecord = MarketRecord(
    question: Value, marketSlug: Value, conditionId: Value, questionId: Value, endDateIso: Value,
    negRisk: Value, minimumOrderSize: Value, minimumTickSize: Value, acceptingOrders: Value,
    rewardsDailyRate: Value, minSize: Value, maxSpread: Value, tokens: seq<TokenEntry>)

  /** The entry for one token: its id ("token_id", else "tokenId"), outcome
      and price, with no levels yet. */
  function NewToken(t: Dict): TokenEntry
  {
    TokenEntry(Or(Get(t, "token_id"), Get(t, "tokenId")), Get(t, "outcome"), Get(t, "price"), [], [])
  }

  /** The record without its tokens. */
  function RecordHead(m: Dict, rewards: RewardFields): MarketRecord
  {
    MarketRecord(Get(m, "question"), Pick(m, ["market_slug", "slug"], Null), Get(m, "condition_id"),
                 Get(m, "question_id"), Pick(m, EndDateKeys, Null), Get(m, "neg_risk"),
                 Get(m, "minimum_order_size"), Get(m, "minimum_tick_size"), Get(m, "accepting_orders"),
                 rewards.rewardsDailyRate, rewards.minSize, rewards.maxSpread, [])
  }

  /** build_market_record: one entry per token of the market, in order;
      raises when the rewards or a token are not dicts. */
  method BuildMarketRecord(m: Dict) returns (r: Result<MarketRecord, ShapeError>)
    ensures r.Ok? <==> ExtractRewardFields(m).Ok? && Iterated(Or(Get(m, "tokens"), List([]))).Ok?
                       && forall t :: t in Iterated(Or(Get(m, "tokens"), List([]))).value ==> t.Dict?
    ensures r.Ok? ==>
              var items := Iterated(Or(Get(m, "tokens"), List([]))).value;
              && r.value.(tokens := []) == RecordHead(m, ExtractRewardFields(m).value)
              && |r.value.tokens| == |items|
              && forall k :: 0 <= k < |items| ==> r.value.tokens[k] == NewToken(items[k].entries)
  {
    var rewards := ExtractRewardFields(m);
    if rewards.Err? {
      return Err(rewards.error);
    }
    var record := RecordHead(m, rewards.value);
    var visited := Iterated(Or(Get(m, "tokens"), List([])));
    if visited.Err? {
      return Err(visited.error);
    }
    var items := visited.value;
    var tokens: seq<TokenEntry> := [];
    for k := 0 to |items|
      invariant |tokens| == k
      invariant forall j :: 0 <= j < k ==> items[j].Dict? && tokens[j] == NewToken(items[j].entries)
    {
      if !items[k].Dict? {
        assert items[k] in items;
        return Err(ShapeError);
      }
      tokens := tokens + [NewToken(items[k].entries)];
    }
    return Ok(record.(tokens := tokens));
  }

  /* ---- get_all_markets_sampling ---- */

  /** The markets read from the sampling endpoint starting at `cursor`, for
      at most `fuel` more pages. A call that raises, or an answer that is not
      a dict, ends the listing; only list-valued "data" is kept; a missing
      "next_cursor" (None) ends it after its page. */
  function Sampling(sample: Value -> Option<Value>, cursor: Value, fuel: nat): seq<Value>
    decreases fuel
  {
    if fuel == 0 then []
    else
      match sample(cursor)
      case None => []
      case Some(resp) =>
        if !resp.Dict? then []
        else
          var data := if "data" in resp.entries then resp.entries["data"] else List([]);
          var page := if data.List? then data.items else [];
          var next := Get(resp.entries, "next_cursor");
          if next == Null then page else page + Sampling(sample, next, fuel - 1)
  }

  /** One page of the listing: its data, then the listing from its next
      cursor, if any. */
  lemma SamplingStep(sample: Value -> Option<Value>, cursor: Value, fuel: nat, before: seq<Value>, page: seq<Value>)
    requires fuel > 0 && sample(cursor).Some? && sample(cursor).value.Dict?
    requires var d := sample(cursor).value.entries;
             var data := if "data" in d then d["data"] else List([]);
             page == if data.List? then data.items else []
    ensures var next := Get(sample(cursor).value.entries, "next_cursor");
            && (next == Null ==> before + Sampling(sample, cursor, fuel) == before + page)
            && (next != Null ==> before + Sampling(sample, cursor, fuel)
                                 == (before + page) + Sampling(sample, next, fuel - 1))
  {
  }

  /** More pages never change what was already read: the listing with less
      fuel is a prefix of the listing with more. */
  lemma {:induction false} SamplingPrefix(sample: Value -> Option<Value>, cursor: Value, fuel: nat, more: nat)
    requires fuel <= more
    ensures Sampling(sample, cursor, fuel) <= Sampling(sample, cursor, more)
    decreases fuel
  {
    if fuel > 0 {
      match sample(cursor)
      case None =>
      case Some(resp) =>
        if resp.Dict? && Get(resp.entries, "next_cursor") != Null {
          SamplingPrefix(sample, Get(resp.entries, "next_cursor"), fuel - 1, more - 1);
        }
    }
  }

  /** A listing that ends on its own (a page without a next cursor, or a
      failure) is unaffected by more fuel. */
  lemma {:induction false} SamplingEndsOnItsOwn(sample: Value -> Option<Value>, cursor: Value, fuel: nat, more: nat)
    requires fuel <= more
    requires Ends(sample, cursor, fuel)
    ensures Sampling(sample, cursor, fuel) == Sampling(sample, cursor, more)
    decreases fuel
  {
    match sample(cursor)
    case None =>
    case Some(resp) =>
      if resp.Dict? && Get(resp.entries, "next_cursor") != Null {
        SamplingEndsOnItsOwn(sample, Get(resp.entries, "next_cursor"), fuel - 1, more - 1);
      }
  }

  /** The cursors from `cursor` on reach a stopping page within `fuel` pages. */
  predicate Ends(sample: Value -> Option<Value>, cursor: Value, fuel: nat)
    decreases fuel
  {
    fuel > 0 &&
    match sample(cursor)
    case None => true
    case Some(resp) =>
      !resp.Dict? || Get(resp.entries, "next_cursor") == Null
      || Ends(sample, Get(resp.entries, "next_cursor"), fuel - 1)
  }

  /** get_all_markets_sampling, reading at most `maxPages` pages. */
  method GetAllMarketsSampling(sample: Value -> Option<Value>, maxPages: nat) returns (results: seq<Value>)
    ensures results == Sampling(sample, Str(""), maxPages)
  {
    var cursor := Str("");
    results := [];
    var pages := 0;
    while pages < maxPages
      invariant pages <= maxPages
      invariant Sampling(sample, Str(""), maxPages) == results + Sampling(sample, cursor, maxPages - pages)
      decreases maxPages - pages
    {
      var resp := sample(cursor);
      if resp.None? || !resp.value.Dict? {
        assert results + [] == results;
        return;
      }
      var d := resp.value.entries;
      var data := if "data" in d then d["data"] else List([]);
      var next := Get(d, "next_cursor");
      ghost var before := results;
      if data.List? {
        results := results + data.items;
      } else {
        results := results + [];
      }
      SamplingStep(sample, cursor, maxPages - pages, before, results[|before|..]);
      if next == Null {
        return;
      }
      cursor := next;
      pages := pages + 1;
    }
    assert results + [] == results;
  }

  /* ---- the end-date window of main ---- */

  /** The trailing 'Z' of an ISO-8601 time written as "+00:00". */
  function RewriteZ(s: string): (r: string)
    ensures s != [] && s[|s| - 1] == 'Z' ==> r == s[..|s| - 1] + "+00:00"
    ensures s == [] || s[|s| - 1] != 'Z' ==> r == s
  {
    if s != [] && s[|s| - 1] == 'Z' then s[..|s| - 1] + "+00:00" else s
  }

  /** parse_iso_to_utc: None for a falsy value, else `fromIso` (seconds since
      the epoch, None when the text does not parse) on its text with the
      'Z' rewritten. */
  function ParseIsoToUtc(v: Value, show: Value -> string, fromIso: string -> Option<int>): (r: Option<int>)
    ensures !Truthy(v) ==> r == None
  {
    if !Truthy(v) then None else fromIso(RewriteZ(StrOf(v, show)))
  }

  /** A 'Z' suffix and an explicit UTC offset name the same instant. */
  lemma RewriteZUtc(s: string)
    ensures RewriteZ(s + "Z") == s + "+00:00"
    ensures RewriteZ(s + "+00:00") == s + "+00:00"
  {
    assert (s + "Z")[..|s|] == s;
  }

  function MaxReal(a: real, b: real): real { if a < b then b else a }

  /** The listing keeps a market that accepts orders and ends between a day
      ago and `hours` from now (no later than now for negative `hours`). */
  predicate Keep(m: Dict, now: int, hours: real, show: Value -> string, fromIso: string -> Option<int>)
  {
    var end := ParseIsoToUtc(Pick(m, EndDateKeys, Null), show, fromIso);
    Truthy(Get(m, "accepting_orders")) && end.Some?
    && now - 86400 <= end.value
    && end.value as real <= now as real + MaxReal(0.0, hours) * 3600.0
  }

  /** The kept markets, in order. */
  function Filter(ms: seq<Dict>, now: int, hours: real, show: Value -> string, fromIso: string -> Option<int>)
    : (r: seq<Dict>)
    ensures |r| <= |ms|
    ensures forall m :: m in r <==> m in ms && Keep(m, now, hours, show, fromIso)
    ensures |ms| == 1 ==> r == (if Keep(ms[0], now, hours, show, fromIso) then [ms[0]] else [])
  {
    if ms == [] then []
    else
      var rest := Filter(ms[1..], now, hours, show, fromIso);
      assert forall m :: m in ms <==> m == ms[0] || m in ms[1..];
      if Keep(ms[0], now, hours, show, fromIso) then [ms[0]] + rest else rest
  }

  /** Filtering a concatenation filters its parts, in order; with the
      one-market case of Filter this fixes the result, duplicates included. */
  lemma {:induction false} FilterConcat(a: seq<Dict>, b: seq<Dict>, now: int, hours: real,
                                        show: Value -> string, fromIso: string -> Option<int>)
    ensures Filter(a + b, now, hours, show, fromIso) == Filter(a, now, hours, show, fromIso) + Filter(b, now, hours, show, fromIso)
    decreases |a|
  {
    if a != [] {
      assert (a + b)[0] == a[0] && (a + b)[1..] == a[1..] + b;
      FilterConcat(a[1..], b, now, hours, show, fromIso);
    } else {
      assert a + b == b;
    }
  }

  /** A negative window forward is the same as none. */
  lemma NegativeHoursIsZero(m: Dict, now: int, hours: real, show: Value -> string, fromIso: string -> Option<int>)
    requires hours < 0.0
    ensures Keep(m, now, hours, show, fromIso) <==> Keep(m, now, 0.0, show, fromIso)
  {
  }

  /** A wider window keeps at least the same markets. */
  lemma WiderWindowKeepsMore(m: Dict, now: int, hours: real, wider: real, show: Value -> string,
                             fromIso: string -> Option<int>)
    requires hours <= wider
    requires Keep(m, now, hours, show, fromIso)
    ensures Keep(m, now, wider, show, fromIso)
  {
    assert MaxReal(0.0, hours) * 3600.0 <= MaxReal(0.0, wider) * 3600.0;
  }

  /** The filtering loop of main. */
  method FilterMarkets(ms: seq<Dict>, now: int, hours: real, show: Value -> string, fromIso: string -> Option<int>)
    returns (kept: seq<Dict>)
    ensures kept == Filter(ms, now, hours, show, fromIso)
  {
    kept := [];
    for i := 0 to |ms|
      invariant kept == Filter(ms[..i], now, hours, show, fromIso)
    {
      FilterConcat(ms[..i], [ms[i]], now, hours, show, fromIso);
      assert ms[..i + 1] == ms[..i] + [ms[i]];
      if Keep(ms[i], now, hours, show, fromIso) {
        kept := kept + [ms[i]];
      }
    }
    assert ms[..|ms|] == ms;
  }

  /* ---- token ids and merging the books ---- */

  /** The ids of the tokens of `tokens` that have a truthy id, as text. */
  function TokenIds(tokens: seq<TokenEntry>, show: Value -> string): seq<string>
  {
    if tokens == [] then []
    else (if Truthy(tokens[0].tokenId) then [StrOf(tokens[0].tokenId, show)] else []) + TokenIds(tokens[1..], show)
  }

  /** The ids of all tokens of all records, record by record. */
  function AllTokenIds(records: seq<MarketRecord>, show: Value -> string): seq<string>
  {
    if records == [] then [] else TokenIds(records[0].tokens, show) + AllTokenIds(records[1..], show)
  }

  lemma {:induction false} TokenIdsMembers(tokens: seq<TokenEntry>, show: Value -> string, s: string)
    ensures s in TokenIds(tokens, show) <==>
              exists k :: 0 <= k < |tokens| && Truthy(tokens[k].tokenId) && StrOf(tokens[k].tokenId, show) == s
  {
    if tokens != [] {
      TokenIdsMembers(tokens[1..], show, s);
      if exists k :: 0 <= k < |tokens| && Truthy(tokens[k].tokenId) && StrOf(tokens[k].tokenId, show) == s {
        var k :| 0 <= k < |tokens| && Truthy(tokens[k].tokenId) && StrOf(tokens[k].tokenId, show) == s;
        if k > 0 {
          assert tokens[1..][k - 1] == tokens[k];
        }
      }
      if s in TokenIds(tokens[1..], show) {
        var k :| 0 <= k < |tokens[1..]| && Truthy(tokens[1..][k].tokenId) && StrOf(tokens[1..][k].tokenId, show) == s;
        assert tokens[1..][k] == tokens[k + 1];
      }
    }
  }

  /** An id is collected exactly when some token of some record has it. */
  lemma {:induction false} AllTokenIdsMembers(records: seq<MarketRecord>, show: Value -> string, s: string)
    ensures s in AllTokenIds(records, show) <==>
              exists i :: 0 <= i < |records| && s in TokenIds(records[i].tokens, show)
  {
    if records != [] {
      AllTokenIdsMembers(records[1..], show, s);
      if exists i :: 0 <= i < |records| && s in TokenIds(records[i].tokens, show) {
        var i :| 0 <= i < |records| && s in TokenIds(records[i].tokens, show);
        if i > 0 {
          assert records[1..][i - 1] == records[i];
        }
      }
      if s in AllTokenIds(records[1..], show) {
        var i :| 0 <= i < |records[1..]| && s in TokenIds(records[1..][i].tokens, show);
        assert records[1..][i] == records[i + 1];
      }
    }
  }

  /** The id-collecting loops of main: every record's ids, in order. */
  method CollectTokenIds(records: seq<MarketRecord>, show: Value -> string) returns (ids: seq<string>)
    ensures ids == AllTokenIds(records, show)
  {
    ids := [];
    for i := 0 to |records|
      invariant ids + AllTokenIds(records[i..], show) == AllTokenIds(records, show)
    {
      assert records[i..][1..] == records[i + 1..];
      var here := RecordTokenIds(records[i].tokens, show);
      assert ids + (here + AllTokenIds(records[i + 1..], show)) == (ids + here) + AllTokenIds(records[i + 1..], show);
      ids := ids + here;
    }
    assert records[|records|..] == [];
  }

  /** The inner loop: the ids of one record's tokens, skipping falsy ones. */
  method RecordTokenIds(tokens: seq<TokenEntry>, show: Value -> string) returns (here: seq<string>)
    ensures here == TokenIds(tokens, show)
  {
    here := [];
    for k := 0 to |tokens|
      invariant here + TokenIds(tokens[k..], show) == TokenIds(tokens, show)
    {
      assert tokens[k..][1..] == tokens[k + 1..];
      if Truthy(tokens[k].tokenId) {
        here := here + [StrOf(tokens[k].tokenId, show)];
      }
    }
    assert tokens[|tokens|..] == [];
  }

  /** A token with its book's levels, when the books hold its id. */
  function MergeToken(t: TokenEntry, books: BookMap, show: Value -> string): (r: TokenEntry)
    ensures r.tokenId == t.tokenId && r.outcome == t.outcome && r.price == t.price
  {
    var tid := StrOf(t.tokenId, show);
    if tid in books then t.(bids := books[tid].bids, asks := books[tid].asks) else t
  }

  function MergeRecord(r: MarketRecord, books: BookMap, show: Value -> string): MarketRecord
  {
    r.(tokens := seq(|r.tokens|, k requires 0 <= k < |r.tokens| => MergeToken(r.tokens[k], books, show)))
  }

  /** Merging keeps everything but the levels, fills exactly the tokens the
      books know, and merging again changes nothing. */
  lemma MergeRecordSound(r: MarketRecord, books: BookMap, show: Value -> string)
    ensures var m := MergeRecord(r, books, show);
            && m.(tokens := []) == r.(tokens := [])
            && |m.tokens| == |r.tokens|
            && (forall k :: 0 <= k < |r.tokens| && StrOf(r.tokens[k].tokenId, show) in books ==>
                  m.tokens[k].bids == books[StrOf(r.tokens[k].tokenId, show)].bids
                  && m.tokens[k].asks == books[StrOf(r.tokens[k].tokenId, show)].asks)
            && (forall k :: 0 <= k < |r.tokens| && StrOf(r.tokens[k].tokenId, show) !in books ==>
                  m.tokens[k] == r.tokens[k])
            && MergeRecord(m, books, show) == m
  {
    var m := MergeRecord(r, books, show);
    var again := MergeRecord(m, books, show);
    assert again.tokens == m.tokens;
  }

  /** The merging loops of main. */
  method MergeBooks(records: seq<MarketRecord>, books: BookMap, show: Value -> string)
    returns (merged: seq<MarketRecord>)
    ensures |merged| == |records|
    ensures forall i :: 0 <= i < |records| ==> merged[i] == MergeRecord(records[i], books, show)
  {
    merged := [];
    for i := 0 to |records|
      invariant |merged| == i
      invariant forall j :: 0 <= j < i ==> merged[j] == MergeRecord(records[j], books, show)
    {
      var tokens := records[i].tokens;
      var out: seq<TokenEntry> := [];
      for k := 0 to |tokens|
        invariant |out| == k
        invariant forall j :: 0 <= j < k ==> out[j] == MergeToken(tokens[j], books, show)
      {
        var t := tokens[k];
        var tid := StrOf(t.tokenId, show);
        if tid in books {
          t := t.(bids := books[tid].bids, asks := books[tid].asks);
        }
        out := out + [t];
      }
      merged := merged + [records[i].(tokens := out)];
    }
  }
}
