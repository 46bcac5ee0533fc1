/** The local filter and sort of fetch_markets in
    data_updater/get_ending_markets.py: markets that are not closed, hold
    enough liquidity and end within the next `hours`, sorted by end date.
    Times are microseconds since the Unix epoch; the ISO-8601 parsers and
    Python's float() of a string are parameters. */
module EndingMarkets {
  import opened PyValue

  type Dict = map<string, Value>

  /** datetime.max (9999-12-31 23:59:59.999999 UTC) in microseconds. */
  const MaxTime: int := 253_402_300_799_999_999

  const Hour: int := 3_600_000_000

  /* ---- reading the response ---- */

  /** The markets of a response: a dict is read from "markets", else
      "results"; anything that is then not a list gives no markets. */
  function Results(data: Value): (r: seq<Value>)
    ensures data.List? ==> r == data.items
    ensures !data.List? && !data.Dict? ==> r == []
    ensures data.Dict? && Get(data.entries, "markets").List? && Truthy(Get(data.entries, "markets")) ==>
              r == Get(data.entries, "markets").items
    ensures data.Dict? && !Truthy(Get(data.entries, "markets")) && Get(data.entries, "results").List? ==>
              r == Get(data.entries, "results").items
    ensures data.Dict? && !Truthy(Get(data.entries, "markets")) && !Get(data.entries, "results").List? ==>
              r == []
    ensures data.Dict? && Truthy(Get(data.entries, "markets")) && !Get(data.entries, "markets").List? ==>
              r == []
  {
    var results :=
      if data.Dict? then Or(Or(Get(data.entries, "markets"), Get(data.entries, "results")), List([])) else data;
    if results.List? then results.items else []
  }

  /** A dict whose "markets" entry is truthy but not a list gives no
      markets, even when "results" holds some. */
  lemma NonListMarketsHidesResults(d: Dict)
    requires "markets" in d && Truthy(d["markets"]) && !d["markets"].List?
    ensures Results(Dict(d)) == []
  {
  }

  /* ---- the fields read from a market ---- */

  /** Python's float(): numbers and booleans convert, strings go through
      `parse` (None when float() raises), anything else raises. */
  function FloatOf(v: Value, parse: string -> Option<real>): (r: Option<real>)
    ensures v.Int? ==> r == Some(v.i as real)
    ensures v.Float? ==> r == Some(v.r)
    ensures v.Bool? ==> r == Some(if v.b then 1.0 else 0.0)
    ensures v.Str? ==> r == parse(v.s)
    ensures v.Null? || v.List? || v.Dict? ==> r == None
  {
    match v
    case Int(i) => Some(i as real)
    case Float(x) => Some(x)
    case Bool(b) => Some(if b then 1.0 else 0.0)
    case Str(s) => parse(s)
    case _ => None
  }

  /** The liquidity of a market: "liquidityNum" when truthy, else
      "liquidity_num" when truthy, else 0; a chosen value float() rejects
      counts as 0. */
  function Liquidity(m: Dict, parse: string -> Option<real>): (r: real)
    ensures var v := Get(m, "liquidityNum");
            Truthy(v) ==> r == (if FloatOf(v, parse).Some? then FloatOf(v, parse).value else 0.0)
    ensures var v := Get(m, "liquidity_num");
            !Truthy(Get(m, "liquidityNum")) && Truthy(v) ==>
              r == (if FloatOf(v, parse).Some? then FloatOf(v, parse).value else 0.0)
    ensures !Truthy(Get(m, "liquidityNum")) && !Truthy(Get(m, "liquidity_num")) ==> r == 0.0
  {
    var liq := Or(Or(Get(m, "liquidityNum"), Get(m, "liquidity_num")), Int(0));
    match FloatOf(liq, parse)
    case Some(x) => x
    case None => 0.0
  }

  /** The date parsers: str(), datetime.fromisoformat and strptime with
      "%Y-%m-%dT%H:%M:%SZ", each giving the UTC instant or None when it
      raises. */
  datatype DateParsers = DateParsers(show: Value -> string, fromIso: string -> Option<int>,
                                     strptime: string -> Option<int>)

  /** A trailing 'Z' or 'z' written as "+00:00". */
  function RewriteUtc(s: string): (r: string)
    ensures s != [] && (s[|s| - 1] == 'Z' || s[|s| - 1] == 'z') ==> r == s[..|s| - 1] + "+00:00"
    ensures s == [] || (s[|s| - 1] != 'Z' && s[|s| - 1] != 'z') ==> r == s
  {
    if s != [] && (s[|s| - 1] == 'Z' || s[|s| - 1] == 'z') then s[..|s| - 1] + "+00:00" else s
  }

  /** _parse_end_date: "endDateIso", else "endDate"; a missing date, or one
      that neither parser reads, is datetime.max. The ISO parser sees the
      stripped text with its 'Z' rewritten, the fallback the text as it is. */
  function ParseEndDate(m: Dict, p: DateParsers): (t: int)
    ensures var val := Or(Get(m, "endDateIso"), Get(m, "endDate"));
            && (!Truthy(val) ==> t == MaxTime)
            && (Truthy(val) && p.fromIso(RewriteUtc(Strip(StrOf(val, p.show)))).Some? ==>
                  t == p.fromIso(RewriteUtc(Strip(StrOf(val, p.show)))).value)
            && ((Truthy(val) && p.fromIso(RewriteUtc(Strip(StrOf(val, p.show)))).None?
                 && p.strptime(StrOf(val, p.show)).Some?) ==> t == p.strptime(StrOf(val, p.show)).value)
            && ((Truthy(val) && p.fromIso(RewriteUtc(Strip(StrOf(val, p.show)))).None?
                 && p.strptime(StrOf(val, p.show)).None?) ==> t == MaxTime)
  {
    var val := Or(Get(m, "endDateIso"), Get(m, "endDate"));
    if !Truthy(val) then MaxTime
    else
      match p.fromIso(RewriteUtc(Strip(StrOf(val, p.show))))
      case Some(t) => t
      case None =>
        match p.strptime(StrOf(val, p.show))
        case Some(t) => t
        case None => MaxTime
  }

  /* ---- the filter ---- */

  /** The loop keeps a market that is not closed (only the value True
      closes it), holds at least `minLiquidity` and ends between now and
      `hours` from now. */
  predicate Passes(m: Dict, now: int, hours: int, minLiquidity: real, parse: string -> Option<real>, p: DateParsers)
  {
    Get(m, "closed") != Bool(true)
    && Liquidity(m, parse) >= minLiquidity
    && now <= ParseEndDate(m, p) <= now + hours * Hour
  }

  /** A market item that is not a dict: `.get` on it raises. */
  datatype NotADict = NotADict

  /** The markets the loop keeps, in order; it raises on the first item
      that is not a dict. */
  function Kept(results: seq<Value>, now: int, hours: int, minLiquidity: real, parse: string -> Option<real>,
                p: DateParsers): (r: Result<seq<Dict>, NotADict>)
    ensures r.Ok? ==> |r.value| <= |results|
  {
    if results == [] then Ok([])
    else if !results[0].Dict? then Err(NotADict)
    else
      match Kept(results[1..], now, hours, minLiquidity, parse, p)
      case Err(e) => Err(e)
      case Ok(rest) =>
        if Passes(results[0].entries, now, hours, minLiquidity, parse, p) then Ok([results[0].entries] + rest)
        else Ok(rest)
  }

  /** The loop raises exactly when some item is not a dict; otherwise it
      keeps exactly the passing markets. */
  lemma {:induction false} KeptMembers(results: seq<Value>, now: int, hours: int, minLiquidity: real,
                                       parse: string -> Option<real>, p: DateParsers)
    ensures var r := Kept(results, now, hours, minLiquidity, parse, p);
            && (r.Err? <==> exists k :: 0 <= k < |results| && !results[k].Dict?)
            && (r.Ok? ==> forall m :: m in r.value <==> Dict(m) in results && Passes(m, now, hours, minLiquidity, parse, p))
  {
    if results != [] {
      var rest := results[1..];
      KeptMembers(rest, now, hours, minLiquidity, parse, p);
      assert forall v :: v in results <==> v == results[0] || v in rest;
      if exists k :: 0 <= k < |rest| && !rest[k].Dict? {
        var k :| 0 <= k < |rest| && !rest[k].Dict?;
        assert results[k + 1] == rest[k];
      }
      if exists k :: 0 <= k < |results| && !results[k].Dict? {
        var k :| 0 <= k < |results| && !results[k].Dict?;
        if k > 0 {
          assert rest[k - 1] == results[k];
        }
      }
    }
  }

  /** Every kept market ends no earlier than now, although the query sent
      to the server asks from `hours` before now: markets that have already
      ended are removed here. */
  lemma KeptEndsInWindow(results: seq<Value>, now: int, hours: int, minLiquidity: real,
                         parse: string -> Option<real>, p: DateParsers, m: Dict)
    requires Kept(results, now, hours, minLiquidity, parse, p).Ok?
    requires m in Kept(results, now, hours, minLiquidity, parse, p).value
    ensures now <= ParseEndDate(m, p) <= now + hours * Hour
    ensures Get(m, "closed") != Bool(true)
  {
    KeptMembers(results, now, hours, minLiquidity, parse, p);
  }

  /** A market without a readable end date is dropped whenever the window
      ends before datetime.max. */
  lemma UndatedDropped(m: Dict, now: int, hours: int, minLiquidity: real, parse: string -> Option<real>,
                       p: DateParsers)
    requires now + hours * Hour < MaxTime
    requires ParseEndDate(m, p) == MaxTime
    ensures !Passes(m, now, hours, minLiquidity, parse, p)
  {
  }

  /** A missing "closed" passes, and so does any value other than True. */
  lemma OnlyTrueCloses(m: Dict, now: int, hours: int, minLiquidity: real, parse: string -> Option<real>,
                       p: DateParsers)
    requires Get(m, "closed") == Int(1) || "closed" !in m
    requires Liquidity(m, parse) >= minLiquidity && now <= ParseEndDate(m, p) <= now + hours * Hour
    ensures Passes(m, now, hours, minLiquidity, parse, p)
  {
  }

  /* ---- the sort ---- */

  /** `s` is in ascending order of `key`. */
  predicate SortedBy(s: seq<Dict>, key: Dict -> int)
  {
    forall i, j :: 0 <= i < j < |s| ==> key(s[i]) <= key(s[j])
  }

  /** During the insertion of s[j]: s[..i+1] is in order but for s[j]. */
  predicate SortedBut(s: seq<Dict>, i: int, j: int, key: Dict -> int)
    requires 0 <= j <= i < |s|
  {
    forall p, q :: 0 <= p < q <= i && p != j && q != j ==> key(s[p]) <= key(s[q])
  }

  /** During the insertion of s[j]: it is no later than what follows it up to i. */
  predicate FirstOfRest(s: seq<Dict>, i: int, j: int, key: Dict -> int)
    requires 0 <= j <= i < |s|
  {
    forall q :: j < q <= i ==> key(s[j]) <= key(s[q])
  }

  /** Moving s[j] one place down past a strictly later market keeps the
      insertion invariant. */
  lemma SwapStep(s: seq<Dict>, i: int, j: int, key: Dict -> int)
    requires 0 < j <= i < |s|
    requires SortedBut(s, i, j, key) && FirstOfRest(s, i, j, key)
    requires key(s[j - 1]) > key(s[j])
    ensures var t := s[j - 1 := s[j]][j := s[j - 1]];
            SortedBut(t, i, j - 1, key) && FirstOfRest(t, i, j - 1, key)
            && multiset(t) == multiset(s)
  {
    var t := s[j - 1 := s[j]][j := s[j - 1]];
    forall p, q | 0 <= p < q <= i && p != j - 1 && q != j - 1
      ensures key(t[p]) <= key(t[q])
    {
      if q == j {
        assert key(s[p]) <= key(s[j - 1]);
      }
    }
  }

  /** The insertion of s[j] is finished: s[..i+1] is in order. */
  lemma InsertDone(s: seq<Dict>, i: int, j: int, key: Dict -> int)
    requires 0 <= j <= i < |s|
    requires SortedBut(s, i, j, key) && FirstOfRest(s, i, j, key)
    requires j == 0 || key(s[j - 1]) <= key(s[j])
    ensures SortedBy(s[..i + 1], key)
  {
    forall p, q | 0 <= p < q < i + 1
      ensures key(s[p]) <= key(s[q])
    {
      if q == j {
        assert key(s[p]) <= key(s[j - 1]);
      }
    }
  }

  /** soon.sort(key=_parse_end_date): insertion sort, which moves a market
      only past markets with a strictly later end date. */
  method SortByEnd(a: array<Dict>, key: Dict -> int)
    modifies a
    ensures SortedBy(a[..], key)
    ensures multiset(a[..]) == multiset(old(a[..]))
  {
    var i := 0;
    while i < a.Length
      invariant 0 <= i <= a.Length
      invariant SortedBy(a[..i], key)
      invariant multiset(a[..]) == multiset(old(a[..]))
    {
      InsertAt(a, i, key);
      i := i + 1;
    }
    assert a[..a.Length] == a[..];
  }

  /** One pass of the insertion sort: move a[i] down into the sorted prefix. */
  method InsertAt(a: array<Dict>, i: int, key: Dict -> int)
    requires 0 <= i < a.Length && SortedBy(a[..i], key)
    modifies a
    ensures SortedBy(a[..i + 1], key)
    ensures multiset(a[..]) == multiset(old(a[..]))
  {
    var j := i;
    assert SortedBut(a[..], i, j, key) by {
      assert forall k :: 0 <= k < i ==> a[..][k] == a[..i][k];
    }
    while j > 0 && key(a[j - 1]) > key(a[j])
      invariant 0 <= j <= i
      invariant multiset(a[..]) == multiset(old(a[..]))
      invariant SortedBut(a[..], i, j, key) && FirstOfRest(a[..], i, j, key)
    {
      ghost var s := a[..];
      SwapStep(s, i, j, key);
      a[j - 1], a[j] := a[j], a[j - 1];
      assert a[..] == s[j - 1 := s[j]][j := s[j - 1]];
      j := j - 1;
    }
    InsertDone(a[..], i, j, key);
    assert a[..][..i + 1] == a[..i + 1];
  }

  /** The filter and sort of fetch_markets on a decoded response. */
  method FilterAndSort(data: Value, now: int, hours: int, minLiquidity: real, parse: string -> Option<real>,
                       p: DateParsers)
    returns (r: Result<seq<Dict>, NotADict>)
    ensures r.Err? <==> Kept(Results(data), now, hours, minLiquidity, parse, p).Err?
    ensures r.Ok? ==>
              && SortedBy(r.value, m => ParseEndDate(m, p))
              && multiset(r.value) == multiset(Kept(Results(data), now, hours, minLiquidity, parse, p).value)
  {
    var results := Results(data);
    var soon: seq<Dict> := [];
    for i := 0 to |results|
      invariant Kept(results[..i], now, hours, minLiquidity, parse, p) == Ok(soon)
    {
      KeptSnoc(results[..i], results[i], now, hours, minLiquidity, parse, p);
      assert results[..i + 1] == results[..i] + [results[i]];
      if !results[i].Dict? {
        KeptErrSpreads(results, i, now, hours, minLiquidity, parse, p);
        return Err(NotADict);
      }
      var m := results[i].entries;
      if Passes(m, now, hours, minLiquidity, parse, p) {
        soon := soon + [m];
      } else {
        assert soon + [] == soon;
      }
    }
    assert results[..|results|] == results;
    var a := new Dict[|soon|](k requires 0 <= k < |soon| => soon[k]);
    assert a[..] == soon;
    SortByEnd(a, m => ParseEndDate(m, p));
    return Ok(a[..]);
  }

  /** The loop one item further: a non-dict raises, a passing market is
      appended. */
  lemma {:induction false} KeptSnoc(s: seq<Value>, v: Value, now: int, hours: int, minLiquidity: real,
                                    parse: string -> Option<real>, p: DateParsers)
    ensures var before := Kept(s, now, hours, minLiquidity, parse, p);
            var after := Kept(s + [v], now, hours, minLiquidity, parse, p);
            && (before.Err? || !v.Dict? ==> after.Err?)
            && (before.Ok? && v.Dict? ==>
                  after == Ok(before.value + if Passes(v.entries, now, hours, minLiquidity, parse, p) then [v.entries] else []))
  {
    if s == [] {
      assert [v][1..] == [];
      assert s + [v] == [v];
      assert Kept([], now, hours, minLiquidity, parse, p) == Ok([]);
      if v.Dict? {
        var rest := Kept([v][1..], now, hours, minLiquidity, parse, p);
        assert rest == Ok([]);
        if Passes(v.entries, now, hours, minLiquidity, parse, p) {
          assert Kept([v], now, hours, minLiquidity, parse, p) == Ok([v.entries] + []);
          assert [v.entries] + [] == [] + [v.entries];
        } else {
          assert Kept([v], now, hours, minLiquidity, parse, p) == Ok([]);
          var none: seq<Dict> := [];
          assert none + [] == none;
        }
      }
    } else {
      assert (s + [v])[0] == s[0];
      assert (s + [v])[1..] == s[1..] + [v];
      KeptSnoc(s[1..], v, now, hours, minLiquidity, parse, p);
      var before := Kept(s, now, hours, minLiquidity, parse, p);
      var tail := Kept(s[1..], now, hours, minLiquidity, parse, p);
      if before.Ok? && v.Dict? {
        var extra := if Passes(v.entries, now, hours, minLiquidity, parse, p) then [v.entries] else [];
        if Passes(s[0].entries, now, hours, minLiquidity, parse, p) {
          assert [s[0].entries] + (tail.value + extra) == ([s[0].entries] + tail.value) + extra;
        }
      }
    }
  }

  /** A non-dict item anywhere makes the whole loop raise. */
  lemma KeptErrSpreads(results: seq<Value>, i: int, now: int, hours: int, minLiquidity: real,
                       parse: string -> Option<real>, p: DateParsers)
    requires 0 <= i < |results| && !results[i].Dict?
    ensures Kept(results, now, hours, minLiquidity, parse, p).Err?
  {
    KeptMembers(results, now, hours, minLiquidity, parse, p);
  }
}
