/** Fetching order books for many tokens in batches (fetch_order_books_bulk
    in data_updater/list_markets.py). Two oracles answer for a batch of
    token ids: the optional client's `get_order_books`, giving its list of
    books or None when it raises, and the HTTP books endpoint `fetch`,
    giving the decoded response or None when the request raises. */
module OrderBooks {
  import opened PyValue

  /** A price level as the bot stores it: both numbers kept as text. */
  datatype Level = Level(price: string, size: string)

  datatype BookLevels = BookLevels(bids: seq<Level>, asks: seq<Level>)

  type BookMap = map<string, BookLevels>

  /* ---- coerce_levels ---- */

  /** The level a list element gives, if any: a dict with both "price" and
      "size" non-None. Anything else has no such attributes and is skipped. */
  function LevelOf(lv: Value, show: Value -> string): Option<Level>
  {
    if lv.Dict? && Get(lv.entries, "price") != Null && Get(lv.entries, "size") != Null then
      Some(Level(StrOf(Get(lv.entries, "price"), show), StrOf(Get(lv.entries, "size"), show)))
    else None
  }

  /** The levels of a list, in order, skipping elements without a level. */
  function LevelsOf(items: seq<Value>, show: Value -> string): (r: seq<Level>)
    ensures |r| <= |items|
    ensures |items| == 1 ==> r == (if LevelOf(items[0], show).Some? then [LevelOf(items[0], show).value] else [])
  {
    if items == [] then []
    else
      var rest := LevelsOf(items[1..], show);
      match LevelOf(items[0], show)
      case Some(l) => [l] + rest
      case None => rest
  }

  /** The levels of a concatenation are the levels of its parts, in order;
      with the one-element case of LevelsOf this fixes the result exactly. */
  lemma {:induction false} LevelsOfConcat(a: seq<Value>, b: seq<Value>, show: Value -> string)
    ensures LevelsOf(a + b, show) == LevelsOf(a, show) + LevelsOf(b, show)
    decreases |a|
  {
    if a != [] {
      assert (a + b)[0] == a[0] && (a + b)[1..] == a[1..] + b;
      LevelsOfConcat(a[1..], b, show);
    } else {
      assert a + b == b;
    }
  }

  /** A level is stored iff some input element is a complete level with that
      text; when every element is complete, none is dropped. */
  lemma {:induction false} LevelsOfMembers(items: seq<Value>, show: Value -> string)
    ensures var r := LevelsOf(items, show);
            forall l :: l in r <==> exists j :: 0 <= j < |items| && LevelOf(items[j], show) == Some(l)
    ensures (forall j :: 0 <= j < |items| ==> LevelOf(items[j], show).Some?) ==> |LevelsOf(items, show)| == |items|
  {
    if items != [] {
      LevelsOfMembers(items[1..], show);
      var rest := LevelsOf(items[1..], show);
      var r := LevelsOf(items, show);
      forall l
        ensures l in r <==> exists j :: 0 <= j < |items| && LevelOf(items[j], show) == Some(l)
      {
        if l in r {
          if LevelOf(items[0], show) == Some(l) {
            assert LevelOf(items[0], show) == Some(l);
          } else {
            assert l in rest;
            var j :| 0 <= j < |items[1..]| && LevelOf(items[1..][j], show) == Some(l);
            assert items[1..][j] == items[j + 1];
          }
        }
        if exists j :: 0 <= j < |items| && LevelOf(items[j], show) == Some(l) {
          var j :| 0 <= j < |items| && LevelOf(items[j], show) == Some(l);
          if j > 0 {
            assert items[1..][j - 1] == items[j];
            assert l in rest;
          }
        }
      }
      if forall j :: 0 <= j < |items| ==> LevelOf(items[j], show).Some? {
        forall j | 0 <= j < |items[1..]|
          ensures LevelOf(items[1..][j], show).Some?
        {
          assert items[1..][j] == items[j + 1];
        }
      }
    }
  }

  /** coerce_levels: a falsy value gives no levels; a list gives its levels;
      iterating a string or a dict yields strings, none of which is a level;
      a truthy number is not iterable and raises (None). */
  function CoerceLevels(levels: Value, show: Value -> string): (r: Option<seq<Level>>)
    ensures r.None? <==> Truthy(levels) && (levels.Int? || levels.Float? || levels.Bool?)
    ensures !Truthy(levels) ==> r == Some([])
    ensures levels.List? ==> r == Some(LevelsOf(levels.items, show))
    ensures Truthy(levels) && (levels.Str? || levels.Dict?) ==> r == Some([])
  {
    if !Truthy(levels) then Some([])
    else
      match levels
      case List(items) => Some(LevelsOf(items, show))
      case Str(_) => Some([])
      case Dict(_) => Some([])
      case _ => None
  }

  /* ---- one response ---- */

  /** The books of a response: a list is the books; from a dict the first
      truthy of "books", "data", "orderbooks", else []; anything else gives
      no books. `Err` when the chosen value is a truthy non-list, whose
      first element then fails the `.get` of the book loop. */
  function BooksArray(resp: Value): (r: Result<seq<Value>, ()>)
    ensures resp.List? ==> r == Ok(resp.items)
    ensures !resp.List? && !resp.Dict? ==> r == Ok([])
    ensures resp.Dict? && Get(resp.entries, "books").List? && Truthy(Get(resp.entries, "books")) ==>
              r == Ok(Get(resp.entries, "books").items)
    ensures (resp.Dict? && !Truthy(Get(resp.entries, "books")) && !Truthy(Get(resp.entries, "data"))
             && !Truthy(Get(resp.entries, "orderbooks"))) ==> r == Ok([])
    ensures resp.Dict? && Truthy(Get(resp.entries, "books")) && !Get(resp.entries, "books").List? ==> r == Err(())
    ensures resp.Dict? && !Truthy(Get(resp.entries, "books")) && Truthy(Get(resp.entries, "data")) ==>
              var data := Get(resp.entries, "data");
              r == (if data.List? then Ok(data.items) else Err(()))
    ensures resp.Dict? && !Truthy(Get(resp.entries, "books")) && !Truthy(Get(resp.entries, "data"))
            && Truthy(Get(resp.entries, "orderbooks")) ==>
              var books := Get(resp.entries, "orderbooks");
              r == (if books.List? then Ok(books.items) else Err(()))
  {
    match resp
    case List(items) => Ok(items)
    case Dict(d) =>
      var chosen := Or(Or(Or(Get(d, "books"), Get(d, "data")), Get(d, "orderbooks")), List([]));
      if chosen.List? then Ok(chosen.items) else Err(())
    case _ => Ok([])
  }

  /** The token a book is for: "asset_id", else "token_id". */
  function BookId(ob: map<string, Value>): Value
  {
    Or(Get(ob, "asset_id"), Get(ob, "token_id"))
  }

  /** `coerce_levels(ob.get(key) or [])`. */
  function SideLevels(ob: map<string, Value>, key: string, show: Value -> string): Option<seq<Level>>
  {
    CoerceLevels(Or(Get(ob, key), List([])), show)
  }

  /** Storing one book: `None` when the book is not a dict (its `.get`
      raises) or its levels raise; skipped without an id; otherwise its
      coerced bids and asks are stored under the text of its id, and no other
      entry changes. */
  function ApplyBook(result: BookMap, ob: Value, show: Value -> string): (r: Option<BookMap>)
    ensures !ob.Dict? ==> r.None?
    ensures ob.Dict? && !Truthy(BookId(ob.entries)) ==> r == Some(result)
    ensures ob.Dict? && Truthy(BookId(ob.entries)) ==>
              (r.None? <==> SideLevels(ob.entries, "bids", show).None? || SideLevels(ob.entries, "asks", show).None?)
    ensures ob.Dict? && Truthy(BookId(ob.entries)) && r.Some? ==>
              var k := StrOf(BookId(ob.entries), show);
              && SideLevels(ob.entries, "bids", show).Some? && SideLevels(ob.entries, "asks", show).Some?
              && r.value.Keys == result.Keys + {k}
              && r.value[k] == BookLevels(SideLevels(ob.entries, "bids", show).value, SideLevels(ob.entries, "asks", show).value)
              && forall k' :: k' in result && k' != k ==> r.value[k'] == result[k']
  {
    if !ob.Dict? then None
    else
      var tid := BookId(ob.entries);
      if !Truthy(tid) then Some(result)
      else
        var bids := SideLevels(ob.entries, "bids", show);
        var asks := SideLevels(ob.entries, "asks", show);
        if bids.None? || asks.None? then None
        else Some(result[StrOf(tid, show) := BookLevels(bids.value, asks.value)])
  }

  /** The books of one response, in order; the first failure ends the batch,
      keeping what was already stored. */
  function ApplyBooks(result: BookMap, books: seq<Value>, show: Value -> string): BookMap
    decreases |books|
  {
    if books == [] then result
    else
      match ApplyBook(result, books[0], show)
      case None => result
      case Some(next) => ApplyBooks(next, books[1..], show)
  }

  /** Only books of the response add keys, and nothing is removed. */
  lemma {:induction false} ApplyBooksKeys(result: BookMap, books: seq<Value>, show: Value -> string)
    ensures var r := ApplyBooks(result, books, show);
            result.Keys <= r.Keys
            && forall k :: k in r && k !in result ==>
                 exists j :: 0 <= j < |books| && books[j].Dict? && StrOf(BookId(books[j].entries), show) == k
    decreases |books|
  {
    if books != [] {
      match ApplyBook(result, books[0], show)
      case None =>
      case Some(next) =>
        ApplyBooksKeys(next, books[1..], show);
        var r := ApplyBooks(result, books, show);
        forall k | k in r && k !in result
          ensures exists j :: 0 <= j < |books| && books[j].Dict? && StrOf(BookId(books[j].entries), show) == k
        {
          if k in next {
            assert books[0].Dict? && StrOf(BookId(books[0].entries), show) == k;
          } else {
            var j :| 0 <= j < |books[1..]| && books[1..][j].Dict? && StrOf(BookId(books[1..][j].entries), show) == k;
            assert books[1..][j] == books[j + 1];
          }
        }
    }
  }

  /** A later book for the same token overwrites an earlier one: when the
      books all store, the last book with a given id decides its levels. */
  lemma {:induction false} LaterBookWins(result: BookMap, books: seq<Value>, show: Value -> string, j: int)
    requires 0 <= j < |books|
    requires forall i :: 0 <= i < |books| ==> ApplyBook(map[], books[i], show).Some?
    requires books[j].Dict? && Truthy(BookId(books[j].entries))
    requires forall i :: j < i < |books| && books[i].Dict? && Truthy(BookId(books[i].entries)) ==>
               StrOf(BookId(books[i].entries), show) != StrOf(BookId(books[j].entries), show)
    ensures var k := StrOf(BookId(books[j].entries), show);
            k in ApplyBooks(result, books, show)
            && ApplyBooks(result, books, show)[k] == ApplyBook(map[], books[j], show).value[k]
    decreases |books|
  {
    var next := ApplyBook(result, books[0], show);
    StoresLikeEmpty(result, books[0], show);
    forall i | 0 <= i < |books[1..]|
      ensures ApplyBook(map[], books[1..][i], show).Some?
    {
      assert books[1..][i] == books[i + 1];
    }
    if j == 0 {
      KeptUnlessOverwritten(next.value, books[1..], show, StrOf(BookId(books[0].entries), show));
    } else {
      forall i | j - 1 < i < |books[1..]| && books[1..][i].Dict? && Truthy(BookId(books[1..][i].entries))
        ensures StrOf(BookId(books[1..][i].entries), show) != StrOf(BookId(books[1..][j - 1].entries), show)
      {
        assert books[1..][i] == books[i + 1];
      }
      LaterBookWins(next.value, books[1..], show, j - 1);
    }
  }

  /** Whether a book stores depends on the book alone, and it stores the
      same levels whatever the map. */
  lemma StoresLikeEmpty(result: BookMap, ob: Value, show: Value -> string)
    ensures ApplyBook(result, ob, show).Some? <==> ApplyBook(map[], ob, show).Some?
    ensures ApplyBook(result, ob, show).Some? && ob.Dict? && Truthy(BookId(ob.entries)) ==>
              var k := StrOf(BookId(ob.entries), show);
              ApplyBook(result, ob, show).value[k] == ApplyBook(map[], ob, show).value[k]
  {
  }

  /** An entry survives books that do not carry its id. */
  lemma {:induction false} KeptUnlessOverwritten(result: BookMap, books: seq<Value>, show: Value -> string, k: string)
    requires k in result
    requires forall i :: 0 <= i < |books| ==> ApplyBook(map[], books[i], show).Some?
    requires forall i :: 0 <= i < |books| && books[i].Dict? && Truthy(BookId(books[i].entries)) ==>
               StrOf(BookId(books[i].entries), show) != k
    ensures k in ApplyBooks(result, books, show) && ApplyBooks(result, books, show)[k] == result[k]
    decreases |books|
  {
    if books != [] {
      StoresLikeEmpty(result, books[0], show);
      var next := ApplyBook(result, books[0], show).value;
      forall i | 0 <= i < |books[1..]|
        ensures ApplyBook(map[], books[1..][i], show).Some?
      {
        assert books[1..][i] == books[i + 1];
      }
      forall i | 0 <= i < |books[1..]| && books[1..][i].Dict? && Truthy(BookId(books[1..][i].entries))
        ensures StrOf(BookId(books[1..][i].entries), show) != k
      {
        assert books[1..][i] == books[i + 1];
      }
      KeptUnlessOverwritten(next, books[1..], show, k);
    }
  }

  /** One batch: a failing request, or a response whose books are not a
      list, leaves the result as it was. */
  function ApplyBatch(result: BookMap, resp: Option<Value>, show: Value -> string): (r: BookMap)
    ensures resp.None? ==> r == result
    ensures resp.Some? && BooksArray(resp.value).Err? ==> r == result
    ensures resp.Some? && BooksArray(resp.value).Ok? ==> r == ApplyBooks(result, BooksArray(resp.value).value, show)
  {
    if resp.None? then result
    else
      match BooksArray(resp.value)
      case Err(_) => result
      case Ok(books) => ApplyBooks(result, books, show)
  }

  /* ---- the client path ---- */

  /** The client, when one is passed: `get_order_books` for a batch gives
      its list of books, or None when the call (or its import) raises. A
      book object's attributes are modelled as the keys of a dict. */
  type Client = Option<seq<string> -> Option<seq<Value>>>

  /** `coerce_levels(ob.get(key))`, without the `or []` of the HTTP path. */
  function ClientSide(ob: map<string, Value>, key: string, show: Value -> string): Option<seq<Level>>
  {
    CoerceLevels(Get(ob, key), show)
  }

  /** Whether storing a client book raises: it has an id and one of its
      sides cannot be coerced. */
  predicate ClientRaises(ob: Value, show: Value -> string)
  {
    ob.Dict? && Truthy(BookId(ob.entries))
    && (ClientSide(ob.entries, "bids", show).None? || ClientSide(ob.entries, "asks", show).None?)
  }

  /** One client book: anything that is not a book has no id and is
      skipped, as is a book without an id; a book whose levels raise gives
      None; otherwise its levels are stored under the text of its id. */
  function ClientBook(result: BookMap, ob: Value, show: Value -> string): (r: Option<BookMap>)
    ensures r.None? <==> ClientRaises(ob, show)
    ensures !ob.Dict? ==> r == Some(result)
    ensures ob.Dict? && !Truthy(BookId(ob.entries)) ==> r == Some(result)
    ensures r.Some? && ob.Dict? && Truthy(BookId(ob.entries)) ==>
              var k := StrOf(BookId(ob.entries), show);
              && r.value.Keys == result.Keys + {k}
              && r.value[k] == BookLevels(ClientSide(ob.entries, "bids", show).value, ClientSide(ob.entries, "asks", show).value)
              && forall k' :: k' in result && k' != k ==> r.value[k'] == result[k']
  {
    if !ob.Dict? then Some(result)
    else
      var tid := BookId(ob.entries);
      if !Truthy(tid) then Some(result)
      else
        var bids := ClientSide(ob.entries, "bids", show);
        var asks := ClientSide(ob.entries, "asks", show);
        if bids.None? || asks.None? then None
        else Some(result[StrOf(tid, show) := BookLevels(bids.value, asks.value)])
  }

  /** The client's books in order: the map so far, and whether every book
      stored. The first book that raises stops the loop, keeping what was
      already stored. */
  function ClientBooks(result: BookMap, books: seq<Value>, show: Value -> string): (r: (BookMap, bool))
    ensures r.1 <==> forall i :: 0 <= i < |books| ==> !ClientRaises(books[i], show)
    decreases |books|
  {
    if books == [] then (result, true)
    else
      match ClientBook(result, books[0], show)
      case None => (result, false)
      case Some(next) => ClientBooks(next, books[1..], show)
  }

  /** On a dict the client path stores what the HTTP path stores: the
      `or []` makes no difference to coerce_levels. */
  lemma ClientBookLikeHttp(result: BookMap, ob: Value, show: Value -> string)
    requires ob.Dict?
    ensures ClientBook(result, ob, show) == ApplyBook(result, ob, show)
  {
    assert ClientSide(ob.entries, "bids", show) == SideLevels(ob.entries, "bids", show);
    assert ClientSide(ob.entries, "asks", show) == SideLevels(ob.entries, "asks", show);
  }

  /** When every book is a dict, the client loop ends with the map the
      HTTP book loop gives, so LaterBookWins and KeptUnlessOverwritten hold
      on the client path too. */
  lemma {:induction false} ClientBooksLikeHttp(result: BookMap, books: seq<Value>, show: Value -> string)
    requires forall i :: 0 <= i < |books| ==> books[i].Dict?
    ensures ClientBooks(result, books, show).0 == ApplyBooks(result, books, show)
    decreases |books|
  {
    if books != [] {
      ClientBookLikeHttp(result, books[0], show);
      match ClientBook(result, books[0], show)
      case None =>
      case Some(next) =>
        forall i | 0 <= i < |books[1..]|
          ensures books[1..][i].Dict?
        {
          assert books[1..][i] == books[i + 1];
        }
        ClientBooksLikeHttp(next, books[1..], show);
    }
  }

  /** The client skips what is not a book where the HTTP path gives up on
      the rest of the batch. */
  lemma ClientSkipsNonBooks(result: BookMap, ob: Value, rest: seq<Value>, show: Value -> string)
    requires !ob.Dict?
    ensures ClientBooks(result, [ob] + rest, show) == ClientBooks(result, rest, show)
    ensures ApplyBooks(result, [ob] + rest, show) == result
  {
    assert ([ob] + rest)[0] == ob && ([ob] + rest)[1..] == rest;
  }

  /** One batch: with a client, its books; when the client raises, before
      or while storing, the HTTP request for the same batch, starting from
      what the client already stored. Without a client, only HTTP. */
  function Batch(result: BookMap, batch: seq<string>, client: Client, fetch: seq<string> -> Option<Value>,
                 show: Value -> string): (r: BookMap)
    ensures client.None? ==> r == ApplyBatch(result, fetch(batch), show)
    ensures client.Some? && client.value(batch).None? ==> r == ApplyBatch(result, fetch(batch), show)
    ensures client.Some? && client.value(batch).Some? ==>
              var (m, ok) := ClientBooks(result, client.value(batch).value, show);
              r == (if ok then m else ApplyBatch(m, fetch(batch), show))
  {
    if client.None? then ApplyBatch(result, fetch(batch), show)
    else
      match client.value(batch)
      case None => ApplyBatch(result, fetch(batch), show)
      case Some(books) =>
        var (m, ok) := ClientBooks(result, books, show);
        if ok then m else ApplyBatch(m, fetch(batch), show)
  }

  /* ---- batching ---- */

  /** The ids sent: falsy ids dropped, the rest as text, order kept. */
  function CleanIds(ids: seq<Value>, show: Value -> string): (r: seq<string>)
    ensures |r| <= |ids|
    ensures |ids| == 1 ==> r == (if Truthy(ids[0]) then [StrOf(ids[0], show)] else [])
  {
    if ids == [] then []
    else (if Truthy(ids[0]) then [StrOf(ids[0], show)] else []) + CleanIds(ids[1..], show)
  }

  /** Cleaning a concatenation cleans its parts, in order; with the
      one-element case of CleanIds this fixes the result exactly. */
  lemma {:induction false} CleanIdsConcat(a: seq<Value>, b: seq<Value>, show: Value -> string)
    ensures CleanIds(a + b, show) == CleanIds(a, show) + CleanIds(b, show)
    decreases |a|
  {
    if a != [] {
      assert (a + b)[0] == a[0] && (a + b)[1..] == a[1..] + b;
      CleanIdsConcat(a[1..], b, show);
    } else {
      assert a + b == b;
    }
  }

  /** An id is sent iff it is the text of a truthy input id; when every input
      id is truthy, none is dropped. */
  lemma {:induction false} CleanIdsMembers(ids: seq<Value>, show: Value -> string)
    ensures forall s :: s in CleanIds(ids, show) <==> exists v :: v in ids && Truthy(v) && StrOf(v, show) == s
    ensures (forall v :: v in ids ==> Truthy(v)) ==> |CleanIds(ids, show)| == |ids|
  {
    if ids != [] {
      CleanIdsMembers(ids[1..], show);
      var rest := CleanIds(ids[1..], show);
      forall s
        ensures s in CleanIds(ids, show) <==> exists v :: v in ids && Truthy(v) && StrOf(v, show) == s
      {
        if s in CleanIds(ids, show) && !(Truthy(ids[0]) && s == StrOf(ids[0], show)) {
          assert s in rest;
          var v :| v in ids[1..] && Truthy(v) && StrOf(v, show) == s;
          assert v in ids;
        }
        if exists v :: v in ids && Truthy(v) && StrOf(v, show) == s {
          var v :| v in ids && Truthy(v) && StrOf(v, show) == s;
          if v != ids[0] {
            assert v in ids[1..];
            assert s in rest;
          }
        }
      }
      if forall v :: v in ids ==> Truthy(v) {
        assert forall v :: v in ids[1..] ==> v in ids;
      }
    }
  }

  /** The slices `ids[i : i + size]` for i = 0, size, 2 * size, ... */
  function Batches(ids: seq<string>, size: nat): (r: seq<seq<string>>)
    requires size > 0
    decreases |ids|
  {
    if ids == [] then []
    else if |ids| <= size then [ids]
    else [ids[..size]] + Batches(ids[size..], size)
  }

  /** The batches from `i` on: the slice up to `i + size` (or the end), then
      the batches from there. */
  lemma BatchesStep(ids: seq<string>, i: int, size: int)
    requires 0 <= i < |ids| && size > 0
    ensures var end := if i + size <= |ids| then i + size else |ids|;
            Batches(ids[i..], size) == [ids[i..end]] + Batches(ids[end..], size)
  {
    var end := if i + size <= |ids| then i + size else |ids|;
    if end < |ids| {
      assert ids[i..][size..] == ids[end..];
      assert ids[i..][..size] == ids[i..end];
    } else {
      assert ids[end..] == [] && ids[i..end] == ids[i..];
      assert Batches(ids[end..], size) == [];
    }
  }

  function Concat(bs: seq<seq<string>>): seq<string>
  {
    if bs == [] then [] else bs[0] + Concat(bs[1..])
  }

  /** The batches, put together, are the ids in order. */
  lemma {:induction false} BatchesConcat(ids: seq<string>, size: nat)
    requires size > 0
    ensures Concat(Batches(ids, size)) == ids
    decreases |ids|
  {
    if ids != [] && |ids| > size {
      BatchesConcat(ids[size..], size);
      assert ids[..size] + ids[size..] == ids;
    } else if ids != [] {
      assert Concat([ids]) == ids + Concat([]);
    }
  }

  /** The batches are non-empty, hold at most `size` ids, all but the last
      exactly `size`, and there are ceil(|ids| / size) of them. */
  lemma {:induction false} BatchesSizes(ids: seq<string>, size: nat)
    requires size > 0
    ensures var bs := Batches(ids, size);
            && (forall k :: 0 <= k < |bs| ==> 0 < |bs[k]| <= size)
            && (forall k :: 0 <= k < |bs| - 1 ==> |bs[k]| == size)
            && (|bs| == 0 <==> ids == [])
            && (ids != [] ==> (|bs| - 1) * size < |ids| <= |bs| * size)
    decreases |ids|
  {
    var bs := Batches(ids, size);
    if ids != [] && |ids| > size {
      BatchesSizes(ids[size..], size);
      var rest := Batches(ids[size..], size);
      assert bs == [ids[..size]] + rest;
      assert forall k :: 1 <= k < |bs| ==> bs[k] == rest[k - 1];
      OneMoreBatch(|rest|, |ids|, size);
    } else if ids != [] {
      assert bs == [ids];
    }
  }

  /** One more full batch in front: the bounds on the count shift by one. */
  lemma OneMoreBatch(r: int, n: int, size: int)
    requires (r - 1) * size < n - size <= r * size
    ensures r * size < n <= (r + 1) * size
  {
    assert (r - 1) * size == r * size - size;
    assert (r + 1) * size == r * size + size;
  }

  /** The result of the bulk fetch over the batches `bs`. */
  function BulkFrom(result: BookMap, bs: seq<seq<string>>, client: Client, fetch: seq<string> -> Option<Value>,
                    show: Value -> string): BookMap
    decreases |bs|
  {
    if bs == [] then result
    else BulkFrom(Batch(result, bs[0], client, fetch, show), bs[1..], client, fetch, show)
  }

  datatype BulkError = ZeroBatchSize

  /** fetch_order_books_bulk: Python's range() refuses a step of 0 and is
      empty for a negative step. */
  function Bulk(ids: seq<Value>, batchSize: int, client: Client, fetch: seq<string> -> Option<Value>,
                show: Value -> string): (r: Result<BookMap, BulkError>)
    ensures r.Err? <==> batchSize == 0
    ensures batchSize < 0 ==> r == Ok(map[])
  {
    if batchSize == 0 then Err(ZeroBatchSize)
    else if batchSize < 0 then Ok(map[])
    else Ok(BulkFrom(map[], Batches(CleanIds(ids, show), batchSize), client, fetch, show))
  }

  /** A batch fails when the client, if any, raises on it and so does the
      HTTP request. */
  predicate BatchFails(b: seq<string>, client: Client, fetch: seq<string> -> Option<Value>)
  {
    (client.None? || client.value(b).None?) && fetch(b).None?
  }

  /** Batches whose requests all fail leave the result as it was. */
  lemma {:induction false} BulkFromSkipsFailures(result: BookMap, bs: seq<seq<string>>, client: Client,
                                                 fetch: seq<string> -> Option<Value>, show: Value -> string)
    requires forall b :: b in bs ==> BatchFails(b, client, fetch)
    ensures BulkFrom(result, bs, client, fetch, show) == result
    decreases |bs|
  {
    if bs != [] {
      assert bs[0] in bs;
      assert forall b :: b in bs[1..] ==> b in bs;
      BulkFromSkipsFailures(result, bs[1..], client, fetch, show);
    }
  }

  /** With every request failing the bulk fetch returns an empty result. */
  lemma AllBatchesFail(ids: seq<Value>, batchSize: int, client: Client, fetch: seq<string> -> Option<Value>,
                       show: Value -> string)
    requires batchSize != 0
    requires forall b :: BatchFails(b, client, fetch)
    ensures Bulk(ids, batchSize, client, fetch, show) == Ok(map[])
  {
    if batchSize > 0 {
      BulkFromSkipsFailures(map[], Batches(CleanIds(ids, show), batchSize), client, fetch, show);
    }
  }

  /** The bulk fetch, batch by batch and book by book. */
  method FetchOrderBooksBulk(ids: seq<Value>, batchSize: int, client: Client, fetch: seq<string> -> Option<Value>,
                             show: Value -> string)
    returns (r: Result<BookMap, BulkError>)
    ensures r == Bulk(ids, batchSize, client, fetch, show)
  {
    if batchSize == 0 {
      return Err(ZeroBatchSize);
    }
    var result: BookMap := map[];
    if batchSize < 0 {
      return Ok(result);
    }
    var tokenIds := CleanIds(ids, show);
    var i := 0;
    while i < |tokenIds|
      invariant 0 <= i <= |tokenIds|
      invariant BulkFrom(map[], Batches(tokenIds, batchSize), client, fetch, show)
                == BulkFrom(result, Batches(tokenIds[i..], batchSize), client, fetch, show)
      decreases |tokenIds| - i
    {
      var end := if i + batchSize <= |tokenIds| then i + batchSize else |tokenIds|;
      var batch := tokenIds[i..end];
      BatchesStep(tokenIds, i, batchSize);
      ghost var before := result;
      var viaClient := false;
      if client.Some? {
        var got := client.value(batch);
        if got.Some? {
          result, viaClient := StoreClientBooks(result, got.value, show);
        }
      }
      if !viaClient {
        ghost var fallback := result;
        var resp := fetch(batch);
        if resp.Some? {
          var books := BooksArray(resp.value);
          if books.Ok? {
            result := StoreBooks(result, books.value, show);
          }
        }
        assert result == ApplyBatch(fallback, resp, show);
      }
      assert result == Batch(before, batch, client, fetch, show);
      i := end;
    }
    return Ok(result);
  }

  /** The book loop of one batch. */
  method StoreBooks(result: BookMap, books: seq<Value>, show: Value -> string) returns (r: BookMap)
    ensures r == ApplyBooks(result, books, show)
  {
    r := result;
    var j := 0;
    while j < |books|
      invariant 0 <= j <= |books|
      invariant ApplyBooks(result, books, show) == ApplyBooks(r, books[j..], show)
    {
      assert books[j..][1..] == books[j + 1..];
      var stored := ApplyBook(r, books[j], show);
      if stored.None? {
        return r;
      }
      r := stored.value;
      j := j + 1;
    }
  }

  /** The client's book loop of one batch: the map it leaves and whether
      every book stored. */
  method StoreClientBooks(result: BookMap, books: seq<Value>, show: Value -> string) returns (r: BookMap, ok: bool)
    ensures (r, ok) == ClientBooks(result, books, show)
  {
    r := result;
    var j := 0;
    while j < |books|
      invariant 0 <= j <= |books|
      invariant ClientBooks(result, books, show) == ClientBooks(r, books[j..], show)
    {
      assert books[j..][1..] == books[j + 1..];
      var stored := ClientBook(r, books[j], show);
      if stored.None? {
        return r, false;
      }
      r := stored.value;
      j := j + 1;
    }
    return r, true;
  }
}
