/** extract_slug in data_updater/print_market_by_slug.py: the slug in a
    market or event URL, found as the leftmost match of
    `/(event|market)/([^/?#]+)`; text without such a match is its own slug. */
module MarketSlug {
  import opened PyValue

  /** The characters that end a slug. */
  predicate IsSep(c: char)
  {
    c == '/' || c == '?' || c == '#'
  }

  const Event: string := "/event/"
  const Market: string := "/market/"

  /** `word` occurs in `raw` at `i`. */
  predicate WordAt(raw: string, i: nat, word: string)
  {
    i + |word| <= |raw| && raw[i..i + |word|] == word
  }

  /** The length of the keyword `/event/` or `/market/` that starts at `i`,
      0 when neither does (the two differ in their second character, so at
      most one can). */
  function KeywordAt(raw: string, i: nat): (n: nat)
    ensures n == 0 || n == |Event| || n == |Market|
    ensures n > 0 ==> i + n <= |raw|
  {
    if WordAt(raw, i, Event) then |Event|
    else if WordAt(raw, i, Market) then |Market|
    else 0
  }

  /** A keyword starts with '/'. */
  lemma KeywordStartsWithSlash(raw: string, i: nat)
    requires KeywordAt(raw, i) > 0
    ensures i < |raw| && raw[i] == '/'
  {
    if WordAt(raw, i, Event) {
      assert raw[i..i + |Event|][0] == raw[i];
    } else {
      assert raw[i..i + |Market|][0] == raw[i];
    }
  }

  /** The length of the longest prefix of `s` without a separator: the
      greedy `[^/?#]+` group. */
  function Run(s: string): (n: nat)
    ensures n <= |s|
  {
    if s == [] || IsSep(s[0]) then 0 else 1 + Run(s[1..])
  }

  /** The run is maximal: no separator in it, and a separator or the end
      right after it. */
  lemma {:induction false} RunSound(s: string)
    ensures var n := Run(s);
            && (forall k :: 0 <= k < n ==> !IsSep(s[k]))
            && (n < |s| ==> IsSep(s[n]))
  {
    if s != [] && !IsSep(s[0]) {
      RunSound(s[1..]);
      assert forall k :: 1 <= k < |s| ==> s[k] == s[1..][k - 1];
    }
  }

  /** The pattern matches at `i`: a keyword followed by at least one
      character that is not a separator. */
  predicate MatchAt(raw: string, i: nat)
  {
    i <= |raw| && KeywordAt(raw, i) > 0 && Run(raw[i + KeywordAt(raw, i)..]) > 0
  }

  /** re.search: the first position from `i` on where the pattern matches. */
  function Search(raw: string, i: nat): (r: Option<nat>)
    decreases |raw| - i
  {
    if i >= |raw| then None
    else if MatchAt(raw, i) then Some(i)
    else Search(raw, i + 1)
  }

  /** A match found from `i` is the leftmost one from `i`. */
  lemma {:induction false} SearchFindsLeftmost(raw: string, i: nat)
    ensures var r := Search(raw, i);
            r.Some? ==> i <= r.value && MatchAt(raw, r.value)
                        && forall j :: i <= j < r.value ==> !MatchAt(raw, j)
    decreases |raw| - i
  {
    if i < |raw| && !MatchAt(raw, i) {
      SearchFindsLeftmost(raw, i + 1);
    }
  }

  /** Search finds nothing from `i` only when nothing matches from `i`. */
  lemma {:induction false} SearchMissesOnlyWithoutMatch(raw: string, i: nat)
    ensures var r := Search(raw, i);
            r.None? ==> forall j :: i <= j ==> !MatchAt(raw, j)
    decreases |raw| - i
  {
    if i < |raw| && !MatchAt(raw, i) {
      SearchMissesOnlyWithoutMatch(raw, i + 1);
    }
  }

  lemma SearchIsLeftmost(raw: string, i: nat)
    ensures var r := Search(raw, i);
            && (r.Some? ==> i <= r.value && MatchAt(raw, r.value)
                            && forall j :: i <= j < r.value ==> !MatchAt(raw, j))
            && (r.None? ==> forall j :: i <= j ==> !MatchAt(raw, j))
  {
    SearchFindsLeftmost(raw, i);
    SearchMissesOnlyWithoutMatch(raw, i);
  }

  /** Where the slug group of a match at `i` starts. */
  function SlugStart(raw: string, i: nat): nat
    requires MatchAt(raw, i)
  {
    i + KeywordAt(raw, i)
  }

  /** The slug group of a match at `i`: the maximal non-empty run of
      non-separators after the keyword, a contiguous piece of `raw`. */
  function SlugAt(raw: string, i: nat): (r: string)
    requires MatchAt(raw, i)
    ensures var s := SlugStart(raw, i);
            && r != [] && s + |r| <= |raw| && r == raw[s..s + |r|]
            && (forall k :: 0 <= k < |r| ==> !IsSep(r[k]))
            && (s + |r| == |raw| || IsSep(raw[s + |r|]))
  {
    var s := SlugStart(raw, i);
    var tail := raw[s..];
    var n := Run(tail);
    RunSound(tail);
    assert n < |tail| ==> tail[n] == raw[s + n];
    assert raw[s..s + n] == tail[..n];
    tail[..n]
  }

  /** extract_slug: the text itself when nothing matches, else a non-empty,
      separator-free slug strictly shorter than the text. */
  function ExtractSlug(raw: string): (r: string)
    ensures Search(raw, 0).None? ==> r == raw
    ensures Search(raw, 0).Some? ==>
              r != [] && |r| < |raw| && forall k :: 0 <= k < |r| ==> !IsSep(r[k])
  {
    match Search(raw, 0)
    case None => raw
    case Some(i) =>
      SearchFindsLeftmost(raw, 0);
      SlugAt(raw, i)
  }

  /** A match gives the slug group of the leftmost match. */
  lemma SlugIsMaximalRun(raw: string)
    requires Search(raw, 0).Some?
    ensures var i := Search(raw, 0).value;
            && MatchAt(raw, i) && (forall j :: 0 <= j < i ==> !MatchAt(raw, j))
            && ExtractSlug(raw) == SlugAt(raw, i)
  {
    SearchFindsLeftmost(raw, 0);
  }

  /** Without a match the text comes back unchanged. */
  lemma NoMatchUnchanged(raw: string)
    requires forall j :: 0 <= j < |raw| ==> !MatchAt(raw, j)
    ensures ExtractSlug(raw) == raw
  {
    SearchIsLeftmost(raw, 0);
  }

  /** A text without '/' never matches. */
  lemma NoSlashNoMatch(raw: string)
    requires forall k :: 0 <= k < |raw| ==> raw[k] != '/'
    ensures Search(raw, 0).None?
  {
    SearchIsLeftmost(raw, 0);
    if Search(raw, 0).Some? {
      KeywordStartsWithSlash(raw, Search(raw, 0).value);
    }
  }

  /** extract_slug is idempotent: a slug has no '/', so it does not match
      again, and unmatched text is returned as it is. */
  lemma ExtractSlugIdempotent(raw: string)
    ensures ExtractSlug(ExtractSlug(raw)) == ExtractSlug(raw)
  {
    if Search(raw, 0).Some? {
      SlugIsMaximalRun(raw);
      var r := ExtractSlug(raw);
      forall k | 0 <= k < |r|
        ensures r[k] != '/'
      {
        assert !IsSep(r[k]);
      }
      NoSlashNoMatch(r);
    }
  }

  /** The keyword found where `/event/` or `/market/` is written. */
  lemma KeywordOf(raw: string, i: nat, keyword: string)
    requires keyword == Event || keyword == Market
    requires WordAt(raw, i, keyword)
    ensures KeywordAt(raw, i) == |keyword|
  {
    if keyword == Market {
      assert !WordAt(raw, i, Event) by {
        assert raw[i..i + |Market|][1] == raw[i + 1] == 'm';
        assert i + |Event| <= |raw| ==> raw[i..i + |Event|][1] == raw[i + 1];
      }
    }
  }

  /** A URL whose first keyword is followed by the slug and then a
      separator or the end yields that slug. */
  lemma SlugOfUrl(raw: string, prefix: string, keyword: string, slug: string, rest: string)
    requires keyword == Event || keyword == Market
    requires slug != [] && forall k :: 0 <= k < |slug| ==> !IsSep(slug[k])
    requires rest == [] || IsSep(rest[0])
    requires raw == prefix + keyword + slug + rest
    requires forall j :: 0 <= j < |prefix| ==> !MatchAt(raw, j)
    ensures ExtractSlug(raw) == slug
  {
    var i := |prefix|;
    assert raw[i..] == keyword + slug + rest;
    SlugAfterKeyword(raw, i, keyword, slug, rest);
    SearchIsLeftmost(raw, 0);
    var found := Search(raw, 0).value;
    assert !(found < i) && !(i < found);
  }

  /** A keyword at `i` followed by the slug and then a separator or the end
      is a match whose slug group is that slug. */
  lemma SlugAfterKeyword(raw: string, i: nat, keyword: string, slug: string, rest: string)
    requires keyword == Event || keyword == Market
    requires slug != [] && forall k :: 0 <= k < |slug| ==> !IsSep(slug[k])
    requires rest == [] || IsSep(rest[0])
    requires i <= |raw| && raw[i..] == keyword + slug + rest
    ensures MatchAt(raw, i) && SlugAt(raw, i) == slug
  {
    KeywordThere(raw, i, keyword, slug + rest);
    var s := i + |keyword|;
    assert raw[s..] == slug + rest by {
      assert raw[s..] == raw[i..][|keyword|..];
    }
    RunOf(slug, rest);
    assert (slug + rest)[..|slug|] == slug;
  }

  /** The keyword found at `i` when the text from `i` starts with it. */
  lemma KeywordThere(raw: string, i: nat, keyword: string, after: string)
    requires keyword == Event || keyword == Market
    requires i <= |raw| && raw[i..] == keyword + after
    ensures KeywordAt(raw, i) == |keyword|
  {
    assert raw[i..i + |keyword|] == raw[i..][..|keyword|];
    KeywordOf(raw, i, keyword);
  }

  /** The run of a slug followed by a separator or the end is the slug. */
  lemma {:induction false} RunOf(slug: string, rest: string)
    requires forall k :: 0 <= k < |slug| ==> !IsSep(slug[k])
    requires rest == [] || IsSep(rest[0])
    ensures Run(slug + rest) == |slug|
  {
    if slug != [] {
      assert (slug + rest)[1..] == slug[1..] + rest;
      RunOf(slug[1..], rest);
    } else {
      assert slug + rest == rest;
    }
  }

  /** No match starts where there is no '/'. */
  lemma NoMatchWithoutSlash(raw: string, j: nat)
    requires j < |raw| && raw[j] != '/'
    ensures !MatchAt(raw, j)
  {
    if KeywordAt(raw, j) > 0 {
      KeywordStartsWithSlash(raw, j);
    }
  }

  /** No match starts at a '/' followed by anything but 'e' or 'm'. */
  lemma NoMatchWithoutKeyword(raw: string, j: nat)
    requires j + 1 < |raw| && raw[j + 1] != 'e' && raw[j + 1] != 'm'
    ensures !MatchAt(raw, j)
  {
    assert j + |Event| <= |raw| ==> raw[j..j + |Event|][1] == raw[j + 1];
    assert j + |Market| <= |raw| ==> raw[j..j + |Market|][1] == raw[j + 1];
  }

  lemma ExampleSlugHasNoSep(slug: string)
    requires slug == "will-bitcoin-reach-100k-in-2025"
    ensures forall k :: 0 <= k < |slug| ==> !IsSep(slug[k])
  {
  }

  /** The documented example: a market URL with a query string. */
  lemma DocumentedExample(raw: string, scheme: string, host: string, slug: string, rest: string)
    requires scheme == "https:" && host == "polymarket.com"
    requires slug == "will-bitcoin-reach-100k-in-2025" && rest == "?tid=12345"
    requires raw == scheme + "//" + host + Market + slug + rest
    ensures ExtractSlug(raw) == slug
  {
    ExampleSlugHasNoSep(slug);
    var prefix := scheme + "//" + host;
    assert raw == prefix + Market + slug + rest;
    forall j | 0 <= j < |prefix|
      ensures !MatchAt(raw, j)
    {
      if j < 6 {
        assert raw[j] == scheme[j];
        NoMatchWithoutSlash(raw, j);
      } else if j < 8 {
        assert raw[j + 1] == prefix[j + 1];
        NoMatchWithoutKeyword(raw, j);
      } else {
        assert raw[j] == host[j - 8];
        NoMatchWithoutSlash(raw, j);
      }
    }
    SlugOfUrl(raw, prefix, Market, slug, rest);
  }
}
