/** `searchDocuments`: embed the query, then try five tiers in strict order,
    stopping at the first that yields a row:
      1. vector match at the caller's threshold,
      2. vector match at the fixed threshold 0.1,
      3. a content `ilike` match, one keyword of the query at a time,
      4. the most recent documents,
      5. nothing (`no_results`).
    A store call that fails (non-ok status or exception) counts as empty. */
module Search {
  import opened Records
  import opened Text

  /** The threshold of the second vector attempt, whatever the caller asked. */
  const LowThreshold: real := 0.1

  /** Synthetic scores in hundredths: keyword rows get 0.70 - 0.10*i,
      most-recent rows 0.40 - 0.05*i, by position i. */
  const KeywordBase: int := 70
  const KeywordStep: int := 10
  const FallbackBase: int := 40
  const FallbackStep: int := 5

  datatype Method =
    | RestApiVectorSearch
    | LowThresholdVectorSearch
    | KeywordTextSearch
    | FallbackAllDocuments
    | NoResults

  /** The `method` tag as it appears in the response. */
  function MethodName(m: Method): string
  {
    match m
    case RestApiVectorSearch => "rest_api_vector_search"
    case LowThresholdVectorSearch => "low_threshold_vector_search"
    case KeywordTextSearch => "keyword_text_search"
    case FallbackAllDocuments => "fallback_all_documents"
    case NoResults => "no_results"
  }

  const NoResultsMessage: string := "검색 결과를 찾을 수 없습니다."

  datatype SearchResponse = SearchResponse(
    results: seq<Row>,
    query: string,
    matchThreshold: real,
    matchCount: nat,
    searchMethod: Method,
    matchedKeyword: Option<string>,
    error: Option<string>)

  /** The two errors `searchDocuments` throws before any tier runs. */
  datatype SearchError = QueryRequired | EmbeddingFailed

  /** The external calls: the embedding service (`None` when it throws or
      returns nothing) and the three store queries. */
  datatype Backend = Backend(
    embed: string -> Option<Embedding>,
    matchDocuments: (Embedding, real, nat) -> StoreOutcome,
    contentLike: (string, nat) -> StoreOutcome,
    recentDocuments: nat -> StoreOutcome)

  /** Keywords: the pieces of `query.split(' ')` longer than one character, in order. */
  function LongWords(words: seq<string>): (ks: seq<string>)
    ensures forall k :: k in ks <==> k in words && |k| > 1
  {
    if |words| == 0 then []
    else (if |words[0]| > 1 then [words[0]] else []) + LongWords(words[1..])
  }

  /** The filter keeps the order and the repeats of the words: filtering a
      concatenation is concatenating the filtered parts. */
  lemma {:induction false} LongWordsAppend(a: seq<string>, b: seq<string>)
    ensures LongWords(a + b) == LongWords(a) + LongWords(b)
  {
    if |a| > 0 {
      assert (a + b)[0] == a[0];
      assert (a + b)[1..] == a[1..] + b;
      LongWordsAppend(a[1..], b);
    } else {
      assert a + b == b;
    }
  }

  /** A single word is kept exactly when it is longer than one character. */
  lemma LongWordsSingle(w: string)
    ensures LongWords([w]) == if |w| > 1 then [w] else []
  {
    assert [w][1..] == [];
  }

  function Keywords(query: string): (ks: seq<string>)
    ensures forall k :: k in ks ==> |k| > 1 && ' ' !in k
  {
    LongWords(Split(query, ' '))
  }

  /** The synthetic score of position `i`, in hundredths. */
  function ScoreAt(base: int, step: int, i: nat): int
  {
    base - step * i
  }

  /** The rows with their similarity replaced by the synthetic score of their position. */
  function Rescored(rows: seq<Row>, base: int, step: int): (rs: seq<Row>)
    ensures |rs| == |rows|
    ensures forall i :: 0 <= i < |rs| ==>
      rs[i] == rows[i].(similarity := Some(ScoreAt(base, step, i) as real / 100.0))
  {
    seq(|rows|, i requires 0 <= i < |rows| => rows[i].(similarity := Some(ScoreAt(base, step, i) as real / 100.0)))
  }

  /** The first keyword from position `from` on whose content match yields a row. */
  function FirstKeywordHit(keywords: seq<string>, from: nat, count: nat, b: Backend): (hit: Option<nat>)
    requires from <= |keywords|
    ensures hit.Some? ==>
      from <= hit.value < |keywords| && Hit(b.contentLike(keywords[hit.value], count))
      && forall j :: from <= j < hit.value ==> !Hit(b.contentLike(keywords[j], count))
    ensures hit.None? ==> forall j :: from <= j < |keywords| ==> !Hit(b.contentLike(keywords[j], count))
    decreases |keywords| - from
  {
    if from == |keywords| then None
    else if Hit(b.contentLike(keywords[from], count)) then Some(from)
    else FirstKeywordHit(keywords, from + 1, count, b)
  }

  /** The tiers, once the query embedding `e` exists. */
  function Cascade(query: string, threshold: real, count: nat, e: Embedding, b: Backend): (r: SearchResponse)
    ensures r.query == query && r.matchCount == count
    ensures r.results == [] <==> r.searchMethod == NoResults
  {
    var first := b.matchDocuments(e, threshold, count);
    if Hit(first) then
      SearchResponse(first.rows, query, threshold, count, RestApiVectorSearch, None, None)
    else
      var second := b.matchDocuments(e, LowThreshold, count);
      if Hit(second) then
        SearchResponse(second.rows, query, LowThreshold, count, LowThresholdVectorSearch, None, None)
      else
        var keywords := Keywords(query);
        match FirstKeywordHit(keywords, 0, count, b)
        case Some(i) =>
          SearchResponse(Rescored(b.contentLike(keywords[i], count).rows, KeywordBase, KeywordStep),
                         query, threshold, count, KeywordTextSearch, Some(keywords[i]), None)
        case None =>
          var recent := b.recentDocuments(count);
          if Hit(recent) then
            SearchResponse(Rescored(recent.rows, FallbackBase, FallbackStep),
                           query, threshold, count, FallbackAllDocuments, None, None)
          else
            SearchResponse([], query, threshold, count, NoResults, None, Some(NoResultsMessage))
  }

  /** What `searchDocuments(query, threshold, count)` returns or throws. */
  function Search(query: string, threshold: real, count: nat, b: Backend): (r: Result<SearchResponse, SearchError>)
    ensures r.Err? <==> query == "" || b.embed(query).None?
    ensures query == "" ==> r == Err(QueryRequired)
  {
    if query == "" then Err(QueryRequired)
    else match b.embed(query)
      case None => Err(EmbeddingFailed)
      case Some(e) => Ok(Cascade(query, threshold, count, e, b))
  }

  /** `searchDocuments` as the source runs it: the two errors, then the tiers. */
  method SearchDocuments(query: string, threshold: real, count: nat, b: Backend)
    returns (r: Result<SearchResponse, SearchError>)
    ensures r == Search(query, threshold, count, b)
  {
    if query == "" {
      return Err(QueryRequired);
    }
    var embedding := b.embed(query);
    if embedding.None? {
      return Err(EmbeddingFailed);
    }
    var response := RunCascade(query, threshold, count, embedding.value, b);
    r := Ok(response);
  }

  /** The tiers as the source runs them, with an early return on each hit. */
  method RunCascade(query: string, threshold: real, count: nat, e: Embedding, b: Backend)
    returns (r: SearchResponse)
    ensures r == Cascade(query, threshold, count, e, b)
  {
    var first := b.matchDocuments(e, threshold, count);
    if first.Rows? && |first.rows| > 0 {
      return SearchResponse(first.rows, query, threshold, count, RestApiVectorSearch, None, None);
    }

    var second := b.matchDocuments(e, LowThreshold, count);
    if second.Rows? && |second.rows| > 0 {
      return SearchResponse(second.rows, query, LowThreshold, count, LowThresholdVectorSearch, None, None);
    }

    var keywords := Keywords(query);
    var hit := FindKeyword(keywords, count, b);
    if hit.Some? {
      var scored := Rescored(b.contentLike(keywords[hit.value], count).rows, KeywordBase, KeywordStep);
      return SearchResponse(scored, query, threshold, count, KeywordTextSearch, Some(keywords[hit.value]), None);
    }

    var recent := b.recentDocuments(count);
    if recent.Rows? && |recent.rows| > 0 {
      var scored := Rescored(recent.rows, FallbackBase, FallbackStep);
      return SearchResponse(scored, query, threshold, count, FallbackAllDocuments, None, None);
    }

    r := SearchResponse([], query, threshold, count, NoResults, None, Some(NoResultsMessage));
  }

  /** The loop over the keywords, which leaves on the first content match that
      yields a row. */
  method FindKeyword(keywords: seq<string>, count: nat, b: Backend) returns (hit: Option<nat>)
    ensures hit == FirstKeywordHit(keywords, 0, count, b)
  {
    var i := 0;
    while i < |keywords|
      invariant i <= |keywords|
      invariant forall j :: 0 <= j < i ==> !Hit(b.contentLike(keywords[j], count))
    {
      var found := b.contentLike(keywords[i], count);
      if found.Rows? && |found.rows| > 0 {
        return Some(i);
      }
      i := i + 1;
    }
    return None;
  }

  // ---------------------------------------------------------------------------
  // Properties of the cascade

  /** Tier 1 wins whenever the first vector match yields a row: that exact row
      list, the caller's threshold, and no later tier. */
  lemma VectorHitIsFinal(query: string, threshold: real, count: nat, b: Backend)
    requires query != "" && b.embed(query).Some?
    requires Hit(b.matchDocuments(b.embed(query).value, threshold, count))
    ensures Search(query, threshold, count, b)
         == Ok(SearchResponse(b.matchDocuments(b.embed(query).value, threshold, count).rows,
                              query, threshold, count, RestApiVectorSearch, None, None))
  {
  }

  /** Which tier answered, and why: each tag holds exactly when every earlier
      tier failed or was empty and its own tier yielded a row. */
  lemma TierCharacterization(query: string, threshold: real, count: nat, b: Backend)
    requires query != "" && b.embed(query).Some?
    ensures var e := b.embed(query).value;
      var r := Search(query, threshold, count, b).value;
      var ks := Keywords(query);
      var tier1 := Hit(b.matchDocuments(e, threshold, count));
      var tier2 := Hit(b.matchDocuments(e, LowThreshold, count));
      var tier3 := exists j :: 0 <= j < |ks| && Hit(b.contentLike(ks[j], count));
      var tier4 := Hit(b.recentDocuments(count));
      && (r.searchMethod == RestApiVectorSearch <==> tier1)
      && (r.searchMethod == LowThresholdVectorSearch <==> !tier1 && tier2)
      && (r.searchMethod == KeywordTextSearch <==> !tier1 && !tier2 && tier3)
      && (r.searchMethod == FallbackAllDocuments <==> !tier1 && !tier2 && !tier3 && tier4)
      && (r.searchMethod == NoResults <==> !tier1 && !tier2 && !tier3 && !tier4)
  {
    var ks := Keywords(query);
    var hit := FirstKeywordHit(ks, 0, count, b);
    assert hit.Some? <==> exists j :: 0 <= j < |ks| && Hit(b.contentLike(ks[j], count));
  }

  /** The relaxed tier always reports threshold 0.1 and the rows of the 0.1 match. */
  lemma LowThresholdTier(query: string, threshold: real, count: nat, b: Backend)
    requires Search(query, threshold, count, b).Ok?
    requires Search(query, threshold, count, b).value.searchMethod == LowThresholdVectorSearch
    ensures var r := Search(query, threshold, count, b).value;
      && r.matchThreshold == 0.1
      && r.results == b.matchDocuments(b.embed(query).value, 0.1, count).rows
      && !Hit(b.matchDocuments(b.embed(query).value, threshold, count))
  {
  }

  /** The keyword tier: the matched keyword is a word of the query longer than
      one character, every earlier keyword missed, the rows are that keyword's
      match, and they are scored 0.70, 0.60, ... by position. */
  lemma KeywordTier(query: string, threshold: real, count: nat, b: Backend)
    requires Search(query, threshold, count, b).Ok?
    requires Search(query, threshold, count, b).value.searchMethod == KeywordTextSearch
    ensures var r := Search(query, threshold, count, b).value;
      var ks := Keywords(query);
      exists i :: 0 <= i < |ks|
        && r.matchedKeyword == Some(ks[i])
        && ks[i] in Split(query, ' ') && |ks[i]| > 1
        && (forall j :: 0 <= j < i ==> !Hit(b.contentLike(ks[j], count)))
        && r.results == Rescored(b.contentLike(ks[i], count).rows, 70, 10)
        && r.matchThreshold == threshold
  {
    var ks := Keywords(query);
    var i := FirstKeywordHit(ks, 0, count, b).value;
    assert ks[i] in ks;
  }

  /** The most-recent tier is reached only when both vector matches and every
      keyword missed; its rows are scored 0.40, 0.35, ... by position. */
  lemma FallbackTier(query: string, threshold: real, count: nat, b: Backend)
    requires Search(query, threshold, count, b).Ok?
    requires Search(query, threshold, count, b).value.searchMethod == FallbackAllDocuments
    ensures var e := b.embed(query).value;
      var r := Search(query, threshold, count, b).value;
      var ks := Keywords(query);
      && !Hit(b.matchDocuments(e, threshold, count))
      && !Hit(b.matchDocuments(e, LowThreshold, count))
      && (forall j :: 0 <= j < |ks| ==> !Hit(b.contentLike(ks[j], count)))
      && r.results == Rescored(b.recentDocuments(count).rows, 40, 5)
  {
  }

  /** Nothing found: no rows, the caller's threshold, and an error message. A
      store that failed on every call and a store with no rows give the same
      response. */
  lemma NoResultsTier(query: string, threshold: real, count: nat, b: Backend)
    requires Search(query, threshold, count, b).Ok?
    requires Search(query, threshold, count, b).value.searchMethod == NoResults
    ensures Search(query, threshold, count, b).value
         == SearchResponse([], query, threshold, count, NoResults, None, Some(NoResultsMessage))
  {
  }

  /** Every response echoes the query and the caller's `match_count`; the
      threshold echoed is the caller's except on the relaxed tier. */
  lemma ResponseEchoesRequest(query: string, threshold: real, count: nat, b: Backend)
    requires Search(query, threshold, count, b).Ok?
    ensures var r := Search(query, threshold, count, b).value;
      && r.query == query && r.matchCount == count
      && (r.searchMethod != LowThresholdVectorSearch ==> r.matchThreshold == threshold)
  {
  }

  /** Never empty on data: if the most-recent query answers with rows, the
      search returns at least one row. */
  lemma RecentRowsNeverEmpty(query: string, threshold: real, count: nat, b: Backend)
    requires Search(query, threshold, count, b).Ok?
    requires Hit(b.recentDocuments(count))
    ensures |Search(query, threshold, count, b).value.results| > 0
  {
  }

  /** Synthetic scores start at the tier's base and strictly decrease, with no
      floor: keyword scores are negative from position 8 on. */
  lemma {:induction false} SyntheticScoresDecrease(base: int, step: int, i: nat, j: nat)
    requires 0 < step && i < j
    ensures ScoreAt(base, step, 0) == base
    ensures ScoreAt(base, step, j) < ScoreAt(base, step, i)
    ensures ScoreAt(KeywordBase, KeywordStep, 8) < 0
  {
    assert step * i < step * j;
  }

  /** The keywords are exactly the words of the query, split on single spaces,
      that are longer than one character. */
  lemma KeywordsAreLongWords(query: string, w: string)
    ensures w in Keywords(query) <==> w in Split(query, ' ') && |w| > 1
  {
  }
}
