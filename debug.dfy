/** The debug route: fetches every stored chunk, newest first, and reports
    how many were fetched, the distinct filenames in order of first
    appearance, a tally of the embedding column's shape, and the first three
    rows as samples. */
module Debug {
  import opened Records
  import opened Text
  import Documents

  /** The shape of the embedding column in the tally: the keys `vector`,
      `text` and `none` of `embedding_types`. */
  datatype Tag = VectorTag | TextTag | NoneTag

  /** The tally's test: a missing column reads as the empty string. */
  function TagOf(embedding: Option<string>): Tag
  {
    var s := embedding.GetOr("");
    if Documents.Bracketed(s) then VectorTag
    else if Documents.Quoted(s) then TextTag
    else NoneTag
  }

  /** How many of the rows carry tag `t`. */
  function CountTag(docs: seq<Row>, t: Tag): nat
  {
    if |docs| == 0 then 0
    else CountTag(docs[..|docs| - 1], t) + (if TagOf(docs[|docs| - 1].embedding) == t then 1 else 0)
  }

  /** The `reduce` that builds the tally: a tag appears as a key exactly when
      some row carries it, with the number of such rows. */
  method TallyEmbeddingTypes(docs: seq<Row>) returns (acc: map<Tag, nat>)
    ensures forall t :: t in acc <==> CountTag(docs, t) > 0
    ensures forall t :: t in acc ==> acc[t] == CountTag(docs, t)
  {
    acc := map[];
    for i := 0 to |docs|
      invariant forall t :: t in acc <==> CountTag(docs[..i], t) > 0
      invariant forall t :: t in acc ==> acc[t] == CountTag(docs[..i], t)
    {
      assert docs[..i + 1][..i] == docs[..i];
      var tag := TagOf(docs[i].embedding);
      acc := acc[tag := (if tag in acc then acc[tag] else 0) + 1];
    }
    assert docs[..|docs|] == docs;
  }

  /** Every row is counted exactly once: the three counts add up to the
      number of rows fetched. */
  lemma {:induction false} TallyCoversEveryRow(docs: seq<Row>)
    ensures CountTag(docs, VectorTag) + CountTag(docs, TextTag) + CountTag(docs, NoneTag) == |docs|
  {
    if |docs| > 0 {
      TallyCoversEveryRow(docs[..|docs| - 1]);
    }
  }

  /** The tally's tags agree with the listing's types: `vector` covers both
      `vector` and `vector_string`, `text` is `text`, `none` is `unknown`. */
  lemma TagAgreesWithListing(embedding: Option<string>, parse: string -> Documents.JsonParse)
    ensures var t := Documents.Classify(embedding, parse).0;
      && (TagOf(embedding) == VectorTag <==> t == Documents.Vector || t == Documents.VectorString)
      && (TagOf(embedding) == TextTag <==> t == Documents.TextEmbedding)
      && (TagOf(embedding) == NoneTag <==> t == Documents.Unknown)
  {
  }

  /** `[...new Set(names)]`: the distinct values in order of first appearance. */
  function Distinct(s: seq<string>): (r: seq<string>)
    ensures forall x :: x in r <==> x in s
    ensures NoDuplicates(r)
  {
    if |s| == 0 then []
    else
      var d := Distinct(s[..|s| - 1]);
      if s[|s| - 1] in d then d else d + [s[|s| - 1]]
  }

  lemma FirstIndexOfPrefix(s: seq<string>, y: string, x: string)
    requires x in s
    ensures FirstIndex(s + [y], x) == FirstIndex(s, x)
  {
    var t := s + [y];
    var k := FirstIndex(s, x);
    assert t[k] == x;
    assert t[..k] == s[..k];
  }

  /** The distinct values keep the order in which each first appears. */
  lemma {:induction false} DistinctKeepsFirstOccurrenceOrder(s: seq<string>)
    ensures forall i, j :: 0 <= i < j < |Distinct(s)| ==> FirstIndex(s, Distinct(s)[i]) < FirstIndex(s, Distinct(s)[j])
  {
    if |s| > 0 {
      var init := s[..|s| - 1];
      var last := s[|s| - 1];
      assert s == init + [last];
      DistinctKeepsFirstOccurrenceOrder(init);
      var d := Distinct(init);
      var r := Distinct(s);
      forall x | x in d
        ensures FirstIndex(s, x) == FirstIndex(init, x) < |init|
      {
        FirstIndexOfPrefix(init, last, x);
      }
      assert forall n :: 0 <= n < |init| ==> s[n] == init[n];
      if last in d {
        assert r == d;
        forall i, j | 0 <= i < j < |r|
          ensures FirstIndex(s, r[i]) < FirstIndex(s, r[j])
        {
          assert d[i] in d && d[j] in d;
          assert FirstIndex(init, d[i]) < FirstIndex(init, d[j]);
        }
      } else {
        assert r == d + [last];
        assert last !in init;
        var k := FirstIndex(s, last);
        assert k >= |init|;
        forall i, j | 0 <= i < j < |r|
          ensures FirstIndex(s, r[i]) < FirstIndex(s, r[j])
        {
          assert r[i] == d[i] && d[i] in d;
          if j < |d| {
            assert r[j] == d[j] && d[j] in d;
            assert FirstIndex(init, d[i]) < FirstIndex(init, d[j]);
          }
        }
      }
    }
  }

  /** One entry of `sample_documents`; its type tests only for a leading `[`,
      so a missing column is `text`. */
  datatype Sample = Sample(id: int, filename: string, contentPreview: string, embeddingType: Tag, createdAt: string)

  function SampleTag(embedding: Option<string>): Tag
  {
    if embedding.Some? && StartsWith(embedding.value, '[') then VectorTag else TextTag
  }

  function SampleDocuments(docs: seq<Row>): (ss: seq<Sample>)
    ensures |ss| == Min(3, |docs|)
    ensures forall i :: 0 <= i < |ss| ==>
      && ss[i].id == docs[i].id && ss[i].filename == docs[i].filename
      && ss[i].createdAt == docs[i].createdAt
      && ss[i].contentPreview == Preview(docs[i].content, 100)
      && ss[i].embeddingType == SampleTag(docs[i].embedding)
  {
    var n := Min(3, |docs|);
    seq(n, i requires 0 <= i < n =>
      Sample(docs[i].id, docs[i].filename, Preview(docs[i].content, 100), SampleTag(docs[i].embedding), docs[i].createdAt))
  }

  /** The sample type and the tally disagree: every tallied `vector` is a
      sample `vector`, but an unterminated `[` is a sample `vector` and a
      tallied `none`, and a missing column is a sample `text` and a tallied `none`. */
  lemma SampleTagDiffersFromTally(embedding: Option<string>)
    ensures TagOf(embedding) == VectorTag ==> SampleTag(embedding) == VectorTag
    ensures TagOf(Some("[")) == NoneTag && SampleTag(Some("[")) == VectorTag
    ensures TagOf(None) == NoneTag && SampleTag(None) == TextTag
  {
  }

  datatype Stats = Stats(
    totalDocuments: nat,
    documentsFetched: nat,
    uniqueFilenames: seq<string>,
    embeddingTypes: map<Tag, nat>,
    sampleDocuments: seq<Sample>)

  datatype DebugResponse = DebugError | DebugReport(stats: Stats, rawDocuments: seq<Row>)

  function Filenames(docs: seq<Row>): (names: seq<string>)
    ensures |names| == |docs| && forall i :: 0 <= i < |docs| ==> names[i] == docs[i].filename
  {
    seq(|docs|, i requires 0 <= i < |docs| => docs[i].filename)
  }

  /** The route, given the store's answer to the fetch of all rows. */
  method DebugStats(outcome: Documents.ListOutcome) returns (response: DebugResponse)
    ensures response.DebugError? <==> outcome.ListFailed?
    ensures response.DebugReport? ==>
      var docs := outcome.rows;
      var st := response.stats;
      && response.rawDocuments == docs
      && st.totalDocuments == outcome.totalCount.GetOr(0)
      && st.documentsFetched == |docs|
      && st.uniqueFilenames == Distinct(Filenames(docs))
      && (forall t :: t in st.embeddingTypes <==> CountTag(docs, t) > 0)
      && (forall t :: t in st.embeddingTypes ==> st.embeddingTypes[t] == CountTag(docs, t))
      && st.sampleDocuments == SampleDocuments(docs)
  {
    if outcome.ListFailed? {
      return DebugError;
    }
    var docs := outcome.rows;
    var tally := TallyEmbeddingTypes(docs);
    var stats := Stats(outcome.totalCount.GetOr(0), |docs|, Distinct(Filenames(docs)), tally, SampleDocuments(docs));
    response := DebugReport(stats, docs);
  }
}
