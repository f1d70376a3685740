/** The documents route. GET lists one page of stored chunks, newest first,
    optionally filtered by filename and by a content pattern, and describes
    each row's embedding column; DELETE removes one chunk by id, or every
    chunk of a file by filename. */
module Documents {
  import opened Records
  import opened Text

  const DefaultPage: int := 1
  const DefaultLimit: nat := 10
  const PreviewLength: nat := 200

  /** A query-string value counts only when present and non-empty: the
      source tests it for truthiness. */
  predicate Given(v: Option<string>)
  {
    v.Some? && v.value != ""
  }

  // ---------------------------------------------------------------------------
  // GET: the listing request

  /** `page` and `limit` are already parsed; `None` means the parameter was absent. */
  datatype ListParams = ListParams(page: Option<int>, limit: Option<nat>, filename: Option<string>, search: Option<string>)

  /** The parameters of the store query, in the order the URL carries them. */
  datatype QueryParam =
    | SelectAll
    | OffsetParam(offset: int)
    | LimitParam(limit: nat)
    | OrderByCreatedDesc
    | FilenameEq(name: string)
    | ContentIlike(pattern: string)

  /** The store query and the bounds of its `Range` header. */
  datatype ListRequest = ListRequest(query: seq<QueryParam>, rangeFirst: int, rangeLast: int)

  function Offset(page: int, limit: nat): int
  {
    (page - 1) * limit
  }

  /** What the listing request holds for the parameters `p`: the defaults
      page 1 and limit 10, the offset `(page - 1) * limit`, the Range
      `offset..offset + limit - 1`, and each filter exactly when it is given. */
  predicate RequestFor(p: ListParams, req: ListRequest)
  {
    var page := p.page.GetOr(DefaultPage);
    var limit := p.limit.GetOr(DefaultLimit);
    var offset := Offset(page, limit);
    && 4 <= |req.query|
    && req.query[..4] == [SelectAll, OffsetParam(offset), LimitParam(limit), OrderByCreatedDesc]
    && req.rangeFirst == offset && req.rangeLast == offset + limit - 1
    && (Given(p.filename) ==> FilenameEq(p.filename.value) in req.query)
    && (Given(p.search) ==> ContentIlike(p.search.value) in req.query)
    && (forall i :: 4 <= i < |req.query| ==>
          (req.query[i].FilenameEq? && Given(p.filename) && req.query[i].name == p.filename.value)
          || (req.query[i].ContentIlike? && Given(p.search) && req.query[i].pattern == p.search.value))
    && |req.query| == 4 + (if Given(p.filename) then 1 else 0) + (if Given(p.search) then 1 else 0)
  }

  /** The URL is built by appending: the fixed part, then each filter that is given. */
  method BuildListRequest(p: ListParams) returns (req: ListRequest)
    ensures RequestFor(p, req)
  {
    var page := p.page.GetOr(DefaultPage);
    var limit := p.limit.GetOr(DefaultLimit);
    var offset := Offset(page, limit);
    var query := [SelectAll, OffsetParam(offset), LimitParam(limit), OrderByCreatedDesc];
    if Given(p.filename) {
      query := query + [FilenameEq(p.filename.value)];
    }
    if Given(p.search) {
      query := query + [ContentIlike(p.search.value)];
    }
    req := ListRequest(query, offset, offset + limit - 1);
  }

  /** Pages tile the listing: page 1 starts at row 0, each request's Range
      holds `limit` rows, and the request for the next page starts right
      after it. */
  lemma PagesAdjoin(p: ListParams, req: ListRequest, next: ListRequest)
    requires RequestFor(p, req)
    requires RequestFor(p.(page := Some(p.page.GetOr(DefaultPage) + 1)), next)
    ensures p.page.GetOr(DefaultPage) == 1 ==> req.rangeFirst == 0
    ensures p.page.GetOr(DefaultPage) >= 1 ==> req.rangeFirst >= 0
    ensures req.rangeLast - req.rangeFirst + 1 == p.limit.GetOr(DefaultLimit)
    ensures next.rangeFirst == req.rangeLast + 1
  {
  }

  // ---------------------------------------------------------------------------
  // GET: describing the rows

  /** What `JSON.parse` makes of the embedding text. */
  datatype JsonParse = JsonArray(length: nat) | JsonOther | JsonInvalid

  /** The `embedding_type` of a listed row: `vector`, `vector_string`, `text`
      or `unknown`. */
  datatype EmbeddingType = Vector | VectorString | TextEmbedding | Unknown

  predicate Bracketed(s: string)
  {
    StartsWith(s, '[') && EndsWith(s, ']')
  }

  predicate Quoted(s: string)
  {
    StartsWith(s, '{') || StartsWith(s, '"')
  }

  /** The embedding type and dimension of one row, as the source reassigns them. */
  function Classify(embedding: Option<string>, parse: string -> JsonParse): (EmbeddingType, Option<nat>)
  {
    if !Given(embedding) then (Unknown, None)
    else if Bracketed(embedding.value) then
      match parse(embedding.value)
      case JsonArray(n) => (Vector, Some(n))
      case JsonOther => (Vector, None)
      case JsonInvalid => (VectorString, None)
    else if Quoted(embedding.value) then (TextEmbedding, None)
    else (Unknown, None)
  }

  /** The classifier as the source runs it: start from `unknown` with no
      dimension, and overwrite the two variables as the tests succeed. */
  method ClassifyEmbedding(embedding: Option<string>, parse: string -> JsonParse)
    returns (embeddingType: EmbeddingType, embeddingDimension: Option<nat>)
    ensures (embeddingType, embeddingDimension) == Classify(embedding, parse)
  {
    embeddingType := Unknown;
    embeddingDimension := None;
    if Given(embedding) {
      var s := embedding.value;
      if StartsWith(s, '[') && EndsWith(s, ']') {
        embeddingType := Vector;
        var parsed := parse(s);
        if parsed.JsonInvalid? {
          embeddingType := VectorString;
        } else {
          embeddingDimension := if parsed.JsonArray? then Some(parsed.length) else None;
        }
      } else if StartsWith(s, '{') || StartsWith(s, '"') {
        embeddingType := TextEmbedding;
      }
    }
  }

  /** The classification rules, each in both directions: a dimension is
      reported only for a bracketed value that parses as an array, and a
      missing or empty column is `unknown`. */
  lemma ClassifyRules(embedding: Option<string>, parse: string -> JsonParse)
    ensures var (t, dim) := Classify(embedding, parse);
      && (t == Vector <==> Given(embedding) && Bracketed(embedding.value) && !parse(embedding.value).JsonInvalid?)
      && (t == VectorString <==> Given(embedding) && Bracketed(embedding.value) && parse(embedding.value).JsonInvalid?)
      && (t == TextEmbedding <==> Given(embedding) && !Bracketed(embedding.value) && Quoted(embedding.value))
      && (t == Unknown <==> !Given(embedding) || (!Bracketed(embedding.value) && !Quoted(embedding.value)))
      && (dim.Some? <==> t == Vector && parse(embedding.value).JsonArray?)
      && (dim.Some? ==> dim.value == parse(embedding.value).length)
  {
  }

  datatype ListedDocument = ListedDocument(
    row: Row,
    embeddingType: EmbeddingType,
    embeddingDimension: Option<nat>,
    contentPreview: string)

  function Describe(rows: seq<Row>, parse: string -> JsonParse): (ds: seq<ListedDocument>)
    ensures |ds| == |rows|
    ensures forall i :: 0 <= i < |rows| ==>
      && ds[i].row == rows[i]
      && (ds[i].embeddingType, ds[i].embeddingDimension) == Classify(rows[i].embedding, parse)
      && ds[i].contentPreview == Preview(rows[i].content, PreviewLength)
  {
    seq(|rows|, i requires 0 <= i < |rows| =>
      var c := Classify(rows[i].embedding, parse);
      ListedDocument(rows[i], c.0, c.1, Preview(rows[i].content, PreviewLength)))
  }

  /** `Math.ceil(total / limit)`; no finite page count when `limit` is 0. */
  function TotalPages(total: nat, limit: nat): (pages: Option<nat>)
    ensures pages.None? <==> limit == 0
    ensures pages.Some? ==> total <= pages.value * limit
    ensures pages.Some? && pages.value > 0 ==> (pages.value - 1) * limit < total
  {
    if limit == 0 then None
    else
      var q := (total + limit - 1) / limit;
      var r := (total + limit - 1) % limit;
      assert total + limit - 1 == q * limit + r;
      assert (q - 1) * limit == q * limit - limit;
      Some(q)
  }

  /** The store's answer to the listing query: the rows, and the total from
      its `content-range` header (`None` when the header is absent). */
  datatype ListOutcome = ListFailed | Listed(rows: seq<Row>, totalCount: Option<nat>)

  datatype ListResponse =
    | ListError                         // 500
    | Listing(documents: seq<ListedDocument>, totalCount: nat, page: int, limit: nat, totalPages: Option<nat>)

  /** GET: builds the request, asks the store, and describes the rows. */
  method ListDocuments(p: ListParams, fetch: ListRequest -> ListOutcome, parse: string -> JsonParse)
    returns (sent: ListRequest, response: ListResponse)
    ensures response.ListError? <==> fetch(sent).ListFailed?
    ensures response.Listing? ==>
      var limit := p.limit.GetOr(DefaultLimit);
      var total := fetch(sent).totalCount.GetOr(0);
      && response.documents == Describe(fetch(sent).rows, parse)
      && response.totalCount == total
      && response.page == p.page.GetOr(DefaultPage)
      && response.limit == limit
      && response.totalPages == TotalPages(total, limit)
    ensures RequestFor(p, sent)
  {
    sent := BuildListRequest(p);
    var outcome := fetch(sent);
    if outcome.ListFailed? {
      return sent, ListError;
    }
    var page := p.page.GetOr(DefaultPage);
    var limit := p.limit.GetOr(DefaultLimit);
    var total := outcome.totalCount.GetOr(0);
    response := Listing(Describe(outcome.rows, parse), total, page, limit, TotalPages(total, limit));
  }

  // ---------------------------------------------------------------------------
  // DELETE

  datatype DeleteTarget = ById(id: string) | ByFilename(name: string)

  const FileDeletedMessage: string := "파일의 모든 청크가 삭제되었습니다."
  const DocumentDeletedMessage: string := "문서가 삭제되었습니다."

  datatype DeleteResponse =
    | TargetRequired                    // 400
    | DeleteFailed                      // 500
    | Deleted(message: string)

  /** The row or rows to delete: the id when given, otherwise the filename. */
  function ChooseDeleteTarget(filename: Option<string>, id: Option<string>): Option<DeleteTarget>
  {
    if Given(id) then Some(ById(id.value))
    else if Given(filename) then Some(ByFilename(filename.value))
    else None
  }

  /** DELETE; `remove` is the store's answer to the delete call. */
  function Delete(filename: Option<string>, id: Option<string>, remove: DeleteTarget -> bool): (r: DeleteResponse)
    ensures r == TargetRequired <==> !Given(filename) && !Given(id)
  {
    match ChooseDeleteTarget(filename, id)
    case None => TargetRequired
    case Some(target) =>
      if !remove(target) then DeleteFailed
      else Deleted(if Given(filename) then FileDeletedMessage else DocumentDeletedMessage)
  }

  /** Without an id or a filename the answer is 400; with both, the id wins,
      and the store is asked to delete only that row. */
  lemma DeleteTargetRule(filename: Option<string>, id: Option<string>)
    ensures ChooseDeleteTarget(filename, id).None? <==> !Given(filename) && !Given(id)
    ensures Given(id) ==> ChooseDeleteTarget(filename, id) == Some(ById(id.value))
    ensures !Given(id) && Given(filename) ==> ChooseDeleteTarget(filename, id) == Some(ByFilename(filename.value))
  {
  }

  /** The success message follows the filename parameter, not the target:
      with both parameters given, one row is deleted by id but the message
      says every chunk of the file was deleted. */
  lemma DeleteMessageFollowsFilename(filename: Option<string>, id: Option<string>, remove: DeleteTarget -> bool)
    requires Given(filename) && Given(id) && remove(ById(id.value))
    ensures Delete(filename, id, remove) == Deleted(FileDeletedMessage)
  {
  }
}
