/** The chat route: a non-empty message is searched for with threshold 0.3
    and at most 10 rows, the contents of the rows are joined with blank lines
    into a context, and one of two prompts is given to the answer generator:
    one that quotes the context and the question, or, when the context is
    empty, one with the question alone that says no document was found. */
module Chat {
  import opened Records
  import opened Text
  import Search

  const ChatThreshold: real := 0.3
  const ChatCount: nat := 10
  const ContextSeparator: string := "\n\n"

  const GroundedHeading: string := "\n다음은 업로드된 경영실적 관련 문서들입니다:\n\n"
  const QuestionLabel: string := "사용자 질문: "
  const GroundedInstruction: string :=
    "\n\n위의 문서 정보를 바탕으로 사용자의 질문에 대해 한국어로 정확하고 상세한 답변을 제공해주세요. 구체적인 수치나 데이터가 있다면 그것을 인용해서 답변해주세요.\n"
  const NoDocumentsInstruction: string :=
    "\n\n업로드된 문서에서 관련 정보를 찾을 수 없습니다. 하지만 일반적인 경영실적 분석에 대한 답변을 제공해주세요. 먼저 관련 문서를 업로드하라고 안내해주세요.\n"

  /** One entry of `search_results`. */
  datatype ResultSummary = ResultSummary(id: int, filename: string, similarity: Option<real>, contentPreview: string)

  datatype ChatResponse =
    | MessageRequired                   // 400
    | ChatFailed                        // 500: the search threw, or the generator did
    | Answered(answer: string, sources: nat, contextUsed: bool, searchMethod: string,
               searchResults: seq<ResultSummary>)

  function Contents(rows: seq<Row>): (cs: seq<string>)
    ensures |cs| == |rows| && forall i :: 0 <= i < |rows| ==> cs[i] == rows[i].content
  {
    seq(|rows|, i requires 0 <= i < |rows| => rows[i].content)
  }

  /** The row contents joined with blank lines, in result order. */
  function Context(rows: seq<Row>): string
  {
    Join(Contents(rows), ContextSeparator)
  }

  function Prompt(context: string, message: string): string
  {
    if |context| > 0 then
      GroundedHeading + context + "\n\n" + QuestionLabel + message + GroundedInstruction
    else
      "\n" + QuestionLabel + message + NoDocumentsInstruction
  }

  function Summaries(rows: seq<Row>): (ss: seq<ResultSummary>)
    ensures |ss| == |rows|
    ensures forall i :: 0 <= i < |rows| ==>
      && ss[i].id == rows[i].id && ss[i].filename == rows[i].filename
      && ss[i].similarity == rows[i].similarity
      && ss[i].contentPreview == Preview(rows[i].content, 100)
  {
    seq(|rows|, i requires 0 <= i < |rows| =>
      ResultSummary(rows[i].id, rows[i].filename, rows[i].similarity, Preview(rows[i].content, 100)))
  }

  /** The route. The message is missing when absent or empty. `generate`
      answers `None` when the generator throws. */
  function Chat(message: Option<string>, b: Search.Backend, generate: string -> Option<string>): (r: ChatResponse)
    ensures r == MessageRequired <==> message.None? || message.value == ""
  {
    if message.None? || message.value == "" then MessageRequired
    else match Search.Search(message.value, ChatThreshold, ChatCount, b)
      case Err(_) => ChatFailed
      case Ok(data) =>
        var context := Context(data.results);
        match generate(Prompt(context, message.value))
        case None => ChatFailed
        case Some(answer) =>
          Answered(answer, |data.results|, |context| > 0, Search.MethodName(data.searchMethod), Summaries(data.results))
  }

  // ---------------------------------------------------------------------------
  // Properties of the route

  /** An answer reports the search made with threshold 0.3 and count 10: its
      row count, its tag, and its rows in order with the same id, filename and
      similarity. The context is used exactly when there is more than one row
      or a single row with non-empty content. */
  lemma AnswerReportsSearch(message: string, b: Search.Backend, generate: string -> Option<string>)
    requires Chat(Some(message), b, generate).Answered?
    ensures var r := Chat(Some(message), b, generate);
      var s := Search.Search(message, 0.3, 10, b);
      && s.Ok?
      && r.sources == |s.value.results|
      && r.searchMethod == Search.MethodName(s.value.searchMethod)
      && |r.searchResults| == |s.value.results|
      && (forall i :: 0 <= i < |r.searchResults| ==>
            r.searchResults[i].id == s.value.results[i].id
            && r.searchResults[i].filename == s.value.results[i].filename
            && r.searchResults[i].similarity == s.value.results[i].similarity)
      && (r.contextUsed <==> |s.value.results| > 1 || (|s.value.results| == 1 && s.value.results[0].content != ""))
  {
    var rows := Search.Search(message, 0.3, 10, b).value.results;
    JoinEmptyIff(Contents(rows), ContextSeparator);
  }

  /** The answer is the generator's reply to the prompt built from the rows of
      the 0.3/10 search; the route answers 500 exactly when that search
      raises or the generator throws. */
  lemma AnswerIsGenerated(message: string, b: Search.Backend, generate: string -> Option<string>)
    requires message != ""
    ensures var s := Search.Search(message, ChatThreshold, ChatCount, b);
      var r := Chat(Some(message), b, generate);
      && (r == ChatFailed <==> s.Err? || generate(Prompt(Context(s.value.results), message)).None?)
      && (r.Answered? <==> s.Ok? && generate(Prompt(Context(s.value.results), message)).Some?)
      && (r.Answered? ==> r.answer == generate(Prompt(Context(s.value.results), message)).value)
  {
  }

  /** Every row's content appears in the context. */
  lemma ContextHoldsEveryRow(rows: seq<Row>, i: nat)
    requires i < |rows|
    ensures exists pre, post :: Context(rows) == pre + rows[i].content + post
  {
    JoinContainsParts(Contents(rows), ContextSeparator, i);
  }

  /** With a context, the prompt opens with the documents heading and quotes
      the context, then the message, then the answering instruction; without
      one, it quotes the message followed by the no-documents instruction. */
  lemma PromptSelection(context: string, message: string)
    ensures |context| > 0 ==>
      exists pre, mid :: Prompt(context, message) == pre + context + mid + message + GroundedInstruction
    ensures |context| > 0 ==> Prompt(context, message)[..|GroundedHeading|] == GroundedHeading
    ensures |context| == 0 ==>
      exists pre :: Prompt(context, message) == pre + message + NoDocumentsInstruction
  {
    if |context| > 0 {
      var p := Prompt(context, message);
      assert p == GroundedHeading + context + ("\n\n" + QuestionLabel) + message + GroundedInstruction;
      assert (GroundedHeading + context + "\n\n" + QuestionLabel + message + GroundedInstruction)[..|GroundedHeading|] == GroundedHeading;
    } else {
      var p := Prompt(context, message);
      assert p == ("\n" + QuestionLabel) + message + NoDocumentsInstruction;
    }
  }

  /** A missing message is answered 400 before any search. */
  lemma MissingMessageRejected(b: Search.Backend, generate: string -> Option<string>)
    ensures Chat(None, b, generate) == MessageRequired
    ensures Chat(Some(""), b, generate) == MessageRequired
  {
  }
}
