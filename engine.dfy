/**
 * `RAGEngine` itself: the credential check of `__init__`, the document and
 * chunk lists it fills in place, and the query entry point.
 */
module Engine {
  import opened Wrappers
  import opened Text
  import opened Chunker
  import opened Retriever
  import opened Composer

  const ApiKeyPlaceholder: string := "your_ibm_api_key_here"
  const ProjectIdPlaceholder: string := "your_project_id_here"
  const ApiKeyMissing: string := "Please set IBM_API_KEY in your .env file"
  const ProjectIdMissing: string := "Please set WATSONX_PROJECT_ID in your .env file"
  const QueryTopK: int := 3

  /** An environment value that is set (`not value` is false) and is not the template's placeholder. */
  predicate IsConfigured(value: Option<string>, placeholder: string) {
    value.Some? && value.value != "" && value.value != placeholder
  }

  /**
   * The checks of `__init__`: construction goes ahead exactly when both
   * values are configured; the API key is checked first.
   */
  function CheckCredentials(apiKey: Option<string>, projectId: Option<string>): (r: Outcome<string>)
    ensures r.Pass? <==> IsConfigured(apiKey, ApiKeyPlaceholder) && IsConfigured(projectId, ProjectIdPlaceholder)
    ensures !IsConfigured(apiKey, ApiKeyPlaceholder) ==> r == Fail(ApiKeyMissing)
    ensures IsConfigured(apiKey, ApiKeyPlaceholder) && !IsConfigured(projectId, ProjectIdPlaceholder) ==> r == Fail(ProjectIdMissing)
  {
    if apiKey.None? || apiKey.value == "" || apiKey.value == ApiKeyPlaceholder then Fail(ApiKeyMissing)
    else if projectId.None? || projectId.value == "" || projectId.value == ProjectIdPlaceholder then Fail(ProjectIdMissing)
    else Pass
  }

  /** The message of the `AttributeError` raised by reading `self.collection` before it exists. */
  const MissingCollection: string := "'RAGEngine' object has no attribute 'collection'"

  /** What `query` answers once retrieval can run: the top three fallback chunks, then generate or compose. */
  function QueryAnswer(chunks: seq<Chunk>, model: Option<string -> Reply>, userQuery: string, contextPrefix: string): string {
    var relevant := FallbackRetrieval(userQuery, chunks, QueryTopK);
    Answer(Prompt(contextPrefix, FormatContext(relevant), userQuery), relevant, model)
  }

  /**
   * `query` as written: `if self.collection:` raises `AttributeError` until
   * `_create_vector_store` has assigned the attribute.
   */
  function QueryResult(hasCollection: bool, chunks: seq<Chunk>, model: Option<string -> Reply>,
                       userQuery: string, contextPrefix: string): Result<string, string> {
    if hasCollection then Success(QueryAnswer(chunks, model, userQuery, contextPrefix)) else Failure(MissingCollection)
  }

  /**
   * `query` on an engine whose `__init__` sets `self.collection = None` (as
   * it sets the unused `self.vector_store = None`): the keyword fallback runs
   * on every engine, loaded or not.
   */
  function IntendedQueryResult(chunks: seq<Chunk>, model: Option<string -> Reply>,
                               userQuery: string, contextPrefix: string): Result<string, string> {
    Success(QueryAnswer(chunks, model, userQuery, contextPrefix))
  }

  /**
   * The intended `query` always answers, and it agrees with the code as
   * written on every engine whose vector-store step has run.
   */
  lemma IntendedQueryAlwaysAnswers(hasCollection: bool, chunks: seq<Chunk>, model: Option<string -> Reply>,
                                   userQuery: string, contextPrefix: string)
    ensures IntendedQueryResult(chunks, model, userQuery, contextPrefix).Success?
    ensures hasCollection ==>
      IntendedQueryResult(chunks, model, userQuery, contextPrefix) == QueryResult(hasCollection, chunks, model, userQuery, contextPrefix)
    ensures !hasCollection ==> QueryResult(hasCollection, chunks, model, userQuery, contextPrefix).Failure?
  {
  }

  /**
   * What the fix changes on the failing input: with no generator and no
   * knowledge base loaded, the code as written raises while the intended
   * `query` answers with the fixed no-information message.
   */
  lemma IntendedAnswersWithoutKnowledgeBase(userQuery: string, contextPrefix: string)
    ensures QueryResult(false, [], None, userQuery, contextPrefix) == Failure(MissingCollection)
    ensures IntendedQueryResult([], None, userQuery, contextPrefix) == Success(NoInformationMessage)
  {
    RetrievalLength(userQuery, [], QueryTopK);
  }

  class RagEngine {
    var documents: seq<Document>
    var chunks: seq<Chunk>
    /**
     * Whether `self.collection` exists. Only `_create_vector_store` assigns
     * it; without a vector store it is then `None`, so retrieval falls back
     * to keywords.
     */
    var hasCollection: bool
    /** The generator `_init_watsonx` set up, or None when it could not. */
    const model: Option<string -> Reply>

    constructor (model: Option<string -> Reply>)
      ensures documents == [] && chunks == [] && !hasCollection && this.model == model
    {
      documents := [];
      chunks := [];
      hasCollection := false;
      this.model := model;
    }

    /** `RAGEngine()`: raises (here: fails with the message) unless both credentials are configured. */
    static method Create(apiKey: Option<string>, projectId: Option<string>, model: Option<string -> Reply>)
      returns (r: Result<RagEngine, string>)
      ensures CheckCredentials(apiKey, projectId).Fail? ==> r == Failure(CheckCredentials(apiKey, projectId).error)
      ensures CheckCredentials(apiKey, projectId).Pass? ==>
        r.Success? && fresh(r.value) && r.value.documents == [] && r.value.chunks == [] &&
        !r.value.hasCollection && r.value.model == model
    {
      var check := CheckCredentials(apiKey, projectId);
      if check.Fail? {
        return Failure(check.error);
      }
      var engine := new RagEngine(model);
      return Success(engine);
    }

    /**
     * `load_documents`: `found` is what reading the knowledge base gave (None
     * when the directory does not exist, which returns early). The documents
     * are appended, `_create_chunks` runs over all documents held, and
     * `_create_vector_store` assigns `self.collection`.
     */
    method LoadDocuments(found: Option<seq<Document>>)
      modifies this
      ensures found.None? ==> documents == old(documents) && chunks == old(chunks) && hasCollection == old(hasCollection)
      ensures found.Some? ==> documents == old(documents) + found.value
      ensures found.Some? ==> chunks == old(chunks) + AllChunks(documents, DefaultChunkSize, DefaultOverlap)
      ensures found.Some? ==> hasCollection
    {
      if found.None? {
        return;
      }
      documents := documents + found.value;
      CreateChunks(DefaultChunkSize, DefaultOverlap);
      hasCollection := true;
    }

    /** `_create_chunks`: appends the chunks of every document held to `chunks`. */
    method CreateChunks(chunkSize: int, overlap: int)
      modifies this
      ensures documents == old(documents) && hasCollection == old(hasCollection)
      ensures chunks == old(chunks) + AllChunks(documents, chunkSize, overlap)
    {
      var added := ChunkDocuments(documents, chunkSize, overlap);
      chunks := chunks + added;
    }

    /**
     * `_retrieve_relevant_chunks` without a vector store: the keyword fallback
     * over `chunks`, or the `AttributeError` of `if self.collection:` when the
     * attribute was never assigned.
     */
    method RetrieveRelevantChunks(query: string, topK: int) returns (result: Result<seq<Chunk>, string>)
      ensures hasCollection ==> result == Success(FallbackRetrieval(query, chunks, topK))
      ensures !hasCollection ==> result == Failure(MissingCollection)
    {
      if !hasCollection {
        return Failure(MissingCollection);
      }
      var relevant := RetrieveFallback(query, chunks, topK);
      return Success(relevant);
    }

    /** `query`: retrieve three chunks, then generate an answer or compose the fallback. */
    method Query(userQuery: string, contextPrefix: string) returns (answer: Result<string, string>)
      ensures answer == QueryResult(hasCollection, chunks, model, userQuery, contextPrefix)
    {
      var retrieved := RetrieveRelevantChunks(userQuery, QueryTopK);
      if retrieved.Failure? {
        return Failure(retrieved.error);
      }
      var relevant := retrieved.value;
      var context := FormatContext(relevant);
      var prompt := Prompt(contextPrefix, context, userQuery);
      if model.Some? {
        var reply := model.value(prompt);
        match reply
        case Generated(text) => answer := Success(Strip(text));
        case Raised(message) => answer := Success(ErrorPrefix + message);
      } else {
        var response := ComposeFallback(userQuery, relevant);
        answer := Success(response);
      }
    }
  }

  /**
   * The crash as written: an engine built with valid credentials whose
   * knowledge-base directory is missing raises on its first query, as the
   * application's start-up (load, then query) does.
   */
  method QueryWithoutKnowledgeBase(apiKey: Option<string>, projectId: Option<string>, model: Option<string -> Reply>,
                                   userQuery: string, contextPrefix: string) returns (answer: Result<string, string>)
    requires CheckCredentials(apiKey, projectId).Pass?
    ensures answer == Failure(MissingCollection)
  {
    var created := RagEngine.Create(apiKey, projectId, model);
    var engine := created.value;
    engine.LoadDocuments(None);
    answer := engine.Query(userQuery, contextPrefix);
  }

  /**
   * Without a generator, once a load has found the directory (so the
   * vector-store step ran) an empty knowledge base answers every query with
   * the fixed message.
   */
  lemma EmptyKnowledgeBaseAnswer(userQuery: string, contextPrefix: string)
    ensures QueryResult(true, [], None, userQuery, contextPrefix) == Success(NoInformationMessage)
  {
    RetrievalLength(userQuery, [], QueryTopK);
  }

  /**
   * Without a generator, a non-empty knowledge base never answers with the
   * fixed message: the keyword fallback keeps the top three chunks even when
   * none shares a word with the query, so the answer is the fallback text.
   */
  lemma NonEmptyKnowledgeBaseAnswer(userQuery: string, contextPrefix: string, chunks: seq<Chunk>)
    requires chunks != []
    ensures var answer := QueryResult(true, chunks, None, userQuery, contextPrefix);
      answer.Success? && StartsWith(answer.value, FallbackHeader) && EndsWith(answer.value, FallbackNote)
  {
    var relevant := FallbackRetrieval(userQuery, chunks, QueryTopK);
    RetrievalLength(userQuery, chunks, QueryTopK);
    AnswerCases(Prompt(contextPrefix, FormatContext(relevant), userQuery), relevant, None);
  }
}
