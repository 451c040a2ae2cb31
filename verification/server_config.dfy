/** The REST server's configuration: which LLM and embedding provider mem0 is given,
    how many dimensions the pgvector store is created with, and whether its HNSW
    index is switched on. The environment values are one `Settings` record. */
module ServerConfig {
  import opened Common

  /** The module-level values the configuration functions read. */
  datatype Settings = Settings(
    postgresHost: string, postgresPort: int, postgresDb: string, postgresUser: string,
    postgresPassword: string, collectionName: string,
    neo4jUri: string, neo4jUsername: string, neo4jPassword: string,
    llmProvider: string,
    ollamaBaseUrl: string, ollamaLlmModel: string, ollamaEmbeddingModel: string, ollamaEmbeddingDims: int,
    openaiApiKey: string, openaiLlmModel: string, openaiEmbeddingModel: string, openaiEmbeddingDims: int,
    anthropicApiKey: string, anthropicModel: string,
    historyDbPath: string)

  /** The values every setting takes when its environment variable is unset. */
  const DEFAULTS := Settings(
    "postgres", 5432, "postgres", "postgres", "postgres", "memories",
    "bolt://neo4j:7687", "neo4j", "mem0graph",
    "ollama",
    "http://192.168.1.2:11434", "qwen3:8b", "qwen3-embedding:8b", 4096,
    "", "gpt-4o", "text-embedding-3-small", 1536,
    "", "claude-3-5-sonnet-20241022",
    "/app/history/history.db")

  /** pgvector cannot build an HNSW index above this many dimensions. */
  const HNSW_MAX_DIMS := 2000

  /** The LLM temperature, the same for every provider. */
  const TEMPERATURE: real := 0.2

  /** An LLM section: the ollama one has a base URL and no API key, the others the
      reverse. */
  datatype LlmConfig = LlmConfig(provider: string, apiKey: Option<string>, model: string,
                                 baseUrl: Option<string>, temperature: real)

  datatype EmbedderConfig = EmbedderConfig(provider: string, apiKey: Option<string>, model: string,
                                           baseUrl: Option<string>, embeddingDims: int)

  datatype VectorStoreConfig = VectorStoreConfig(provider: string, host: string, port: int,
                                                 dbname: string, user: string, password: string,
                                                 collectionName: string, embeddingModelDims: int,
                                                 hnsw: bool)

  datatype GraphStoreConfig = GraphStoreConfig(provider: string, url: string, username: string,
                                               password: string)

  datatype Mem0Config = Mem0Config(version: string, vectorStore: VectorStoreConfig,
                                   graphStore: GraphStoreConfig, llm: LlmConfig,
                                   embedder: EmbedderConfig, historyDbPath: string)

  /** `get_llm_config()`: "openai" and "anthropic" select themselves, every other
      provider string falls back to ollama. */
  function LlmConfigOf(s: Settings): (r: LlmConfig)
    ensures r.provider == "openai" <==> s.llmProvider == "openai"
    ensures r.provider == "anthropic" <==> s.llmProvider == "anthropic"
    ensures r.provider == "ollama" <==> s.llmProvider != "openai" && s.llmProvider != "anthropic"
    ensures r.temperature == TEMPERATURE
    ensures r.apiKey.None? <==> r.baseUrl == Some(s.ollamaBaseUrl)
    ensures r.apiKey.None? <==> r.provider == "ollama"
    ensures r.provider == "openai" ==> r.apiKey == Some(s.openaiApiKey) && r.model == s.openaiLlmModel
    ensures r.provider == "anthropic" ==> r.apiKey == Some(s.anthropicApiKey) && r.model == s.anthropicModel
    ensures r.provider == "ollama" ==> r.model == s.ollamaLlmModel
  {
    if s.llmProvider == "openai" then
      LlmConfig("openai", Some(s.openaiApiKey), s.openaiLlmModel, None, TEMPERATURE)
    else if s.llmProvider == "anthropic" then
      LlmConfig("anthropic", Some(s.anthropicApiKey), s.anthropicModel, None, TEMPERATURE)
    else
      LlmConfig("ollama", None, s.ollamaLlmModel, Some(s.ollamaBaseUrl), TEMPERATURE)
  }

  /** `get_embedder_config()`: only "openai" embeds with OpenAI; anthropic has no
      embeddings of its own and shares ollama's. */
  function EmbedderConfigOf(s: Settings): (r: EmbedderConfig)
    ensures r.provider == "openai" <==> s.llmProvider == "openai"
    ensures r.provider == "ollama" <==> s.llmProvider != "openai"
    ensures r.provider == "openai" ==>
      r.apiKey == Some(s.openaiApiKey) && r.model == s.openaiEmbeddingModel
      && r.baseUrl.None? && r.embeddingDims == s.openaiEmbeddingDims
    ensures r.provider == "ollama" ==>
      r.apiKey.None? && r.model == s.ollamaEmbeddingModel
      && r.baseUrl == Some(s.ollamaBaseUrl) && r.embeddingDims == s.ollamaEmbeddingDims
  {
    if s.llmProvider == "openai" then
      EmbedderConfig("openai", Some(s.openaiApiKey), s.openaiEmbeddingModel, None, s.openaiEmbeddingDims)
    else
      EmbedderConfig("ollama", None, s.ollamaEmbeddingModel, Some(s.ollamaBaseUrl), s.ollamaEmbeddingDims)
  }

  /** `get_vector_store_config()`: the dimension is chosen again from the provider,
      and HNSW is on exactly when pgvector can index that many dimensions. */
  function VectorStoreConfigOf(s: Settings): (r: VectorStoreConfig)
    ensures r.embeddingModelDims == if s.llmProvider == "openai" then s.openaiEmbeddingDims else s.ollamaEmbeddingDims
    ensures r.hnsw <==> r.embeddingModelDims <= HNSW_MAX_DIMS
    ensures r.provider == "pgvector" && r.host == s.postgresHost && r.port == s.postgresPort
    ensures r.dbname == s.postgresDb && r.user == s.postgresUser && r.password == s.postgresPassword
    ensures r.collectionName == s.collectionName
  {
    var dims := if s.llmProvider == "openai" then s.openaiEmbeddingDims else s.ollamaEmbeddingDims;
    VectorStoreConfig("pgvector", s.postgresHost, s.postgresPort, s.postgresDb, s.postgresUser,
                      s.postgresPassword, s.collectionName, dims, dims <= HNSW_MAX_DIMS)
  }

  /** `get_mem0_config()`: the embedder and the vector store always agree on the
      dimension, for every provider string, and the index follows that dimension. */
  function Mem0ConfigOf(s: Settings): (r: Mem0Config)
    ensures r.version == "v1.1" && r.historyDbPath == s.historyDbPath
    ensures r.graphStore == GraphStoreConfig("neo4j", s.neo4jUri, s.neo4jUsername, s.neo4jPassword)
    ensures r.embedder.embeddingDims == r.vectorStore.embeddingModelDims
    ensures r.vectorStore.hnsw <==> r.embedder.embeddingDims <= HNSW_MAX_DIMS
    ensures r.llm.provider == "openai" <==> r.embedder.provider == "openai"
    ensures r.llm.provider == "anthropic" ==> r.embedder.provider == "ollama"
    ensures r.llm == LlmConfigOf(s) && r.embedder == EmbedderConfigOf(s) && r.vectorStore == VectorStoreConfigOf(s)
  {
    Mem0Config("v1.1", VectorStoreConfigOf(s),
               GraphStoreConfig("neo4j", s.neo4jUri, s.neo4jUsername, s.neo4jPassword),
               LlmConfigOf(s), EmbedderConfigOf(s), s.historyDbPath)
  }

  /** With nothing set, the server runs on ollama with 4096-dimension embeddings,
      so the vector store is created without an HNSW index; switching only the
      provider to "openai" brings 1536 dimensions and the index back. */
  lemma DefaultIndexing()
    ensures var c := Mem0ConfigOf(DEFAULTS);
      c.llm.provider == "ollama" && c.embedder.embeddingDims == 4096 && !c.vectorStore.hnsw
    ensures var c := Mem0ConfigOf(DEFAULTS.(llmProvider := "openai"));
      c.llm.provider == "openai" && c.embedder.embeddingDims == 1536 && c.vectorStore.hnsw
  {
  }
}
