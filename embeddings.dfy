/** The embedding service: which provider and models it is configured with, the one-time
    configuration of the Gemini client, the dispatch of embedding requests to the
    configured provider, and the top-k ranking of similarity scores. The environment is a
    map from variable names to values. The embeddings themselves come from foreign models,
    so an embedding is represented by the request that produced it. */
module Embeddings {
  import opened Wrappers
  import opened PyStr

  const DefaultStModel: string := "sentence-transformers/all-MiniLM-L6-v2"
  const DefaultGeminiModel: string := "models/text-embedding-004"
  const SupportedProviders: set<string> := {"sentence-transformers", "gemini"}

  /** The process environment as the service reads it. */
  type Environment = map<string, string>

  /** `os.getenv(name)`. */
  function Getenv(env: Environment, name: string): (r: Option<string>)
    ensures r.Some? <==> name in env
    ensures r.Some? ==> r.value == env[name]
  {
    if name in env then Some(env[name]) else None
  }

  /** Python truthiness of an optional string: `None` and `""` are the only falsy values. */
  predicate Truthy(s: Option<string>)
    ensures Truthy(s) <==> s != None && s != Some("")
  {
    s.Some? && s.value != ""
  }

  /** Python's `a or b` where `b` is a string: the first truthy operand, else `b`;
      so the result is falsy only when both operands are. */
  function OrElse(a: Option<string>, b: string): (r: string)
    ensures Truthy(a) ==> r == a.value
    ensures !Truthy(a) ==> r == b
    ensures r == "" <==> !Truthy(a) && b == ""
  {
    if Truthy(a) then a.value else b
  }

  // ---------------------------------------------------------------------------
  // Configuration
  // ---------------------------------------------------------------------------

  /** `provider or env_provider or "sentence-transformers"`, lower-cased. */
  function ResolvedProvider(provider: Option<string>, env: Environment): (r: string)
    ensures IsLower(r)
    ensures Truthy(provider) ==> r == Lower(provider.value)
    ensures !Truthy(provider) && Truthy(Getenv(env, "EMBEDDING_PROVIDER")) ==> r == Lower(env["EMBEDDING_PROVIDER"])
    ensures !Truthy(provider) && !Truthy(Getenv(env, "EMBEDDING_PROVIDER")) ==> r == "sentence-transformers"
  {
    LowerOfLower("sentence-transformers");
    Lower(OrElse(provider, OrElse(Getenv(env, "EMBEDDING_PROVIDER"), "sentence-transformers")))
  }

  /** Python's `<` on strings: code point by code point, a proper prefix first. */
  predicate StringLess(a: string, b: string)
    decreases |a|
    ensures a < b ==> StringLess(a, b)
    ensures b <= a ==> !StringLess(a, b)
  {
    if a == [] then b != []
    else b != [] && (a[0] < b[0] || (a[0] == b[0] && StringLess(a[1..], b[1..])))
  }

  /** `sorted(SUPPORTED_PROVIDERS)`: every supported provider once, in ascending order. */
  function SortedProviders(): (r: seq<string>)
    ensures forall p :: p in r <==> p in SupportedProviders
    ensures |r| == |SupportedProviders|
    ensures forall i :: 0 < i < |r| ==> StringLess(r[i - 1], r[i])
  {
    var r := ["gemini", "sentence-transformers"];
    assert StringLess(r[0], r[1]);
    r
  }

  /** The total length of the strings in `xs`. */
  function TotalLength(xs: seq<string>): nat
  {
    if |xs| == 0 then 0 else |xs[0]| + TotalLength(xs[1..])
  }

  /** `sep.join(xs)`: the parts in order, one separator between neighbours, so
      the first part is a prefix and the length is the parts' plus `n - 1` separators. */
  function Join(sep: string, xs: seq<string>): (r: string)
    ensures |xs| == 0 ==> r == ""
    ensures |xs| > 0 ==> |r| == TotalLength(xs) + |sep| * (|xs| - 1)
    ensures |xs| > 0 ==> r[..|xs[0]|] == xs[0]
  {
    if |xs| == 0 then "" else if |xs| == 1 then xs[0] else xs[0] + sep + Join(sep, xs[1..])
  }

  /** The three parts of a concatenation are its slices. */
  lemma ConcatParts(a: string, b: string, c: string)
    ensures |a + b + c| == |a| + |b| + |c|
    ensures (a + b + c)[..|a|] == a
    ensures (a + b + c)[|a|..|a| + |b|] == b
    ensures (a + b + c)[|a| + |b|..] == c
  {
    var s := a + b + c;
    assert s[..|a|] == a;
    assert s[|a|..|a| + |b|] == b;
    assert s[|a| + |b|..] == c;
  }

  const UnsupportedPrefix: string := "Unsupported embedding provider '"
  const SupportedListPrefix: string := "'. Supported providers: "

  /** The message of the ValueError raised for an unsupported provider: it quotes the
      provider and ends with the supported providers, sorted and joined by ", ". */
  function UnsupportedProviderMessage(provider: string): (m: string)
    ensures |m| >= |UnsupportedPrefix| + |provider|
    ensures m[..|UnsupportedPrefix|] == UnsupportedPrefix
    ensures m[|UnsupportedPrefix|..|UnsupportedPrefix| + |provider|] == provider
    ensures m[|UnsupportedPrefix| + |provider|..] == SupportedListPrefix + Join(", ", SortedProviders())
    ensures Join(", ", SortedProviders()) == "gemini, sentence-transformers"
  {
    var sorted := SortedProviders();
    assert sorted[1..] == ["sentence-transformers"];
    var list := Join(", ", sorted);
    assert list == sorted[0] + ", " + Join(", ", sorted[1..]);
    ConcatParts(UnsupportedPrefix, provider, SupportedListPrefix + list);
    UnsupportedPrefix + provider + (SupportedListPrefix + list)
  }

  /** The settings `__init__` stores. */
  datatype Config = Config(provider: string, modelName: string, geminiModel: string)

  /** The settings `__init__` resolves, or the ValueError it raises. */
  function ResolveConfig(modelName: Option<string>, provider: Option<string>, env: Environment): (r: Result<Config>)
    ensures r.Ok? <==> ResolvedProvider(provider, env) in SupportedProviders
    ensures r.Err? ==> r.error == ValueError(UnsupportedProviderMessage(ResolvedProvider(provider, env)))
    ensures r.Ok? ==> r.value.provider == ResolvedProvider(provider, env) && r.value.provider in SupportedProviders
    ensures r.Ok? ==> r.value.modelName == (if Truthy(modelName) then modelName.value else DefaultStModel)
    ensures r.Ok? ==> r.value.geminiModel == (if "GEMINI_EMBEDDING_MODEL" in env then env["GEMINI_EMBEDDING_MODEL"] else DefaultGeminiModel)
  {
    var p := ResolvedProvider(provider, env);
    if p !in SupportedProviders then Err(ValueError(UnsupportedProviderMessage(p)))
    else
      var gm := Getenv(env, "GEMINI_EMBEDDING_MODEL");
      Ok(Config(p, OrElse(modelName, DefaultStModel), if gm.Some? then gm.value else DefaultGeminiModel))
  }

  /** Python's `or` treats an empty provider argument as no argument. */
  lemma EmptyProviderIsAbsent(env: Environment)
    ensures ResolvedProvider(Some(""), env) == ResolvedProvider(None, env)
  {
  }

  /** A resolved provider is final: passing it back in explicitly, under any
      environment, resolves to itself. */
  lemma ResolvedProviderIsFixed(provider: Option<string>, env: Environment, env': Environment)
    ensures ResolvedProvider(Some(ResolvedProvider(provider, env)), env') == ResolvedProvider(provider, env)
  {
    var p := ResolvedProvider(provider, env);
    assert p != "" by {
      if Truthy(provider) {
        assert |p| == |provider.value|;
      } else if Truthy(Getenv(env, "EMBEDDING_PROVIDER")) {
        assert |p| == |env["EMBEDDING_PROVIDER"]|;
      }
    }
    LowerOfLower(p);
  }

  /** With neither an explicit provider nor EMBEDDING_PROVIDER, the service uses
      sentence-transformers with the default model unless one is given. */
  lemma DefaultConfiguration(modelName: Option<string>, env: Environment)
    requires "EMBEDDING_PROVIDER" !in env || env["EMBEDDING_PROVIDER"] == ""
    ensures ResolveConfig(modelName, None, env).Ok?
    ensures ResolveConfig(modelName, None, env).value.provider == "sentence-transformers"
    ensures !Truthy(modelName) ==> ResolveConfig(modelName, None, env).value.modelName == DefaultStModel
  {
  }

  // ---------------------------------------------------------------------------
  // The Gemini client
  // ---------------------------------------------------------------------------

  /** The Gemini module once `genai.configure(api_key=...)` has been called. */
  datatype GeminiClient = GeminiClient(apiKey: string)

  const MissingApiKeyMessage: string :=
    "GOOGLE_API_KEY environment variable is required when using the Gemini embedding provider."
  const GeminiNotInstalledMessage: string :=
    "google-generativeai not installed. Install with: pip install google-generativeai"

  /** What a first configuration of Gemini yields: a missing or empty GOOGLE_API_KEY is
      checked before the import, and a configured client carries that key. */
  function GeminiSetup(env: Environment, geminiInstalled: bool): (r: Result<GeminiClient>)
    ensures !Truthy(Getenv(env, "GOOGLE_API_KEY")) ==> r == Err(ValueError(MissingApiKeyMessage))
    ensures Truthy(Getenv(env, "GOOGLE_API_KEY")) && !geminiInstalled ==> r == Err(ImportError(GeminiNotInstalledMessage))
    ensures r.Ok? <==> Truthy(Getenv(env, "GOOGLE_API_KEY")) && geminiInstalled
    ensures r.Ok? ==> r.value.apiKey == env["GOOGLE_API_KEY"] && r.value.apiKey != ""
  {
    var apiKey := Getenv(env, "GOOGLE_API_KEY");
    if !Truthy(apiKey) then Err(ValueError(MissingApiKeyMessage))
    else if !geminiInstalled then Err(ImportError(GeminiNotInstalledMessage))
    else Ok(GeminiClient(apiKey.value))
  }

  // ---------------------------------------------------------------------------
  // Embeddings
  // ---------------------------------------------------------------------------

  datatype Backend = SentenceTransformers | Gemini

  /** The embedding `backend` returns for `text` with model `model`. */
  datatype Embedding = Embedding(backend: Backend, model: string, text: string)

  /** Only the provider "gemini" is served by Gemini; every other provider is served by
      sentence-transformers. */
  function BackendFor(provider: string): (b: Backend)
    ensures b == Gemini <==> provider == "gemini"
  {
    if provider == "gemini" then Gemini else SentenceTransformers
  }

  /** The model a backend is asked for: Gemini gets `gemini_model`, sentence-transformers
      gets `model_name`. */
  function ModelFor(b: Backend, modelName: string, geminiModel: string): (r: string)
    ensures b == Gemini ==> r == geminiModel
    ensures b == SentenceTransformers ==> r == modelName
  {
    if b == Gemini then geminiModel else modelName
  }

  class EmbeddingService {
    var provider: string
    var modelName: string
    var geminiModel: string
    var geminiModule: Option<GeminiClient>
    var geminiConfigured: bool

    /** The provider is supported, and the Gemini module is set exactly when the
        configuration flag is. */
    ghost predicate Valid()
      reads this
    {
      && provider in SupportedProviders
      && (geminiConfigured <==> geminiModule.Some?)
    }

    /** Stores resolved settings; nothing is configured or loaded yet. */
    constructor FromConfig(config: Config)
      requires config.provider in SupportedProviders
      ensures Valid()
      ensures provider == config.provider && modelName == config.modelName && geminiModel == config.geminiModel
      ensures geminiModule == None && !geminiConfigured
    {
      provider := config.provider;
      modelName := config.modelName;
      geminiModel := config.geminiModel;
      geminiModule := None;
      geminiConfigured := false;
    }

    /** `EmbeddingService(model_name, provider)`: a new service with the resolved
        settings, or the ValueError for an unsupported provider. */
    static method Create(modelName: Option<string>, provider: Option<string>, env: Environment)
      returns (r: Result<EmbeddingService>)
      ensures r.Err? <==> ResolveConfig(modelName, provider, env).Err?
      ensures r.Err? ==> r.error == ResolveConfig(modelName, provider, env).error
      ensures r.Ok? ==> fresh(r.value) && r.value.Valid() && !r.value.geminiConfigured
      ensures r.Ok? ==> Config(r.value.provider, r.value.modelName, r.value.geminiModel)
                        == ResolveConfig(modelName, provider, env).value
    {
      var config := ResolveConfig(modelName, provider, env);
      if config.Err? {
        return Err(config.error);
      }
      var service := new EmbeddingService.FromConfig(config.value);
      return Ok(service);
    }

    /** `_configure_gemini`: does nothing once configured; otherwise configures the
        client from GOOGLE_API_KEY and sets the flag, or raises and leaves the service
        as it was. */
    method ConfigureGemini(env: Environment, geminiInstalled: bool) returns (r: Outcome)
      requires Valid()
      modifies this
      ensures Valid()
      ensures old(geminiConfigured) ==> r == Pass && unchanged(this)
      ensures !old(geminiConfigured) && GeminiSetup(env, geminiInstalled).Err? ==>
                r == Fail(GeminiSetup(env, geminiInstalled).error) && unchanged(this)
      ensures !old(geminiConfigured) && GeminiSetup(env, geminiInstalled).Ok? ==>
                && r == Pass && geminiConfigured
                && geminiModule == Some(GeminiSetup(env, geminiInstalled).value)
                && provider == old(provider) && modelName == old(modelName) && geminiModel == old(geminiModel)
    {
      if geminiConfigured {
        return Pass;
      }
      var setup := GeminiSetup(env, geminiInstalled);
      if setup.Err? {
        return Fail(setup.error);
      }
      geminiModule := Some(setup.value);
      geminiConfigured := true;
      return Pass;
    }

    /** `embed_text`: Gemini for the provider "gemini" (configuring it first), otherwise
        sentence-transformers. */
    method EmbedText(text: string, env: Environment, geminiInstalled: bool) returns (r: Result<Embedding>)
      requires Valid()
      modifies this
      ensures Valid()
      ensures provider == old(provider) && modelName == old(modelName) && geminiModel == old(geminiModel)
      ensures BackendFor(provider) == SentenceTransformers ==>
                unchanged(this) && r == Ok(Embedding(SentenceTransformers, modelName, text))
      ensures BackendFor(provider) == Gemini && old(geminiConfigured) ==>
                unchanged(this) && r == Ok(Embedding(Gemini, geminiModel, text))
      ensures BackendFor(provider) == Gemini && !old(geminiConfigured) ==>
                r == (match GeminiSetup(env, geminiInstalled)
                        case Err(e) => Err(e)
                        case Ok(_) => Ok(Embedding(Gemini, geminiModel, text)))
      ensures BackendFor(provider) == Gemini && !old(geminiConfigured) ==>
                if GeminiSetup(env, geminiInstalled).Ok? then
                  geminiConfigured && geminiModule == Some(GeminiSetup(env, geminiInstalled).value)
                else unchanged(this)
      ensures r.Ok? ==> r.value == Embedding(BackendFor(provider), ModelFor(BackendFor(provider), modelName, geminiModel), text)
      ensures r.Ok? && BackendFor(provider) == Gemini ==> geminiConfigured && geminiModule.Some?
    {
      if provider == "gemini" {
        var configured := ConfigureGemini(env, geminiInstalled);
        if configured.Fail? {
          return Err(configured.error);
        }
        return Ok(Embedding(Gemini, geminiModel, text));
      }
      return Ok(Embedding(SentenceTransformers, modelName, text));
    }

    /** `embed_batch`: an empty batch yields no embeddings and consults no provider;
        otherwise one embedding per text, in order, from the configured provider. */
    method EmbedBatch(texts: seq<string>, env: Environment, geminiInstalled: bool) returns (r: Result<seq<Embedding>>)
      requires Valid()
      modifies this
      ensures Valid()
      ensures provider == old(provider) && modelName == old(modelName) && geminiModel == old(geminiModel)
      ensures |texts| == 0 ==> r == Ok([]) && unchanged(this)
      ensures BackendFor(provider) == SentenceTransformers ==> unchanged(this) && r.Ok?
      ensures BackendFor(provider) == Gemini && |texts| > 0 && !old(geminiConfigured) ==>
                (r.Err? <==> GeminiSetup(env, geminiInstalled).Err?)
      ensures BackendFor(provider) == Gemini && |texts| > 0 && !old(geminiConfigured) && r.Err? ==>
                r.error == GeminiSetup(env, geminiInstalled).error
      ensures BackendFor(provider) == Gemini && |texts| > 0 && !old(geminiConfigured) ==>
                if GeminiSetup(env, geminiInstalled).Ok? then
                  geminiConfigured && geminiModule == Some(GeminiSetup(env, geminiInstalled).value)
                else unchanged(this)
      ensures BackendFor(provider) == Gemini && old(geminiConfigured) ==> unchanged(this) && r.Ok?
      ensures r.Ok? ==> |r.value| == |texts|
      ensures r.Ok? && |texts| > 0 && BackendFor(provider) == Gemini ==> geminiConfigured && geminiModule.Some?
      ensures r.Ok? ==> forall i :: 0 <= i < |texts| ==>
                r.value[i] == Embedding(BackendFor(provider), ModelFor(BackendFor(provider), modelName, geminiModel), texts[i])
    {
      if |texts| == 0 {
        return Ok([]);
      }
      if provider == "gemini" {
        var configured := ConfigureGemini(env, geminiInstalled);
        if configured.Fail? {
          return Err(configured.error);
        }
        var embeddings: seq<Embedding> := [];
        for i := 0 to |texts|
          invariant |embeddings| == i
          invariant forall j :: 0 <= j < i ==> embeddings[j] == Embedding(Gemini, geminiModel, texts[j])
        {
          embeddings := embeddings + [Embedding(Gemini, geminiModel, texts[i])];
        }
        return Ok(embeddings);
      }
      var model := modelName;
      return Ok(seq(|texts|, i requires 0 <= i < |texts| => Embedding(SentenceTransformers, model, texts[i])));
    }
  }

  // ---------------------------------------------------------------------------
  // Top-k selection
  // ---------------------------------------------------------------------------

  /** One `(index, similarity_score)` pair. */
  datatype Match = Match(index: nat, score: int)

  predicate Distinct(xs: seq<nat>)
  {
    forall j, l :: 0 <= j < l < |xs| ==> xs[j] != xs[l]
  }

  /** `xs` lists indices of `scores` from the highest score to the lowest. */
  predicate ByScoreDescending(scores: seq<int>, xs: seq<nat>)
  {
    && (forall j :: 0 <= j < |xs| ==> xs[j] < |scores|)
    && (forall j, l :: 0 <= j < l < |xs| ==> scores[xs[j]] >= scores[xs[l]])
  }

  /** Inserts index `i` into a ranking, ahead of the first index that does not score
      higher than `i`. */
  function InsertByScore(scores: seq<int>, i: nat, xs: seq<nat>): (r: seq<nat>)
    requires i < |scores| && forall j :: 0 <= j < |xs| ==> xs[j] < |scores|
    ensures |r| == |xs| + 1
    ensures forall x :: x in r <==> x == i || x in xs
  {
    if xs == [] || scores[i] >= scores[xs[0]] then [i] + xs
    else
      assert forall x :: x in xs <==> x == xs[0] || x in xs[1..];
      [xs[0]] + InsertByScore(scores, i, xs[1..])
  }

  /** Putting an index in front of a descending ranking keeps it descending when that
      index scores at least as high as every ranked index. */
  lemma ConsDescending(scores: seq<int>, x: nat, xs: seq<nat>)
    requires x < |scores| && ByScoreDescending(scores, xs)
    requires forall l :: 0 <= l < |xs| ==> scores[x] >= scores[xs[l]]
    ensures ByScoreDescending(scores, [x] + xs)
  {
    var r := [x] + xs;
    assert forall j :: 0 < j < |r| ==> r[j] == xs[j - 1];
  }

  /** Putting an index in front of distinct indices keeps them distinct when that index
      is new. */
  lemma ConsDistinct(x: nat, xs: seq<nat>)
    requires Distinct(xs) && x !in xs
    ensures Distinct([x] + xs)
  {
    var r := [x] + xs;
    assert forall j :: 0 < j < |r| ==> r[j] == xs[j - 1];
  }

  /** Inserting keeps a descending ranking descending. */
  lemma {:induction false} InsertByScoreDescending(scores: seq<int>, i: nat, xs: seq<nat>)
    requires i < |scores| && ByScoreDescending(scores, xs)
    ensures ByScoreDescending(scores, InsertByScore(scores, i, xs))
  {
    if xs == [] || scores[i] >= scores[xs[0]] {
      ConsDescending(scores, i, xs);
    } else {
      var tail := xs[1..];
      InsertByScoreDescending(scores, i, tail);
      var rest := InsertByScore(scores, i, tail);
      forall l | 0 <= l < |rest|
        ensures scores[xs[0]] >= scores[rest[l]]
      {
        assert rest[l] in rest;
        if rest[l] != i {
          var p :| 0 <= p < |tail| && tail[p] == rest[l];
          assert xs[p + 1] == rest[l];
        }
      }
      ConsDescending(scores, xs[0], rest);
    }
  }

  /** Inserting an index that is not yet ranked keeps the indices distinct. */
  lemma {:induction false} InsertByScoreDistinct(scores: seq<int>, i: nat, xs: seq<nat>)
    requires i < |scores| && forall j :: 0 <= j < |xs| ==> xs[j] < |scores|
    requires i !in xs && Distinct(xs)
    ensures Distinct(InsertByScore(scores, i, xs))
  {
    if xs == [] || scores[i] >= scores[xs[0]] {
      ConsDistinct(i, xs);
    } else {
      var tail := xs[1..];
      assert forall x :: x in xs <==> x == xs[0] || x in tail;
      InsertByScoreDistinct(scores, i, tail);
      var rest := InsertByScore(scores, i, tail);
      assert xs[0] !in tail;
      ConsDistinct(xs[0], rest);
    }
  }

  /** The indices `0..n-1` ranked from the highest score to the lowest:
      `argsort(similarities)[::-1]`, whose order among equal scores is not specified. */
  function Ranking(scores: seq<int>, n: nat): (r: seq<nat>)
    requires n <= |scores|
    ensures |r| == n
    ensures forall x :: x in r <==> 0 <= x < n
  {
    if n == 0 then [] else
      var rest := Ranking(scores, n - 1);
      assert forall j :: 0 <= j < |rest| ==> rest[j] in rest;
      InsertByScore(scores, n - 1, rest)
  }

  /** The ranking holds every index exactly once, from the highest score to the lowest. */
  lemma {:induction false} RankingIsPermutationByScore(scores: seq<int>, n: nat)
    requires n <= |scores|
    ensures ByScoreDescending(scores, Ranking(scores, n))
    ensures Distinct(Ranking(scores, n))
  {
    if n > 0 {
      RankingIsPermutationByScore(scores, n - 1);
      InsertByScoreDescending(scores, n - 1, Ranking(scores, n - 1));
      InsertByScoreDistinct(scores, n - 1, Ranking(scores, n - 1));
    }
  }

  /** The indices of a list of pairs. */
  function Indices(r: seq<Match>): (xs: seq<nat>)
    ensures |xs| == |r| && forall j :: 0 <= j < |r| ==> xs[j] == r[j].index
  {
    seq(|r|, j requires 0 <= j < |r| => r[j].index)
  }

  /** `r` is a top-k answer for `scores`: `min(k, n)` pairs of distinct indices with their
      scores, from the highest score down, and no index left out scores higher than one
      that was returned. Among equal scores any choice and any order is a top-k answer. */
  ghost predicate IsTopK(scores: seq<int>, k: nat, r: seq<Match>)
  {
    && |r| == (if k < |scores| then k else |scores|)
    && (forall j :: 0 <= j < |r| ==> r[j].index < |scores| && r[j].score == scores[r[j].index])
    && Distinct(Indices(r))
    && (forall j, l :: 0 <= j < l < |r| ==> r[j].score >= r[l].score)
    && (forall i :: 0 <= i < |scores| && i !in Indices(r) ==> forall j :: 0 <= j < |r| ==> scores[i] <= r[j].score)
  }

  /** An index outside the first `m` places of a descending ranking of all indices scores
      no higher than any index inside them. */
  lemma PrefixOfRankingDominates(scores: seq<int>, ranked: seq<nat>, m: nat)
    requires m <= |ranked| && ByScoreDescending(scores, ranked)
    requires forall x :: x in ranked <==> 0 <= x < |scores|
    ensures forall i :: 0 <= i < |scores| && i !in ranked[..m] ==>
              forall j :: 0 <= j < m ==> scores[i] <= scores[ranked[j]]
  {
    forall i, j | 0 <= i < |scores| && i !in ranked[..m] && 0 <= j < m
      ensures scores[i] <= scores[ranked[j]]
    {
      assert i in ranked;
      var p :| 0 <= p < |ranked| && ranked[p] == i;
      assert forall q :: 0 <= q < m ==> ranked[q] in ranked[..m];
    }
  }

  /** The ranking and slicing of `find_most_similar`, given the similarity of each
      embedding to the query. */
  function FindMostSimilar(similarities: seq<int>, topK: nat := 5): (r: seq<Match>)
    ensures IsTopK(similarities, topK, r)
  {
    var ranked := Ranking(similarities, |similarities|);
    RankingIsPermutationByScore(similarities, |similarities|);
    var m := if topK < |ranked| then topK else |ranked|;
    PrefixOfRankingDominates(similarities, ranked, m);
    var r := seq(m, j requires 0 <= j < m => Match(ranked[j], similarities[ranked[j]]));
    assert Indices(r) == ranked[..m];
    r
  }

  /** Without `top_k`, at most five pairs come back: `min(5, n)` of them. */
  lemma DefaultTopK(similarities: seq<int>)
    ensures |FindMostSimilar(similarities)| == if |similarities| < 5 then |similarities| else 5
    ensures IsTopK(similarities, 5, FindMostSimilar(similarities))
  {
  }

  /** The elements of a sequence. */
  function Elements(xs: seq<nat>): (r: set<nat>)
  {
    set x | x in xs
  }

  lemma {:induction false} ElementsCard(xs: seq<nat>)
    ensures |Elements(xs)| <= |xs|
    ensures Distinct(xs) ==> |Elements(xs)| == |xs|
  {
    if xs != [] {
      ElementsCard(xs[1..]);
      assert Elements(xs) == {xs[0]} + Elements(xs[1..]);
      if Distinct(xs) {
        assert xs[0] !in Elements(xs[1..]);
      }
    }
  }

  lemma SubsetCard(s: set<nat>, t: set<nat>)
    requires s <= t
    ensures |s| <= |t|
  {
    assert t == s + (t - s);
  }

  /** No top-k answer has a higher score than another at the same place: its first
      `j + 1` indices would all have to be among the other's first `j`. */
  lemma ScoreNotAbove(scores: seq<int>, k: nat, r1: seq<Match>, r2: seq<Match>, j: nat)
    requires IsTopK(scores, k, r1) && IsTopK(scores, k, r2) && j < |r1|
    ensures r1[j].score <= r2[j].score
  {
    if r1[j].score > r2[j].score {
      var a := Indices(r1)[..j + 1];
      var b := Indices(r2)[..j];
      forall x | x in Elements(a)
        ensures x in Elements(b)
      {
        var l :| 0 <= l <= j && a[l] == x;
        assert scores[x] >= r1[j].score;
        assert x in Indices(r2);
        var p :| 0 <= p < |r2| && Indices(r2)[p] == x;
        assert p < j;
        assert b[p] == x;
      }
      assert Distinct(a);
      ElementsCard(a);
      ElementsCard(b);
      SubsetCard(Elements(a), Elements(b));
      assert false;
    }
  }

  /** The answer is determined up to ties: any two top-k answers list the same scores
      in the same order. */
  lemma TopKScoresDetermined(scores: seq<int>, k: nat, r1: seq<Match>, r2: seq<Match>)
    requires IsTopK(scores, k, r1) && IsTopK(scores, k, r2)
    ensures |r1| == |r2|
    ensures forall j :: 0 <= j < |r1| ==> r1[j].score == r2[j].score
  {
    forall j | 0 <= j < |r1|
      ensures r1[j].score == r2[j].score
    {
      ScoreNotAbove(scores, k, r1, r2, j);
      ScoreNotAbove(scores, k, r2, r1, j);
    }
  }
}
