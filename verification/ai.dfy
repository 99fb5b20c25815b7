/** The rewriting service (`src/services/ai.ts`): a closed four-way dispatch on the configured
    provider, a credential check before any request, the prompt with its target word count,
    and the per-provider acceptance of the model's answer. The model call itself is an abstract
    reply. */
module Ai {
  import opened Wrappers
  import opened Text

  datatype Provider = Gemini | OpenAI | Perplexity | OpenRouter

  /** The environment variables the service reads; an unset variable is the empty string
      (the source treats `undefined` and `''` alike: both are falsy). */
  datatype AiEnv = AiEnv(
    provider: string,
    googleKey: string, geminiModel: string,
    openaiKey: string, openaiModel: string,
    perplexityKey: string, perplexityModel: string,
    openrouterKey: string, openrouterModel: string)

  const DefaultProvider := "gemini"

  function ProviderName(p: Provider): string
  {
    match p
    case Gemini => "gemini"
    case OpenAI => "openai"
    case Perplexity => "perplexity"
    case OpenRouter => "openrouter"
  }

  /** The closed set of provider names; anything else is unsupported. */
  function ParseProvider(name: string): (r: Option<Provider>)
    ensures r.Some? ==> ProviderName(r.value) == name
  {
    if name == "gemini" then Some(Gemini)
    else if name == "openai" then Some(OpenAI)
    else if name == "perplexity" then Some(Perplexity)
    else if name == "openrouter" then Some(OpenRouter)
    else None
  }

  /** Every provider is reachable by its own name, and only by it. */
  lemma ProviderNameRoundTrip(p: Provider, name: string)
    ensures ParseProvider(ProviderName(p)) == Some(p)
    ensures ParseProvider(name) == Some(p) <==> name == ProviderName(p)
  {
  }

  /** `VITE_AI_PROVIDER || 'gemini'`. */
  function SelectedProviderName(env: AiEnv): (r: string)
    ensures r != ""
    ensures env.provider != "" ==> r == env.provider
    ensures env.provider == "" ==> r == DefaultProvider
  {
    if env.provider != "" then env.provider else DefaultProvider
  }

  function ApiKey(env: AiEnv, p: Provider): string
  {
    match p
    case Gemini => env.googleKey
    case OpenAI => env.openaiKey
    case Perplexity => env.perplexityKey
    case OpenRouter => env.openrouterKey
  }

  function DefaultModel(p: Provider): string
  {
    match p
    case Gemini => "gemini-2.0-flash-exp"
    case OpenAI => "gpt-4o-mini"
    case Perplexity => "llama-3.1-sonar-small-128k-online"
    case OpenRouter => "anthropic/claude-3.5-sonnet"
  }

  /** The `VITE_*_MODEL` variable of a provider; empty when unset. */
  function ConfiguredModel(env: AiEnv, p: Provider): string
  {
    match p
    case Gemini => env.geminiModel
    case OpenAI => env.openaiModel
    case Perplexity => env.perplexityModel
    case OpenRouter => env.openrouterModel
  }

  /** The configured model, or the provider's default when unset. */
  function ModelName(env: AiEnv, p: Provider): (r: string)
    ensures r != ""
    ensures ConfiguredModel(env, p) != "" ==> r == ConfiguredModel(env, p)
    ensures ConfiguredModel(env, p) == "" ==> r == DefaultModel(p)
  {
    if ConfiguredModel(env, p) != "" then ConfiguredModel(env, p) else DefaultModel(p)
  }

  // ---------------------------------------------------------------- prompt

  /** Spoken rate assumed by the prompt: 2.5 words per second, i.e. 5 words per 2 seconds. */
  const WordsPerTwoSeconds := 5

  /** `Math.floor(targetLength * 2.5)` for an integer target length in seconds. */
  function TargetWords(targetLength: int): (w: int)
    ensures w as real <= targetLength as real * 2.5 < w as real + 1.0
  {
    (WordsPerTwoSeconds * targetLength) / 2
  }

  /** The word targets for the six durations the length slider offers (30 to 180 seconds, in
      steps of 30). */
  lemma SliderWordTargets()
    ensures TargetWords(30) == 75 && TargetWords(60) == 150 && TargetWords(90) == 225
    ensures TargetWords(120) == 300 && TargetWords(150) == 375 && TargetWords(180) == 450
  {
  }

  const PromptHead := "\nReescreva esta notícia para rádio-jornalismo brasileiro com "
  const PromptRules := " palavras.\n\nREGRAS:\n- Exatamente "
  const PromptBody :=
    " palavras (conte internamente, não mencione no texto)\n"
    + "- Estilo direto de rádio-jornalismo\n"
    + "- Números por extenso: \"1\" = \"um\", \"2025\" = \"dois mil e vinte e cinco\"\n"
    + "- Datas por extenso: \"01/08\" = \"primeiro de agosto\"\n"
    + "- Abreviações por extenso: \"Dr.\" = \"Doutor\"\n"
    + "- Sem referências a outros meios de comunicação\n"
    + "- Linguagem clara para síntese de voz\n"
    + "- Comece direto com a notícia\n\n"
    + "PROIBIDO:\n"
    + "- Mencionar contagem de palavras\n"
    + "- Incluir confirmações ou comentários técnicos\n"
    + "- Adicionar introduções ou despedidas\n"
    + "- Comentar sobre o processo de reescrita\n\n"
    + "TEXTO ORIGINAL:\n"
  const PromptTail := "\n\nRESPOSTA (apenas a notícia reescrita):\n"

  /** `createPrompt`: the fixed instructions with the target word count written twice and the
      original text appended verbatim. */
  function CreatePrompt(text: string, targetLength: int): (r: string)
    ensures |r| >= |PromptHead| + |text| + |PromptTail|
    ensures r[..|PromptHead|] == PromptHead
    ensures r[|r| - |PromptTail| - |text|..] == text + PromptTail
  {
    var words := IntString(TargetWords(targetLength));
    Framed(PromptHead, words, PromptMiddle(words), text, PromptTail);
    PromptHead + words + PromptMiddle(words) + text + PromptTail
  }

  /** Where the fixed opening and the text with the closing sit in a five-part string. */
  lemma Framed(head: string, words: string, middle: string, text: string, tail: string)
    ensures var p := head + words + middle + text + tail;
      && |p| >= |head| + |text| + |tail|
      && p[..|head|] == head
      && p[|p| - |tail| - |text|..] == text + tail
  {
    var p := head + words + middle + text + tail;
    assert p == head + (words + middle + text + tail);
    assert p == (head + words + middle) + (text + tail);
  }

  /** The instructions between the first statement of the word count and the original text. */
  function PromptMiddle(words: string): string
  {
    PromptRules + words + PromptBody
  }

  /** The original text sits, unchanged, just before the closing instruction. */
  function EmbeddedText(prompt: string): string
  {
    if |prompt| >= |PromptTail| then prompt[..|prompt| - |PromptTail|] else prompt
  }

  /** The digits that follow the opening sentence of a prompt. */
  function EmbeddedCount(prompt: string): string
  {
    var rest := if |prompt| >= |PromptHead| then prompt[|PromptHead|..] else "";
    rest[..DigitRun(rest, 10)]
  }

  /** The prompt carries the original text verbatim, as its last part before the closing
      instruction, and states the target word count in decimal right after its opening words. */
  lemma PromptEmbedsTextAndCount(text: string, targetLength: int)
    requires targetLength >= 0
    ensures var p := CreatePrompt(text, targetLength);
      && EmbeddedText(p)[|EmbeddedText(p)| - |text|..] == text
      && DigitsValue(EmbeddedCount(p)) == TargetWords(targetLength)
  {
    var words := Decimal(TargetWords(targetLength));
    assert IntString(TargetWords(targetLength)) == words;
    var middle := PromptMiddle(words);
    assert PromptRules[0] == ' ';
    assert middle[0] == ' ';
    SplitPrompt(PromptHead, words, middle, text, PromptTail);
    DecimalRoundTrip(TargetWords(targetLength));
  }

  /** The layout argument behind `PromptEmbedsTextAndCount`, for any fixed parts. */
  lemma SplitPrompt(head: string, words: string, middle: string, text: string, tail: string)
    requires head == PromptHead && tail == PromptTail
    requires AllDigits(words) && |middle| > 0 && !IsDigit(middle[0])
    ensures var p := head + words + middle + text + tail;
      && EmbeddedText(p) == head + words + middle + text
      && EmbeddedCount(p) == words
  {
    var p := head + words + middle + text + tail;
    assert p[..|p| - |tail|] == head + words + middle + text;
    var rest := p[|head|..];
    assert rest == words + (middle + text + tail);
    DigitRunOfDigits(words, middle + text + tail);
  }

  /** A run of digits ends where a non-digit begins. */
  lemma {:induction false} DigitRunOfDigits(d: string, rest: string)
    requires AllDigits(d)
    requires |rest| > 0 && !IsDigit(rest[0])
    ensures DigitRun(d + rest, 10) == |d|
    ensures (d + rest)[..|d|] == d
  {
    if |d| > 0 {
      assert (d + rest)[1..] == d[1..] + rest;
      DigitRunOfDigits(d[1..], rest);
    }
  }

  // ---------------------------------------------------------------- requests and replies

  datatype Message = Message(role: string, content: string)

  /** What a processor sends: a model-invocation SDK call (Gemini) or a JSON chat-completion
      POST with bearer authorisation. Temperature is kept in tenths (7 stands for 0.7). */
  datatype Request =
    | SdkRequest(apiKey: string, model: string, prompt: string)
    | ChatRequest(endpoint: string, apiKey: string, model: string, messages: seq<Message>,
                  maxTokens: nat, temperatureTenths: nat, extraHeaders: seq<(string, string)>)

  const MaxTokens := 2000
  const TemperatureTenths := 7

  function ChatEndpoint(p: Provider): string
    requires p != Gemini
  {
    match p
    case OpenAI => "https://api.openai.com/v1/chat/completions"
    case Perplexity => "https://api.perplexity.ai/chat/completions"
    case OpenRouter => "https://openrouter.ai/api/v1/chat/completions"
  }

  /** The request a processor builds once its key is known to be present. OpenRouter adds a
      referer (the page origin, a parameter here) and a title header. */
  function BuildRequest(p: Provider, env: AiEnv, prompt: string, origin: string): Request
  {
    if p == Gemini then SdkRequest(ApiKey(env, p), ModelName(env, p), prompt)
    else
      var headers := if p == OpenRouter then [("HTTP-Referer", origin), ("X-Title", "News Audio Generator")] else [];
      ChatRequest(ChatEndpoint(p), ApiKey(env, p), ModelName(env, p), [Message("user", prompt)],
                  MaxTokens, TemperatureTenths, headers)
  }

  /** What came back: a thrown error (network failure, SDK exception, malformed JSON), or a
      response with its status and, when present, the generated text
      (`response.text()` for Gemini, `choices[0].message.content` for the others). */
  datatype Reply = Threw(detail: string) | Response(ok: bool, status: int, errorBody: string, text: Option<string>)

  datatype AiError =
    | UnsupportedProvider(name: string)
    | KeyNotConfigured(provider: Provider)
    | ApiError(provider: Provider, status: int, detail: string)
    | CallFailed(provider: Provider, detail: string)
    | EmptyResponse(provider: Provider)

  /** The error text each failure carries. */
  function ErrorMessage(e: AiError): string
  {
    match e
    case UnsupportedProvider(name) => "Provedor de IA não suportado: " + name
    case KeyNotConfigured(p) =>
      (match p
       case Gemini => "Google Gemini AI API key not configured"
       case OpenAI => "OpenAI API key not configured"
       case Perplexity => "Perplexity API key not configured"
       case OpenRouter => "OpenRouter API key not configured")
    case ApiError(p, status, detail) =>
      (match p
       case Gemini => "Gemini"
       case OpenAI => "OpenAI"
       case Perplexity => "Perplexity"
       case OpenRouter => "OpenRouter") + " API error: " + IntString(status) + " - " + detail
    case CallFailed(_, detail) => detail
    case EmptyResponse(p) =>
      (match p
       case Gemini => "Empty response from Gemini AI"
       case OpenAI => "Empty response from OpenAI"
       case Perplexity => "Empty response from Perplexity"
       case OpenRouter => "Empty response from OpenRouter")
  }

  /** Whether a provider's answer is usable: Gemini refuses a missing, empty or blank text;
      the chat providers refuse only a missing or empty one. */
  function AcceptReply(p: Provider, reply: Reply): (r: Result<string, AiError>)
    ensures r.Ok? ==> reply.Response? && reply.ok && reply.text == Some(r.value) && r.value != ""
    ensures r.Ok? && p == Gemini ==> Trim(r.value) != ""
    ensures reply.Response? && !reply.ok && p != Gemini ==> r == Err(ApiError(p, reply.status, reply.errorBody))
    ensures reply.Response? && reply.ok && reply.text.Some? && reply.text.value != "" && p != Gemini ==> r == Ok(reply.text.value)
    ensures reply.Response? && reply.ok && reply.text.Some? && Trim(reply.text.value) != "" ==> r == Ok(reply.text.value)
  {
    match reply
    case Threw(detail) => Err(CallFailed(p, detail))
    case Response(ok, status, errorBody, text) =>
      if !ok then
        if p == Gemini then Err(CallFailed(p, errorBody)) else Err(ApiError(p, status, errorBody))
      else if text.None? || text.value == "" then Err(EmptyResponse(p))
      else if p == Gemini && Trim(text.value) == "" then Err(EmptyResponse(p))
      else Ok(text.value)
  }

  /** Blank text separates the providers: Gemini refuses it, the chat providers pass it on. */
  lemma BlankReplyAcceptance(p: Provider, blank: string)
    requires blank != "" && AllSpace(blank)
    ensures p == Gemini ==> AcceptReply(p, Response(true, 200, "", Some(blank))) == Err(EmptyResponse(p))
    ensures p != Gemini ==> AcceptReply(p, Response(true, 200, "", Some(blank))) == Ok(blank)
  {
    TrimEmptyIffBlank(blank);
  }

  /** One call of the rewriting service: the error or the rewritten text, and the single
      request sent, if any. */
  datatype Run = Run(result: Result<string, AiError>, request: Option<Request>)

  /** `processWithGemini` / `processWithOpenAI` / `processWithPerplexity` /
      `processWithOpenRouter`: refuse before any request when the key is unset, otherwise
      send one request and judge the reply. */
  function Process(p: Provider, env: AiEnv, text: string, targetLength: int, origin: string, reply: Reply): (run: Run)
    ensures ApiKey(env, p) == "" <==> run.request.None?
    ensures ApiKey(env, p) == "" ==> run.result == Err(KeyNotConfigured(p))
  {
    Run(ProcessResult(p, env, reply), ProcessRequest(p, env, text, targetLength, origin))
  }

  /** The verdict of one provider: the key check, then the judgement of the reply. */
  function ProcessResult(p: Provider, env: AiEnv, reply: Reply): Result<string, AiError>
  {
    if ApiKey(env, p) == "" then Err(KeyNotConfigured(p)) else AcceptReply(p, reply)
  }

  /** The request one provider sends: none without a key. */
  function ProcessRequest(p: Provider, env: AiEnv, text: string, targetLength: int, origin: string): Option<Request>
  {
    if ApiKey(env, p) == "" then None else Some(BuildRequest(p, env, CreatePrompt(text, targetLength), origin))
  }

  /** `rewriteNewsArticle`: dispatch on the configured provider name. */
  function RewriteNewsArticle(env: AiEnv, text: string, targetLength: int, origin: string, reply: Reply): (run: Run)
    ensures ParseProvider(SelectedProviderName(env)).None? ==>
      run == Run(Err(UnsupportedProvider(SelectedProviderName(env))), None)
    ensures run.result == RewriteResult(env, reply)
  {
    Run(RewriteResult(env, reply), RewriteRequest(env, text, targetLength, origin))
  }

  /** The verdict of the rewriting service; it depends on the configuration and the reply
      only, never on the text sent. */
  function RewriteResult(env: AiEnv, reply: Reply): (r: Result<string, AiError>)
    ensures r.Err? && r.error.KeyNotConfigured? ==> ParseProvider(SelectedProviderName(env)) == Some(r.error.provider) && ApiKey(env, r.error.provider) == ""
    ensures r.Ok? ==> ParseProvider(SelectedProviderName(env)).Some?
  {
    match ParseProvider(SelectedProviderName(env))
    case None => Err(UnsupportedProvider(SelectedProviderName(env)))
    case Some(p) => ProcessResult(p, env, reply)
  }

  function RewriteRequest(env: AiEnv, text: string, targetLength: int, origin: string): Option<Request>
  {
    match ParseProvider(SelectedProviderName(env))
    case None => None
    case Some(p) => ProcessRequest(p, env, text, targetLength, origin)
  }

  /** Dispatch goes to exactly the named provider: an unset name means Gemini; a request, when
      one is sent, is built for that provider from its own key and model with the prompt for
      the text; there is no retry and no second provider. */
  lemma DispatchGoesToSelectedProvider(env: AiEnv, text: string, targetLength: int, origin: string, reply: Reply, p: Provider)
    requires SelectedProviderName(env) == ProviderName(p)
    ensures env.provider == "" ==> p == Gemini
    ensures var run := RewriteNewsArticle(env, text, targetLength, origin, reply);
      && (run.request.None? <==> ApiKey(env, p) == "")
      && (run.request.Some? ==> run.request.value == BuildRequest(p, env, CreatePrompt(text, targetLength), origin))
      && (run.result.Err? && run.result.error.KeyNotConfigured? ==> run.result.error.provider == p)
      && (ApiKey(env, p) != "" ==> run.result == AcceptReply(p, reply))
  {
    ProviderNameRoundTrip(p, SelectedProviderName(env));
  }

  /** A chat request carries one user message holding the prompt, at most 2000 tokens and
      temperature 0.7, with bearer authorisation from the provider's own key. */
  lemma ChatRequestShape(p: Provider, env: AiEnv, prompt: string, origin: string)
    requires p != Gemini
    ensures var req := BuildRequest(p, env, prompt, origin);
      && req.ChatRequest?
      && req.messages == [Message("user", prompt)]
      && req.maxTokens == 2000 && req.temperatureTenths == 7
      && req.apiKey == ApiKey(env, p) && req.endpoint == ChatEndpoint(p)
  {
  }
}
