/** One generation run (`handleGenerate` in `src/App.tsx`): the ordered configuration checks
    that run before anything starts, then fetch, rewrite, synthesize and deliver. Each outside
    call is an abstract outcome; the run records the calls it made, in order. */
module Generation {
  import opened Wrappers
  import opened Text
  import opened Ai
  import opened Filename

  /** The form fields a run reads. */
  datatype Form = Form(
    rssUrl: string, newsUrl: string, voice: string, newsLength: int,
    autoGenerate: bool, saveToLocal: bool)

  /** The environment: the rewriting service's variables and the speech service's key. */
  datatype Env = Env(ai: AiEnv, speechKey: string)

  /** Why a run was refused or stopped; `Message` gives the text shown. */
  datatype Failure =
    | NeedUrlAndVoice
    | NeedFeedForAuto
    | NeedProviderKey(provider: Provider)
    | NeedSpeechKey
    | FeedFailed
    | PageFailed
    | TooShort
    | RewriteFailed
    | SpeechFailed

  function Message(f: Failure): string
  {
    match f
    case NeedUrlAndVoice => "Por favor, preencha a URL (RSS ou Notícia) e selecione uma voz"
    case NeedFeedForAuto => "Para Geração Automática, preencha a URL do RSS"
    case NeedProviderKey(Gemini) => "Chave do Google Gemini AI não configurada. Verifique o arquivo .env"
    case NeedProviderKey(OpenAI) => "Chave do OpenAI não configurada. Verifique o arquivo .env"
    case NeedProviderKey(Perplexity) => "Chave do Perplexity não configurada. Verifique o arquivo .env"
    case NeedProviderKey(OpenRouter) => "Chave do OpenRouter não configurada. Verifique o arquivo .env"
    case NeedSpeechKey => "Chave do ElevenLabs não configurada. Verifique o arquivo .env"
    case FeedFailed => "Falha ao buscar notícias do RSS. Verifique se a URL está correta e acessível."
    case PageFailed => "Falha ao extrair conteúdo da página. Tente usar uma URL de RSS ou uma página de notícia diferente."
    case TooShort => "Conteúdo da notícia muito curto ou vazio. Tente uma fonte diferente."
    case RewriteFailed => "Falha ao processar o texto com IA. Verifique sua configuração de IA."
    case SpeechFailed => "Falha ao gerar áudio. Verifique sua chave do ElevenLabs."
  }

  const NewsUrlIsManualOnly := "URL da notícia é válido somente para Geração Manual. Para uso da Geração Automática preencha URL do RSS."

  /** Whether the selected provider's key is missing; an unknown provider name passes. */
  predicate ProviderKeyMissing(env: AiEnv)
  {
    var p := ParseProvider(SelectedProviderName(env));
    p.Some? && ApiKey(env, p.value) == ""
  }

  /** The validation prefix: the message of the first failing check, or `None` when the run
      may start. */
  function Validate(form: Form, env: Env): (r: Option<Failure>)
    ensures r.None? <==>
      && (form.rssUrl != "" || form.newsUrl != "") && form.voice != ""
      && (form.autoGenerate ==> form.rssUrl != "")
      && !ProviderKeyMissing(env.ai)
      && env.speechKey != ""
  {
    if (form.rssUrl == "" && form.newsUrl == "") || form.voice == "" then Some(NeedUrlAndVoice)
    else if form.autoGenerate && form.rssUrl == "" then Some(NeedFeedForAuto)
    else if ProviderKeyMissing(env.ai) then Some(NeedProviderKey(ParseProvider(SelectedProviderName(env.ai)).value))
    else if env.speechKey == "" then Some(NeedSpeechKey)
    else None
  }

  /** The checks of a run, in order, as (fails, message) pairs. */
  function Checks(form: Form, env: Env): seq<(bool, Failure)>
  {
    var p := ParseProvider(SelectedProviderName(env.ai));
    [ (((form.rssUrl == "" && form.newsUrl == "") || form.voice == ""), NeedUrlAndVoice),
      ((form.autoGenerate && form.rssUrl == ""), NeedFeedForAuto),
      (ProviderKeyMissing(env.ai), NeedProviderKey(if p.Some? then p.value else Gemini)),
      ((env.speechKey == ""), NeedSpeechKey) ]
  }

  /** The checks run in their listed order and the first failing one decides the message:
      a missing address or voice is reported before auto mode, auto mode before the provider
      key, the provider key before the speech key. */
  lemma ValidateReportsFirstFailingCheck(form: Form, env: Env)
    ensures Validate(form, env).None? <==> forall i :: 0 <= i < |Checks(form, env)| ==> !Checks(form, env)[i].0
    ensures Validate(form, env).Some? ==> exists i :: (0 <= i < |Checks(form, env)| && Checks(form, env)[i].0
      && Validate(form, env).value == Checks(form, env)[i].1
      && forall j :: 0 <= j < i ==> !Checks(form, env)[j].0)
  {
    var c := Checks(form, env);
    if c[0].0 {
      assert Validate(form, env).value == c[0].1;
    } else if c[1].0 {
      assert Validate(form, env).value == c[1].1;
    } else if c[2].0 {
      assert Validate(form, env).value == c[2].1;
    } else if c[3].0 {
      assert Validate(form, env).value == c[3].1;
    }
  }

  /** Validation and the rewriting service agree: once a run passes validation, the service
      never refuses for a missing key. An unknown provider name passes validation and is
      refused later as unsupported. */
  lemma ValidationCoversProviderKey(form: Form, env: Env, reply: Ai.Reply)
    requires Validate(form, env).None?
    ensures var r := RewriteResult(env.ai, reply);
      && !(r.Err? && r.error.KeyNotConfigured?)
      && (ParseProvider(SelectedProviderName(env.ai)).None? ==> r.Err? && r.error.UnsupportedProvider?)
  {
  }

  /** `handleAutoGenerateToggle`: switching auto mode on while a page address is filled in is
      refused and leaves the switch as it was. */
  function ToggleAutoGenerate(current: bool, checked: bool, newsUrl: string): (r: (bool, Option<string>))
    ensures r.1.Some? <==> checked && newsUrl != ""
    ensures r.1.None? ==> r.0 == checked
    ensures r.1.Some? ==> r.0 == current && r.1.value == NewsUrlIsManualOnly
  {
    if checked && newsUrl != "" then (current, Some(NewsUrlIsManualOnly)) else (checked, None)
  }

  // ---------------------------------------------------------------- the run

  /** The outside calls a run makes. */
  datatype Call =
    | FetchFeed(url: string)
    | FetchPage(url: string)
    | Rewrite(text: string, targetLength: int)
    | Synthesize(text: string, voice: string)

  /** What the outside calls return: the feed and page fetches (`getLatestNews`,
      `getNewsFromUrl`), the model's reply, the clean-up applied to the rewritten text, the
      speech service's audio address, and the completion time. */
  datatype World = World(
    feed: Result<string, string>,
    page: Result<string, string>,
    aiReply: Ai.Reply,
    scrub: string -> string,
    speech: Result<string, string>,
    completedAt: Stamp)

  /** How a run ends: refused before starting, failed with a message, or delivered as a
      playable audio address or a saved record. */
  datatype Delivery = Played(audioUrl: string) | Saved(path: string, at: Stamp)

  datatype Outcome =
    | Refused(failure: Failure)
    | Started(calls: seq<Call>, result: Result<Delivery, Failure>)

  /** News text shorter than this, once trimmed, aborts the run. */
  const MinNewsLength := 50

  /** The fetch step: the feed address when given, else the page address. */
  function FetchCall(form: Form): Call
  {
    if form.rssUrl != "" then FetchFeed(form.rssUrl) else FetchPage(form.newsUrl)
  }

  /** The fetched text, or the run's failure message for that source. */
  function Fetched(form: Form, w: World): Result<string, Failure>
  {
    if form.rssUrl != "" then
      (match w.feed case Ok(t) => Ok(t) case Err(_) => Err(FeedFailed))
    else
      (match w.page case Ok(t) => Ok(t) case Err(_) => Err(PageFailed))
  }

  /** The run after a usable text was fetched: the rewrite, the speech synthesis and the
      delivery, with the calls they made. */
  function AfterFetch(form: Form, env: Env, w: World, news: string): (r: (seq<Call>, Result<Delivery, Failure>))
    requires ValidStamp(w.completedAt)
    ensures 1 <= |r.0| <= 2 && r.0[0] == Rewrite(news, form.newsLength)
    ensures |r.0| == 2 ==> r.0[1].Synthesize? && r.0[1].voice == form.voice
    ensures forall i :: 0 <= i < |r.0| ==> !r.0[i].FetchFeed? && !r.0[i].FetchPage?
    ensures RewriteResult(env.ai, w.aiReply).Err? <==> r == ([r.0[0]], Err(RewriteFailed))
  {
    var rewrite := Rewrite(news, form.newsLength);
    match RewriteResult(env.ai, w.aiReply)
    case Err(_) => ([rewrite], Err(RewriteFailed))
    case Ok(rewritten) =>
      var synth := Synthesize(w.scrub(rewritten), form.voice);
      match w.speech
      case Err(_) => ([rewrite, synth], Err(SpeechFailed))
      case Ok(audio) =>
        if form.saveToLocal then ([rewrite, synth], Ok(Saved(RecordPath(w.completedAt), w.completedAt)))
        else ([rewrite, synth], Ok(Played(audio)))
  }

  /** `handleGenerate`: a started run fetches once, first, and never fetches again; it makes
      at most three outside calls, and delivers only after all three. */
  function Generate(form: Form, env: Env, w: World): (o: Outcome)
    requires ValidStamp(w.completedAt)
    ensures o.Started? ==> 1 <= |o.calls| <= 3 && o.calls[0] == FetchCall(form)
    ensures o.Started? ==> forall i :: 1 <= i < |o.calls| ==> !o.calls[i].FetchFeed? && !o.calls[i].FetchPage?
    ensures o.Started? && o.result.Ok? ==> |o.calls| == 3
  {
    match Validate(form, env)
    case Some(message) => Refused(message)
    case None =>
      var fetch := FetchCall(form);
      match Fetched(form, w)
      case Err(message) => Started([fetch], Err(message))
      case Ok(news) =>
        if |Trim(news)| < MinNewsLength then Started([fetch], Err(TooShort))
        else
          var rest := AfterFetch(form, env, w, news);
          Started([fetch] + rest.0, rest.1)
  }

  /** Nothing starts before validation passes: a failing check ends the run with its message
      and no outside call; a passing one always makes the fetch call first. */
  lemma NoCallBeforeValidation(form: Form, env: Env, w: World)
    requires ValidStamp(w.completedAt)
    ensures Generate(form, env, w).Refused? <==> Validate(form, env).Some?
    ensures Validate(form, env).Some? ==> Generate(form, env, w) == Refused(Validate(form, env).value)
    ensures Validate(form, env).None? ==> |Generate(form, env, w).calls| >= 1 && Generate(form, env, w).calls[0] == FetchCall(form)
  {
  }

  /** The feed address takes precedence: with both addresses given, the page is never
      fetched. */
  lemma FeedTakesPrecedence(form: Form, env: Env, w: World)
    requires ValidStamp(w.completedAt) && Validate(form, env).None? && form.rssUrl != ""
    ensures Generate(form, env, w).Started?
    ensures forall i :: 0 <= i < |Generate(form, env, w).calls| ==> !Generate(form, env, w).calls[i].FetchPage?
  {
    var o := Generate(form, env, w);
    var fetched := Fetched(form, w);
    if fetched.Ok? && |Trim(fetched.value)| >= MinNewsLength {
      var rest := AfterFetch(form, env, w, fetched.value);
      assert o.calls == [FetchFeed(form.rssUrl)] + rest.0;
    } else if fetched.Ok? {
      assert o == Started([FetchCall(form)], Err(TooShort));
    } else {
      assert o == Started([FetchCall(form)], Err(fetched.error));
    }
  }

  /** Fetched text whose trimmed length is under 50 ends the run before the rewriting service
      is called. */
  lemma ShortNewsStopsBeforeRewrite(form: Form, env: Env, w: World)
    requires ValidStamp(w.completedAt) && Validate(form, env).None?
    requires Fetched(form, w).Ok? && |Trim(Fetched(form, w).value)| < MinNewsLength
    ensures Generate(form, env, w) == Started([FetchCall(form)], Err(TooShort))
  {
  }

  /** A run delivers only after all three calls, in order; the rewrite receives the fetched
      text and the target length, the speech service the cleaned-up rewrite and the voice; a
      saved run records the path under `/noticias/` of the completion-time file name. */
  lemma DeliveryShape(form: Form, env: Env, w: World)
    requires ValidStamp(w.completedAt)
    requires Generate(form, env, w).Started? && Generate(form, env, w).result.Ok?
    ensures Validate(form, env).None? && Fetched(form, w).Ok? && w.speech.Ok?
    ensures var o := Generate(form, env, w);
      var news := Fetched(form, w).value;
      var rewritten := RewriteResult(env.ai, w.aiReply);
      && |Trim(news)| >= MinNewsLength
      && rewritten.Ok?
      && o.calls == [FetchCall(form), Rewrite(news, form.newsLength), Synthesize(w.scrub(rewritten.value), form.voice)]
      && (form.saveToLocal ==> o.result.value == Saved(RecordPath(w.completedAt), w.completedAt))
      && (!form.saveToLocal ==> o.result.value == Played(w.speech.value))
  {
  }

  /** A failure of the rewriting service, whatever its cause, surfaces as one generic message
      and stops the run before speech synthesis. */
  lemma RewriteFailureIsGeneric(form: Form, env: Env, w: World)
    requires ValidStamp(w.completedAt) && Validate(form, env).None?
    requires Fetched(form, w).Ok? && |Trim(Fetched(form, w).value)| >= MinNewsLength
    requires RewriteResult(env.ai, w.aiReply).Err?
    ensures Generate(form, env, w).Started? && Generate(form, env, w).result == Err(RewriteFailed)
    ensures Generate(form, env, w).calls == [FetchCall(form), Rewrite(Fetched(form, w).value, form.newsLength)]
  {
  }
}
