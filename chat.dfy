/**
 * The `/chat` endpoint: read the field `mensaje`, refuse a blank one, look
 * the message up in the corpus, build the prompt (grounded on the matched
 * context, or plain), have the language model answer it and clean the
 * answer of repeated links.
 *
 * The language model is the parameter `generar`; the embedding service and
 * the similarity measure are `embed` and `cosine`, as in `Search`.
 */
module Chat {
  import opened Wrappers
  import opened Text
  import opened Search
  import opened Sanitizer

  /** An error answer: the HTTP status and the text of its `error` field. */
  datatype ChatError = ChatError(status: int, error: string)

  /** The answer to a blank message. */
  const MensajeVacio: ChatError := ChatError(400, "Mensaje vacío")

  /** A successful answer: the cleaned reply, `usó_contexto` and `similitud` (null when absent). */
  datatype Reply = Reply(respuesta: string, usoContexto: bool, similitud: Option<real>)

  /** The opening sentence both prompts share. */
  const Intro: string := "Eres un consultor de seguros profesional."

  /** The rest of the grounded prompt, around the quoted message and context. */
  const GroundedLead: string := " Un usuario ha hecho " + "la siguiente consulta:\n"
  const GroundedLink: string := "\n\nUsa esta información como contexto y responde de forma clara y concisa:\n\n"

  /** The rest of the plain prompt, before the quoted message (the source has no space after `Intro`). */
  const PlainLead: string := "Responde de manera breve, clara y precisa " + "a la siguiente pregunta del usuario:\n"

  /** `s` between double quotes, as the templates put the message and the context. */
  function Quoted(s: string): string {
    "\"" + s + "\""
  }

  /** The prompt used when the corpus has a close enough record: the message, then its context. */
  function GroundedPrompt(mensaje: string, contexto: string): string {
    Intro + GroundedRest(mensaje, contexto)
  }

  function GroundedRest(mensaje: string, contexto: string): string {
    GroundedLead + Quoted(mensaje) + GroundedLink + Quoted(contexto) + "\n"
  }

  /** The prompt used without context. */
  function PlainPrompt(mensaje: string): string {
    Intro + PlainRest(mensaje)
  }

  function PlainRest(mensaje: string): string {
    PlainLead + Quoted(mensaje) + "\n"
  }

  /** The prompt for `mensaje` given the result of the search. */
  function Prompt(mensaje: string, resultado: Option<Match>): string {
    match resultado
    case Some(m) => GroundedPrompt(mensaje, m.contexto)
    case None => PlainPrompt(mensaje)
  }

  /** `a + (b + c + d + e + f)`, regrouped around `c`. */
  lemma RegroupAt3(a: string, b: string, c: string, d: string, e: string, f: string)
    ensures a + (b + c + d + e + f) == (a + b) + c + (d + e + f)
  {
  }

  /** `a + (b + c + d + e + f)`, regrouped around `e`. */
  lemma RegroupAt5(a: string, b: string, c: string, d: string, e: string, f: string)
    ensures a + (b + c + d + e + f) == (a + b + c + d) + e + f
  {
  }

  /** `a + (b + c + d)`, regrouped around `c`. */
  lemma RegroupAt3Of4(a: string, b: string, c: string, d: string)
    ensures a + (b + c + d) == (a + b) + c + d
  {
  }

  /** The prompt quotes the message, whichever template is used. */
  lemma PromptQuotesMessage(mensaje: string, resultado: Option<Match>)
    ensures Contains(Prompt(mensaje, resultado), Quoted(mensaje))
  {
    match resultado
    case Some(m) => GroundedQuotesMessage(mensaje, m.contexto);
    case None => PlainQuotesMessage(mensaje);
  }

  lemma GroundedQuotesMessage(mensaje: string, contexto: string)
    ensures Contains(GroundedPrompt(mensaje, contexto), Quoted(mensaje))
  {
    RegroupAt3(Intro, GroundedLead, Quoted(mensaje), GroundedLink, Quoted(contexto), "\n");
    ContainsMiddle(Intro + GroundedLead, Quoted(mensaje), GroundedLink + Quoted(contexto) + "\n");
  }

  lemma PlainQuotesMessage(mensaje: string)
    ensures Contains(PlainPrompt(mensaje), Quoted(mensaje))
  {
    RegroupAt3Of4(Intro, PlainLead, Quoted(mensaje), "\n");
    ContainsMiddle(Intro + PlainLead, Quoted(mensaje), "\n");
  }

  /** A grounded prompt quotes the context of the matched record. */
  lemma PromptQuotesContext(mensaje: string, m: Match)
    ensures Contains(Prompt(mensaje, Some(m)), Quoted(m.contexto))
  {
    RegroupAt5(Intro, GroundedLead, Quoted(mensaje), GroundedLink, Quoted(m.contexto), "\n");
    ContainsMiddle(Intro + GroundedLead + Quoted(mensaje) + GroundedLink, Quoted(m.contexto), "\n");
  }

  /**
   * Both prompts open with the same sentence, and the character right after
   * it tells them apart: the prompt shows whether context was used.
   */
  lemma PromptShowsGrounding(mensaje: string, resultado: Option<Match>)
    ensures var p := Prompt(mensaje, resultado);
      && |p| > |Intro|
      && p[..|Intro|] == Intro
      && (p[|Intro|] == ' ' <==> resultado.Some?)
  {
    match resultado
    case Some(m) => GroundedOpening(mensaje, m.contexto);
    case None => PlainOpening(mensaje);
  }

  /** The grounded prompt puts a space after the opening sentence. */
  lemma GroundedOpening(mensaje: string, contexto: string)
    ensures var p := GroundedPrompt(mensaje, contexto);
      |p| > |Intro| && p[..|Intro|] == Intro && p[|Intro|] == ' '
  {
    var rest := GroundedRest(mensaje, contexto);
    assert rest[0] == GroundedLead[0];
    FollowedBy(Intro, rest);
  }

  /** The plain prompt runs straight on from the opening sentence into `Responde`. */
  lemma PlainOpening(mensaje: string)
    ensures var p := PlainPrompt(mensaje);
      |p| > |Intro| && p[..|Intro|] == Intro && p[|Intro|] == 'R'
  {
    var rest := PlainRest(mensaje);
    assert rest[0] == PlainLead[0];
    FollowedBy(Intro, rest);
  }

  /** `a + rest` starts with `a`, followed by the first character of `rest`. */
  lemma FollowedBy(a: string, rest: string)
    requires rest != []
    ensures |a + rest| > |a| && (a + rest)[..|a|] == a && (a + rest)[|a|] == rest[0]
  {
  }

  /** Different search outcomes (one with a match, one without) never give the same prompt. */
  lemma {:induction false} PromptsDiffer(mensaje: string, otro: string, m: Match)
    ensures Prompt(mensaje, Some(m)) != Prompt(otro, None)
  {
    PromptShowsGrounding(mensaje, Some(m));
    PromptShowsGrounding(otro, None);
  }

  /** The message to answer: `mensaje` stripped, or the 400 error when nothing is left. */
  function ReadMessage(campo: Option<string>): (r: Result<string, ChatError>)
    ensures r.Failure? <==> AllSpace(campo.GetOr(""))
    ensures r.Failure? ==> r.error == MensajeVacio
    ensures r.Success? ==> r.value != [] && IsStripped(r.value) && r.value == Strip(campo.GetOr(""))
  {
    var mensaje := Strip(campo.GetOr(""));
    if mensaje == [] then Failure(MensajeVacio) else Success(mensaje)
  }

  /** The branch `chat()` takes once the search is done: the prompt and the two reported fields. */
  datatype Routed = Routed(prompt: string, usoContexto: bool, similitud: Option<real>)

  /**
   * The prompt and fields for `mensaje` and the search result: context is
   * reported used exactly when there is a match, the score is the match's
   * (absent otherwise), the prompt quotes the message, quotes the context when
   * there is one, and shows after its first sentence which template it is.
   */
  function Route(mensaje: string, resultado: Option<Match>): (r: Routed)
    ensures r.usoContexto <==> resultado.Some?
    ensures r.similitud.Some? <==> resultado.Some?
    ensures resultado.Some? ==> r.similitud.value == resultado.value.similitud
    ensures Contains(r.prompt, Quoted(mensaje))
    ensures resultado.Some? ==> Contains(r.prompt, Quoted(resultado.value.contexto))
    ensures |r.prompt| > |Intro| && r.prompt[..|Intro|] == Intro
    ensures r.prompt[|Intro|] == ' ' <==> resultado.Some?
  {
    PromptQuotesMessage(mensaje, resultado);
    PromptShowsGrounding(mensaje, resultado);
    match resultado
    case Some(m) =>
      PromptQuotesContext(mensaje, m);
      Routed(Prompt(mensaje, resultado), true, Some(m.similitud))
    case None => Routed(Prompt(mensaje, resultado), false, None)
  }

  /**
   * `chat()`, for the request field `campo` (`None` when the JSON body has no
   * `mensaje`): a message that is blank once stripped is refused with status
   * 400 before anything is looked up or generated. Otherwise the reply says
   * whether a corpus record scored at least `Umbral`, gives the best score
   * exactly then, and is the language model's answer to the chosen prompt
   * with repeated links removed.
   */
  method HandleChat(campo: Option<string>, qaData: seq<Item>, embed: string -> seq<real>,
                    cosine: (seq<real>, seq<real>) -> real, generar: string -> string)
    returns (r: Result<Reply, ChatError>)
    ensures r.Failure? <==> AllSpace(campo.GetOr(""))
    ensures r.Failure? ==> r.error == MensajeVacio
    ensures r.Success? ==> Strip(campo.GetOr("")) != []
    ensures r.Success? ==>
      (r.value.usoContexto <==> exists j :: 0 <= j < |qaData| && cosine(embed(Strip(campo.GetOr(""))), qaData[j].embedding) >= Umbral)
    ensures r.Success? ==> (r.value.similitud.Some? <==> r.value.usoContexto)
    ensures r.Success? && r.value.similitud.Some? ==> r.value.similitud.value >= Umbral
    ensures r.Success? && r.value.similitud.Some? ==>
      forall j :: 0 <= j < |qaData| ==> cosine(embed(Strip(campo.GetOr(""))), qaData[j].embedding) <= r.value.similitud.value
    ensures r.Success? && r.value.similitud.Some? ==>
      exists j :: 0 <= j < |qaData| && cosine(embed(Strip(campo.GetOr(""))), qaData[j].embedding) == r.value.similitud.value
    ensures r.Success? ==>
      var b := BestMatch(ScoreAll(qaData, cosine, embed(Strip(campo.GetOr("")))), Umbral);
      r.value.similitud == (if b.Some? then Some(b.value.similitud) else None)
    ensures r.Success? ==>
      var mensaje := Strip(campo.GetOr(""));
      r.value.respuesta == Sanitize(generar(Route(mensaje, BestMatch(ScoreAll(qaData, cosine, embed(mensaje)), Umbral)).prompt))
  {
    var leido := ReadMessage(campo);
    if leido.Failure? {
      return Failure(leido.error);
    }
    var mensaje := leido.value;
    var resultado := BuscarSimilitud(mensaje, qaData, embed, cosine, Umbral);
    MatchIffAboveThreshold(qaData, cosine, embed(mensaje), Umbral);
    if resultado.Some? {
      BestMatchIsFirstBest(qaData, cosine, embed(mensaje), Umbral);
    }
    var ruta := Route(mensaje, resultado);
    var respuesta := generar(ruta.prompt);
    respuesta := QuitarUrlsDuplicadas(respuesta);
    r := Success(Reply(respuesta, ruta.usoContexto, ruta.similitud));
  }
}
