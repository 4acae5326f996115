/** `generateResponseByFlag`: the AI reply text is always returned as the
    formatted response; an output flag naming an artifact kind also sends the
    text to that kind's generator, whose file URL comes back alongside. The
    generators are collaborators: `generate` stands for all five of them and
    yields a URL or rejects with an error message. */
module ResponseGenerator {
  import opened Wrappers

  /** The five artifact generators. */
  datatype ArtifactKind = PdfArtifact | WordArtifact | ExcelArtifact | PowerpointArtifact | ChecklistArtifact

  /** The output flag that selects each generator. */
  function FlagOf(kind: ArtifactKind): string {
    match kind
    case PdfArtifact => "pdf"
    case WordArtifact => "word"
    case ExcelArtifact => "excel"
    case PowerpointArtifact => "powerpoint"
    case ChecklistArtifact => "checklist"
  }

  /** The routing switch: a recognised flag names its generator; "text", ""
      and every other flag take the default arm, which names none. */
  function ArtifactFor(flag: string): (r: Option<ArtifactKind>)
    ensures r.Some? ==> FlagOf(r.value) == flag
  {
    match flag
    case "pdf" => Some(PdfArtifact)
    case "word" => Some(WordArtifact)
    case "excel" => Some(ExcelArtifact)
    case "powerpoint" => Some(PowerpointArtifact)
    case "checklist" => Some(ChecklistArtifact)
    case _ => None
  }

  /** One invocation of a generator, with the arguments it received. */
  datatype GeneratorCall = GeneratorCall(kind: ArtifactKind, content: string, roomId: string)

  datatype GeneratedResponse = GeneratedResponse(formattedResponse: string, responseFileUrl: Option<string>)

  /** The outcome of a dispatch together with the generator calls it made. */
  datatype Dispatch = Dispatch(result: Result<GeneratedResponse, string>, calls: seq<GeneratorCall>)

  /** Routes the AI reply by its flag. The default arm calls no generator and
      gives a null URL; a recognised flag calls exactly its generator, once,
      with the reply text and the room id unchanged, and a generator that
      rejects makes the whole dispatch reject with the same error. The
      formatted response is the reply text whatever the flag. */
  function GenerateResponseByFlag(flag: string, aiContent: string, roomId: string,
                                  generate: (ArtifactKind, string, string) -> Result<string, string>): (d: Dispatch)
    ensures |d.calls| <= 1
    ensures d.calls == [] <==> ArtifactFor(flag).None?
    ensures forall i :: 0 <= i < |d.calls| ==>
              FlagOf(d.calls[i].kind) == flag && d.calls[i].content == aiContent && d.calls[i].roomId == roomId
    ensures d.calls == [] ==> d.result == Ok(GeneratedResponse(aiContent, None))
    ensures d.result.Ok? ==> d.result.value.formattedResponse == aiContent
    ensures forall i :: 0 <= i < |d.calls| ==>
              match generate(d.calls[i].kind, aiContent, roomId)
              case Ok(url) => d.result == Ok(GeneratedResponse(aiContent, Some(url)))
              case Err(e) => d.result == Err(e)
  {
    match ArtifactFor(flag)
    case None => Dispatch(Ok(GeneratedResponse(aiContent, None)), [])
    case Some(kind) =>
      var call := GeneratorCall(kind, aiContent, roomId);
      match generate(kind, aiContent, roomId)
      case Ok(url) => Dispatch(Ok(GeneratedResponse(aiContent, Some(url))), [call])
      case Err(e) => Dispatch(Err(e), [call])
  }

  /** Every generator is reachable, through its own flag and no other. */
  lemma FlagRoutesToItsGenerator(kind: ArtifactKind, flag: string)
    ensures ArtifactFor(FlagOf(kind)) == Some(kind)
    ensures ArtifactFor(flag) == Some(kind) <==> flag == FlagOf(kind)
  {
  }

  /** "text" and the empty flag take the plain-text path. */
  lemma PlainTextFlags(aiContent: string, roomId: string,
                       generate: (ArtifactKind, string, string) -> Result<string, string>)
    ensures GenerateResponseByFlag("text", aiContent, roomId, generate)
            == Dispatch(Ok(GeneratedResponse(aiContent, None)), [])
    ensures GenerateResponseByFlag("", aiContent, roomId, generate)
            == Dispatch(Ok(GeneratedResponse(aiContent, None)), [])
  {
  }
}
