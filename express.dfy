/**
 * The Express handler for POST /api/flowchart of api/index.js: refuse a
 * falsy text with 400, ask the generation SDK to create a chat, pick the
 * artifact list with `latestVersion?.files || files || []`, and answer with
 * it when it is not empty. Every other failure is a 500.
 */
module ExpressApi {
  import opened Wrappers
  import opened Http
  import NextRoute

  /** `v0.chats.create(...)`: it throws, or yields a chat (fields None when missing). */
  datatype ChatCreation =
    | Threw(error: Thrown)
    | Created(latestFiles: Option<seq<Artifact>>, files: Option<seq<Artifact>>)

  const NoText: string := "No text provided"
  const NoFile: string := "AI failed to generate a file"
  const CrashPrefix: string := "Backend crash: "

  /** `text` is truthy: present and not the empty string. */
  predicate HasText(text: Option<string>) {
    text.Some? && text.value != ""
  }

  /**
   * `latestVersion?.files || files || []`: every list, even an empty one, is
   * truthy, so this is the same ordered probe as the other handler's `??` chain.
   */
  function TruthyFiles(latest: Option<seq<Artifact>>, files: Option<seq<Artifact>>): (r: seq<Artifact>)
    ensures r == FirstPresent([latest, files])
    ensures r == NextRoute.NullishFiles(latest, files)
  {
    if latest.Some? then latest.value
    else if files.Some? then files.value
    else []
  }

  /**
   * `err.message` in a template: read from any thrown object, `Error` or not,
   * and "undefined" when the thrown value has no message.
   */
  function CrashMessage(e: Thrown): (msg: string)
    ensures CrashPrefix <= msg
    ensures msg[|CrashPrefix|..] == if e.NonError? then "undefined" else e.message
  {
    match e
    case ErrorValue(msg) => CrashPrefix + msg
    case MessageOnly(msg) => CrashPrefix + msg
    case NonError => CrashPrefix + "undefined"
  }

  /** The handler, from the request's text and the SDK's behaviour. */
  function Handle(text: Option<string>, chat: ChatCreation): (h: Handled)
    ensures h.calledUpstream <==> HasText(text)
    ensures !HasText(text) ==> h.response == Failure(400, NoText)
    ensures h.response.status in {200, 400, 500}
    ensures h.response.status == 200 <==> h.response.body.FilesBody?
    ensures h.calledUpstream && chat.Threw? ==> h.response == Failure(500, CrashMessage(chat.error))
    ensures h.calledUpstream && chat.Created? ==>
              var files := TruthyFiles(chat.latestFiles, chat.files);
              h.response == if files == [] then Failure(500, NoFile) else Response(200, FilesBody(files))
  {
    if !HasText(text) then Handled(Failure(400, NoText), false)
    else
      var response :=
        match chat
        case Threw(e) => Failure(500, CrashMessage(e))
        case Created(latest, files) =>
          var list := TruthyFiles(latest, files);
          if |list| == 0 then Failure(500, NoFile) else Response(200, FilesBody(list));
      Handled(response, true)
  }

  /** A success answers with a non-empty list, exactly the probed one. */
  lemma HandleSuccess(text: Option<string>, chat: ChatCreation)
    ensures Handle(text, chat).response.status == 200
        <==> HasText(text) && chat.Created? && FirstPresent([chat.latestFiles, chat.files]) != []
    ensures Handle(text, chat).response.status == 200 ==>
              Handle(text, chat).response.body.files == FirstPresent([chat.latestFiles, chat.files]) != []
  {
  }

  /** Only a missing or empty text is refused; whitespace is sent on. */
  lemma WhitespaceIsSent(chat: ChatCreation)
    ensures Handle(Some(" "), chat).calledUpstream
    ensures Handle(None, chat).response.status == 400
    ensures Handle(Some(""), chat).response.status == 400
  {
  }

  /**
   * The two handlers agree on every reply the service can give once they
   * both reach it, except for the error wording and the thrown-value message.
   */
  lemma HandlersAgreeOnSuccess(text: string, apiKey: Option<string>,
                               latest: Option<seq<Artifact>>, files: Option<seq<Artifact>>)
    requires text != "" && NextRoute.HasApiKey(apiKey)
    ensures Handle(Some(text), Created(latest, files)).response.status
         == NextRoute.Post(NextRoute.Json(Some(text)), apiKey, NextRoute.Answered(latest, files)).response.status
    ensures Handle(Some(text), Created(latest, files)).response.status == 200 ==>
              Handle(Some(text), Created(latest, files)).response
                == NextRoute.Post(NextRoute.Json(Some(text)), apiKey, NextRoute.Answered(latest, files)).response
  {
  }

  /**
   * The two catch blocks part ways on a thrown object that is not an `Error`
   * but carries a message: the route hides it, this handler passes it on.
   */
  lemma CatchBlocksDiffer(text: string, apiKey: Option<string>, message: string)
    requires text != [] && NextRoute.HasApiKey(apiKey)
    ensures NextRoute.Post(NextRoute.Json(Some(text)), apiKey, NextRoute.Threw(MessageOnly(message))).response
            == Failure(500, "Unknown error")
    ensures Handle(Some(text), Threw(MessageOnly(message))).response == Failure(500, CrashPrefix + message)
    ensures forall m :: NextRoute.CaughtMessage(ErrorValue(m)) == m && CrashMessage(ErrorValue(m)) == CrashPrefix + m
  {
  }
}
