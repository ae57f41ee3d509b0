/**
 * The Next.js handler `POST` of app/api/flowchart/route.ts: read the text,
 * check the credential, ask the generation service, pick the artifact list
 * with `latestVersion?.files ?? files ?? []`, and answer with it when it is
 * not empty. Every failure is a 500 with an error message.
 */
module NextRoute {
  import opened Wrappers
  import opened Http

  /** `await request.json()`: it rejects, or it yields a body with an optional text. */
  datatype Request = Unreadable(error: Thrown) | Json(text: Option<string>)

  /** The call to the generation service and the reading of its reply. */
  datatype Upstream =
      /** `fetch`, `response.json()` or, on a reply that is not ok, `response.text()` threw */
    | Threw(error: Thrown)
      /** `!response.ok`; the body is only logged */
    | NotOk(status: int, body: string)
      /** an ok reply: `latestVersion?.files` and `files`, None when null or undefined */
    | Answered(latestFiles: Option<seq<Artifact>>, files: Option<seq<Artifact>>)

  const MissingKey: string := "V0_API_KEY not configured"
  const GenerationFailed: string := "Failed to generate flowchart"
  const NoFiles: string := "No files returned from v0"

  /** `!apiKey` is false: the variable is set and not empty. */
  predicate HasApiKey(apiKey: Option<string>) {
    apiKey.Some? && apiKey.value != ""
  }

  /**
   * `latestVersion?.files ?? files ?? []`: absent means null or undefined
   * only. It is the ordered probe latestVersion.files, then files, then nothing.
   */
  function NullishFiles(latest: Option<seq<Artifact>>, files: Option<seq<Artifact>>): (r: seq<Artifact>)
    ensures r == FirstPresent([latest, files])
  {
    assert [latest, files][1..] == [files];
    assert [files][1..] == [];
    match latest
    case Some(l) => l
    case None => files.GetOr([])
  }

  /** `err instanceof Error ? err.message : 'Unknown error'` */
  function CaughtMessage(e: Thrown): (msg: string)
    ensures e.ErrorValue? ==> msg == e.message
    ensures !e.ErrorValue? ==> msg == "Unknown error"
  {
    match e
    case ErrorValue(msg) => msg
    case MessageOnly(_) => "Unknown error"
    case NonError => "Unknown error"
  }

  /** The handler, from the request, the credential and the service's behaviour. */
  function Post(req: Request, apiKey: Option<string>, upstream: Upstream): (h: Handled)
    ensures h.calledUpstream <==> req.Json? && HasApiKey(apiKey)
    ensures h.response.status == 200 || h.response.status == 500
    ensures h.response.status == 200 <==> h.response.body.FilesBody?
    ensures req.Unreadable? ==> h.response == Failure(500, CaughtMessage(req.error))
    ensures req.Json? && !HasApiKey(apiKey) ==> h.response == Failure(500, MissingKey)
    ensures h.calledUpstream && upstream.Threw? ==> h.response == Failure(500, CaughtMessage(upstream.error))
    ensures h.calledUpstream && upstream.NotOk? ==> h.response == Failure(500, GenerationFailed)
    ensures h.calledUpstream && upstream.Answered? ==>
              var files := NullishFiles(upstream.latestFiles, upstream.files);
              h.response == if files == [] then Failure(500, NoFiles) else Response(200, FilesBody(files))
  {
    match req
    case Unreadable(e) => Handled(Failure(500, CaughtMessage(e)), false)
    case Json(_) =>
      if !HasApiKey(apiKey) then Handled(Failure(500, MissingKey), false)
      else
        var response :=
          match upstream
          case Threw(e) => Failure(500, CaughtMessage(e))
          case NotOk(_, _) => Failure(500, GenerationFailed)
          case Answered(latest, files) =>
            var list := NullishFiles(latest, files);
            if |list| == 0 then Failure(500, NoFiles) else Response(200, FilesBody(list));
        Handled(response, true)
  }

  /** A success answers with a non-empty list, exactly the probed one. */
  lemma PostSuccess(req: Request, apiKey: Option<string>, upstream: Upstream)
    ensures Post(req, apiKey, upstream).response.status == 200
        <==> (&& req.Json? && HasApiKey(apiKey) && upstream.Answered?
              && FirstPresent([upstream.latestFiles, upstream.files]) != [])
    ensures Post(req, apiKey, upstream).response.status == 200 ==>
              Post(req, apiKey, upstream).response.body.files
                == FirstPresent([upstream.latestFiles, upstream.files]) != []
  {
  }

  /** A present but empty latestVersion.files is not skipped: it ends in the no-files error. */
  lemma EmptyLatestIsTaken(text: Option<string>, apiKey: Option<string>, files: Option<seq<Artifact>>)
    requires HasApiKey(apiKey)
    ensures Post(Json(text), apiKey, Answered(Some([]), files)).response == Failure(500, NoFiles)
  {
  }

  /**
   * The text is never checked: whatever it is, the handler goes on to the
   * credential and the call, and the service's behaviour decides the rest.
   */
  lemma TextIsNotChecked(t1: Option<string>, t2: Option<string>, apiKey: Option<string>, upstream: Upstream)
    ensures Post(Json(t1), apiKey, upstream) == Post(Json(t2), apiKey, upstream)
  {
  }

  /** Without a credential the service's behaviour cannot matter: it is never asked. */
  lemma NoKeyNoCall(req: Request, apiKey: Option<string>, u1: Upstream, u2: Upstream)
    requires !HasApiKey(apiKey)
    ensures !Post(req, apiKey, u1).calledUpstream
    ensures Post(req, apiKey, u1) == Post(req, apiKey, u2)
  {
  }
}
