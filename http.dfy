/**
 * What the two backend handlers share: the artifacts they pass through,
 * the values their catch blocks see, and the JSON responses they send.
 */
module Http {
  import opened Wrappers

  /** One file of the generation service's reply; the handlers never look inside. */
  datatype Artifact = Artifact(name: Option<string>, content: string)

  /** A value caught by a handler's catch block. */
  datatype Thrown =
      /** an `Error` instance, with its message */
    | ErrorValue(message: string)
      /** a thrown object that is not an `Error` but has a string `message` property */
    | MessageOnly(message: string)
      /** any other thrown value (a string, a number, an object without `message`) */
    | NonError

  datatype Body = ErrorBody(error: string) | FilesBody(files: seq<Artifact>)

  datatype Response = Response(status: nat, body: Body)

  /** The response sent, and whether the generation service was called on the way. */
  datatype Handled = Handled(response: Response, calledUpstream: bool)

  /** An error response with status `status` and message `msg`. */
  function Failure(status: nat, msg: string): Response {
    Response(status, ErrorBody(msg))
  }

  /**
   * The reference probe over candidate locations of the artifact list, in
   * order: the first location that holds a list, else the empty list.
   */
  function FirstPresent(candidates: seq<Option<seq<Artifact>>>): (r: seq<Artifact>)
    ensures (forall i :: 0 <= i < |candidates| ==> candidates[i].None?) ==> r == []
    ensures forall i :: (0 <= i < |candidates| && candidates[i].Some? &&
                         forall j :: 0 <= j < i ==> candidates[j].None?) ==> r == candidates[i].value
    decreases |candidates|
  {
    if candidates == [] then []
    else if candidates[0].Some? then candidates[0].value
    else FirstPresent(candidates[1..])
  }
}
