/**
 * `TodoController.create`: the guard in front of `processText`. The Vapor
 * request decoding is taken as done; its result is `decoded`, `None` when
 * the body did not decode.
 */
module TodoController {
  import opened Common
  import opened Tokens
  import opened MachineLearning

  /** The reply of `create`, or a trap from `processText`. */
  function Create(decoded: Option<string>, normalize: string -> string, parse: string -> Option<real>,
                  encode: Extraction -> Option<string>): (r: Outcome<string>)
    ensures decoded.None? || decoded == Some("") ==> r == Done(ErrorPayload)
    ensures decoded.Some? && decoded.value != "" ==> r == ProcessText(decoded.value, normalize, parse, encode)
  {
    var textParam := decoded.GetOr("");
    if textParam != "" then ProcessText(textParam, normalize, parse, encode)
    else Done(ErrorPayload)
  }

  /**
   * `create` traps exactly when it is given a non-empty text whose first
   * word normalises to a weight or height keyword.
   */
  lemma CreateTrapsIff(decoded: Option<string>, normalize: string -> string, parse: string -> Option<real>,
                       encode: Extraction -> Option<string>)
    ensures Create(decoded, normalize, parse, encode) == Trapped <==>
            decoded.Some? && decoded.value != "" && normalize(Split(decoded.value)[0]) in SuffixKeywords
  {
    if decoded.Some? && decoded.value != "" {
      ProcessTextTrapsIff(decoded.value, normalize, parse, encode);
    }
  }
}
