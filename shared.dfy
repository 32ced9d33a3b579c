/** Values that travel between the back end and the two browser pages. */
module Shared {

  datatype Option<T> = None | Some(value: T)

  /** One byte of audio data: an element of Python `bytes` or of a JavaScript `Uint8Array`. */
  type byte = x: int | 0 <= x < 256

  /** A JSON value as it crosses HTTP. Only integral numbers are kept. */
  datatype Json =
    | JNull
    | JBool(b: bool)
    | JNum(n: int)
    | JStr(s: string)
    | JArr(items: seq<Json>)
    | JObj(fields: map<string, Json>)

  /** JavaScript truthiness of a parsed JSON value. */
  predicate Truthy(j: Json) {
    match j
    case JNull => false
    case JBool(b) => b
    case JNum(n) => n != 0
    case JStr(s) => s != ""
    case _ => true
  }

  /** `j.key`: the member of a JSON object, None standing for `undefined`
      (the pages and the server only ask objects for named members). */
  function Field(j: Json, key: string): Option<Json> {
    if j.JObj? && key in j.fields then Some(j.fields[key]) else None
  }

  /** One record of the `/podcast` response, as the server builds it and the page plays it. */
  datatype PodcastLine = PodcastLine(speaker: string, text: string, audioBase64: string)

  /** One chat bubble: a role and its text. */
  datatype Message = Message(role: string, content: string)
}
