/**
 * What an API handler sends back: a status with a JSON body, or nothing at all when the
 * handler throws or never finishes.
 */
module Http {
  import opened Js
  import opened Store

  /** The JSON bodies the handlers send. */
  datatype Body =
    | ErrorBody(error: string)
    | TestBody(testData: JsValue, errors: seq<string>)
    | ResultsBody(results: TestResults, errors: seq<string>)
    | WordsBody(wordData: JsValue, errors: seq<string>)
    | ErrorsBody(errors: seq<string>)

  /** `res.status(status).send(body)`, or no response. */
  datatype Reply = Sent(status: int, body: Body) | NoResponse

  /** The message of every 400 for a missing `uid`. */
  const UidNotSpecified := "UID not specified"
}
