/** What a `fetch` call yields, as seen by its callers: a response, or a thrown network error. */
module Http {

  datatype Response<B> = Response(status: nat, statusText: string, body: B) {
    /** `response.ok`: the status is in the 2xx range. */
    predicate Ok() {
      200 <= status <= 299
    }
  }

  datatype FetchOutcome<B> = Received(response: Response<B>) | NetworkFailure(message: string)
}
