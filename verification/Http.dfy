/** What the caches in front of handlers keep of an HTTP response. */
module Http {
  datatype Response = Response(status: int, body: string)

  predicate Successful(r: Response) { 200 <= r.status < 300 }
}
