/** The server's answers, already decoded from JSON. The HTTP requests themselves
    are not modelled: each answer is an input of the operation that asked for it. */
module Api {

  /** The only status the exporter accepts; any other aborts it. */
  const StatusOk: int := 200

  /** A non-200 answer: the status code and the raw body, as the exporter prints them. */
  datatype ApiError = ApiError(status: int, content: string)

  /** One object of the JSON array returned by api/search. */
  datatype SearchEntry = SearchEntry(id: int, uid: string, title: string, kind: string)

  /** The answer to GET api/search. */
  datatype SearchResponse = SearchResponse(status: int, content: string, entries: seq<SearchEntry>)

  /** The answer to GET api/dashboards/uid/<uid>; title is that of its 'dashboard' object. */
  datatype DashboardResponse = DashboardResponse(status: int, content: string, title: string)
}
