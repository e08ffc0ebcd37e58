/**
 * What the network calls of the three scans return, as plain values. The
 * calls themselves are parameters of the scans (functions from the request to
 * its outcome); the failure kinds only feed debug logging in the scans.
 */
module Network {
  /** The exception classes a `requests` call can raise. */
  datatype RequestError = Timeout | ConnectionError | SslError | TooManyRedirects | OtherRequestError

  /** One HTTP request: an exception, or the response's status, body length and final URL. */
  datatype HttpOutcome =
    | RequestFailed(error: RequestError)
    | Response(status: int, contentLength: nat, finalUrl: string)

  /** The exception classes a resolver query can raise. */
  datatype DnsError = NxDomain | NoAnswer | ResolverTimeout | NoNameservers | OtherDnsError

  /** One resolver query: an exception, or the textual form of each answer, in order. */
  datatype DnsOutcome =
    | ResolveFailed(error: DnsError)
    | Answers(values: seq<string>)
}
