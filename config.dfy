/** Start-up configuration of the load driver: the parsed `-n`, `-c` and `-k` flags and
    the positional arguments left after flag parsing become one validated configuration,
    or the fatal start-up error that ends the process before any request is sent. */
module Config {

  const DefaultRequests := 10000
  const DefaultConcurrency := 100

  type Positive = x: int | x >= 1 witness 1

  /** The validated configuration: target URL, total request count, concurrency limit
      and whether keep-alive connections are disabled. */
  datatype Config = Config(url: string, requests: Positive, concurrency: Positive, disableKeepAlives: bool)

  /** The only start-up failure: not exactly one positional URL argument. */
  datatype StartupError = UrlRequired

  datatype Result<T> = Success(value: T) | Failure(error: StartupError)

  /** Default substitution for the request count and the concurrency limit: a value at or
      below zero (including an omitted flag, which parses as 0) is replaced by its
      default; a positive value is used as given. */
  function Normalize(n: int, c: int): (r: (Positive, Positive))
    ensures n > 0 ==> r.0 == n
    ensures n <= 0 ==> r.0 == DefaultRequests
    ensures c > 0 ==> r.1 == c
    ensures c <= 0 ==> r.1 == DefaultConcurrency
  {
    (if n <= 0 then DefaultRequests else n, if c <= 0 then DefaultConcurrency else c)
  }

  /** Builds the configuration from the positional arguments and the parsed flags. Exactly
      one positional argument, the URL, is required; anything else is the fatal error. */
  function Configure(args: seq<string>, n: int, c: int, disableKeepAlives: bool): (r: Result<Config>)
    ensures r.Failure? <==> |args| != 1
    ensures r.Failure? ==> r.error == UrlRequired
    ensures r.Success? ==> r.value.url == args[0]
    ensures r.Success? ==> (r.value.requests, r.value.concurrency) == Normalize(n, c)
    ensures r.Success? ==> r.value.disableKeepAlives == disableKeepAlives
  {
    if |args| != 1 then Failure(UrlRequired)
    else
      var (requests, concurrency) := Normalize(n, c);
      Success(Config(args[0], requests, concurrency, disableKeepAlives))
  }
}
