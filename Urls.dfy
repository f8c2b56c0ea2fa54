/** The parts of a parsed URL that the scrapers and the configuration read. Parsing and joining
    themselves (`urllib.parse.urlparse` and `urljoin`) are not modelled: callers receive them as
    function parameters. */
module Urls {
  import opened Wrappers

  /** What `urlparse(url)` exposes. `port` is a computed attribute that raises `ValueError` when the
      port text is not a number in range, hence its own `Result`. */
  datatype UrlParts = UrlParts(
    scheme: string,
    netloc: string,
    path: string,
    hostname: Option<string>,
    port: Result<Option<int>, string>,
    username: Option<string>,
    password: Option<string>)

  /** `urlparse`, which raises `ValueError` on some malformed inputs (an unbalanced `[` in the host). */
  type UrlParser = string -> Result<UrlParts, string>

  /** `urljoin(base, url)`. */
  type UrlJoiner = (string, string) -> string
}
