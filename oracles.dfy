/**
 * The outside world of the validator, given as data: HTTP, the GitHub API,
 * the configured regular expressions, the clock and Python's set order.
 */
module Oracles {
  import opened Wrappers

  /** The outcome of `requests.head(url, timeout=10)`. */
  datatype HeadReply = Status(code: int) | Unreachable

  /** The outcome of `requests.get(url, timeout=10)`. */
  datatype GetReply = Response(status: int, body: string) | GetFailure

  /** `now - isoparse(created)`, in whole seconds, or the message of the `ValueError` `isoparse` raises. */
  datatype Age = Seconds(seconds: int) | Unparsable(reason: string)

  datatype Env = Env(
    head: string -> HeadReply,                     // HEAD request per URL
    get: string -> GetReply,                       // GET request per URL
    repoExists: string -> bool,                    // github_repo_exists(handle)
    repoFile: (string, string) -> Option<string>,  // get_github_repo_file(handle, path), decoded
    keywordMatches: string -> bool,                // KEYWORD_RE.match(kw) is not None
    teamMatches: string -> seq<string>,            // CODEOWNER_TEAM_RE.findall(text)
    age: string -> Age,                            // age of the `created` timestamp
    listing: set<string> -> seq<string>)           // the order in which `list(s)` gives a set's elements
}
