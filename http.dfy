/** What a request handler ends with. */
module Http {
  /** `Redirect`: a 302 to `location`; `Status`: a response with that status code;
      `Next`: control passes to the next handler; `Uncaught`: an error escapes the
      handler (the framework's error handling is not part of this model). */
  datatype Outcome = Redirect(location: string) | Status(code: nat) | Next | Uncaught
}
