/** The exception classes that the scraping tools raise, catch or classify. */
module Errors {

  datatype Exc =
    | StopException            // a job saw the stop event set
    | CookiesNotFound          // the browser jar lacked a required session cookie after 3 reads
    | Timeout                  // requests.exceptions.Timeout
    | ConnectionError          // requests.exceptions.ConnectionError
    | IndexError               // indexing past the end of a list, e.g. `[...][-1]` of an empty list
    | KeyError                 // a missing dictionary key
    | AttributeError           // a BeautifulSoup lookup that found nothing (`None.attr`)
    | AssertionError           // a failed `assert` on the page shape
    | ScriptNotFound(found: nat) // "Found N scripts with a data variable inside them after trying 3 times"
    | RequestFailed            // any other failure of a network call or of JSON decoding

  /** Transient network errors, the ones the per-day CSV download retries. */
  predicate IsTransient(e: Exc)
  {
    e == Timeout || e == ConnectionError
  }
}
