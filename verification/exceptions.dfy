/** The Python exceptions the scraper can raise, each carrying what the
    interpreter would report with it. An exception that escapes a function
    ends the whole run, because no caller in the script catches it. */
module Exceptions {

  datatype Exception =
    | ValueError(message: string)
    | KeyError(key: string)
    | IndexError(message: string)
    | UnboundLocalError(name: string)
    | AttributeError(message: string)
    | TypeError(message: string)
}
