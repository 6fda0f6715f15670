/** The optional value used wherever the bot looks a row up or parses text
    that may not be there or may not parse. */
module Wrappers {

  datatype Option<+T> = None | Some(value: T)
}
