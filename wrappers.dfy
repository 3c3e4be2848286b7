/** Python's `None`-or-value, as the scraper's optional fields use it. */
module Wrappers {

  datatype Option<+T> = None | Some(value: T)

}
