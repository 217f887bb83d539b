/**
 * Errors as the Rust code builds them with `anyhow`: a top-level message
 * and the messages of the errors it wraps, outermost first.
 */
module Errors {

  datatype Error = Error(top: string, causes: seq<string>) {
    /** `error.chain()` rendered with `to_string()`: the top message, then every cause. */
    function Chain(): seq<string> {
      [top] + causes
    }
  }

  /** `anyhow!("...")`: one message, no cause. Its `Display` is the message. */
  function Msg(m: string): Error {
    Error(m, [])
  }

  /** `.context(c)`: the new error displays `c` and its chain continues with the old one. */
  function Context(e: Error, c: string): (r: Error)
    ensures r.top == c && r.Chain() == [c] + e.Chain()
  {
    Error(c, e.Chain())
  }
}
