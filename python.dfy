/** The few Python values the bot's logic relies on: `None`, exceptions and truthiness. */
module Python {

  /** A value that may be Python's `None`. */
  datatype Option<+T> = None | Some(value: T)

  /** The exceptions the modelled code can raise on its own. */
  datatype Fault =
    | IndexError      // `parts[-1]` on an empty list
    | AttributeError  // `h.title.text` when the page has no <title>

  /** The outcome of a call that either returns or raises. */
  datatype Result<+T> = Ok(value: T) | Raise(fault: Fault)

  /** `bool(s)` for a string: only the empty string is falsy. */
  predicate TruthyText(s: string) {
    s != []
  }

  /** `bool(x)` for an optional string: `None` and `""` are falsy. */
  predicate TruthyOptText(x: Option<string>) {
    x.Some? && x.value != []
  }

  /** `bool(x)` for an optional integer count: `None` and `0` are falsy. */
  predicate TruthyCount(x: Option<int>) {
    x.Some? && x.value != 0
  }
}
