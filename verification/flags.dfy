/** The boundary to Go's `flag` package, which both dispatchers use but do not
    own.  Tokenising `-name=value`, type coercion and defaults stay inside the
    collaborator; the dispatchers only see what a parse reports back. */
module Flags {

  /** What `FlagSet.Parse` leaves behind.
      - `visited`: the names `FlagSet.Visit` walks, i.e. the flags the caller
        actually supplied;
      - `trueBools`: the boolean flags whose value ends up true (only the help
        flag `-h` is read by the core);
      - `residual`: `FlagSet.Args()`, the positional tokens left over.
      `Malformed` is a token the flag package rejects, or its own help request:
      under `flag.ExitOnError` the package shows the flag set's usage and ends
      the process itself. */
  datatype ParseResult =
    | Parsed(visited: set<string>, trueBools: set<string>, residual: seq<string>)
    | Malformed

  /** A flag parser: the names declared on a flag set, the tokens to parse. */
  type Parser = (set<string>, seq<string>) -> ParseResult

  /** The one fact about the collaborator the dispatchers rely on: with no
      tokens there is nothing to reject and nothing left over. */
  ghost predicate QuietOnEmpty(parse: Parser)
  {
    forall decls :: parse(decls, []).Parsed? && parse(decls, []).residual == []
  }

  /** A parser that recognises no flag at all and hands every token back as
      positional; the example dispatches use it. */
  function Passthrough(decls: set<string>, tokens: seq<string>): ParseResult
  {
    Parsed({}, {}, tokens)
  }
}
