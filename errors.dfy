/** Error values returned by the attribute converters, and the result type
    that carries either a converted value or one of them. */
module Errors {

  import opened Text

  /** The error categories the converters distinguish. */
  datatype ErrorKind = InvalidCidrRange | InvalidIpAddress | InvalidPort

  /** An error keeps its category and the literal that caused it. */
  datatype Error = Error(kind: ErrorKind, literal: string)

  datatype Result<+T> = Ok(value: T) | Err(error: Error)

  /** The stable start of the error message of each category; the text after
      it (the underlying parse failure) is not part of the model. */
  function MessagePrefix(e: Error): string {
    match e.kind
    case InvalidCidrRange => "invalid cidr range"
    case InvalidIpAddress => "invalid ip address"
    case InvalidPort => "invalid port " + e.literal + ":"
  }

  /** A caller that tells errors apart by the start of their message never
      confuses two categories: a full message of one kind, whatever cause
      text `tail` follows its start, does not start like another kind. */
  lemma MessagePrefixesDistinguishKinds(e1: Error, e2: Error, tail: string)
    requires e1.kind != e2.kind
    ensures !StartsWith(MessagePrefix(e2) + tail, MessagePrefix(e1))
  {
    // The three prefixes already differ at their ninth character.
    assert MessagePrefix(e1)[8] != MessagePrefix(e2)[8];
    assert (MessagePrefix(e2) + tail)[8] == MessagePrefix(e2)[8];
  }
}
