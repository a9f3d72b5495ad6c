/** The messages that travel between clients and the relay, as a tagged
    union over the `type` field, and what parsing a frame's text yields. */
module Messages {
  import opened Game

  /** A client's random session token; only equality matters. */
  type PlayerId = string

  datatype Message =
    | Join(id: PlayerId)                          // "I'm here", sent once on open
    | PlayerCount(count: int)                     // the relay's connection count
    | State(id: PlayerId, snapshot: MatchState)   // a full match snapshot
    | Other(kind: string)                         // any other JSON value

  /** The outcome of `JSON.parse` on a frame's text: it throws, it yields
      `null`, or it yields a value whose `type` field picks a message kind. */
  datatype Parsed = Unparseable | JsonNull | JsonValue(msg: Message)

  /** One text frame on a connection. Parsing is a function of the text, so
      the frame carries its parse result along. */
  datatype Frame = Frame(text: string, parsed: Parsed)
}
