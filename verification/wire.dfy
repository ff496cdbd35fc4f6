/** The values the web client and the server exchange: chat messages and the
    nullable session id. */
module Wire {
  import opened Wrappers

  datatype Role = User | Assistant

  /** The role as stored in the database and sent in JSON. */
  function RoleName(r: Role): string {
    match r
    case User => "user"
    case Assistant => "assistant"
  }

  datatype Message = Message(role: Role, content: string)

  /** A session id as it travels: absent/null, or a number. Python's
      `not session_id` and JavaScript's `!sessionId` are both false exactly
      for a present, non-zero id. */
  predicate Truthy(id: Option<int>) {
    id.Some? && id.value != 0
  }
}
