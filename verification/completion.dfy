/** The hosted chat-completion service both services call, seen from the
    caller: a request goes in, the reply's text or the raised error's
    message comes out. */
module Completion {
  import opened Wrappers

  /** A two-message chat request: the system role text and the user prompt. */
  datatype ChatRequest = ChatRequest(system: string, user: string)

  /** The completion call, `response.choices[0].message.content` on
      success; a transport, authentication or quota failure (or a reply
      without content) is `Err` with the message `str(e)` would give. */
  type Oracle = ChatRequest -> Result<string, string>
}
