/**
 * The MCP tool class `EchoTool` of the tool server: two tools that answer a
 * greeting built from an optional message (`None` is a C# `null` message).
 */
module EchoTool {
  import opened Wrappers

  /** The fixed part of every reply. */
  const Greeting: string := "anonymous: hello"

  /**
   * `string.IsNullOrEmpty`: true of `null` and of the string of length 0
   * only; white space alone is not empty.
   */
  predicate IsNullOrEmpty(message: Option<string>): (b: bool)
    ensures b <==> message.None? || |message.value| == 0
    ensures message.Some? && |message.value| > 0 ==> !b
  {
    message == None || message == Some("")
  }

  /**
   * `EchoTool.Echo`: the greeting, followed by one space and the message
   * when there is a non-empty message.
   */
  function Echo(message: Option<string>): (r: string)
    ensures |Greeting| <= |r| && r[..|Greeting|] == Greeting
    ensures IsNullOrEmpty(message) ==> |r| == |Greeting|
    ensures !IsNullOrEmpty(message) ==>
              |r| == |Greeting| + 1 + |message.value|
              && r[|Greeting|] == ' '
              && r[|Greeting| + 1..] == message.value
  {
    var msg := if IsNullOrEmpty(message) then "" else " " + message.value;
    Greeting + msg
  }

  /**
   * `EchoTool.EchoPost`: the same tool under a second name. Its reply is
   * the greeting, and reading it back gives the message when there is a
   * non-empty one and nothing otherwise.
   */
  function EchoPost(message: Option<string>): (r: string)
    ensures |Greeting| <= |r| && r[..|Greeting|] == Greeting
    ensures MessageOf(r) == Normalize(message)
  {
    MessageOfEcho(message);
    Echo(message)
  }

  /**
   * The message a reply carries, read back from the reply; `None` for a
   * reply that carries none. This is the inverse of `Echo`.
   */
  function MessageOf(reply: string): (m: Option<string>)
    ensures m.Some? ==> m.value != [] && reply == Greeting + " " + m.value
  {
    var n := |Greeting| + 1;
    if n < |reply| && reply[..n] == Greeting + " " then Some(reply[n..]) else None
  }

  /** A null message and an empty message are not told apart. */
  function Normalize(message: Option<string>): Option<string> {
    if IsNullOrEmpty(message) then None else message
  }

  /** A null or empty message yields exactly the bare greeting, 16 characters long. */
  lemma EchoWithoutMessage(message: Option<string>)
    requires IsNullOrEmpty(message)
    ensures Echo(message) == "anonymous: hello"
    ensures |Echo(message)| == 16
  {
  }

  /** A non-empty message `m` yields exactly `"anonymous: hello " + m`, 17 + |m| characters long. */
  lemma EchoWithMessage(m: string)
    requires m != []
    ensures Echo(Some(m)) == "anonymous: hello " + m
    ensures |Echo(Some(m))| == 17 + |m|
  {
  }

  /** White space alone is a message: two spaces are appended after the separating one. */
  lemma EchoWhiteSpaceMessage()
    ensures Echo(Some("  ")) == "anonymous: hello   "
  {
  }

  /** Reading a reply back gives the message, up to null versus empty. */
  lemma MessageOfEcho(message: Option<string>)
    ensures MessageOf(Echo(message)) == Normalize(message)
  {
  }

  /**
   * `Echo` is injective up to null versus empty; in particular two
   * non-empty messages with the same reply are equal.
   */
  lemma EchoInjective(m1: Option<string>, m2: Option<string>)
    requires Echo(m1) == Echo(m2)
    ensures Normalize(m1) == Normalize(m2)
    ensures !IsNullOrEmpty(m1) ==> m1 == m2
  {
  }

  /** Every reply `MessageOf` can read comes from `Echo`. */
  lemma EchoOfMessage(reply: string)
    requires MessageOf(reply).Some?
    ensures Echo(MessageOf(reply)) == reply
  {
  }

  /** The two tools give the same reply to every message. */
  lemma EchoPostIsEcho(message: Option<string>)
    ensures EchoPost(message) == Echo(message)
  {
  }
}
