# MCP tool server core: the echo tools and the raw bearer token claim

This project models the two pieces of self-contained logic of the MCP tool
server `mcp-server-101`, and proves their properties in Dafny.

- **Echo tools** (`EchoTool.Echo`, `EchoTool.EchoPost`). Each one answers an
  optional message with the greeting `anonymous: hello`. A non-empty message
  is appended after one space. A `null` message and an empty one add nothing.
  White space alone still counts as a message, because the code uses
  `string.IsNullOrEmpty` and not `IsNullOrWhiteSpace`.
- **Raw bearer token claim** (the `OnTokenValidated` JWT bearer event). Once
  a token has been validated, the server reads the request's `Authorization`
  header. If the header starts with `Bearer ` and the prefix is matched
  without regard to case, the server takes the rest of the header and trims
  it. It then adds the result as a `raw_token` claim to the principal's
  identity, but only when that identity is a `ClaimsIdentity`. This is the
  header form of section 2.1 of RFC 6750. The scheme name is matched
  case-insensitively, as section 2.1 of RFC 7235 allows.

Modules:

- `Wrappers` (`wrappers.dfy`): `Option`. `None` stands for a C# `null`.
- `DotNetText` (`dotnet_text.dfy`): the .NET string operations the core
  uses. These are `char.IsWhiteSpace`, `Trim` (modelled as `TrimEnd` after
  `TrimStart`) and the ordinal ignore-case prefix test.
- `EchoTool` (`echo_tool.dfy`): the two tools. `MessageOf` is an
  independent inverse of `Echo`, used for the round trip and injectivity.
- `JwtEvents` (`jwt_events.dfy`): `ExtractBearer` parses the header. The
  class `ClaimsIdentity` holds a list of claims that `AddClaim` extends in
  place. The method `OnTokenValidated` is the event handler. A `null`
  identity reference means one of three things: there is no principal, it
  has no identity, or its identity is not a `ClaimsIdentity`.

An absent request or an absent `Authorization` header is modelled as
`None`. The .NET method `StringValues.ToString()` turns an absent header
into `""`, and the code then treats it the same as an empty header.

The code has no per-call credential lookup and no tool middleware, so
neither is modelled:

- `AgenticAgent.CollectTools` lists tools once, with a fixed
  `Authorization` header (agentic-agent-101/AgenticAgent.cs:41-79).
- The middleware stages are commented out
  (agentic-agent-101/AgenticAgent.cs:29-32).
- The built `middleAgent` is dropped, and the plain `agent` is returned
  (agentic-agent-101/AgenticAgent.cs:35).

## Model

| member | source | states |
|---|---|---|
| `EchoTool.Echo` | mcp-server-101/EchoTool.cs:10-14 | the reply begins with `anonymous: hello`; 16 characters for a null or empty message; otherwise one space and then the message itself, 17 + \|m\| characters |
| `EchoTool.IsNullOrEmpty` | mcp-server-101/EchoTool.cs:12 | true exactly of `null` and of a message of length 0; a non-empty message, white space alone included, is not empty |
| `EchoTool.EchoPost` | mcp-server-101/EchoTool.cs:17-20 | the reply begins with the greeting, and reading it back gives the message when it is non-empty and nothing otherwise |
| `EchoTool.MessageOf` | mcp-server-101/EchoTool.cs:12-13 | a reply it reads a message from is exactly the greeting, a space and that non-empty message |
| `EchoTool.EchoWithoutMessage` | mcp-server-101/EchoTool.cs:12-13 | a null or empty message gives exactly `"anonymous: hello"`, 16 characters long |
| `EchoTool.EchoWithMessage` | mcp-server-101/EchoTool.cs:12-13 | a non-empty message `m` gives exactly `"anonymous: hello " + m`, 17 + \|m\| characters long |
| `EchoTool.EchoWhiteSpaceMessage` | mcp-server-101/EchoTool.cs:12 | a two-space message is not treated as empty: the reply is `"anonymous: hello   "` |
| `EchoTool.MessageOfEcho` | mcp-server-101/EchoTool.cs:12-13 | round trip: reading the message back from `Echo(m)` gives `m`, with null and empty both giving none |
| `EchoTool.EchoOfMessage` | mcp-server-101/EchoTool.cs:12-13 | every reply that carries a message is `Echo` of that message |
| `EchoTool.EchoInjective` | mcp-server-101/EchoTool.cs:12-13 | equal replies mean equal messages (up to null versus empty); a non-empty message is determined by its reply |
| `EchoTool.EchoPostIsEcho` | mcp-server-101/EchoTool.cs:17-20 | `EchoPost` and `Echo` give the same reply to every message |
| `DotNetText.IsWhiteSpace` | mcp-server-101/Program.cs:41 | space, tab, newline and carriage return are white space; digits and ASCII letters are not; every white-space character is at most U+3000 |
| `DotNetText.StartsWithIgnoreCase` | mcp-server-101/Program.cs:39 | true exactly when the string is at least as long as the prefix and agrees with it character by character after case folding; an exact ordinal prefix always matches |
| `DotNetText.TrimStartShape` | mcp-server-101/Program.cs:41 | `TrimStart` keeps a suffix, drops only white space, and what it keeps does not begin with white space |
| `DotNetText.TrimEndShape` | mcp-server-101/Program.cs:41 | `TrimEnd` keeps a prefix, drops only white space, and what it keeps does not end with white space |
| `DotNetText.Trim` | mcp-server-101/Program.cs:41 | the trimmed string neither begins nor ends with white space and is no longer than its argument |
| `DotNetText.TrimBounds` | mcp-server-101/Program.cs:41 | what `Trim` keeps is one contiguous piece of its argument, with only white space cut on either side |
| `DotNetText.TrimStartPadded` | mcp-server-101/Program.cs:41 | `TrimStart` removes exactly a white-space prefix placed in front of a string not beginning with white space |
| `DotNetText.TrimEndPadded` | mcp-server-101/Program.cs:41 | `TrimEnd` removes exactly a white-space suffix placed after a string not ending with white space |
| `DotNetText.TrimPadded` | mcp-server-101/Program.cs:41 | `Trim` undoes white-space padding on both sides of a trimmed string |
| `DotNetText.TrimIdempotent` | mcp-server-101/Program.cs:41 | trimming twice is trimming once; a trimmed string is left as it is |
| `JwtEvents.ExtractBearer` | mcp-server-101/Program.cs:38-41 | a token is produced if and only if a header is present and starts with `Bearer ` ignoring case; the token it produces has no leading or trailing white space |
| `JwtEvents.BearerPrefixVariants` | mcp-server-101/Program.cs:39 | the accepted prefixes are exactly the upper/lower-case variants of `Bearer` followed by one space |
| `JwtEvents.ExtractPadded` | mcp-server-101/Program.cs:39-41 | any accepted prefix, white space, a trimmed token and white space yield exactly that token |
| `JwtEvents.ExtractRoundTrip` | mcp-server-101/Program.cs:39-41 | `"Bearer " + t` yields `t` for every `t` without leading or trailing white space |
| `JwtEvents.ExtractSound` | mcp-server-101/Program.cs:39-41 | an accepted header is an accepted prefix, then white space, then the token, then white space, with the token found at the returned offsets |
| `JwtEvents.ExtractIgnoresCase` | mcp-server-101/Program.cs:39-41 | any case variant of the prefix gives the same result as `Bearer `: the rest of the header, trimmed |
| `JwtEvents.ExtractNoHeader` | mcp-server-101/Program.cs:38-39 | an absent or empty header yields no token |
| `JwtEvents.ExtractRejects` | mcp-server-101/Program.cs:39 | `Basic x`, `Bearer`, `Bearerx` and `Bearer<tab>abc` yield no token |
| `JwtEvents.ExtractCaseVariants` | mcp-server-101/Program.cs:39-41 | `bearer abc` and `BEARER abc` yield `abc`; trailing white space and newlines are trimmed |
| `JwtEvents.ExtractEmptyToken` | mcp-server-101/Program.cs:39-41 | `Bearer ` followed only by white space (e.g. `"Bearer "`, `"Bearer    "`) yields the empty token, not absence |
| `JwtEvents.RawTokenClaims` | mcp-server-101/Program.cs:41-44 | one claim is added exactly when a token is extracted, and none otherwise; that claim is `("raw_token", token)` |
| `JwtEvents.RawTokenClaimsAddOne` | mcp-server-101/Program.cs:42-45 | the existing claims are kept in front; the number of `raw_token` claims grows by one exactly when a token is extracted; claims of every other type are untouched |
| `JwtEvents.ClaimsIdentity.AddClaim` | mcp-server-101/Program.cs:44 | the identity's claims become the old claims followed by the new claim |
| `JwtEvents.OnTokenValidated` | mcp-server-101/Program.cs:36-46 | a `ClaimsIdentity` gets exactly the raw-token claims of its header appended; no other identity is changed |

## Left out

- Logging from the JWT events and the `catch` block (mcp-server-101/Program.cs:25, 30, 35, 48-51): console I/O. No modelled operation can throw. `Substring` runs only after a successful seven-character prefix test, so the `catch` path is not reachable in the model.
- The JWT bearer configuration, with all token validation disabled and a signature validator that accepts anything (mcp-server-101/Program.cs:15-20, 55-65): this is library configuration, not logic.
- CORS, controllers, MCP server hosting, routing, authorization and `app.Run` (mcp-server-101/Program.cs:3-12, 68-87; agentic-agent-101/Program.cs): host plumbing.
- `AgenticAgent.CreateAgent` and `AgenticAgent.CollectTools` (agentic-agent-101/AgenticAgent.cs:14-79): network calls to Azure OpenAI and to an MCP client, with fixed endpoints and credentials and no local logic.
- The commented-out middleware and the second MCP server (agentic-agent-101/AgenticAgent.cs:29-32, 61-76): dead code.
- The `[McpServerTool]` and `[Description]` registration attributes on the echo tools: tool metadata for the MCP library.
- `StringValues` joins a header that has several values with commas. The header is modelled as a single optional string.
- `JwtEvents.ExtractBearer`: ordinal ignore-case matching is modelled by folding only the ASCII letters `a`-`z`. Full Unicode simple case mapping is not modelled. The prefix `Bearer ` is pure ASCII, so the only possible difference is a non-ASCII character whose upper-case form is one of its letters.
- Characters: a Dafny `char` is a Unicode scalar value, and a .NET `char` is a UTF-16 code unit. The lengths in `Echo`'s contract (16, 17 + \|m\|) therefore count scalar values, where `String.Length` counts code units. A .NET string holding an unpaired surrogate cannot be written in the model. No modelled behaviour depends on this: the `Bearer ` prefix is ASCII and every white-space character is in the Basic Multilingual Plane.
- `JwtEvents.Claim`: a .NET `Claim` also has a value type, an issuer and a subject. Only the type and the value are modelled, because the code sets nothing else.
- `JwtEvents.OnTokenValidated`: the model does not cover the async `Task` result, or the `Principal.Identity.Name` read that exists only for logging.
