# telnet-irc, modelled in Dafny

telnet-irc is a small IRC client written in C. It connects to a host, relays
bytes between the terminal and the TCP socket, and answers the server's
keep-alive `PING` itself so that an idle session is not timed out. This project
models the byte and string logic at its core and proves properties of it.
There are four modules:

- `CStrings` (cstrings.dfy) holds the `<string.h>`/`<ctype.h>` primitives the
  program uses, over `seq<byte>`: `isspace` in the "C" locale, `strlen`, the C
  string held by a buffer (its bytes before the first NUL) and `strstr`.
- `Ping` (ping.dfy) models `processPing` as a pure function. It covers the
  case-sensitive `strstr(data, "PING")` test, the exact behaviour of
  `sscanf(data, "PING %s\n", source)` into a zeroed buffer, and the reply
  `PONG <token>\n`. Its lemmas pin the reply down in every case. The buffer
  sizes `processPing` allocates are shown to be large enough.
- `Relay` (relay.dfy) models the two readiness callbacks as methods of a
  `Relay` class. The class holds the socket's write log and the bytes printed
  to stdout. Each input is a `ByteSource` whose `pending` bytes are what
  `FIONREAD` reports. Each loop pass reads at most 1024 bytes into a fresh
  zeroed 1025-byte array. A peer chunk is either answered with one PONG or
  printed. A stdin chunk is written with length `strlen(data)`. Both methods
  are proved against functions over the list of chunks a drain takes, and
  lemmas about those functions give the end-to-end properties.
- `Port` (port.dfy) models the argument handling of `main`. The host is
  required. The port defaults to 6667; a given port is `atoi` of the
  argument, and only 0 is rejected. The accepted value is narrowed to 16 bits
  by `htons`.

Behaviour of the code that the model keeps, where a looser description of
the program would say otherwise:

- A chunk that contains `PING` anywhere gets a reply, and the whole chunk is
  not printed. Any other lines in that chunk are lost.
- The origin token is only extracted when `PING` starts the chunk. A prefixed
  `PING`, or one in the middle of a message, is answered with `PONG \n`.
- Stdin chunks are forwarded only up to their first NUL, not verbatim.
- A port is rejected only when `atoi` gives 0. `65536` and `-1` are accepted
  (see Findings).
- A `PING` line split across two reads is not reassembled. Each chunk is
  handled on its own, as in the source.

## Model

| member | source | states |
|---|---|---|
| `CStrings.IsSpace` | telnet-irc.c:176 | the whitespace that the blank and `%s` of the `sscanf` format skip and stop at is exactly the six "C" locale `isspace` bytes: \t, \n, \v, \f, \r and space |
| `CStrings.Strlen` | telnet-irc.c:275 | `strlen` is the offset of the first NUL: every byte before it is non-NUL and the byte at it is NUL |
| `CStrings.CStr` | telnet-irc.c:168-182 | the C string a buffer holds is a NUL-free prefix of it that ends at the buffer's end or at a NUL; every string function of `processPing` sees only this part |
| `CStrings.Strstr` | telnet-irc.c:168 | `strstr` finds something exactly when the pattern is a substring; the offset it gives is an occurrence, and no earlier offset is |
| `Ping.ScanToken` | telnet-irc.c:176 | what `sscanf(data, "PING %s\n", source)` leaves in the zeroed `source`: empty unless the string starts with "PING", and never containing whitespace |
| `Ping.PongReply` | telnet-irc.c:178-180 | `sprintf(buffer, "PONG %s\n", source)`: the reply is "PONG ", then the token, then "\n", |token| + 6 bytes in all, and it holds no NUL when the token holds none |
| `Ping.ProcessPing` | telnet-irc.c:165-191 | reports a PING (returns 1) exactly when "PING" is a case-sensitive substring of the bytes before the first NUL; writes exactly one reply then and none otherwise; the reply starts with "PONG " and ends with "\n" |
| `Ping.LeadingPingReply` | telnet-irc.c:174-182 | for a chunk "PING" + optional whitespace + a non-whitespace token T ending at the string's end or at whitespace (such as "\r\n"), the one reply is "PONG " + T + "\n" |
| `Ping.TokenDecomposition` | telnet-irc.c:176 | conversely, for any C string, a non-empty extracted token always stands right after the leading "PING" and its whitespace, and is followed by the end or by whitespace (it is the maximal run) |
| `Ping.OffsetPingReply` | telnet-irc.c:168-180 | "PING" present but not at offset 0: the sscanf literal fails, `source` stays zeroed, and the reply is exactly "PONG \n" |
| `Ping.BlankPingReply` | telnet-irc.c:174-180 | a leading "PING" followed only by whitespace gives the reply "PONG \n" |
| `Ping.ReplyBounds` | telnet-irc.c:174-182 | when a PING is found: the token plus its terminator fit in `calloc(strlen(data))` (token length at most strlen - 4); the reply is the token length + 6 bytes, so with its NUL it fills the token length + 7 buffer; the reply holds no NUL, so the `write` of `strlen(buffer)` bytes sends all of it |
| `Relay.Chunks` | telnet-irc.c:205-207 | every chunk a drain pass takes holds between 1 and 1024 bytes |
| `Relay.ChunksFlatten` | telnet-irc.c:204-217 | the chunks taken, in order, concatenate to exactly the input consumed |
| `Relay.ChunksCount` | telnet-irc.c:205-216 | the loop makes ceil(n / 1024) passes over n available bytes |
| `Relay.ReadBuffer` | telnet-irc.c:206-207 | the zeroed 1025-byte buffer after a read of at most 1024 bytes is NUL-terminated right after the data, and the C string it holds is the chunk up to its first NUL |
| `Relay.RoutePeer` | telnet-irc.c:208-213 | a peer chunk in which "PING" occurs yields exactly its one reply on the socket and nothing on stdout; any other chunk prints its C string and writes nothing to the socket |
| `Relay.PeerRepliesAtMostOnePerChunk` | telnet-irc.c:205-217 | over a whole drain, the socket gets at most one write per chunk, however many PINGs a chunk holds, and every write is "PONG " + a whitespace-free token + "\n" |
| `Relay.PeerPassThrough` | telnet-irc.c:205-213 | peer input without NUL and without "PING" reaches stdout byte for byte, and nothing is written to the socket |
| `Relay.StdinWrite` | telnet-irc.c:275 | `write(sock, data, strlen(data))` sends a NUL-free prefix of the buffer that ends at the buffer's end or at its first NUL |
| `Relay.StdinWriteTruncates` | telnet-irc.c:273-275 | a stdin chunk is written only up to its first NUL, because the length passed is `strlen(data)`; a chunk with no NUL is written unchanged |
| `Relay.StdinVerbatim` | telnet-irc.c:271-279 | stdin input without NUL is forwarded verbatim: one write per chunk, and the writes concatenate to the input |
| `Relay.ByteSource.Available` | telnet-irc.c:204 | `ioctl(FIONREAD)` reports a count that is never negative and is 0 exactly when no bytes are pending, the condition on which both drain loops stop |
| `Relay.ByteSource.Read` | telnet-irc.c:207 | `read` moves min(1024, available) bytes to the front of the buffer, leaves the rest of the buffer as it was, and removes those bytes from the source |
| `Relay.Relay.AnswerPing` | telnet-irc.c:165-191 | `processPing` on the socket: returns 1 exactly when "PING" occurs in the chunk's C string, appends exactly the routed reply to the socket log, and leaves stdout as it was |
| `Relay.Relay.ReadChunk` | telnet-irc.c:206-207 | one pass's `calloc(1025)` and `read`: the buffer is the next chunk of the input padded with zeros, and the source keeps the chunks after it |
| `Relay.Relay.SocketEventCallback` | telnet-irc.c:202-221 | drains the peer until the FIONREAD count is 0; the socket log and stdout each grow by exactly the routed effects of the chunks taken, in order |
| `Relay.Relay.StdinEventCallback` | telnet-irc.c:269-283 | drains stdin until the count is 0; the socket log grows by one `strlen`-length write per chunk, in order, and stdout is unchanged |
| `Port.Atoi` | telnet-irc.c:51 | `atoi`: a negative result comes only from a `-` right after the leading whitespace, and a non-zero result only from text that contains a digit |
| `Port.AtoiDecimal` | telnet-irc.c:51 | `atoi` reads back any decimal numeral: after leading whitespace, with or without a sign, and followed by any non-digit text |
| `Port.AtoiNonNumeric` | telnet-irc.c:51 | text with no digit where `atoi` expects one reads as 0: after leading whitespace and at most one sign, the rest is empty or starts with a non-digit (for example "", "  ", "x", " x", "+", "-x") |
| `Port.DigitsValueDecimal` | telnet-irc.c:51 | the digit string of a number reads back as that number |
| `Port.Narrow16` | telnet-irc.c:79 | the port `htons` stores is in 0..65535 and congruent to the `int` port modulo 65536 |
| `Port.ParseArgs` | telnet-irc.c:42-55 | no host gives the usage error; a host alone connects to port 6667; with a port argument, the usage error is given exactly when `atoi` of it is 0, a connection is attempted exactly when it is not, and then the host is `argv[1]`, the port is that value and the wire port is its 16-bit narrowing |
| `Port.ParseArgsNumeric` | telnet-irc.c:50-55 | a numeric port argument in 1..65535 is used as given |
| `Port.ParseArgsNonNumeric` | telnet-irc.c:50-55 | a port argument with no digit where `atoi` expects one (after whitespace and at most one sign) reads as 0 and gets the usage error, so no connection is attempted |
| `Port.ParseArgsAcceptsWrappedZero` | telnet-irc.c:55-79 | as written, any positive multiple of 65536 that fits in an `int` is accepted and `htons` turns it into port 0 |
| `Port.ParseArgsAcceptsNegative` | telnet-irc.c:55-79 | as written, "-1" is accepted and becomes port 65535 |
| `Port.ParseArgsChecked` | telnet-irc.c:55-107 | corrected check: a given port is accepted exactly when `atoi` of it is in 1..65535; an accepted connection goes to `argv[1]` on that port (6667 when none is given), and it reaches the socket address unchanged |
| `Port.CheckedAgreesInRange` | telnet-irc.c:55-79 | the corrected check and the source give the same result on every port the corrected check accepts |
| `Port.CheckedRejectsWrappedZero` | telnet-irc.c:55-107 | the corrected check rejects the multiples of 65536 within `int` range that the source turns into port 0 |

## Left out

- Socket creation, `connect`, `gethostbyname`, `inet_ntoa` and `inet_addr` (telnet-irc.c:59-102, 130-137) are operating-system and network calls. `main`'s exit status is not modelled either.
- The libevent setup and `event_base_loop` (telnet-irc.c:232-258) are a foreign event library. The two callbacks are modelled on their own and invoked directly.
- `ioctl(FIONREAD)` and `read` are replaced by `ByteSource`. Its `pending` bytes are what is available now. No bytes arrive during a drain, and a read always returns min(1024, available). Short reads, read errors and signals are not modelled.
- `write` is modelled as one entry in the socket log per call. Short writes and write errors are not modelled; the source ignores `write`'s result.
- `printf` is modelled as appending the printed C string to `stdout`. The `DEBUG` diagnostics, the status messages and the `printUsage` text (telnet-irc.c:52, 57, 68, 80, 89-110, 146-151, 183, 212) are output formatting only and are left out.
- `calloc` and `free` are not modelled as allocation. Their sizes appear only as the bounds in `Ping.ReplyBounds` and as `Relay.BUFFER_SIZE`.
- Port.Atoi: uses unbounded integers. C's `atoi` has undefined behaviour when the value does not fit in an `int`, so the model is faithful only for arguments whose value fits in 32 bits.
- Signal handling, teardown, reconnecting and a subprocess transport do not exist in this file and are not modelled.

## Findings

| source | as written | input that shows it | evidently intended | confidence | as-written member | corrected member |
|---|---|---|---|---|---|---|
| telnet-irc.c:55-79 | only `port != 0` is rejected, then `htons(port)` narrows the `int` to 16 bits | `telnet-irc irc.example.org 65536` passes the check and connects to port 0; `-1` connects to port 65535 | reject any port outside 1..65535 with "The provided port was invalid" | medium; not executed | `Port.ParseArgsAcceptsWrappedZero` | `Port.ParseArgsChecked` |
