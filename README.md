# WYWMChatApp core in Dafny

This is a model of the core of WYWMChatApp, a one-to-one chat program over TLS:

- the console side in `main.cpp`:
  - the port prompt;
  - the host-or-client choice;
  - the message loop that relays console lines to the peer until `exit`, then shuts the peer down;
- the `Peer` class in `peer.cpp`:
  - handshake completion;
  - `send_message` and its wire frame;
  - one step of the armed read with its completion handler;
  - `shutdown`.

The model is in four modules:

- `StringToInt` (`stoi.dfy`) describes `std::stoi` with base 10 on top of strtol's parse (section 7.22.1.4 of ISO C11).
  - Leading C-locale white space is skipped.
  - An optional `+` or `-` sign is taken, then the longest run of digits.
  - Trailing characters are ignored.
  - With no digits it throws `invalid_argument`; a value outside the 32-bit `int` range throws `out_of_range`.
  - The two throws are `Conversion` values.
  - On a 64-bit `long`, a value beyond `long` makes strtol report `ERANGE`, and stoi then throws `out_of_range`. That is the same verdict as the `int` range check, so the model has only the `int` check.
- `PortPrompt` (`port.dfy`) describes `get_port`.
  - The console is a sequence of lines.
  - `PortAfter` is a reference function that mirrors the source's recursive re-prompt.
  - `GetPort` is the same procedure written as a loop, proved equal to `PortAfter`. It also reports how many lines it consumed.
- `PeerConnection` (`peer.dfy`) describes the `Peer` class.
  - The class keeps the fields the source changes: the shared connection flag, whether the socket is open, the receive buffer, and whether a read is outstanding.
  - The name is a constant.
  - Ghost logs record the frames handed to the stream, the lines printed and the calls of `shutdown`.
  - Bytes arriving from the stream are a sequence of `Arrival`s: a chunk of bytes, or an error.
- `ChatSession` (`session.dfy`) describes the host-or-client choice and the message loop shared by `run_host` and `run_client`.

## Behaviour worth knowing

- **Each read removes extra bytes.** After `async_read_until` completes, `std::getline` takes the line and its `'\n'` out of the buffer. Then `consume(length)` removes up to `length` more bytes. So when two frames arrive in one read, the second loses its first `length` bytes, and all of it when its text is no longer than the first's.
  - `PeerConnection.AfterReadDropsTwice` states this in general.
  - `PeerConnection.SecondFrameIsCut` states it for two frames.
  - The model keeps the behaviour as the code has it.
- **End of input.** Once console input is used up, `std::getline` leaves the fresh string empty.
  - `get_port` therefore returns 8080.
  - The message loop keeps reading empty lines forever, so it never reaches `shutdown`. `ChatSession.Converse` reports this as `exited == false`, with nothing further sent and no shutdown.
- **No further fields on the wire.** A frame holds the name, `": "`, the text and `'\n'`, nothing else.
- **The shared connection flag survives shutdown.** `shutdown` leaves the flag as it was; only the handshake completion writes it.
- **Characters are bytes.** Every `char` of a Dafny `string` in this model stands for one byte of a `std::string`. So `length`, `consume(length)` and the size of a frame count bytes, as in the source. Names, messages and received data that are not ASCII are taken as their UTF-8 bytes.

## Model

| member | source | states |
|---|---|---|
| StringToInt.Stoi | main.cpp:40 | a converted value always lies in the 32-bit int range; otherwise the result is one of stoi's two exceptions |
| StringToInt.SpaceCountIsRun | main.cpp:40 | the white space stoi skips is exactly the longest white-space prefix |
| StringToInt.DigitCountIsRun | main.cpp:40 | the digits stoi reads are exactly the longest digit run after the sign |
| StringToInt.IsSpace | main.cpp:40 | the white space strtol skips: the C-locale isspace set |
| StringToInt.SpaceCount | main.cpp:40 | the number of leading white-space characters, never more than the string holds |
| StringToInt.DigitCount | main.cpp:40 | the length of the digit run strtol reads, never more than the string holds |
| StringToInt.Unsigned | main.cpp:40 | the text after the white space and one optional sign |
| StringToInt.IsNegative | main.cpp:40 | the sign after the white space is `-` |
| StringToInt.DecimalValue | main.cpp:40 | the value of a digit run, most significant digit first |
| StringToInt.StoiSkipsSpace | main.cpp:40 | leading white space does not change the conversion, whatever follows it |
| StringToInt.SignIsTaken | main.cpp:40 | after white space, a `+` or `-` is consumed and only `-` makes the value negative |
| StringToInt.StoiOfRun | main.cpp:40 | for any digit run after the sign, leading zeros included, followed by a non-digit or nothing, the result is its signed value, or out_of_range when that is outside the int range |
| StringToInt.LeadingZero | main.cpp:40 | a leading zero does not change the value of a digit run |
| StringToInt.LeadingZeros | main.cpp:40 | any number of leading zeros leave the value of a digit run unchanged |
| StringToInt.StoiOfPaddedDecimal | main.cpp:40 | white space, zeros, an in-range number and a non-digit tail convert to that number, so "08080" gives 8080 |
| StringToInt.StoiOfDecimal | main.cpp:40 | white space, an in-range decimal number and any non-digit tail convert to that number |
| StringToInt.StoiOfNegativeDecimal | main.cpp:40 | the same with a minus sign, down to INT_MIN |
| StringToInt.StoiOverflow | main.cpp:52-56 | a number beyond INT_MAX throws out_of_range |
| StringToInt.StoiInvalidExactly | main.cpp:52-56 | invalid_argument is thrown if and only if no digit follows the white space and the sign |
| StringToInt.StoiWithoutDigits | main.cpp:52-56 | a line without any digit always throws invalid_argument |
| StringToInt.DecimalRoundTrip | main.cpp:40 | the digits of the decimal rendering of n are worth n |
| PortPrompt.Judge | main.cpp:31-56 | a line is empty exactly when it selects the default; an accepted port is in [8000, 9000]; an out-of-range verdict carries a converted value outside it; otherwise stoi threw |
| PortPrompt.Settles | main.cpp:34-45 | a line ends the prompting when it is empty or holds a port in range |
| PortPrompt.SettledPort | main.cpp:34-45 | a line that ends the prompting yields a port in range |
| PortPrompt.PortAfter | main.cpp:25-57 | the recursive get_port always returns a port in [8000, 9000] |
| PortPrompt.FirstSettling | main.cpp:25-57 | the index of the first line that is empty or in range: no earlier line settles, and that line does |
| PortPrompt.GetPort | main.cpp:25-57 | the loop returns the recursive function's port, in range; it reads up to and including the first settling line and returns its port, or reads everything and returns 8080 |
| PortPrompt.EmptyLineGivesDefault | main.cpp:34-36 | an empty line gives 8080, whatever follows |
| PortPrompt.RejectedLineIsSkipped | main.cpp:46-55 | a line that is out of range or on which stoi throws is skipped, and the next line decides |
| PortPrompt.RejectedLinesAreSkipped | main.cpp:46-55 | any number of rejected lines are skipped |
| PortPrompt.FirstSettlingDecides | main.cpp:25-57 | the result is the port of the first line that is empty or in range |
| PortPrompt.NoLineSettles | main.cpp:31-36 | when no line settles, input runs out and the default 8080 is used |
| PortPrompt.DefaultPortInRange | main.cpp:19-21 | 8080 lies in [8000, 9000] |
| PortPrompt.TrailingCharactersIgnored | main.cpp:40-44 | "8080x" is accepted as 8080 |
| PortPrompt.LeadingSpaceSkipped | main.cpp:40-44 | " 8500" is accepted as 8500 |
| PortPrompt.OutOfRangeExample | main.cpp:43-49 | "7999" converts and is rejected as out of range |
| PortPrompt.NotNumericExample | main.cpp:52-55 | "abc" is rejected because stoi throws invalid_argument |
| PortPrompt.OverflowExample | main.cpp:52-55 | "3000000000" is rejected because stoi throws out_of_range |
| PortPrompt.LineSettles | main.cpp:34-45 | the loop step that returns is at the first settling line and yields the recursive result |
| PortPrompt.LineIsRejected | main.cpp:46-55 | the loop step that prompts again leaves the recursive result unchanged |
| PeerConnection.Frame | peer.cpp:72 | the frame is the name followed by three more bytes and the message, ends with `'\n'`, and holds no other `'\n'` when name and message hold none |
| PeerConnection.Line | peer.cpp:42-44 | the line getline extracts holds no `'\n'` and, followed by one, is the front of the buffer |
| PeerConnection.Consume | peer.cpp:52 | consume(n) leaves the last max(0, size - n) bytes of the buffer |
| PeerConnection.AfterRead | peer.cpp:44-52 | after a read the buffer is a suffix of the old one, no longer than what follows the line |
| PeerConnection.LineLength | peer.cpp:39 | the length async_read_until reports ends just past the first `'\n'` |
| PeerConnection.LineLengthAt | peer.cpp:39 | the first `'\n'`, at k, gives length k + 1 |
| PeerConnection.AfterReadDropsTwice | peer.cpp:44-52 | after a read the buffer has lost its first 2 * length bytes, or all of them |
| PeerConnection.FrameDelivered | peer.cpp:72 | a frame at the front of the buffer, with no `'\n'` in name or message, is read back as name + ": " + message, and the bytes behind it lose up to the frame's length |
| PeerConnection.SecondFrameIsCut | peer.cpp:44-52 | of two frames in one read, the first is delivered and the second is cut, vanishing when its text is no longer than the first's |
| PeerConnection.Fill | peer.cpp:39 | the read appends no more chunks than have arrived |
| PeerConnection.FillStopsAtFirstLine | peer.cpp:39 | the read appends the first chunks, all of them bytes, in order, and stops only at a buffered `'\n'`, an error or the end of the arrivals |
| PeerConnection.FillTakesNoMore | peer.cpp:39 | the read stops at the first chance: no `'\n'` was buffered before its last chunk |
| PeerConnection.Peer.constructor | peer.cpp:5-7 | a new peer is not connected, has a closed socket, an empty buffer and no read armed, and carries the user name |
| PeerConnection.Peer.OpenSocket | main.cpp:71-76 | an accepted or connected socket is open |
| PeerConnection.Peer.CompleteHandshake | peer.cpp:20-32 | success sets the flag and arms exactly one read; failure clears the flag and arms none |
| PeerConnection.Peer.SendMessage | peer.cpp:63-84 | without a connection nothing is written; otherwise exactly the frame name + ": " + message + "\n" is appended to what was written |
| PeerConnection.Peer.ReadUntilNewline | peer.cpp:39 | the buffer becomes what the reference fill gives, and the number of chunks taken is reported |
| PeerConnection.Peer.HandleLine | peer.cpp:40-54 | the first line is delivered and printed when non-empty; the buffer loses it and up to length more bytes; the read is re-armed |
| PeerConnection.Peer.HandleReadError | peer.cpp:55-58 | after an error no read is armed |
| PeerConnection.Peer.ReadStep | peer.cpp:39-59 | a read with a buffered `'\n'` delivers the first line, prints it when non-empty, drops the extra bytes and re-arms; a read on a closed socket with no line buffered fails and takes nothing; an error disarms and leaves the console alone; otherwise the read stays pending on the filled buffer |
| PeerConnection.Peer.Shutdown | peer.cpp:92-120 | the socket is closed afterwards; the report says whether it was open; a closed socket stays closed, so a second call is a no-op apart from its report |
| ChatSession.ChatSends | main.cpp:97-103 | the lines the loop sends, read from the front: stop at "exit", skip empty lines |
| ChatSession.Relayed | main.cpp:97-103 | what the loop writes: the frames of the sent lines when connected, nothing otherwise |
| ChatSession.IsHost | main.cpp:199 | host mode if and only if the mode character, lower-cased, is 'y' |
| ChatSession.ExitIndex | main.cpp:101 | the position of the first "exit", with no "exit" before it |
| ChatSession.ChatSendsSnoc | main.cpp:97-103 | one more line before any "exit" is sent if and only if it is non-empty |
| ChatSession.NothingAfterExit | main.cpp:101 | nothing from the first "exit" on is sent |
| ChatSession.PrefixSends | main.cpp:97-103 | without "exit", the loop sends the non-empty lines in order |
| ChatSession.ChatSendsFiltersPrefix | main.cpp:97-103 | the loop sends exactly the non-empty lines before the first "exit", each once and in input order |
| ChatSession.ChatSendsClean | main.cpp:101-102 | no empty line and no "exit" is ever sent |
| ChatSession.FramesSnoc | peer.cpp:72 | one more message appends exactly its frame |
| ChatSession.ReadOneMore | main.cpp:98-102 | one pass of the loop over a non-"exit" line adds its frame when the line is non-empty and the peer is connected |
| ChatSession.ExitEndsLoop | main.cpp:101 | the loop stops at the first "exit", having sent everything it will |
| ChatSession.ExitIndexAt | main.cpp:101 | the first "exit" is where the exit index points |
| ChatSession.MessageLoop | main.cpp:97-103 | the loop stops at the first "exit"; what is written is the frames of the non-empty lines before it when connected, and nothing otherwise |
| ChatSession.Converse | main.cpp:97-106 | the session exits if and only if an "exit" is typed, and then calls shutdown exactly once, leaving the socket closed; the frames written are those of the message loop |

## Left out

- The TLS layer, the TCP acceptor and connector, and `io_context`: the handshake is reduced to its outcome and the stream to the arrivals of a read. Certificate loading in `config.cpp` is not part of this model.
- Threads: the I/O thread, the console thread's polling `while (!connected)` wait, `io.stop()` and `join()`. The model runs one action at a time.
- `shared_from_this` lifetime management, which has no counterpart in a garbage-collected model.
- Console rendering: `display_prompt`, the `"\33[2K\r"` escape and every status message. Printed chat lines are recorded in the `shown` log.
- The write completion handler of `send_message`, which only prints an error or redraws the prompt. `PeerConnection.Peer.SendMessage` records the frame when it is submitted; write errors are not modelled.
- `PeerConnection.Peer.Shutdown`: only the open/closed branch is modelled. The error codes of `shutdown` and `close` are only printed in the source, so they are not modelled.
- `PeerConnection.Peer.Shutdown` does not run the completion handler of a pending read. A later `ReadStep` on the closed socket fails unless a line is already buffered, as a cancelled read does.
- Character encoding: each `char` is one byte, and the UTF-8 encoding of console text is not modelled.
- The extraction of the user name and mode by `cin >>` and `cin.ignore`. The name and the mode character are parameters.
- The exception handlers in `create_peer` and `main`, which only print.
- `ChatSession.Converse`: the source's endless loop on exhausted input is modelled as returning `false` without shutdown, since a terminating method cannot spin forever.
