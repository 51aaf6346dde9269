# SIM900 modem driver — a verified model

This project models the AVR driver for the SIM900 GSM/GPRS modem (`src/sim9.c`,
`src/sim9.h`). The driver keeps one session record, `struct sim9_t`. The record holds:
- a 16-bit status union and a 16-bit error union, each with named bitfields;
- the IMEI buffer;
- the usart port.

The model follows the driver's layers:

- **sim9_header.dfy** (`Sim9Header`) covers `sim9.h`:
  - the search-type and answer-shape codes;
  - the two flag unions, as records with their `all` word packed little-endian bit by bit;
  - the round trips between those two views, and the fact that writing one bitfield changes only its own bits;
  - `errors.all == 0` exactly when no error flag is set.
- **cstrings.dfy** (`CStrings`) covers the C string functions the driver relies on (`strlen`, `strncmp`, `strstr`, `memcmp`) as functions over byte buffers. Lemmas tie each idiom to a prefix, occurrence or raw-window meaning.
- **transport.dfy** (`Transport`) covers the serial link as the driver sees it:
  - a queue of complete received lines (their count is the `eol` flag);
  - a script of lines that arrive during later delays;
  - a raw byte stream for `usart_get`;
  - the log of printed strings.

  The `Usart` class updates that state in place.
- **protocol.dfy** (`Protocol`) holds functions for `sim9_msg`, `sim9_searchfor(_P)` and `sim9_send_at(_P)`, with their properties:
  - what a message is;
  - how many polls and searches are made;
  - prefix versus substring matching;
  - the ERROR abort;
  - echo and answer-shape handling under C's short-circuit `&&`.

  The search loop is written once, as `Protocol.Scan`, over a reader and two tests passed as functions. Its lemmas hold for any reader that keeps the buffer's size and the link's log. `Protocol.Search` is that loop with `sim9_msg(buffer, size, 1)` as the reader (`ReaderConserves`) and the search code's comparison and "ERROR" test.
- **stages.dfy** (`Stages`) holds the higher routines as functions from one session record to the next:
  - the escape sequencer;
  - `sim9_on` with `pin_check`, `imei` and `network_registered`;
  - `sim9_off`;
  - the GPRS and TCP/IP bearer stages;
  - `sim9_wait4char`.

  Each retry loop is a recursive function, with lemmas for its exact attempt counts and its outcome.
- **session.dfy** (`Sim9`) holds the class `Session`, the session record itself. Every routine of `sim9.c` is a method that updates the fields and buffers in place, using the source's loops. Each method is proved to leave the state that the matching `Protocol` or `Stages` function computes:
  - `ensures State() == Stages.F(old(State()))`;
  - or, for the engine and the loops, equality of the link, the buffer and the returned verdict.

  The loops have one method per round. The round's `requires`/`ensures` are the loop invariant's step.

## Model

| member | source | states |
|---|---|---|
| Sim9Header.SearchTypeOf | src/sim9.h:62-68 | every search code below 6 names exactly one of the six search types, and decoding a type's code gives it back |
| Sim9Header.SearchCodesDistinct | src/sim9.h:62-68 | the six search codes are distinct, and each decodes to its own type |
| Sim9Header.ShapeOf | src/sim9.h:78-82 | answer codes 0-3 name the four shapes; any larger code acts as NONE (the `default` branch) |
| Sim9Header.ShapeCodesDistinct | src/sim9.h:78-82 | the four answer-shape codes are distinct, and each decodes to its shape |
| Sim9Header.StatusRoundTrip | src/sim9.h:119-160 | the bitfield view and the `all` word of the status union describe the same 16 bits, both ways round (ready bit 0 … connected bit 13) |
| Sim9Header.StatusClearedAll | src/sim9.c:656 | `status.all = 0` clears every status field, and the cleared record packs to 0 |
| Sim9Header.StatusFieldWrite | src/sim9.h:119-160 | writing any named status field (`ready`, `gprs`, `cid`, `sapbr`, `http`, `provider`, `tsMode`, the 4-bit `tcpip`, `echo`, `connected`) changes that field of `all` and no other bit |
| Sim9Header.ErrorsRoundTrip | src/sim9.h:163-201 | the error union's two views agree, for every field including the 5 unused bits |
| Sim9Header.ErrorsFieldWrite | src/sim9.h:163-201 | writing any named error flag changes that flag of `all` and no other bit, the unused bits included |
| Sim9Header.ErrorsOfAll | src/sim9.h:163-201 | unpacking then packing any error word gives the word back |
| Sim9Header.ErrorsAllZero | src/sim9.c:715-721 | `errors.all` is 0 exactly when no error field is set, and exactly when the record is the cleared one |
| CStrings.CStrUnique | src/sim9.c:198 | a buffer's C string is the NUL-free prefix that ends at a NUL or at the buffer's end |
| CStrings.StrNCmpPrefix | src/sim9.c:302 | `strncmp(s, buffer, strlen(s)) == 0` holds exactly when `s` is a prefix of the buffer's string |
| CStrings.OccursIff | src/sim9.c:295 | `strstr(buffer, s) != NULL` holds exactly when `s` occurs in the buffer's string at some index |
| CStrings.MemEqStopsAtNul | src/sim9.c:555 | a raw `memcmp` against a NUL-free pattern fails whenever the compared window holds a NUL |
| CStrings.MemEqAtStart | src/sim9.c:555 | at offset 0, `memcmp` with a NUL-free pattern is a prefix test on the C string, whatever follows the terminator |
| CStrings.Truncate | src/sim9.c:352-358 | the PROGMEM copy keeps a prefix of the string, of length `min(len, rx size)` |
| Transport.TickStream | src/sim9.c:182 | a delay moves arriving lines into the queue without losing, inventing or reordering any |
| Transport.DequeueStream | src/sim9.c:184-186 | `usart_getmsg` removes exactly the first line of the stream |
| Transport.GetByte | src/sim9.c:135 | `usart_get` reports a byte exactly when one is available, and consumes exactly that byte |
| Protocol.Poll | src/sim9.c:179-192 | the poll loop ends with length 0 or 3..size, prints nothing, and waits between 1 and `loop + 1` times |
| Protocol.PollStream | src/sim9.c:181-192 | the lines the loop consumes are the front of the stream, in order |
| Protocol.PollShape | src/sim9.c:184-192 | every consumed line is short (under 3 bytes) except the last one of a message; the returned length is that line's length cut to size |
| Protocol.PollHistory | src/sim9.c:181-192 | both facts above together |
| Protocol.Msg | src/sim9.c:169-208 | `sim9_msg` returns 0 or 3..size, keeps the buffer's size, waits 1 to `timeout*100+1` times, and after a message the string ends at index `len-2` or before |
| Protocol.Terminate | src/sim9.c:197-198 | `s[len-2] = 0` keeps the bytes before it and bounds the string length by `len-2` |
| Protocol.MsgString | src/sim9.c:184-198 | after a nonzero return the buffer's string is the last consumed line less its last two bytes (up to any NUL in it), and every earlier consumed line was short |
| Protocol.MsgNothing | src/sim9.c:184-192 | with no message, every consumed line was short and the buffer holds only what those reads copied |
| Protocol.MsgTimeout | src/sim9.c:179-192 | on a silent link, `sim9_msg` returns 0 after exactly `timeout*100+1` waits and leaves the buffer alone |
| Protocol.MsgZeroTimeout | src/sim9.c:179-192 | with timeout 0 it polls exactly once |
| Protocol.MsgCutsLongLine | src/sim9.c:184-198 | a first line at least as long as the buffer gives a message of `size` bytes whose string is that line's first `size-2` characters (so the 18-byte identity buffer keeps 16 characters of a 17-digit answer) |
| Protocol.MsgIgnoresContents | src/sim9.c:185-198 | the buffer's previous contents change neither the length, nor the link, nor (after a message) the string read |
| Protocol.MatchesIff | src/sim9.c:291-305 | RELAX/ERELAX match iff the pattern occurs in the message; every other code, ESTRICT and unknown codes included, matches iff it is a prefix |
| Protocol.PrefixSearchStricter | src/sim9.c:291-305 | anything EQUAL accepts, RELAX accepts too |
| Protocol.Scan | src/sim9.c:288-315 | for any size-keeping reader and any tests: 1 to `count + 1` reads; a true verdict means the last message matched; stopping early without a match means the stop test held; a matching first message succeeds after one read |
| Protocol.ScanFails | src/sim9.c:288-315 | the search fails iff no message it reads matches, up to one that stops it or the end of the budget |
| Protocol.ScanAfterMisses | src/sim9.c:288-315 | after k messages that neither match nor stop it, the search goes on as one with k fewer tries from the link and buffer they left |
| Protocol.ScanFirstMatch | src/sim9.c:288-315 | after k such messages, a matching next message ends the search with success after exactly k+1 reads, leaving that read's link and buffer |
| Protocol.ScanMissesBefore | src/sim9.c:288-315 | every message read before the last one neither matched nor stopped the search |
| Protocol.ScanLastRead | src/sim9.c:288-315 | the outcome is the last read's: its link and buffer are left, the verdict is whether it matched, and a failure with budget left means it stopped the search |
| Protocol.ReaderConserves | src/sim9.c:290 | `sim9_msg(buffer, size, 1)` keeps the buffer's size and the link's log, and its length, link and string do not depend on what the buffer held |
| Protocol.TestsOnString | src/sim9.c:291-313 | the match and "ERROR" tests look only at the buffer's C string |
| Protocol.ScanIgnoresContents | src/sim9.c:285-315 | for such a reader and such tests, two buffers of one size give the same verdict, the same number of reads and the same link |
| Protocol.Search | src/sim9.c:288-315 | the loop over `sim9_msg` reads 1 to `count + 1` messages, succeeds only on a match, and succeeds after one read when the first message matches |
| Protocol.SearchSucceeds | src/sim9.c:288-315 | for `sim9_msg` and the code's tests: the search fails iff no message it reads matches, and it succeeds on its first matching message |
| Protocol.SearchIgnoresContents | src/sim9.c:264-290 | the contents the search buffer starts with change neither the verdict, nor the number of reads, nor the link |
| Protocol.SearchFullBudget | src/sim9.c:288-315 | a failing search with a code other than EEQUAL/ERELAX reads exactly `count + 1` messages |
| Protocol.SearchStopsOnError | src/sim9.c:307-315 | for EEQUAL/ERELAX and any size-keeping reader, a non-matching "ERROR" message ends the search with false after that one message |
| Protocol.SearchIgnoresErrorUnlessAware | src/sim9.c:298-315 | for any size-keeping reader, other codes read on past a non-matching message while budget is left |
| Protocol.SearchCodeKinds | src/sim9.c:291-305 | only EEQUAL and ERELAX watch for ERROR; only RELAX and ERELAX search for a substring |
| Protocol.SearchFor | src/sim9.c:253-334 | the search prints nothing, reads 1 to `count + 1` messages, keeps the caller's buffer size, succeeds only on a matching message, and succeeds at once when the first message read matches |
| Protocol.SearchForP | src/sim9.c:346-364 | the PROGMEM variant searches with the pattern cut to the receive buffer's size, with the same bounds and the same first-message success |
| Protocol.Echo | src/sim9.c:420-427 | with echo on, the LF is sent and the echo searched; with echo off, nothing happens and the phase passes |
| Protocol.Reply | src/sim9.c:429-450 | after a failed echo no line is read and the verdict is false; a positive MSG/MSGOK verdict leaves a string of at most `size-2` in the buffer |
| Protocol.ReplyAnswered | src/sim9.c:429-450 | per shape: NONE succeeds iff the echo did; OK iff the echo and the "OK" search did; MSGOK iff the echo did, a message was read and then the "OK" search succeeded (the switch's fall-through); MSG iff the echo did and a message was read; after a message the buffer holds the line read less its CR LF |
| Protocol.SendAt | src/sim9.c:405-451 | exactly `cmd`, CR and (with echo) LF are printed, and a positive MSG/MSGOK verdict bounds the payload string |
| Protocol.SendAtP | src/sim9.c:458-476 | the same, with the command cut to the receive buffer's size |
| Protocol.SendAtEchoFailure | src/sim9.c:432-445 | a missing echo makes the command fail without reading a line or touching the caller's buffer |
| Protocol.SendAtNoEcho | src/sim9.c:410-430 | with echo off, the command is the CR, one wait and the answer phase alone |
| Protocol.SendAtVerdict | src/sim9.c:405-451 | `sim9_send_at`'s verdict, per shape, is its echo search's verdict combined with the answer phase as ReplyAnswered states |
| Protocol.SendAtPVerdict | src/sim9.c:458-476 | the same for `sim9_send_at_P`, whose echo search looks for the command cut to the receive buffer |
| Stages.Guard | src/sim9.c:488-502 | the guard prints `+++` and, with echo, a CR LF, and nothing else |
| Stages.EscapeRound | src/sim9.c:487-511 | a round prints `+++` exactly when it begins connected, then the `AT` probe |
| Stages.EscapeLoop | src/sim9.c:485-512 | at most `retry` rounds run; a session still connected at the end ran them all |
| Stages.EscapeStaysConnected | src/sim9.c:487-512 | the loop ends connected iff every one of its probes failed |
| Stages.Escape | src/sim9.c:483-518 | `errors.esc == status.connected` on exit, and no other flag changes |
| Stages.EscapeProbes | src/sim9.c:485-512 | one to three probes are made, three whenever the session stays connected |
| Stages.EscapeFirstProbe | src/sim9.c:487-511 | a connected session whose first probe answers sees one `+++` and one `AT`, and ends disconnected with no escape error |
| Stages.ImeiLoop | src/sim9.c:535-540 | the identity is accepted only with 15 to 16 characters; a failure used all the rounds; each round prints one command |
| Stages.ImeiLoopIff | src/sim9.c:535-540 | the identity stays missing iff every query was refused (the command failed or gave 14 characters or fewer); an accepted first answer ends the loop after one round, with that answer stored |
| Stages.Imei | src/sim9.c:527-541 | only `errors.imei` and the buffer change; `errors.imei` is set iff all ten queries were refused; with no error, the stored identity has 15 or 16 characters |
| Stages.ImeiAttempts | src/sim9.c:529-540 | one to ten attempts are made, ten when it fails, with one command printed per attempt |
| Stages.PinCheck | src/sim9.c:544-561 | only `errors.pin` changes |
| Stages.PinCheckIff | src/sim9.c:552-558 | the PIN check passes iff the query succeeds and its answer begins with `+CPIN: READY` |
| Stages.NetRegLoop | src/sim9.c:577-589 | success means the answer began with `+CGREG: 0,1`; a failure used all the rounds |
| Stages.NetRegLoopIff | src/sim9.c:577-589 | the registration stays missing iff every query, each after a wait, was refused (the command failed or the answer did not begin with `+CGREG: 0,1`); an accepted first answer ends the loop after one round |
| Stages.NetworkRegistered | src/sim9.c:567-592 | only `errors.netreg` changes, and it is set iff all five queries were refused |
| Stages.NetworkRegisteredAttempts | src/sim9.c:572-589 | one to five attempts are made, five when it fails, and success needs the home-network answer |
| Stages.PowerUp | src/sim9.c:655-675 | both flag words are cleared and the identity is kept |
| Stages.ResetLink | src/sim9.c:677-689 | before the factory reset, exactly `AT`, the speed and the URC commands are printed, and the queue is emptied |
| Stages.Configure | src/sim9.c:677-691 | only `errors.init` may change; it is set iff it was already set or `AT&F&C0&D0` fails |
| Stages.Lights | src/sim9.c:693-712 | only `status.echo` changes, to SIM9_ECHO_ENA; `ATE1` (or `ATE0`), the three `SLEDS` commands and the net light command are printed, in that order |
| Stages.OnSetup | src/sim9.c:653-712 | after the setup, the status is cleared except for echo; the only possible error is `init`, set iff the factory reset failed |
| Stages.Batch | src/sim9.c:678-683 | a batch prints each command's text in turn, n commands' worth of strings |
| Stages.BatchText | src/sim9.c:678-683 | the text of n commands is n commands' worth of strings |
| Stages.OnChecks | src/sim9.c:714-725 | the checks leave the status alone |
| Stages.On | src/sim9.c:653-726 | after `sim9_on` the status is cleared except for echo |
| Stages.OnStopsOnInitError | src/sim9.c:715-725 | a failed factory reset skips all three checks |
| Stages.OnStopsOnPinError | src/sim9.c:718-725 | a failed PIN check skips the identity and registration checks |
| Stages.OnStopsOnImeiError | src/sim9.c:721-725 | a missing identity skips the registration check |
| Stages.OnSuccess | src/sim9.c:714-725 | an error-free bring-up passed the factory reset and the PIN check, and stored a 15- or 16-character identity |
| Stages.OnUnusedClear | src/sim9.c:656-657 | after `sim9_on` the unused error bits are 0, so `errors.all == 0` iff no named error flag is set |
| Stages.Off | src/sim9.c:730-739 | exactly `AT+CPOWD=1\r` is printed before the search, and the identity is kept |
| Stages.OffOutcome | src/sim9.c:734-738 | power-down either clears `ready` or sets `errors.off`, as the report arrives or not, and nothing else changes |
| Stages.Cgatt | src/sim9.c:741-761 | a check prints one command |
| Stages.CgattIff | src/sim9.c:750-758 | after a successful query, `status.gprs` is set iff the answer begins with `+CGATT: 1`; a failed query sets `errors.gprs` and leaves `status.gprs` |
| Stages.CheckCgatt | src/sim9.c:741-761 | only `status.gprs` and `errors.gprs` change |
| Stages.GprsPoll | src/sim9.c:775-779 | 1 to `retry + 1` checks are made, all of them whenever the wanted state is not reached; a first check that reports the wanted state ends the poll with its outcome; an error once set stays set |
| Stages.CgattErr | src/sim9.c:745-760 | a check's reading and link do not depend on the error flag it is handed, which it passes on or sets |
| Stages.GprsPollOutcome | src/sim9.c:775-779 | the poll ends in the wanted state unless every check missed it, and with `errors.gprs` set iff it was set before or a check's query failed |
| Stages.GprsSwitch | src/sim9.c:771-782 | at most six checks, one command printed per check plus the switch command; after a good switch command the state is the wanted one unless all six checks missed it; a failed one keeps the state; the error is set iff the command or a check's query failed |
| Stages.GprsSwitchPolls | src/sim9.c:773-782 | a failed attach or detach never calls `check_cgatt` and sets `errors.gprs`; otherwise it is called 1 to 6 times, 6 whenever the wanted state was not reached |
| Stages.GprsConnect | src/sim9.c:767-783 | only `status.gprs` and `errors.gprs` change |
| Stages.GprsConnectOutcome | src/sim9.c:767-783 | after a good `AT+CGATT=1`, `status.gprs` is set iff one of the checks saw the attachment; a failed command leaves it; `errors.gprs` is set iff the command or a check's query failed |
| Stages.GprsDisconnect | src/sim9.c:787-802 | only `status.gprs` and `errors.gprs` change |
| Stages.GprsDisconnectOutcome | src/sim9.c:787-802 | after a good `AT+CGATT=0`, `status.gprs` stays set iff every check still saw the attachment; a failed command leaves it; `errors.gprs` is set iff the command or a check's query failed |
| Stages.Carrier | src/sim9.c:824-829 | the carrier read from the answer is never 0 |
| Stages.CarrierOfOperator | src/sim9.c:809-829 | on an answer `+COPS: m,f,"name…"`, TIM is 3 iff the name starts `I TIM`, Vodafone is 2 iff not and `odafo` follows the first letter, and otherwise it is 1 |
| Stages.CarrierPastString | src/sim9.c:824 | the comparisons read raw bytes, so after a short answer the stale bytes at offset 12 can still select TIM |
| Stages.ApnChoose | src/sim9.c:822-835 | a provider is set iff the `+COPS:` line was found, read from it by Carrier; otherwise provider 0 and `errors.apn` |
| Stages.ApnSetupSawCops | src/sim9.c:822-835 | a nonzero provider was chosen only from a line containing `+COPS:` |
| Stages.ApnCommand | src/sim9.c:876-891 | every provider but 0 has an access-point command |
| Stages.ApnCommandsDistinct | src/sim9.c:876-891 | the three access-point commands are distinct |
| Stages.GprsWireless | src/sim9.c:840-845 | only `errors.tcpip` changes; it is set iff it was already set or `AT+CIICR` fails |
| Stages.TcpipMode | src/sim9.c:857-867 | the mode commands change only the link, with two commands printed |
| Stages.SetApn | src/sim9.c:876-891 | a known provider prints exactly its access-point command; provider 0 sets `errors.apn` and sends nothing |
| Stages.TcpipSetup | src/sim9.c:855-891 | the identity and the unused error bits are kept |
| Stages.TcpipOn | src/sim9.c:851-903 | the identity and the unused error bits are kept; after an error-free setup, a failed `AT+CIICR` ends the stage in the wireless connection's state without `AT+CIFSR`; when neither recorded an error, `AT+CIFSR` is sent after `AT+CIICR` on its link |
| Stages.TcpipOnGating | src/sim9.c:893-902 | after an error in the setup, neither `AT+CIICR` nor `AT+CIFSR` is sent |
| Stages.TcpipNoProvider | src/sim9.c:876-902 | without a provider, `errors.apn` is set and nothing further is sent |
| Stages.WaitLoop | src/sim9.c:130-142 | `sim9_wait4char` finds c iff c is among the first `timeout` available bytes, and prints nothing |
| Sim9.Session.constructor | src/sim9.c:611-634 | `sim9_init` clears both words, allocates the three strings and empties them, and opens the port |
| Sim9.Session.Shut | src/sim9.c:638-647 | the port is closed |
| Sim9.Session.Suspend | src/sim9.c:594-597 | reception is suspended |
| Sim9.Session.Resume | src/sim9.c:599-602 | reception resumes, and nothing else changes |
| Sim9.Session.Send | src/sim9.c:83-109 | exactly one string is appended to the port's log |
| Sim9.Session.ClearRxBuff | src/sim9.c:116-119 | the queued lines are dropped, and nothing else changes |
| Sim9.Session.PollLoop | src/sim9.c:179-192 | the in-place poll loop ends in the state `Protocol.Poll` gives, with the buffer overlaid by the lines it read |
| Sim9.Session.Msg | src/sim9.c:169-208 | in-place `sim9_msg` equals `Protocol.Msg` on the length, the buffer and the link |
| Sim9.Session.Scan | src/sim9.c:288-315 | the in-place search loop equals `Protocol.Search`, whose outcome SearchSucceeds states |
| Sim9.Session.SearchFor | src/sim9.c:253-334 | in-place `sim9_searchfor` equals `Protocol.SearchFor`, for the caller's buffer or a scratch one |
| Sim9.Session.SearchForP | src/sim9.c:346-364 | the same, for `Protocol.SearchForP` |
| Sim9.Session.SendAt | src/sim9.c:405-451 | in-place `sim9_send_at` equals `Protocol.SendAt` on the verdict, the message buffer and the link |
| Sim9.Session.SendAtP | src/sim9.c:458-476 | the same, for `Protocol.SendAtP` |
| Sim9.Session.EscapeRetries | src/sim9.c:485-512 | the three-round loop equals `Stages.EscapeLoop` |
| Sim9.Session.Escape | src/sim9.c:483-518 | the session after `sim9_escape` is `Stages.Escape` of the one before |
| Sim9.Session.ImeiRetries | src/sim9.c:535-540 | the ten-round loop equals `Stages.ImeiLoop`, on the session's own buffer, whose outcome ImeiLoopIff states |
| Sim9.Session.Imei | src/sim9.c:527-541 | the session after `imei` is `Stages.Imei` of the one before |
| Sim9.Session.PinCheck | src/sim9.c:544-561 | the session after `pin_check` is `Stages.PinCheck` of the one before |
| Sim9.Session.NetRegRetries | src/sim9.c:577-589 | the five-round loop equals `Stages.NetRegLoop`, whose outcome NetRegLoopIff states |
| Sim9.Session.NetworkRegistered | src/sim9.c:567-592 | the session after `network_registered` is `Stages.NetworkRegistered` of the one before |
| Sim9.Session.Configure | src/sim9.c:677-691 | equals `Stages.Configure` |
| Sim9.Session.On | src/sim9.c:653-726 | the session after `sim9_on` is `Stages.On` of the one before, with the port resumed |
| Sim9.Session.Off | src/sim9.c:730-739 | the session after `sim9_off` is `Stages.Off` of the one before |
| Sim9.Session.CheckCgatt | src/sim9.c:741-761 | equals `Stages.CheckCgatt` |
| Sim9.Session.GprsRetries | src/sim9.c:775-779 | the do-while poll equals `Stages.GprsPoll` with five decrements, whose outcome GprsPollOutcome states |
| Sim9.Session.GprsConnect | src/sim9.c:767-783 | equals `Stages.GprsConnect` |
| Sim9.Session.GprsDisconnect | src/sim9.c:787-802 | equals `Stages.GprsDisconnect` |
| Sim9.Session.ApnSetup | src/sim9.c:813-838 | equals `Stages.ApnSetup`, for the contents `junk` that its uninitialised buffer held |
| Sim9.Session.GprsWireless | src/sim9.c:840-845 | equals `Stages.GprsWireless` |
| Sim9.Session.TcpipOn | src/sim9.c:851-903 | the new state equals `Stages.TcpipOn`, for the contents `junk` of apn_setup's buffer, so both of its gates hold: no `AT+CIICR` or `AT+CIFSR` after a setup error, no `AT+CIFSR` after a failed `AT+CIICR`, both in order when neither failed |
| Sim9.Session.Wait4Char | src/sim9.c:130-142 | the in-place loop equals `Stages.WaitLoop`: found iff c comes within `timeout` reads |

## Left out

- Debug output (`sim9_debug`, `sim9_debug_P`, `debug_usart_buffer`, the `SIM9_DEBUG_PORT` blocks) is a side channel and is not modelled.
- The GPIO register writes and the power pulse of `sim9_on` are hardware I/O and are not modelled. Only their delays appear, as ticks.
- `_delay_ms` is one tick of the link clock. A delay delivers the next batch of arriving lines; wall-clock durations are not modelled.
- The usart driver is not part of this model. It is given assumed behaviour:
  - `getmsg` dequeues one line and copies as much as fits;
  - `get` takes one raw byte;
  - printing appends to a log;
  - clearing drops the queue.

  The interrupt that sets `eol` asynchronously is replaced by arrivals at delays: concurrency is not modelled.
- Raw bytes for `usart_get` are a separate queue that delays do not refill. In `sim9_wait4char`, bytes arriving during the wait are not modelled.
- `malloc`/`free` are fresh arrays. Scratch buffers (search, PIN, registration, attachment, IP query) start NUL-filled. `Protocol.SearchIgnoresContents` shows that a search buffer's initial contents change neither the search's verdict nor its link. For the query buffers, `Protocol.MsgIgnoresContents` shows that a message leaves the same string whatever the buffer held, and `CStrings.MemEqAtStart` shows that the prefix checks look only at that string. The 30-byte buffer of `apn_setup`, whose stale bytes can matter, keeps its contents as a ghost parameter `junk`.
- `sim9_send_P` cuts the string to the port's transmit size with `strncpy_P`. That cut is not modelled, because every string the driver sends is shorter than any transmit buffer. The `_P` search and command wrappers' cut to the receive size is modelled.
- CStrings.Truncate: the `_P` wrappers' `uint8_t` size `strnlen_P(s, rx->size) + 1` wraps to 0 when the receive buffer is 255 bytes and the string has 255 characters or more, and `malloc(0)` and `buffer[-1] = 0` would follow. The model keeps 255 characters instead, because every string the driver passes is a short literal.
- The `uint8_t` budget `flags.eol + 1` is modelled with its wrap-around; the `uint16_t` counter `timeout * 100` of `sim9_msg` cannot overflow for a `uint8_t` timeout.
- `sim9_init` writes `sim9->flags`, which `struct sim9_t` does not declare; the constructor does not model that write. The singleton check (`if (!sim9)`) is implicit, because the constructor builds one session. The GPS strings are allocated and emptied but otherwise unused.
- `sim9_shut` releasing the memory and nulling `tx_buf` and `usart` is not modelled; the model only marks the port closed.
- Sim9.Session.EscapeRetries, ImeiRetries, NetRegRetries and GprsRetries: the flag each C loop keeps in `status` or `errors` is carried in a local during the rounds and stored by the caller right after. Nothing reads the field in between, so the final state is the same.
- Sim9.Session.Configure writes `errors` on both branches; the write is the identity when the factory reset succeeds.
- `sim9_connect`, `sim9_disconnect` and `sim9_check_connection` are declared in `sim9.h` but defined in no file of the driver, so they are not modelled.
- The big-endian bitfield layout is not modelled, because the AVR target is little-endian.
- `src/apn_config_template.h` contains only commented-out configuration and is not part of this model.
