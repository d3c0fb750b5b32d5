# cosock socket layer, modelled in Dafny

This project models the C core of cosock (`clibs/`). It is the layer that the Lua bindings and the sample servers build on.

- **The endpoint descriptor parser** `_parse_socket_info`. It reads a text such as `@tcp:127.0.0.1:8000`, `>tcp:[::1]:9000` or `@unix:/tmp/s` into a socket type code and an address (`SockParse`, on top of the C library string functions in `CString`).
- **The `sock_t` handle**: `sock_new`, `sock_init`, `sock_read`, `sock_write`, `sock_accept`, `sock_close`, `sock_term`, `sock_destroy`, `sock_lcopy`, the accessors and `sock_type_str` (`SockTypes`, `Sockets`).
- **The utility wrappers**: `set_nonblock`, the retrying `Read` and `Write`, and the `safe_close`, `safe_free` and `MALLOC` macros (`Util`).
- **The `epoll_fd_t` container**: create, close, add, mod, del, wait and `epoll_events` (`Epoll`).

The operating system is the class `Kernel.Os`. Every system call is an oracle: its answer is a parameter of the operation that makes the call. `Os` logs which descriptors were closed, which blocks were freed, which F_SETFL writes were issued and which epoll_ctl calls were made. Through that log the contracts can say exactly which calls an operation makes. Each oracle is passed in this way:

- `outcomes`: the sequence of answers read(2) or write(2) gives.
- `created`: the result of the socket creator or of epoll_create.
- `accepted`: the result of Accept, or the kernel's answer to F_SETFL.
- `obtained`: whether calloc or malloc succeeded.
- `result`: epoll_ctl's answer.
- `ready` and `fails`: what epoll_wait has pending, and whether it fails.

Where the code has state, the model has state too:

- `sock_t` is the class `Sockets.Sock`.
- `epoll_fd_t` is the class `Epoll.EpollFd`, whose events buffer is an `array`.
- The loops of `Read` and `Write` are `while` loops.

The parser and the decisions around it are pure functions, each with lemmas. `Sock.Init`, `New`, `Sock.Read`, `Sock.Write`, the two `SetNonblock` methods and `EpollFd.Add` are tied by their postconditions to one of these functions (`InitEffect`, `ReadStep`, `WriteStep`, `AfterNonblock`). The other stateful methods (`Sock.Accept`, `Sock.Term`, `Lcopy`, `Destroy` and the rest of `EpollFd`) state their new state directly.

A C string is its characters before the terminator (`CString.NoNul`). `SockParse.Defined` says that the parser never reads past the terminator. Every parser lemma establishes it for the texts it covers. `uint8_t` and `uint16_t` stores are written out as `% 0x100` and `% 0x1_0000`. glibc's `atoi` is `(int) strtol(s, NULL, 10)`, which saturates at the bounds of `long` and then wraps to 32 bits.

The central results:

- **Round trip**: `SockParse.FormatParse`. Every well-formed descriptor parses back to the endpoint it denotes, whether unix, bare or bracketed.
- **Failures**: the lemmas `ParseUnclosed` and `ParseNoSeparator`, and the `IpTooLong` branches of `ParseBracketed` and `ParseBare`, give each way the parser refuses an address.
- **Type codes**: `SockTypes.TypeCodeLayout` shows that the codes follow the mask-and-low-nibble layout of sock.h and that `Decode` inverts the encoding.
- **Read and write**: the loops are proved against `Util.ReadResult` and `Util.WriteResult`. The lemmas give the result ranges, the retry on EINTR, and where the two wrappers differ, namely on EAGAIN.

Header and body do not agree in a few places in the repository. The model takes what the code evidently means:

- `_parse_socket_info` writes `self->addr.domain` (clibs/sock.c:99, 112, 114), but the union has no such member. The model writes `sock_t.domain`.
- `sock_accept` writes `cli->addr.ip` and `cli->addr.port` (clibs/sock.c:196-200). The model writes the `net` member.
- `sock_tostring` masks with `IO_SOCKET_TYPE_MASK` (clibs/sock.c:28), but the header defines `SOCKET_TYPE_MASK` (0xf0).
- `sock_init` calls `tcp_client_create` with two arguments (clibs/sock.c:137), but the declaration has a third, `int8_t *is_connected` (clibs/sock.h:106). The model records the two-argument call, and `is_connected` is never written.
- clibs/epoll.h:17 declares `epoll_fd_release`, but clibs/epoll.c defines `epoll_fd_close`. The model has `EpollFd.Close`.

Some behaviour of the code is easy to miss. The model follows the code:

- **Port separator**: the comment at clibs/sock.h:73-80 documents the format as `{ip|unix_path}[:port]`, with the port optional.
  - A bare tcp or udp address needs a ':'. Without a '[' or a ':' it is refused (clibs/sock.c:101-103, `ParseNoSeparator`).
  - A bracketed address does not need one. The character after the ']' is skipped unchecked (clibs/sock.c:97), so `[ip]` followed by any one character parses with port 0 (`ParseBracketedNoPort`).
- **Port value**: an empty or non-numeric port text gives port 0 (`PortOfNonNumeric`). A negative one is stored modulo 65536, so "-1" gives 65535 (`PortOfNegative`).
- **IPv6 selection**: the code chooses IPv6 when the address is bracketed, or when a bare ip merely starts with `*` (clibs/sock.c:111).
- **Unix path**: the path is copied with `strncpy` into 108 bytes, so a 108-byte path is not terminated (clibs/sock.c:80).
- **Would-block read**: a would-block `Read` returns `-EAGAIN`, and `sock_read` then closes the handle. A would-block `Write` returns 0 and keeps it (clibs/sock.c:238-242, clibs/util.c:36-39, 61-64).
- **Accept when not ready**: `sock_accept` reports every Accept failure as -1. It has no separate not-ready outcome (clibs/sock.c:189).
- **Closed-handle test in `sock_read`**: the test is `sock_is_closed(self) < 0`, and `sock_is_closed` only returns 0 or 1, so the early refusal never happens. `Read` refuses the negative descriptor itself (clibs/sock.c:233).

## Model

| member | source | states |
|---|---|---|
| CString.Find | clibs/sock.c:85-87 | strstr with a one-character needle: the index it returns holds that character |
| CString.FindFirst | clibs/sock.c:85-87 | strstr returns the first occurrence, and NULL exactly when the character does not occur |
| CString.FindAfter | clibs/sock.c:101 | after a prefix free of the character, strstr finds the character at the prefix's length |
| CString.Strncpy | clibs/sock.c:80 | strncpy keeps exactly the first n characters of the source, or all of a source that fits |
| CString.SkipSpace | clibs/sock.c:118 | strtol skips the leading white space: every skipped character is white space, and the rest is a suffix that does not start with one |
| CString.SpaceRun | clibs/sock.c:118 | the white space strtol skips: all white space, and the next character is not |
| CString.SpaceRunOver | clibs/sock.c:118 | the white-space run of white space in front of a text that does not start with one is exactly that white space |
| CString.SkipSpaceOver | clibs/sock.c:118 | strtol skips exactly a run of white space in front of a text that does not start with one |
| CString.DigitRun | clibs/sock.c:118 | the digits strtol consumes: all digits, and the next character is not one |
| CString.Strtol | clibs/sock.c:118 | strtol's result lies within the range of `long`; its value is given by the Strtol and Atoi lemmas below |
| CString.Convert | clibs/sock.c:118 | what strtol reads after the white space: the sign and leading digits, within the range of `long` |
| CString.Saturate | clibs/sock.c:118 | strtol's overflow clamp: the value itself when it fits, LONG_MAX on overflow and LONG_MIN on underflow |
| CString.WrapInt | clibs/sock.c:118 | the cast to `int` gives a 32-bit value congruent to its argument, equal to it when in range |
| CString.Atoi | clibs/sock.c:118 | atoi's result lies within the range of `int` |
| CString.Decimal | clibs/sock.h:76-80 | the decimal spelling of a port in a descriptor is a non-empty digit string |
| CString.ValueOfDecimal | clibs/sock.c:118 | the value of a decimal spelling is the number spelled |
| CString.DigitRunOfDigits | clibs/sock.c:118 | strtol consumes exactly the digit string in front of a non-digit |
| CString.StrtolOfDigits | clibs/sock.c:118 | strtol reads a digit string in front of a non-digit as its value |
| CString.StrtolUnsigned | clibs/sock.c:118 | strtol reads a text starting with a digit as its leading digits, saturated at LONG_MAX |
| CString.StrtolOfDecimal | clibs/sock.c:118 | strtol reads back any spelled number up to LONG_MAX, whatever non-digit follows |
| CString.AtoiOfDecimal | clibs/sock.c:118 | atoi reads back any spelled number up to INT_MAX, whatever non-digit follows |
| CString.AtoiOfSpelling | clibs/sock.c:118 | atoi reads back the spelling of any number up to INT_MAX |
| CString.AtoiOfNonNumeric | clibs/sock.c:118 | atoi of an empty or non-numeric text is 0 |
| CString.StrtolNoSpace | clibs/sock.c:118 | a text that does not start with white space is converted as it stands |
| CString.StrtolAfterSpace | clibs/sock.c:118 | leading white space does not change what strtol reads |
| CString.MagnitudeOfDigits | clibs/sock.c:118 | the leading digits of a digit string in front of a non-digit have that string's value |
| CString.ConvertSign | clibs/sock.c:118 | after a sign strtol reads the leading digits, negated for '-' and clamped |
| CString.ConvertSigned | clibs/sock.c:118 | after a sign, a digit string in front of a non-digit reads as its value, negated for '-' |
| CString.StrtolSignedDigits | clibs/sock.c:118 | strtol reads a sign and a digit string in front of a non-digit as the signed value |
| CString.StrtolSpacedDigits | clibs/sock.c:118 | strtol reads white space and a digit string in front of a non-digit as its value |
| CString.StrtolSpacedSigned | clibs/sock.c:118 | strtol reads white space, a sign and a digit string in front of a non-digit as the signed value |
| CString.AtoiOfNegative | clibs/sock.c:118 | atoi reads '-' and a digit string up to INT_MAX in front of a non-digit as the negated value |
| SockTypes.Decode | clibs/sock.h:20-32 | decoding a concrete type code gives the transport and role that encode to it |
| SockTypes.TypeCodeLayout | clibs/sock.h:18-32 | each code is below 0x100, masks to its transport's base, has low part 1 for servers and 2 for clients, and decodes back |
| SockTypes.TypeName | clibs/sock.c:5-23 | sock_type_str answers "unknow" exactly for the codes that are not one of the six concrete ones |
| SockTypes.TypeNameSpells | clibs/sock.c:5-23 | sock_type_str names each concrete code keyword-dash-role ("tcp-serv", "unix-cli", ...) and every other code "unknow" |
| SockTypes.TypeNameInjective | clibs/sock.c:5-23 | different concrete codes get different names |
| SockParse.U8 | clibs/sock.c:93-105 | the `uint8_t` length keeps the low eight bits: below 256, congruent to the length modulo 256, equal to it below 256 |
| SockParse.SplitIp | clibs/sock.c:84-115 | an accepted ip is at most 63 characters and its family is AF_INET or AF_INET6 |
| SockParse.U16 | clibs/sock.c:118 | the conversion to `uint16_t` keeps the low sixteen bits: congruent modulo 65536, and equal below 65536 |
| SockParse.PortOf | clibs/sock.c:118 | the `uint16_t` port is congruent to atoi's result modulo 65536, and equal to it whenever that is a valid port |
| SockParse.ParseAddress | clibs/sock.c:78-119 | an accepted address keeps the transport and role and writes the union member of its transport; unix addresses are never refused; a refusal carries the stored type code |
| SockParse.ParseSocketInfo | clibs/sock.c:42-120 | a success starts with its role marker and transport keyword, with the union member matching the transport; the role refusal happens exactly when the first character is neither '@' nor '>' |
| SockParse.KeywordRecognised | clibs/sock.c:58-71 | each keyword, followed by anything, is recognised as its own transport despite the tests' order |
| SockParse.HeadRecognised | clibs/sock.c:47-78 | marker, keyword and one separator yield the role and transport, and the address text starts right after them |
| SockParse.Header | clibs/sock.c:47-82 | past a recognised header the parse is the address parse, whatever the separator character; only a tcp or udp address can read past the terminator |
| SockParse.SplitBracketed | clibs/sock.c:85-99 | bracketed ip: the text between the first '[' and the next ']', truncated by the `uint8_t` cast, refused past 63; port offset counted from the start of the address text |
| SockParse.BracketsFound | clibs/sock.c:85-87 | the two strstr calls find the first '[' and the first ']' after it |
| SockParse.SplitUnclosed | clibs/sock.c:85-91 | a '[' with no ']' after it is refused as an unclosed bracket |
| SockParse.SplitBare | clibs/sock.c:100-115 | bare ip: the text before the first ':', truncated by the `uint8_t` cast, refused past 63; IPv6 exactly when it starts with '*' |
| SockParse.ParseUnix | clibs/sock.c:78-82 | a unix descriptor always parses: the separator is skipped unchecked and the path is cut to 108 characters |
| SockParse.ParseBracketed | clibs/sock.c:84-118 | whole parse of a bracketed address: IPv6, the ip between the brackets, the port |ip|+3 characters into the address text, or the too-long refusal |
| SockParse.AddressBracketed | clibs/sock.c:84-118 | the address part of the bracketed parse, with the port text inside the string |
| SockParse.AddressOfSplit | clibs/sock.c:84-118 | a tcp or udp address is refused with the ip split's fault, or holds its ip, family and the atoi of the text after it |
| SockParse.ParseUnclosed | clibs/sock.c:85-91 | a descriptor with '[' but no ']' is refused after storing its type code |
| SockParse.ParseBare | clibs/sock.c:100-118 | whole parse of a bare address: ip before the first ':', IPv6 iff it starts with '*', port right after the ':', or the too-long refusal |
| SockParse.AddressBare | clibs/sock.c:100-118 | the address part of the bare parse, with the port text inside the string |
| SockParse.ParseNoSeparator | clibs/sock.c:100-103 | a tcp or udp address with neither '[' nor ':' is refused: a bare address needs its ':' |
| SockParse.ParseBracketedNoPort | clibs/sock.c:85-118 | a bracketed address needs no ':': `[ip]` and any one character parse as that ip, IPv6, port 0 |
| SockParse.PortOfNonNumeric | clibs/sock.c:118 | an empty or non-numeric port text gives port 0, not a refusal |
| SockParse.PortOfNegative | clibs/sock.c:118 | '-' and the digits of a number up to INT_MAX give the negated number modulo 65536 as the port ("-1" gives 65535) |
| SockParse.PortOfValue | clibs/sock.c:118 | the port is atoi's result modulo 65536 |
| SockParse.PortOfDecimal | clibs/sock.c:118 | a spelled number before any non-digit is the port modulo 65536 |
| SockParse.NetTextSplits | clibs/sock.c:84-115 | the text of a well-formed ip and port splits back into that ip, its family and the port text |
| SockParse.NetParses | clibs/sock.c:84-118 | a tcp or udp descriptor with any digit string as port parses to its ip, family and the port those digits give |
| SockParse.FormatParseNet | clibs/sock.c:42-120 | every well-formed tcp or udp descriptor's text parses back to what it denotes |
| SockParse.PortSpelling | clibs/sock.c:118 | the decimal spelling of a port reads back as that port |
| SockParse.FormatParse | clibs/sock.c:42-120 | round trip: every well-formed descriptor, unix, bare or bracketed, parses back to what it denotes |
| Util.FirstSettled | clibs/util.c:31-34 | the retry loop stops at the first answer that is not EINTR; every earlier answer is EINTR |
| Util.Read | clibs/util.c:22-45 | Read returns ReadResult and issues one read(2) per EINTR plus the settling one, none on its early returns |
| Util.Write | clibs/util.c:47-70 | Write returns WriteResult with the same call count |
| Util.InterruptIsRetried | clibs/util.c:31-34 | a leading EINTR costs one more system call and changes neither result |
| Util.ReadResultRange | clibs/util.c:22-45 | Read returns -1, -EAGAIN or at most the size requested; -EAGAIN exactly when the settling answer is EAGAIN/EWOULDBLOCK |
| Util.WriteResultRange | clibs/util.c:47-70 | Write returns -1 or at most the length requested; a would-block write reads as 0 bytes |
| Util.ReadWriteAgree | clibs/util.c:22-70 | Read and Write report every answer alike except EAGAIN, -EAGAIN for Read and 0 for Write |
| Util.SafeClose | clibs/util.h:81-87 | closes only a positive descriptor, setting it to -1; 0 and negatives stay and nothing is closed |
| Util.SafeCloseIdempotent | clibs/util.h:81-87 | after safe_close the variable is not positive, so a second safe_close closes and changes nothing |
| Util.SafeFree | clibs/util.h:65-71 | frees a non-null block exactly once and leaves the variable NULL |
| Util.WithNonblock | clibs/util.c:12 | the written flag word has O_NONBLOCK and keeps every other flag |
| Util.WithNonblockFixed | clibs/util.c:10-12 | a flag word with O_NONBLOCK already set is left as it is |
| Util.SetNonblock | clibs/util.c:3-19 | F_SETFL is issued only when O_NONBLOCK is missing; 0 exactly when F_GETFL works and any needed F_SETFL is accepted, and then the descriptor is non-blocking |
| Util.NonblockIdempotent | clibs/util.c:3-19 | after a successful set_nonblock a second one writes nothing and keeps the flags |
| Sockets.CreateCallFor | clibs/sock.c:131-160 | a creator is chosen only for a concrete code, with the net member for tcp/udp and the path for unix |
| Sockets.InitResult | clibs/sock.c:122-168 | sock_init returns 0 exactly when the descriptor parses and the creator returns a descriptor; otherwise the handle reads closed; the creator is called iff the parse succeeds; is_connected is untouched |
| Sockets.CreateCallOfParse | clibs/sock.c:131-160 | each parsed transport and role gets its creator: backlog 1024 for tcp servers, the datagram creators for unix, the parsed address |
| Sockets.WriteStepOutcome | clibs/sock.c:206-225 | a closed handle is refused with no system call; a would-block write returns 0 and keeps the handle; a failure returns -1 and closes a positive descriptor; success returns at most len |
| Sockets.ReadStepOutcome | clibs/sock.c:227-246 | a negative descriptor is refused as in sock_write; a would-block read returns -1 and closes the handle; success returns at most size and keeps it |
| Sockets.TermedHandleReadsFdZero | clibs/sock.h:52-63 | after sock_term the descriptor is 0, which counts as open, and the type is unknown, which sock_read asserts against; with assertions compiled out (NDEBUG), read issues read(2) on descriptor 0 and a failure does not close it |
| Sockets.Sock.Calloc | clibs/sock.h:84-86 | MALLOC gives a handle whose every field is zero |
| Sockets.Sock.Fd | clibs/sock.h:61 | sock_fd is the stored descriptor |
| Sockets.Sock.IsClosed | clibs/sock.h:63 | sock_is_closed is 1 exactly for a negative descriptor, else 0 |
| Sockets.Sock.ParseInfo | clibs/sock.c:42-120 | the handle afterwards is StoreParse of the parse: untouched on a bad marker or keyword, only the type on a bad address, type, address and (tcp/udp) domain on success; 0 iff the parse succeeds |
| Sockets.Sock.Init | clibs/sock.c:122-168 | the handle, result and creator call are InitEffect of the old handle |
| Sockets.Sock.Close | clibs/sock.h:65 | safe_close on the handle's descriptor |
| Sockets.Sock.Term | clibs/sock.h:52-55 | safe_close, then every field zero |
| Sockets.Sock.Write | clibs/sock.c:206-225 | result, new descriptor and call count are WriteStep; close(2) is called only when a failure closes a positive descriptor |
| Sockets.Sock.Read | clibs/sock.c:227-246 | result, new descriptor and call count are ReadStep; close(2) as for Write |
| Sockets.Sock.Accept | clibs/sock.c:170-204 | Accept gets the listening descriptor and an address buffer of the server's family; on success the client gets the descriptor, the server's domain, the tcp client type and the peer address, otherwise -1 and the client is untouched |
| Sockets.Sock.SetNonblock | clibs/sock.h:67 | set_nonblock on the handle's descriptor: F_SETFL only when the descriptor is not yet non-blocking, 0 or -1, 0 exactly when F_GETFL works and any needed F_SETFL is accepted, and then the descriptor is non-blocking |
| Sockets.Lcopy | clibs/sock.h:69-71 | both handles given: the destination gets every field of the source; otherwise nothing changes |
| Sockets.New | clibs/sock.h:84-94 | a fresh handle initialised from the descriptor, or NULL when calloc fails or sock_init fails, in which case the block is freed |
| Sockets.Destroy | clibs/sock.h:96-101 | for a non-null handle: descriptor closed by safe_close, every field zero, block freed, caller's pointer NULL; otherwise no close and no free, and a NULL pointer stays NULL |
| Epoll.Capacity | clibs/epoll.c:10-13 | the capacity is the one given, or 1024 for 0 |
| Epoll.EventMask | clibs/epoll.c:50 | the `int` event is stored in the `uint32_t` mask modulo 2^32 |
| Epoll.EventMaskRoundTrip | clibs/epoll.c:50 | no event bit is lost: the mask read as an `int` is the event passed |
| Epoll.EventFor | clibs/epoll.c:45-50 | the event holds the mask; the token holds the pointer when one is given, and the descriptor otherwise |
| Epoll.TokenIdentifies | clibs/epoll.c:46-49 | equal tokens come from the same pointer, or from no pointer and the same descriptor |
| Epoll.EpollFd.constructor | clibs/epoll.h:10-14 | a zero-initialised container, with no buffer |
| Epoll.EpollFd.Create | clibs/epoll.c:12-27 | a failed epoll_create changes nothing; a failed malloc closes the new descriptor, sets the size and leaves no buffer; success stores a fresh buffer of the capacity and the descriptor; size equals the buffer's capacity |
| Epoll.EpollFd.Close | clibs/epoll.c:29-37 | with a buffer: frees it, clears buffer and size, closes the epoll descriptor; without one nothing happens, so a second close is a no-op |
| Epoll.EpollFd.Add | clibs/epoll.c:39-59 | set_nonblock first, with no registration if it fails; then EPOLL_CTL_ADD with the event; 0 means the descriptor is non-blocking and registered |
| Epoll.EpollFd.Mod | clibs/epoll.c:61-76 | EPOLL_CTL_MOD with the event; the status flags are untouched |
| Epoll.EpollFd.Del | clibs/epoll.c:78-86 | EPOLL_CTL_DEL with no event |
| Epoll.EpollFd.Wait | clibs/epoll.c:88 | epoll_wait into the buffer with `size` as the maximum: at most `size` events, the kernel's first ones, at the front of the buffer; with the NULL buffer a failed malloc leaves, 0 when nothing is pending and -1 otherwise |
| Epoll.EpollFd.Events | clibs/epoll.c:90-92 | epoll_events is the buffer Wait fills |

## Left out

- The Lua bindings (`lua_f_sock.c`, `lua_f_epoll.c`, `lua_f_util.h`) and the sample programs under `test/` are glue and I/O plumbing around this core.
- `sock_tostring` and the `DBG`/`ERR` macros only print.
- The socket creators (`tcp_server_create` and the others) and `is_ipv6` are declared in clibs/sock.h (lines 103-112) but defined elsewhere. `Accept`, called at clibs/sock.c:183 and 186, is declared in no file of the repository. `inet_ntop` and `ntohs` come from the system's `<arpa/inet.h>`. The results of all of these are parameters.
- Strings are sequences of Dafny `char`, one `char` for one C byte. The 63-, 108- and `uint8_t` limits count bytes. Characters above 0xFF have no C counterpart, and multi-byte encodings are not modelled.
- The bytes that read(2) and write(2) move are not modelled: only counts, errors and calls are.
- The kernel's epoll interest set, and its ordering and edge-triggering rules, are the operating system's behaviour. epoll_ctl and epoll_wait answers are parameters.
- Kernel.Os.EpollWait: the answer for a NULL buffer follows Linux, whose up-front address check lets NULL through, so the fault comes only when the first event is copied out. A kernel that refuses NULL at once would give -1 even with nothing pending.
- `assert` in the source is a precondition of the model: the known type for read and write, a tcp server for accept. Likewise `data != NULL`, which `sock_read` and `sock_write` assert.
- Sockets.Sock.Accept: the peer's text and port are parameters and the `SOCK_NONBLOCK` flag passed to Accept is not recorded, because the formatting and Accept are foreign calls.
- SockParse.ParseSocketInfo: texts where the parser would read past the terminator are excluded by `Defined`, so what C memory holds there is not modelled. An example is a bracketed address with nothing after the ']', as in `@tcp:[::1]`.
- The `addr` union is a tagged `Address`. Reading one member after writing the other (for example the bytes of an ip seen as a path) is not modelled.
- The `epoll_data` union is a tagged `Token`, so reading the descriptor field of a pointer token is not modelled.
- Epoll.EpollFd.Create: sizes beyond the range of `int` are passed to epoll_create and epoll_wait unchanged, and the multiplication in the malloc size is not checked for overflow.
- The dead `default` branch of the switch in `sock_init` (clibs/sock.c:156-159) returns -1 with the descriptor still -1. That is what it does when `assert` is compiled out. `Sockets.CreateCallOfParse` shows it is never reached after a successful parse.
