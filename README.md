# clouseau UDP listener, in Dafny

This project models the UDP listener package of clouseau (`pkg/listener`) and
proves properties of the model. The package:

- decides when two UDP endpoints are the same (`UDPAddressEqual` over Go's
  `net.IP.Equal`);
- wraps every error it raises in an `Error` value with an operation label and
  an optional cause;
- builds a listener from a `host:port` bind address (`NewUDPListener`);
- checks the concurrency count in `Listen` before it binds;
- runs the reader loop `listen`. The loop reads datagrams, drops those from
  an unexpected sender, and hands each accepted datagram to every registered
  handler: `Setup` with a per-packet context, then `Handle` with the bytes.

Modules, one per file:

| file | module | what it holds |
|---|---|---|
| `wrappers.dfy` | `Wrappers` | `Option` and `Result` |
| `strconv.dfy` | `Strconv` | `strconv.Atoi`, the `%d` rendering (`Itoa`) and the `*strconv.NumError` text |
| `address.dfy` | `Address` | IPs as byte sequences, `net.IP.Equal`, `UDPAddressEqual` |
| `nettext.dfy` | `NetText` | `net.SplitHostPort`, `net.JoinHostPort`, `net.ParseIP` (simplified), the `*net.AddrError` text |
| `errors.dfy` | `Errors` | the listener's `Error` value: `Error()` and `Unwrap()` |
| `udp.dfy` | `Udp` | `UDPListener`, `NewUDPListener`, `Listen`, `read`, `listen`, the handler trace |
| `cases.dfy` | `TestCases` | the package's own test cases, stated as lemmas |

How the model stands in for things the package does not control:

- The socket becomes a sequence of read outcomes. Each outcome is a read
  error (its text) or a datagram with its sender.
- The bind and the read deadline become parameters: either no error or an
  error text.
- A handler becomes an identifier. The loop's calls into handlers are
  recorded, in order, as a trace of `Setup(handler, ctx)` and
  `Handle(handler, payload)`.
- The `context.Context` becomes a record that holds the source endpoint.
- An error's cause is carried as the text `%v` renders it to.

`listen` is a method: a `while` loop over the outcomes, reading into an
`array` of the listener's buffer size. It is proved equal to the function
`ReaderTrace`. The lemmas about the loop are stated over `ReaderTrace`.

Behaviours of the code that the model keeps:

- `NewUDPListener` wraps both of its failures with the op
  `"create new UDPListener"` (pkg/listener/udp.go:98, 105).
- `NewUDPListener` does not validate the host. A name that is not an IP
  address yields the nil IP (`TestCases.NewListenerNonIPHost`).
- `NewUDPListener` does not range-check the port. For example, `-1` is
  accepted (`TestCases.NewListenerNegativePort`).
- `Listen` returns no error once the reader loop has stopped, even when a
  read error stopped it (pkg/listener/udp.go:52-54).
- A fresh listener has buffer size 0 and no handlers. A loop run on it calls
  nothing (`Udp.FreshListenerCallsNoHandler`).

## Model

| member | source | states |
|---|---|---|
| Address.IPv4 | pkg/listener/utils_test.go:17 | `net.IPv4` gives 16 bytes: the IPv4-mapped prefix followed by the four given bytes |
| Address.IpEqual | pkg/listener/utils.go:6 | `net.IP.Equal`: two IPs it calls equal have the same widened form (a 4-byte address widened to its IPv4-mapped form) |
| Address.IpEqualIffSameCanonical | pkg/listener/utils.go:6 | `net.IP.Equal` holds iff both IPs are the same once a 4-byte address is widened to its mapped form; other length mixes are unequal |
| Address.UdpAddressEqual | pkg/listener/utils.go:5-7 | `UDPAddressEqual`: two endpoints it calls equal have the same widened IP, the same port and the same zone string |
| Address.UdpAddressEqualIff | pkg/listener/utils.go:5-7 | endpoints are equal iff the widened IPs are identical, the ports are equal and the zones are the same string |
| Address.UdpAddressEqualIsEquivalence | pkg/listener/utils.go:5-7 | endpoint equality is reflexive, symmetric and transitive for every endpoint, nil and odd-length IPs included |
| Address.FourByteEqualsMapped | pkg/listener/udp_test.go:88 | a 4-byte IPv4 address equals its 16-byte mapped form, in either argument order |
| Strconv.NatToDecimal | pkg/listener/udp.go:29 | the `%d` digits of a natural number: only digits, at least one, and no leading zero except for 0 itself |
| Strconv.DecimalValueOfNatToDecimal | pkg/listener/udp.go:29 | reading the decimal rendering of n back gives n |
| Strconv.Itoa | pkg/listener/udp.go:29 | the `%d` rendering starts with `-` exactly when the number is negative, is otherwise only digits without a leading zero, and those digits have the magnitude of the number as their value |
| Strconv.Atoi | pkg/listener/udp.go:102-106 | `Atoi` succeeds iff the text is an optional sign followed by at least one digit and its signed value fits in 64 bits, and then returns that value; other text is a syntax NumError, number text out of range a range NumError |
| Strconv.NatToDecimalOfDecimalValue | pkg/listener/udp.go:29 | a digit string without a leading zero is the `%d` rendering of its own value |
| Strconv.ItoaAtoi | pkg/listener/udp.go:102 | any text `%d` could print (no `+`, no leading zero, no `-0`) that `Atoi` accepts is rendered back as the same text |
| Strconv.AtoiItoa | pkg/listener/udp.go:102 | `Atoi` reads back every 64-bit integer from its decimal rendering |
| NetText.SplitHostPort | pkg/listener/udp.go:96-99 | an address without a colon fails with "address X: missing port in address"; a successful split yields a port without colons or brackets and a host without brackets, which rebuild the input as `host:port` or `[host]:port` |
| NetText.SplitJoin | pkg/listener/udp.go:96 | splitting a joined address gives back its host and port, whenever neither holds a bracket and the port holds no colon |
| NetText.IndexOfEllipsisFirst | pkg/listener/udp.go:110 | the IPv6 parser's `::` search returns the first `::` in the text |
| NetText.ParseIP | pkg/listener/udp.go:110 | `ParseIP` yields nil or 16 bytes; a dotted-quad result carries the IPv4-mapped prefix |
| NetText.ParseIPDottedQuad | pkg/listener/udp.go:110 | parsing the dotted-quad text of any four bytes gives the mapped IPv4 address of those bytes |
| Errors.Render | pkg/listener/error.go:10-16 | every rendering is "listener error " and the op; with a cause it is followed by ": " and the cause, without one nothing follows |
| Errors.Unwrap | pkg/listener/error.go:18-20 | `Unwrap` gives exactly the stored cause; it gives none iff the rendering is the prefix and op alone |
| Errors.NoCauseIsStrictPrefix | pkg/listener/error.go:10-16 | for one op, the rendering without a cause is a strict prefix of any rendering with one |
| Errors.RenderDeterminesOp | pkg/listener/error.go:10-16 | two errors with the same cause render alike only if their ops are equal |
| Errors.RenderDeterminesCause | pkg/listener/error.go:10-16 | two errors with the same op render alike only if their causes are equal |
| Udp.NewUDPListener | pkg/listener/udp.go:95-119 | a split failure, or a port parse failure after a successful split, gives no listener and a "create new UDPListener" error wrapping that failure; otherwise it succeeds with the parsed host IP and port, an empty zone, zero timeout, no expected source, buffer size 0 and no handlers |
| Udp.NewUDPListenerJoined | pkg/listener/udp.go:95-119 | any bracket-free host joined with the decimal text of any 64-bit port builds a listener on that host's IP and that port |
| Udp.InvalidConcurrencyOp | pkg/listener/udp.go:29 | the op of a rejected `Listen` starts with the fixed lead "invalid number of concurrent listeners: ", followed by text in the form `%d` prints (no `+`, no leading zero, no `-0`) that `Atoi` reads back as the rejected count; with `Strconv.ItoaAtoi` this fixes the text to the `%d` rendering |
| Udp.Listen | pkg/listener/udp.go:26-55 | n <= 0 gives the invalid-count error with no cause, no bind and no handler calls; a bind error gives "listen UDP"; a deadline error with a timeout set gives "set read deadline"; otherwise no error, and the handler calls are those of the reader loop |
| Udp.Read | pkg/listener/udp.go:80-93 | a read error becomes a "UDPListener read" error wrapping it; a datagram is dropped iff a source is expected and the sender is not equal to it; an accepted datagram's context holds its sender |
| Udp.AcceptedIff | pkg/listener/udp.go:86-92 | a datagram is accepted iff no source is expected, or the expected source has the same widened IP, port and zone as the sender |
| Udp.Received | pkg/listener/udp.go:58-65 | the received bytes are a prefix of the datagram no longer than the buffer, all of it when it fits, and exactly as many bytes as the buffer holds when it does not |
| Udp.Dispatch | pkg/listener/udp.go:71-75 | one accepted packet leads to two calls per registered handler |
| Udp.DispatchOrder | pkg/listener/udp.go:71-75 | handler i gets `Setup` with the packet's context at position 2i and `Handle` with the payload right after it, in registration order |
| Udp.ReceiveInto | pkg/listener/udp.go:81 | the read copies as much of the datagram as fits into the buffer and reports that count; a failed read reports 0; the bytes past the count are left as they were |
| Udp.DispatchCalls | pkg/listener/udp.go:71-75 | the handler loop makes exactly the calls of `Dispatch` |
| Udp.Step | pkg/listener/udp.go:65-75 | one read leads to two handler calls per handler when it is accepted, and to none when it is dropped or fails |
| Udp.ReadAndDispatch | pkg/listener/udp.go:65-75 | one iteration reports failure iff the read failed, and makes exactly the calls `Step` specifies for that read; afterwards the buffer starts with the received bytes and is unchanged past them, and a failed read leaves it unchanged |
| Udp.ReaderTrace | pkg/listener/udp.go:64-76 | the loop's calls come in pairs, and there are none exactly when there are no handlers or no read is accepted before the first failed one |
| Udp.ReaderTraceLength | pkg/listener/udp.go:64-76 | the loop makes two handler calls per handler for each accepted read before the first failed read, and no others |
| Udp.ReaderLoop | pkg/listener/udp.go:57-78 | the loop's calls are `ReaderTrace` of the stream; it stops at the first read error, and reports where, or reports that every read succeeded |
| Udp.ReaderTraceIgnoresAfterError | pkg/listener/udp.go:64-69 | reads after the first failed one never lead to a handler call |
| Udp.ReaderTraceAppend | pkg/listener/udp.go:64-69 | with no failed read, the loop goes on: the calls for a stream are those of its first part followed by those of the rest |
| Udp.DispatchPaired | pkg/listener/udp.go:71-75 | the calls for one packet come in (`Setup`, `Handle`) pairs for the same handler |
| Udp.ReaderTracePaired | pkg/listener/udp.go:64-76 | every `Handle` call of the loop comes right after the `Setup` call of the same handler |
| Udp.HandleCount | pkg/listener/udp.go:64-76 | the loop makes one `Handle` call per handler for each accepted read before the first error, and no other |
| Udp.UnmatchedSourcesReachNoHandler | pkg/listener/udp.go:86-88 | with an expected source that no sender matches, no handler is ever called |
| Udp.PayloadsFitBuffer | pkg/listener/udp.go:58-74 | every payload a handler receives fits the listener's buffer |
| Udp.DatagramDeliveredIntact | pkg/listener/udp.go:57-78 | a datagram that fits the buffer, with no source filter and one handler, reaches that handler exactly as sent, after `Setup` with its sender |
| Udp.NoHandlersNoCalls | pkg/listener/udp.go:71-75 | without registered handlers the loop calls nothing |
| Udp.FreshListenerCallsNoHandler | pkg/listener/udp.go:108-118 | a listener straight from `NewUDPListener` has a zero-byte buffer, and its reader loop calls nothing |
| TestCases.LoopbackFormsEqual | pkg/listener/utils_test.go:15-27 | `IPv4(127,0,0,1)` and the parsed "127.0.0.1" are the same endpoint |
| TestCases.IPv6ZeroFormsEqual | pkg/listener/utils_test.go:28-40 | the IPv6 zero address and the parsed "::0" are the same endpoint |
| TestCases.IPv4ZeroIsNotIPv6Zero | pkg/listener/utils_test.go:41-53 | the mapped IPv4 zero address is not the IPv6 zero address |
| TestCases.PortDistinguishes | pkg/listener/utils_test.go:54-66 | the same IP and zone with different ports are unequal |
| TestCases.ZoneDistinguishes | pkg/listener/utils_test.go:67-79 | the same IP and port with zones "" and "eth0" are unequal |
| TestCases.NewListenerIPv4 | pkg/listener/udp_test.go:20-27 | "127.0.0.1:123" builds a listener equal to 127.0.0.1, port 123, empty zone |
| TestCases.NewListenerIPv6 | pkg/listener/udp_test.go:28-35 | "[fe80:1234:5678::9]:12345" builds a listener on fe80:1234:5678::9, port 12345, empty zone |
| TestCases.NewListenerIPv4Zero | pkg/listener/udp_test.go:36-43 | "0.0.0.0:9876" builds a listener on the IPv4 zero address, port 9876, empty zone |
| TestCases.NewListenerIPv6Zero | pkg/listener/udp_test.go:44-51 | "[::0]:9876" builds a listener on the IPv6 zero address, port 9876, empty zone |
| TestCases.NewListenerBadPort | pkg/listener/udp_test.go:52-63 | "[::0]:abcdefgh" fails with the constructor's op wrapping Atoi's syntax error, which `Unwrap` exposes |
| TestCases.NewListenerMissingPort | pkg/listener/udp_test.go:64-74 | "ijkl" fails with the constructor's op wrapping "address ijkl: missing port in address" |
| TestCases.NewListenerNonIPHost | pkg/listener/udp.go:110 | a host that is not an IP address is accepted and yields the nil IP |
| TestCases.NewListenerNegativePort | pkg/listener/udp.go:101-106 | the port is not range-checked: "-1" is accepted as port -1 |
| TestCases.ListenMinus100 | pkg/listener/udp_test.go:100-106 | `Listen(-100)` on any listener fails, without a bind attempt, with op "invalid number of concurrent listeners: -100" and no cause |
| TestCases.ListenZero | pkg/listener/udp_test.go:107-113 | `Listen(0)` on any listener fails, without a bind attempt, with op "invalid number of concurrent listeners: 0" and no cause |

## Left out

- Socket I/O is not modelled: binding, `ReadFromUDP`, `SetReadDeadline` and `conn.Close` (pkg/listener/udp.go:34-45, 81). Their outcomes are parameters of `Listen` and the read-outcome stream of the loop.
- Goroutines and the `quit` channel (pkg/listener/udp.go:47-52, 74, 77) are not modelled. `Udp.Listen` runs one reader loop, so the case of more than one concurrent loop is not covered. In that case `Listen` returns after the first loop sends on `quit` (pkg/listener/udp.go:52), and the deferred `conn.Close` (pkg/listener/udp.go:39) makes the other loops' reads fail. Each of those loops then leaves its `for` and blocks forever on the unbuffered send to `quit` (pkg/listener/udp.go:77): they leak, but read and dispatch nothing more.
- The reader loop's buffer is reused across asynchronous `Handle` calls (pkg/listener/udp.go:58, 74). That is a data race, and it is not reproduced. Each `Handle` gets a copy of the received bytes, taken before the next read.
- `Handle` runs synchronously in the model, in the order the loop starts it. The source starts it as a goroutine and does not wait for it.
- `context.Context` is modelled as a record holding the source endpoint, not a general key/value map.
- NetText.ParseIP: does not accept an IPv4 dotted quad embedded in an IPv6 address (`::ffff:1.2.3.4`), or a zone, which `net.ParseIP` rejects anyway. Such texts yield nil here.
- Strconv.Atoi: reports a syntax error, where Go reports a range error, for an over-long digit run followed by an invalid character. Go stops at the first invalid character; the model checks all characters before it computes the value.
- Strconv.Quote: renders only the plain-text case. It wraps the text in double quotes and escapes nothing.
- A negative buffer size is excluded (buffer size is a `nat`). In Go, `make` panics on it.
- A finite stream of read outcomes with no read error stands for a reader loop that is still running. In Go the loop goes on blocking in `ReadFromUDP`, and `Listen` does not return (pkg/listener/udp.go:52, 64). The model ends there: `Udp.ReaderLoop` reports no stop, and `Udp.Listen` returns no error.
- Time is not modelled. The listen timeout is an integer number of nanoseconds, and only whether it is zero matters.
- The bind-failure test case (pkg/listener/udp_test.go:114-133) depends on the privileges of the environment, and is not stated.
- cmd/collect.go is not part of this model: it only prints a line.
- tests/listener_test/udp_test.go is not part of this model: it expects `Listen(0)` to succeed, which pkg/listener/udp.go:27 rules out.
