/**
 * The UDP listener: construction from a bind address, the guard and setup
 * steps of `Listen`, the per-read filter decision, and the reader loop that
 * fans each accepted datagram out to the registered handlers.
 *
 * The socket is replaced by the sequence of outcomes its reads produce, and
 * handlers by identifiers whose `Setup` and `Handle` calls are recorded, in
 * order, in a trace.
 */
module Udp {
  import opened Wrappers
  import opened Strconv
  import opened Address
  import opened NetText
  import opened Errors

  /** A registered `Handler`; only its identity matters to the listener. */
  type HandlerId = nat

  /** The per-packet context: the endpoint the datagram came from. */
  datatype PacketContext = PacketContext(source: UdpAddr)

  /** One call the listener makes into a handler. */
  datatype Call =
    | Setup(handler: HandlerId, ctx: PacketContext)
    | Handle(handler: HandlerId, payload: seq<Byte>)

  /** `UDPListener`; the listen timeout is a `time.Duration` in nanoseconds. */
  datatype UDPListener = UDPListener(
    listenAddress: UdpAddr,
    listenTimeout: int,
    expectedSrcAddress: Option<UdpAddr>,
    bufferSize: nat,
    handlers: seq<HandlerId>)

  // ------------------------------------------------------------ construction

  const CreateOp: string := "create new UDPListener"

  /**
   * `NewUDPListener`: splits host and port, parses the port, and fills in the
   * defaults. The host is not validated (a non-IP host yields the nil IP) and
   * the port is not range-checked.
   */
  function NewUDPListener(listenAddress: string): (r: Result<UDPListener, ListenerError>)
    ensures SplitHostPort(listenAddress).Failure? ==>
              r == Failure(ListenerError(CreateOp, Some(SplitHostPort(listenAddress).error)))
    ensures SplitHostPort(listenAddress).Success? && Atoi(SplitHostPort(listenAddress).value.1).Failure? ==>
              r == Failure(ListenerError(CreateOp, Some(Atoi(SplitHostPort(listenAddress).value.1).error)))
    ensures r.Success? <==>
              SplitHostPort(listenAddress).Success? && Atoi(SplitHostPort(listenAddress).value.1).Success?
    ensures r.Success? ==>
              var (host, port) := SplitHostPort(listenAddress).value;
              r.value == UDPListener(UdpAddr(ParseIP(host), Atoi(port).value, ""), 0, None, 0, [])
  {
    match SplitHostPort(listenAddress)
    case Failure(e) => Failure(ListenerError(CreateOp, Some(e)))
    case Success((host, port)) =>
      match Atoi(port)
      case Failure(e) => Failure(ListenerError(CreateOp, Some(e)))
      case Success(portNum) =>
        Success(UDPListener(UdpAddr(ParseIP(host), portNum, ""), 0, None, 0, []))
  }

  /** Any host joined with the decimal text of any 64-bit port builds a listener on that host's IP and that port. */
  lemma NewUDPListenerJoined(host: string, port: int)
    requires '[' !in host && ']' !in host
    requires MinInt64 <= port <= MaxInt64
    ensures NewUDPListener(JoinHostPort(host, Itoa(port))) ==
              Success(UDPListener(UdpAddr(ParseIP(host), port, ""), 0, None, 0, []))
  {
    var p := Itoa(port);
    if port < 0 {
      NoSeparatorInDecimal(-port);
      assert p == "-" + NatToDecimal(-port);
    } else {
      NoSeparatorInDecimal(port);
    }
    assert ':' !in p && '[' !in p && ']' !in p by {
      assert AllDigits(p) || (p[0] == '-' && AllDigits(p[1..]));
    }
    SplitJoin(host, p);
    AtoiItoa(port);
  }

  // ------------------------------------------------------------------ Listen

  const InvalidCountLead: string := "invalid number of concurrent listeners: "

  /**
   * The op of a rejected `Listen`: a fixed lead, then the count as `%d` prints
   * it (no `+`, no leading zero), which `Atoi` reads back.
   */
  function InvalidConcurrencyOp(n: int): (op: string)
    ensures |InvalidCountLead| < |op| && op[..|InvalidCountLead|] == InvalidCountLead
    ensures CanonicalDecimal(op[|InvalidCountLead|..])
    ensures MinInt64 <= n <= MaxInt64 ==> Atoi(op[|InvalidCountLead|..]) == Success(n)
  {
    var op := InvalidCountLead + Itoa(n);
    assert op[|InvalidCountLead|..] == Itoa(n);
    if MinInt64 <= n <= MaxInt64 then AtoiItoa(n); op else op
  }

  const ListenOp: string := "listen UDP"
  const DeadlineOp: string := "set read deadline"

  /**
   * `Listen`: rejects a non-positive count before any bind, then binds, then
   * applies the read deadline when a timeout is configured, then runs the
   * reader loop. The outcomes of the bind and of setting the deadline are
   * parameters (an error text or none). Like the source, `Listen` returns no
   * error once the reader loop has stopped, whatever made it stop.
   */
  method Listen(l: UDPListener, concurrentListeners: int, bindError: Option<string>,
                deadlineError: Option<string>, outcomes: seq<ReadOutcome>)
    returns (err: Option<ListenerError>, bindAttempted: bool, calls: seq<Call>)
    ensures concurrentListeners <= 0 ==>
              err == Some(ListenerError(InvalidConcurrencyOp(concurrentListeners), None)) &&
              !bindAttempted && calls == []
    ensures 0 < concurrentListeners ==> bindAttempted
    ensures 0 < concurrentListeners && bindError.Some? ==>
              err == Some(ListenerError(ListenOp, bindError)) && calls == []
    ensures 0 < concurrentListeners && bindError.None? && l.listenTimeout != 0 && deadlineError.Some? ==>
              err == Some(ListenerError(DeadlineOp, deadlineError)) && calls == []
    ensures 0 < concurrentListeners && bindError.None? && (l.listenTimeout == 0 || deadlineError.None?) ==>
              err == None && calls == ReaderTrace(l, outcomes)
  {
    if concurrentListeners <= 0 {
      return Some(ListenerError(InvalidConcurrencyOp(concurrentListeners), None)), false, [];
    }
    bindAttempted := true;
    if bindError.Some? {
      return Some(ListenerError(ListenOp, bindError)), bindAttempted, [];
    }
    if l.listenTimeout != 0 && deadlineError.Some? {
      return Some(ListenerError(DeadlineOp, deadlineError)), bindAttempted, [];
    }
    var stoppedAt;
    calls, stoppedAt := ReaderLoop(l, outcomes);
    err := None;
  }

  // -------------------------------------------------------------------- read

  /** What one `ReadFromUDP` call produced: an error, or a datagram and its sender. */
  datatype ReadOutcome =
    | ReadErr(cause: string)
    | ReadOk(datagram: seq<Byte>, source: UdpAddr)

  /** What `read` hands back to the reader loop. */
  datatype ReadResult =
    | ReadFailed(err: ListenerError)
    | Dropped
    | Accepted(ctx: PacketContext)

  const ReadOp: string := "UDPListener read"

  /** `read`: wraps a read error, silently drops a datagram from an unexpected sender, otherwise builds the context. */
  function Read(l: UDPListener, o: ReadOutcome): (r: ReadResult)
    ensures r.ReadFailed? <==> o.ReadErr?
    ensures o.ReadErr? ==> r.err == ListenerError(ReadOp, Some(o.cause))
    ensures r.Dropped? <==>
              o.ReadOk? && l.expectedSrcAddress.Some? && !UdpAddressEqual(l.expectedSrcAddress.value, o.source)
    ensures r.Accepted? ==> o.ReadOk? && r.ctx.source == o.source
  {
    match o
    case ReadErr(cause) => ReadFailed(ListenerError(ReadOp, Some(cause)))
    case ReadOk(_, source) =>
      if l.expectedSrcAddress.Some? && !UdpAddressEqual(l.expectedSrcAddress.value, source) then Dropped
      else Accepted(PacketContext(source))
  }

  /** A read is accepted exactly when no sender is expected or the sender matches the expected one. */
  lemma AcceptedIff(l: UDPListener, datagram: seq<Byte>, source: UdpAddr)
    ensures Read(l, ReadOk(datagram, source)).Accepted? <==>
              l.expectedSrcAddress.None? ||
              (Canonical(l.expectedSrcAddress.value.ip) == Canonical(source.ip) &&
               l.expectedSrcAddress.value.port == source.port &&
               l.expectedSrcAddress.value.zone == source.zone)
  {
    if l.expectedSrcAddress.Some? {
      UdpAddressEqualIff(l.expectedSrcAddress.value, source);
    }
  }

  function Min(a: nat, b: nat): nat {
    if a <= b then a else b
  }

  /** The bytes `ReadFromUDP` leaves in a buffer of the listener's size: the datagram, truncated to fit. */
  function Received(l: UDPListener, datagram: seq<Byte>): (p: seq<Byte>)
    ensures |p| <= l.bufferSize && |p| <= |datagram| && p == datagram[..|p|]
    ensures |datagram| <= l.bufferSize ==> p == datagram
    ensures l.bufferSize < |datagram| ==> |p| == l.bufferSize
  {
    datagram[..Min(|datagram|, l.bufferSize)]
  }

  // -------------------------------------------------------------- the loop

  /** The calls made for one accepted packet: `Setup` then `Handle` on each handler, in registration order. */
  function Dispatch(handlers: seq<HandlerId>, ctx: PacketContext, payload: seq<Byte>): (t: seq<Call>)
    ensures |t| == 2 * |handlers|
    decreases |handlers|
  {
    if handlers == [] then []
    else
      var last := handlers[|handlers| - 1];
      Dispatch(handlers[..|handlers| - 1], ctx, payload) + [Setup(last, ctx), Handle(last, payload)]
  }

  /** Dispatch calls each handler in registration order, `Setup` immediately before `Handle`, both for the same packet. */
  lemma {:induction false} DispatchOrder(handlers: seq<HandlerId>, ctx: PacketContext, payload: seq<Byte>, i: nat)
    requires i < |handlers|
    ensures var t := Dispatch(handlers, ctx, payload);
            t[2 * i] == Setup(handlers[i], ctx) && t[2 * i + 1] == Handle(handlers[i], payload)
    decreases |handlers|
  {
    var init := handlers[..|handlers| - 1];
    if i < |init| {
      DispatchOrder(init, ctx, payload, i);
    }
  }

  /** The calls one read leads to: two per handler for an accepted read, none for a dropped or failed one. */
  function Step(l: UDPListener, o: ReadOutcome): (calls: seq<Call>)
    ensures |calls| == if Read(l, o).Accepted? then 2 * |l.handlers| else 0
  {
    match Read(l, o)
    case Accepted(ctx) => Dispatch(l.handlers, ctx, Received(l, o.datagram))
    case _ => []
  }

  /** The calls a reader loop makes over a stream of read outcomes: it reads past drops and stops at the first error. */
  function ReaderTrace(l: UDPListener, outcomes: seq<ReadOutcome>): (t: seq<Call>)
    ensures |t| % 2 == 0
    ensures t == [] <==> l.handlers == [] || Delivered(l, outcomes) == 0
    decreases |outcomes|
  {
    if outcomes == [] || outcomes[0].ReadErr? then []
    else Step(l, outcomes[0]) + ReaderTrace(l, outcomes[1..])
  }

  /** The loop makes exactly two calls per handler for each read delivered before the first failed one. */
  lemma {:induction false} ReaderTraceLength(l: UDPListener, outcomes: seq<ReadOutcome>)
    ensures |ReaderTrace(l, outcomes)| == 2 * |l.handlers| * Delivered(l, outcomes)
    decreases |outcomes|
  {
    if outcomes != [] && outcomes[0].ReadOk? {
      ReaderTraceLength(l, outcomes[1..]);
      MulSucc(2 * |l.handlers|, Delivered(l, outcomes[1..]));
    }
  }

  /** `ReadFromUDP` into `buf`: copies as much of the datagram as fits and reports how much. */
  method ReceiveInto(buf: array<Byte>, o: ReadOutcome) returns (n: nat)
    modifies buf
    ensures o.ReadErr? ==> n == 0
    ensures o.ReadOk? ==> n == Min(|o.datagram|, buf.Length) && buf[..n] == o.datagram[..n]
    ensures buf[n..] == old(buf[n..])
  {
    if o.ReadErr? {
      return 0;
    }
    n := Min(|o.datagram|, buf.Length);
    var i := 0;
    while i < n
      invariant 0 <= i <= n
      invariant buf[..i] == o.datagram[..i]
      invariant buf[n..] == old(buf[n..])
    {
      buf[i] := o.datagram[i];
      i := i + 1;
    }
  }

  /** The handler loop of `listen` for one accepted packet. */
  method DispatchCalls(handlers: seq<HandlerId>, ctx: PacketContext, payload: seq<Byte>) returns (calls: seq<Call>)
    ensures calls == Dispatch(handlers, ctx, payload)
  {
    calls := [];
    var j := 0;
    while j < |handlers|
      invariant 0 <= j <= |handlers|
      invariant calls == Dispatch(handlers[..j], ctx, payload)
    {
      var h := handlers[j];
      calls := calls + [Setup(h, ctx), Handle(h, payload)];
      assert handlers[..j + 1][..j] == handlers[..j];
      j := j + 1;
    }
    assert handlers[..j] == handlers;
  }

  /**
   * One pass of `listen`'s loop body: read into `buf`, decide, and, for an
   * accepted packet, call the handlers with a copy of the received bytes.
   */
  method ReadAndDispatch(l: UDPListener, buf: array<Byte>, o: ReadOutcome) returns (calls: seq<Call>, failed: bool)
    requires buf.Length == l.bufferSize
    modifies buf
    ensures failed <==> o.ReadErr?
    ensures calls == Step(l, o)
    ensures o.ReadErr? ==> buf[..] == old(buf[..])
    ensures o.ReadOk? ==>
              var p := Received(l, o.datagram);
              buf[..|p|] == p && buf[|p|..] == old(buf[|p|..])
  {
    var n := ReceiveInto(buf, o);
    var result := Read(l, o);
    failed := result.ReadFailed?;
    calls := [];
    if result.Accepted? {
      assert buf[..n] == Received(l, o.datagram);
      calls := DispatchCalls(l.handlers, result.ctx, buf[..n]);
    }
  }

  /**
   * `listen`: one reader loop over its own buffer. Every `Handle` receives a
   * copy of the received bytes, so a later read into the same buffer cannot
   * change what an earlier handler call was given. Returns the calls made and
   * the position of the read error that ended the loop, if the stream held one.
   */
  method ReaderLoop(l: UDPListener, outcomes: seq<ReadOutcome>) returns (calls: seq<Call>, stoppedAt: Option<nat>)
    ensures calls == ReaderTrace(l, outcomes)
    ensures stoppedAt.None? ==> forall j :: 0 <= j < |outcomes| ==> outcomes[j].ReadOk?
    ensures stoppedAt.Some? ==>
              var k := stoppedAt.value;
              k < |outcomes| && outcomes[k].ReadErr? && forall j :: 0 <= j < k ==> outcomes[j].ReadOk?
  {
    var buf := new Byte[l.bufferSize];
    calls, stoppedAt := [], None;
    var i := 0;
    while i < |outcomes|
      invariant 0 <= i <= |outcomes|
      invariant buf.Length == l.bufferSize
      invariant forall j :: 0 <= j < i ==> outcomes[j].ReadOk?
      invariant calls + ReaderTrace(l, outcomes[i..]) == ReaderTrace(l, outcomes)
    {
      var more, failed := ReadAndDispatch(l, buf, outcomes[i]);
      ReaderTraceStep(l, outcomes, i, calls);
      if failed {
        stoppedAt := Some(i);
        return;
      }
      calls := calls + more;
      i := i + 1;
    }
    assert outcomes[i..] == [];
    assert calls + [] == calls;
  }

  /** One iteration of `ReaderLoop` keeps its invariant: a failed read ends the trace, any other adds that read's calls. */
  lemma ReaderTraceStep(l: UDPListener, outcomes: seq<ReadOutcome>, i: nat, calls: seq<Call>)
    requires i < |outcomes|
    requires calls + ReaderTrace(l, outcomes[i..]) == ReaderTrace(l, outcomes)
    ensures outcomes[i].ReadErr? ==> calls == ReaderTrace(l, outcomes)
    ensures outcomes[i].ReadOk? ==>
              (calls + Step(l, outcomes[i])) + ReaderTrace(l, outcomes[i + 1..]) == ReaderTrace(l, outcomes)
  {
    ReaderTraceAt(l, outcomes, i);
    if outcomes[i].ReadErr? {
      assert calls + [] == calls;
    } else {
      var more, rest := Step(l, outcomes[i]), ReaderTrace(l, outcomes[i + 1..]);
      assert (calls + more) + rest == calls + (more + rest);
    }
  }

  /** The trace from position `i` on: nothing at an error, otherwise that read's calls and then the rest. */
  lemma ReaderTraceAt(l: UDPListener, outcomes: seq<ReadOutcome>, i: nat)
    requires i < |outcomes|
    ensures outcomes[i].ReadErr? ==> ReaderTrace(l, outcomes[i..]) == []
    ensures outcomes[i].ReadOk? ==>
              ReaderTrace(l, outcomes[i..]) == Step(l, outcomes[i]) + ReaderTrace(l, outcomes[i + 1..])
  {
    assert outcomes[i..][1..] == outcomes[i + 1..];
  }

  // ------------------------------------------------------ properties of the loop

  /** Reads after the first failed one never lead to a handler call. */
  lemma {:induction false} ReaderTraceIgnoresAfterError(l: UDPListener, outcomes: seq<ReadOutcome>, k: nat, more: seq<ReadOutcome>)
    requires k < |outcomes| && outcomes[k].ReadErr?
    ensures ReaderTrace(l, outcomes + more) == ReaderTrace(l, outcomes)
    decreases |outcomes|
  {
    if outcomes[0].ReadOk? {
      assert (outcomes + more)[1..] == outcomes[1..] + more;
      ReaderTraceIgnoresAfterError(l, outcomes[1..], k - 1, more);
    }
  }

  /** Without a failed read, the loop keeps going: the calls for a stream are those of its first part, then of the rest. */
  lemma {:induction false} ReaderTraceAppend(l: UDPListener, outcomes: seq<ReadOutcome>, more: seq<ReadOutcome>)
    requires forall j :: 0 <= j < |outcomes| ==> outcomes[j].ReadOk?
    ensures ReaderTrace(l, outcomes + more) == ReaderTrace(l, outcomes) + ReaderTrace(l, more)
    decreases |outcomes|
  {
    if outcomes == [] {
      assert outcomes + more == more;
    } else {
      assert (outcomes + more)[1..] == outcomes[1..] + more;
      ReaderTraceAppend(l, outcomes[1..], more);
    }
  }

  /** A trace made of (`Setup`, `Handle`) pairs, each pair for one handler and one packet. */
  ghost predicate Paired(t: seq<Call>) {
    |t| % 2 == 0 &&
    forall k :: 0 <= k < |t| / 2 ==>
      t[2 * k].Setup? && t[2 * k + 1].Handle? && t[2 * k].handler == t[2 * k + 1].handler
  }

  lemma PairedConcat(a: seq<Call>, b: seq<Call>)
    requires Paired(a) && Paired(b)
    ensures Paired(a + b)
  {
    forall k | 0 <= k < |a + b| / 2
      ensures (a + b)[2 * k].Setup? && (a + b)[2 * k + 1].Handle? && (a + b)[2 * k].handler == (a + b)[2 * k + 1].handler
    {
      if k < |a| / 2 {
        assert (a + b)[2 * k] == a[2 * k] && (a + b)[2 * k + 1] == a[2 * k + 1];
      } else {
        var m := k - |a| / 2;
        assert (a + b)[2 * k] == b[2 * m] && (a + b)[2 * k + 1] == b[2 * m + 1];
      }
    }
  }

  lemma DispatchPaired(handlers: seq<HandlerId>, ctx: PacketContext, payload: seq<Byte>)
    ensures Paired(Dispatch(handlers, ctx, payload))
  {
    forall k | 0 <= k < |handlers| ensures
      var t := Dispatch(handlers, ctx, payload);
      t[2 * k].Setup? && t[2 * k + 1].Handle? && t[2 * k].handler == t[2 * k + 1].handler
    {
      DispatchOrder(handlers, ctx, payload, k);
    }
  }

  /** Every `Handle` call the loop makes comes right after the `Setup` call of the same handler. */
  lemma {:induction false} ReaderTracePaired(l: UDPListener, outcomes: seq<ReadOutcome>)
    ensures Paired(ReaderTrace(l, outcomes))
    decreases |outcomes|
  {
    if outcomes != [] && outcomes[0].ReadOk? {
      var o := outcomes[0];
      if Read(l, o).Accepted? {
        DispatchPaired(l.handlers, Read(l, o).ctx, Received(l, o.datagram));
      }
      ReaderTracePaired(l, outcomes[1..]);
      PairedConcat(Step(l, o), ReaderTrace(l, outcomes[1..]));
    }
  }

  /** Number of reads, before the first failed one, that reach the handlers. */
  function Delivered(l: UDPListener, outcomes: seq<ReadOutcome>): nat
    decreases |outcomes|
  {
    if outcomes == [] || outcomes[0].ReadErr? then 0
    else (if Read(l, outcomes[0]).Accepted? then 1 else 0) + Delivered(l, outcomes[1..])
  }

  function CountHandles(t: seq<Call>): nat {
    if t == [] then 0 else (if t[0].Handle? then 1 else 0) + CountHandles(t[1..])
  }

  lemma {:induction false} CountHandlesConcat(a: seq<Call>, b: seq<Call>)
    ensures CountHandles(a + b) == CountHandles(a) + CountHandles(b)
    decreases |a|
  {
    if a == [] {
      assert a + b == b;
    } else {
      assert (a + b)[1..] == a[1..] + b;
      CountHandlesConcat(a[1..], b);
    }
  }

  lemma {:induction false} CountHandlesDispatch(handlers: seq<HandlerId>, ctx: PacketContext, payload: seq<Byte>)
    ensures CountHandles(Dispatch(handlers, ctx, payload)) == |handlers|
    decreases |handlers|
  {
    if handlers != [] {
      var init := handlers[..|handlers| - 1];
      var last := handlers[|handlers| - 1];
      CountHandlesDispatch(init, ctx, payload);
      CountHandlesConcat(Dispatch(init, ctx, payload), [Setup(last, ctx), Handle(last, payload)]);
      assert CountHandles([Setup(last, ctx), Handle(last, payload)]) == 1 by {
        var pair := [Setup(last, ctx), Handle(last, payload)];
        assert pair[1..] == [Handle(last, payload)];
        assert [Handle(last, payload)][1..] == [];
        assert CountHandles([Handle(last, payload)]) == 1;
      }
    }
  }

  lemma MulSucc(n: nat, d: nat)
    ensures n * (1 + d) == n + n * d
  {
  }

  /** Every handler is handed every delivered packet exactly once: the loop makes |handlers| `Handle` calls per delivery. */
  lemma {:induction false} HandleCount(l: UDPListener, outcomes: seq<ReadOutcome>)
    ensures CountHandles(ReaderTrace(l, outcomes)) == |l.handlers| * Delivered(l, outcomes)
    decreases |outcomes|
  {
    if outcomes != [] && outcomes[0].ReadOk? {
      var o := outcomes[0];
      var n, d := |l.handlers|, Delivered(l, outcomes[1..]);
      HandleCount(l, outcomes[1..]);
      CountHandlesConcat(Step(l, o), ReaderTrace(l, outcomes[1..]));
      if Read(l, o).Accepted? {
        CountHandlesDispatch(l.handlers, Read(l, o).ctx, Received(l, o.datagram));
        assert CountHandles(ReaderTrace(l, outcomes)) == n + n * d;
        assert Delivered(l, outcomes) == 1 + d;
        MulSucc(n, d);
      } else {
        assert Step(l, o) == [];
        assert Delivered(l, outcomes) == d;
      }
    }
  }

  /** With an expected source that no sender matches, no handler is ever called, however many datagrams arrive. */
  lemma {:induction false} UnmatchedSourcesReachNoHandler(l: UDPListener, outcomes: seq<ReadOutcome>)
    requires l.expectedSrcAddress.Some?
    requires forall j :: 0 <= j < |outcomes| && outcomes[j].ReadOk? ==>
               !UdpAddressEqual(l.expectedSrcAddress.value, outcomes[j].source)
    ensures ReaderTrace(l, outcomes) == []
    decreases |outcomes|
  {
    if outcomes != [] && outcomes[0].ReadOk? {
      assert Read(l, outcomes[0]).Dropped?;
      assert forall j :: 0 <= j < |outcomes| - 1 ==> outcomes[1..][j] == outcomes[j + 1];
      UnmatchedSourcesReachNoHandler(l, outcomes[1..]);
    }
  }

  /** Every payload a handler receives fits the listener's buffer. */
  lemma {:induction false} PayloadsFitBuffer(l: UDPListener, outcomes: seq<ReadOutcome>, k: nat)
    requires k < |ReaderTrace(l, outcomes)| && ReaderTrace(l, outcomes)[k].Handle?
    ensures |ReaderTrace(l, outcomes)[k].payload| <= l.bufferSize
    decreases |outcomes|
  {
    var o := outcomes[0];
    var step := Step(l, o);
    var rest := ReaderTrace(l, outcomes[1..]);
    if k < |step| {
      var ctx := Read(l, o).ctx;
      DispatchOrder(l.handlers, ctx, Received(l, o.datagram), k / 2);
      assert k == 2 * (k / 2) || k == 2 * (k / 2) + 1;
    } else {
      assert ReaderTrace(l, outcomes)[k] == rest[k - |step|];
      PayloadsFitBuffer(l, outcomes[1..], k - |step|);
    }
  }

  /** A single datagram that fits the buffer, from any sender, reaches the only handler exactly as sent. */
  lemma DatagramDeliveredIntact(l: UDPListener, h: HandlerId, datagram: seq<Byte>, source: UdpAddr, cause: string)
    requires l.expectedSrcAddress.None? && l.handlers == [h] && |datagram| <= l.bufferSize
    ensures ReaderTrace(l, [ReadOk(datagram, source), ReadErr(cause)]) ==
              [Setup(h, PacketContext(source)), Handle(h, datagram)]
  {
    var os := [ReadOk(datagram, source), ReadErr(cause)];
    assert os[1..] == [ReadErr(cause)];
    assert Dispatch([h], PacketContext(source), datagram) == [Setup(h, PacketContext(source)), Handle(h, datagram)] by {
      assert [h][..0] == [];
    }
  }

  /** Without registered handlers the loop calls nothing, whatever it reads. */
  lemma {:induction false} NoHandlersNoCalls(l: UDPListener, outcomes: seq<ReadOutcome>)
    requires l.handlers == []
    ensures ReaderTrace(l, outcomes) == []
    decreases |outcomes|
  {
    if outcomes != [] && outcomes[0].ReadOk? {
      NoHandlersNoCalls(l, outcomes[1..]);
    }
  }

  /** A listener straight from `NewUDPListener` has no handlers and a zero-byte buffer, so its reader loop calls nothing. */
  lemma FreshListenerCallsNoHandler(address: string, outcomes: seq<ReadOutcome>)
    requires NewUDPListener(address).Success?
    ensures NewUDPListener(address).value.bufferSize == 0
    ensures ReaderTrace(NewUDPListener(address).value, outcomes) == []
  {
    NoHandlersNoCalls(NewUDPListener(address).value, outcomes);
  }
}
