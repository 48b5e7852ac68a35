/** The decision logic of the HDMICEC component (hdmi_cec.cpp) as pure
    functions over values: which frames reach the application, which
    `on_message` triggers fire, which built-in reply is sent, how many
    transmission attempts a send makes, and the bit-level receiver as a step
    function over edges. The class in module HdmiCec runs these in place. */
module CecProtocol {
  import opened Common
  import opened CecFrame

  // receiver constants (microseconds)
  const START_BIT_MIN_US: nat := 3500
  const HIGH_BIT_MIN_US: nat := 400
  const HIGH_BIT_MAX_US: nat := 800
  // arbitration and retransmission
  const MAX_ATTEMPTS: nat := 5

  // ---------------------------------------------------------------------------
  // Device types (`logical_address_to_device_type`)

  /** The CEC device type reported for a logical address: TV 0, Recording
      Device 1, Tuner 3, Playback Device 4, Audio System 5. Addresses with no
      dedicated type (Playback 1..3, Reserved, Specific Use, Unregistered) all
      report Playback Device. */
  function DeviceTypeOf(logicalAddress: Byte): (t: Byte)
    ensures t in {0, 1, 3, 4, 5}
    ensures t == 0 <==> logicalAddress == 0
    ensures t == 5 <==> logicalAddress == 5
    ensures t == 1 <==> logicalAddress in {1, 2, 9}
    ensures t == 3 <==> logicalAddress in {3, 6, 7, 10}
    ensures t == 4 <==> logicalAddress == 4 || logicalAddress == 8 || logicalAddress == 11 || logicalAddress >= 12
  {
    if logicalAddress == 0x0 then 0x00
    else if logicalAddress == 0x5 then 0x05
    else if logicalAddress in {0x1, 0x2, 0x9} then 0x01
    else if logicalAddress in {0x3, 0x6, 0x7, 0xA} then 0x03
    else 0x04
  }

  // ---------------------------------------------------------------------------
  // on_message trigger filters (`MessageTrigger`'s optional fields)

  /** The four optional filters of a trigger; `None` matches anything. */
  datatype Filter = Filter(source: Option<Byte>, destination: Option<Byte>,
                           opcode: Option<Byte>, data: Option<seq<Byte>>)

  const NoFilter := Filter(None, None, None, None)

  /** `can_trigger` in `HDMICEC::loop`: every filter that is set equals the
      frame's field; the data filter compares lengths and then all bytes.
      `data` is the frame without its header, so `data[0]` is the opcode. */
  predicate Accepts(flt: Filter, src: Byte, dst: Byte, data: seq<Byte>)
    requires |data| >= 1
  {
    && (flt.source.None? || flt.source.value == src)
    && (flt.destination.None? || flt.destination.value == dst)
    && (flt.opcode.None? || flt.opcode.value == data[0])
    && (flt.data.None? || (|data| == |flt.data.value| && flt.data.value == data))
  }

  /** The indices, in registration order, of the first `n` triggers that accept. */
  function Matching(filters: seq<Filter>, src: Byte, dst: Byte, data: seq<Byte>, n: nat): seq<nat>
    requires |data| >= 1 && n <= |filters|
    decreases n
  {
    if n == 0 then []
    else Matching(filters, src, dst, data, n - 1)
         + (if Accepts(filters[n - 1], src, dst, data) then [n - 1] else [])
  }

  /** Exactly the accepting triggers fire, each once, in registration order. */
  lemma MatchingExact(filters: seq<Filter>, src: Byte, dst: Byte, data: seq<Byte>, n: nat)
    requires |data| >= 1 && n <= |filters|
    ensures var m := Matching(filters, src, dst, data, n);
      && (forall i :: i in m <==> 0 <= i < n && Accepts(filters[i], src, dst, data))
      && (forall j, k :: 0 <= j < k < |m| ==> m[j] < m[k])
  {
    MatchingMembers(filters, src, dst, data, n);
    MatchingIncreasing(filters, src, dst, data, n);
  }

  lemma {:induction false} MatchingMembers(filters: seq<Filter>, src: Byte, dst: Byte, data: seq<Byte>, n: nat)
    requires |data| >= 1 && n <= |filters|
    ensures var m := Matching(filters, src, dst, data, n);
      forall i :: i in m <==> 0 <= i < n && Accepts(filters[i], src, dst, data)
    decreases n
  {
    if n > 0 {
      MatchingMembers(filters, src, dst, data, n - 1);
    }
  }

  lemma {:induction false} MatchingIncreasing(filters: seq<Filter>, src: Byte, dst: Byte, data: seq<Byte>, n: nat)
    requires |data| >= 1 && n <= |filters|
    ensures forall j :: 0 <= j < |Matching(filters, src, dst, data, n)| ==> Matching(filters, src, dst, data, n)[j] < n
    ensures forall j, k :: 0 <= j < k < |Matching(filters, src, dst, data, n)| ==>
      Matching(filters, src, dst, data, n)[j] < Matching(filters, src, dst, data, n)[k]
    decreases n
  {
    if n > 0 {
      MatchingIncreasing(filters, src, dst, data, n - 1);
      var m0 := Matching(filters, src, dst, data, n - 1);
      if Accepts(filters[n - 1], src, dst, data) {
        var m := m0 + [n - 1];
        assert Matching(filters, src, dst, data, n) == m;
        assert forall j :: 0 <= j < |m0| ==> m[j] == m0[j] && m[j] < n - 1;
      } else {
        assert m0 + [] == m0;
        assert Matching(filters, src, dst, data, n) == m0;
      }
    }
  }

  /** One more trigger considered: its index is appended iff it accepts. */
  lemma MatchingStep(filters: seq<Filter>, src: Byte, dst: Byte, data: seq<Byte>, i: nat)
    requires |data| >= 1 && i < |filters|
    ensures var m := Matching(filters, src, dst, data, i);
      var a := Accepts(filters[i], src, dst, data);
      && Matching(filters, src, dst, data, i + 1) == m + (if a then [i] else [])
      && FiringsOf(Matching(filters, src, dst, data, i + 1), src, dst, data)
         == FiringsOf(m, src, dst, data) + (if a then [Firing(i, src, dst, data)] else [])
      && (Matching(filters, src, dst, data, i + 1) != [] <==> m != [] || a)
  {
    var m := Matching(filters, src, dst, data, i);
    if Accepts(filters[i], src, dst, data) {
      assert (m + [i])[..|m|] == m;
    } else {
      assert m + [] == m;
    }
  }

  /** A trigger with no filter fires on every frame. */
  lemma NoFilterAcceptsAll(src: Byte, dst: Byte, data: seq<Byte>)
    requires |data| >= 1
    ensures Accepts(NoFilter, src, dst, data)
  {
  }

  /** A trigger filtering on the destination alone fires exactly for frames to
      that destination, whatever their source, opcode and operands. */
  lemma DestinationFilterNarrows(d: Byte, src: Byte, dst: Byte, data: seq<Byte>)
    requires |data| >= 1
    ensures Accepts(NoFilter.(destination := Some(d)), src, dst, data) <==> dst == d
  {
  }

  /** A set data filter accepts only the exact operand bytes (opcode included). */
  lemma DataFilterExact(flt: Filter, src: Byte, dst: Byte, data: seq<Byte>)
    requires |data| >= 1 && flt.data.Some?
    ensures Accepts(flt, src, dst, data) ==> data == flt.data.value
  {
  }

  // ---------------------------------------------------------------------------
  // Built-in replies (`try_builtin_handler_`)

  /** A message handed to `send`: source, destination and payload (opcode first). */
  datatype Message = Message(source: Byte, destination: Byte, payload: seq<Byte>)

  /** `decode_value` of a 16-bit value: its two bytes, most significant first. */
  function DecodeValue(v: Uint16): (bs: seq<Byte>)
    ensures |bs| == 2 && bs[0] as int * 256 + bs[1] as int == v
  {
    [v / 256, v % 256]
  }

  /** The reply the built-in handler sends for a request `data` from
      `requester`, given the device's own address, OSD name bytes and
      physical address. */
  function BuiltinReply(address: Byte, osdName: seq<Byte>, physicalAddress: Uint16,
                        requester: Byte, data: seq<Byte>): Option<Message>
  {
    if |data| == 0 then None
    else if data[0] == 0x9F then Some(Message(address, requester, [0x9E, 0x04]))     // Get CEC Version -> CEC Version 1.3a
    else if data[0] == 0x8F then Some(Message(address, requester, [0x90, 0x00]))     // Give Device Power Status -> On
    else if data[0] == 0x46 then Some(Message(address, requester, [0x47] + osdName)) // Give OSD Name -> Set OSD Name
    else if data[0] == 0x83 then                                                   // Give Physical Address
      Some(Message(address, BROADCAST_ADDRESS, [0x84] + DecodeValue(physicalAddress) + [DeviceTypeOf(address)]))
    else if data[0] == 0x00 then None                                              // Feature Abort: ignored
    else Some(Message(address, requester, [0x00, data[0], 0x00]))                  // Feature Abort, "Unrecognized opcode"
  }

  /** Every reply comes from the device's own address and goes back to the
      requester, except Report Physical Address, which is broadcast; the
      reply opcode is one of the five answers. */
  lemma BuiltinReplyShape(address: Byte, osdName: seq<Byte>, pa: Uint16, requester: Byte, data: seq<Byte>)
    ensures var r := BuiltinReply(address, osdName, pa, requester, data);
      && (r.Some? <==> |data| >= 1 && data[0] != 0x00)
      && (r.Some? ==> && r.value.source == address
                      && |r.value.payload| >= 1
                      && r.value.payload[0] in {0x9E, 0x90, 0x47, 0x84, 0x00}
                      && (r.value.destination == if data[0] == 0x83 then BROADCAST_ADDRESS else requester))
  {
  }

  /** An unsupported opcode is answered by a Feature Abort that names it, and
      a Feature Abort is never answered. */
  lemma FeatureAbortEchoesOpcode(address: Byte, osdName: seq<Byte>, pa: Uint16, requester: Byte, data: seq<Byte>)
    requires |data| >= 1 && data[0] !in {0x9F, 0x8F, 0x46, 0x83, 0x00}
    ensures BuiltinReply(address, osdName, pa, requester, data)
            == Some(Message(address, requester, [0x00, data[0], 0x00]))
  {
  }

  /** Give Physical Address is answered by a broadcast Report Physical
      Address carrying the physical address, most significant byte first,
      and the device type of the own logical address. */
  lemma ReportPhysicalAddressContents(address: Byte, osdName: seq<Byte>, pa: Uint16, requester: Byte, data: seq<Byte>)
    requires |data| >= 1 && data[0] == 0x83
    ensures var r := BuiltinReply(address, osdName, pa, requester, data);
      && r.Some? && r.value.destination == BROADCAST_ADDRESS && |r.value.payload| == 4
      && r.value.payload[0] == 0x84
      && r.value.payload[1] as int * 256 + r.value.payload[2] as int == pa
      && r.value.payload[3] == DeviceTypeOf(address)
  {
  }

  /** Two devices running the built-in handler against each other stop after at
      most two messages: a reply to a reply is either nothing or a Feature
      Abort, and a Feature Abort draws no reply. */
  lemma BuiltinExchangeTerminates(a1: Byte, n1: seq<Byte>, p1: Uint16, a2: Byte, n2: seq<Byte>, p2: Uint16,
                                  requester: Byte, data: seq<Byte>)
    requires BuiltinReply(a1, n1, p1, requester, data).Some?
    ensures var r := BuiltinReply(a1, n1, p1, requester, data).value;
      var r2 := BuiltinReply(a2, n2, p2, r.source, r.payload);
      r2.None? || (r2.value.payload[0] == 0x00 && BuiltinReply(a1, n1, p1, r2.value.source, r2.value.payload).None?)
  {
    var r := BuiltinReply(a1, n1, p1, requester, data).value;
    assert r.payload[0] in {0x9E, 0x90, 0x47, 0x84, 0x00} by {
      BuiltinReplyShape(a1, n1, p1, requester, data);
    }
  }

  // ---------------------------------------------------------------------------
  // Dispatch of one received frame (`HDMICEC::loop`)

  /** The settings of the device that `loop` reads. */
  datatype DeviceView = DeviceView(address: Byte, promiscuous: bool, osdName: seq<Byte>,
                                   physicalAddress: Uint16)

  /** One call of `trigger->trigger(src, dest, data)`: which trigger, and its arguments. */
  datatype Firing = Firing(trigger: nat, source: Byte, destination: Byte, data: seq<Byte>)

  /** The frame reaches triggers and built-ins at all: promiscuous mode, a
      broadcast, or addressed to this device. */
  predicate Admitted(dev: DeviceView, f: Frame)
    requires |f| >= 1
  {
    dev.promiscuous || Destination(f) == BROADCAST_ADDRESS || Destination(f) == dev.address
  }

  /** One firing per index, in order, each with the frame's fields. */
  function FiringsOf(ix: seq<nat>, src: Byte, dst: Byte, data: seq<Byte>): (r: seq<Firing>)
    ensures |r| == |ix|
    decreases |ix|
  {
    if ix == [] then [] else FiringsOf(ix[..|ix| - 1], src, dst, data) + [Firing(ix[|ix| - 1], src, dst, data)]
  }

  lemma {:induction false} FiringsOfAt(ix: seq<nat>, src: Byte, dst: Byte, data: seq<Byte>)
    ensures forall j :: 0 <= j < |ix| ==> FiringsOf(ix, src, dst, data)[j] == Firing(ix[j], src, dst, data)
    decreases |ix|
  {
    if ix != [] {
      FiringsOfAt(ix[..|ix| - 1], src, dst, data);
    }
  }

  /** The triggers fired by frame `f` (an empty frame, which the receiver
      never queues, fires none). */
  function FrameFirings(dev: DeviceView, filters: seq<Filter>, f: Frame): seq<Firing>
  {
    if |f| <= 1 || !Admitted(dev, f) then []
    else FiringsOf(Matching(filters, Initiator(f), Destination(f), f[1..], |filters|),
                   Initiator(f), Destination(f), f[1..])
  }

  /** The built-in reply sent for frame `f`: only when directly addressed
      (not broadcast, destination is this device) and no trigger fired. */
  function FrameReply(dev: DeviceView, filters: seq<Filter>, f: Frame): Option<Message>
  {
    if |f| <= 1 || !Admitted(dev, f) then None
    else if Destination(f) != BROADCAST_ADDRESS && Destination(f) == dev.address
            && Matching(filters, Initiator(f), Destination(f), f[1..], |filters|) == []
    then BuiltinReply(dev.address, dev.osdName, dev.physicalAddress, Initiator(f), f[1..])
    else None
  }

  /** Frames for other devices (outside promiscuous mode) and pings are
      dropped: no trigger fires and nothing is sent. */
  lemma DroppedFrames(dev: DeviceView, filters: seq<Filter>, f: Frame)
    requires |f| >= 1
    requires (!dev.promiscuous && Destination(f) != BROADCAST_ADDRESS && Destination(f) != dev.address) || |f| == 1
    ensures FrameFirings(dev, filters, f) == [] && FrameReply(dev, filters, f) == None
  {
  }

  /** The built-in handler answers iff the frame is directly addressed to this
      device, carries an opcode that is not Feature Abort, and fired no trigger. */
  lemma {:induction false} BuiltinRunsIff(dev: DeviceView, filters: seq<Filter>, f: Frame)
    requires |f| >= 1
    ensures FrameReply(dev, filters, f).Some? <==>
      && |f| >= 2 && f[1] != 0x00
      && Destination(f) != BROADCAST_ADDRESS && Destination(f) == dev.address
      && FrameFirings(dev, filters, f) == []
  {
    if |f| >= 2 && Admitted(dev, f) {
      var m := Matching(filters, Initiator(f), Destination(f), f[1..], |filters|);
      assert |FiringsOf(m, Initiator(f), Destination(f), f[1..])| == |m|;
      BuiltinReplyShape(dev.address, dev.osdName, dev.physicalAddress, Initiator(f), f[1..]);
    }
  }

  /** Trigger `k` fires for frame `f` iff the frame is admitted, carries an
      opcode and the trigger's filters accept it; each firing passes the
      frame's initiator, destination and data on, and the triggers fire in
      registration order, each at most once. */
  lemma {:induction false} TriggerFiresIff(dev: DeviceView, filters: seq<Filter>, f: Frame, k: nat)
    requires |f| >= 1 && k < |filters|
    ensures var fs := FrameFirings(dev, filters, f);
      && ((exists j :: 0 <= j < |fs| && fs[j].trigger == k) <==>
           |f| >= 2 && Admitted(dev, f) && Accepts(filters[k], Initiator(f), Destination(f), f[1..]))
      && (forall j :: 0 <= j < |fs| ==>
            fs[j].source == Initiator(f) && fs[j].destination == Destination(f) && fs[j].data == f[1..])
      && (forall i, j :: 0 <= i < j < |fs| ==> fs[i].trigger < fs[j].trigger)
  {
    if |f| >= 2 && Admitted(dev, f) {
      var m := Matching(filters, Initiator(f), Destination(f), f[1..], |filters|);
      MatchingExact(filters, Initiator(f), Destination(f), f[1..], |filters|);
      FiringsOfAt(m, Initiator(f), Destination(f), f[1..]);
      var fs := FrameFirings(dev, filters, f);
      if Accepts(filters[k], Initiator(f), Destination(f), f[1..]) {
        assert k in m;
        var j :| 0 <= j < |m| && m[j] == k;
        assert fs[j].trigger == k;
      }
    }
  }

  /** The triggers fired by a whole queue of frames, in queue order. */
  function QueueFirings(dev: DeviceView, filters: seq<Filter>, q: seq<Frame>): seq<Firing>
    decreases |q|
  {
    if q == [] then [] else QueueFirings(dev, filters, q[..|q| - 1]) + FrameFirings(dev, filters, q[|q| - 1])
  }

  function OptionToSeq<T>(o: Option<T>): seq<T>
  {
    if o.Some? then [o.value] else []
  }

  /** The built-in replies for a whole queue of frames, in queue order. */
  function QueueReplies(dev: DeviceView, filters: seq<Filter>, q: seq<Frame>): seq<Message>
    decreases |q|
  {
    if q == [] then [] else QueueReplies(dev, filters, q[..|q| - 1]) + OptionToSeq(FrameReply(dev, filters, q[|q| - 1]))
  }

  /** Dispatching one more frame appends its firings and its reply. */
  lemma QueueSnoc(dev: DeviceView, filters: seq<Filter>, q: seq<Frame>, f: Frame)
    ensures QueueFirings(dev, filters, q + [f]) == QueueFirings(dev, filters, q) + FrameFirings(dev, filters, f)
    ensures QueueReplies(dev, filters, q + [f]) == QueueReplies(dev, filters, q) + OptionToSeq(FrameReply(dev, filters, f))
  {
    assert (q + [f])[..|q|] == q;
  }

  /** The records after one more frame, given the records before it. */
  lemma DrainStep(dev: DeviceView, filters: seq<Filter>, done: seq<Frame>, f: Frame,
                  fired0: seq<Firing>, fired1: seq<Firing>, fired2: seq<Firing>,
                  outbox0: seq<Message>, outbox1: seq<Message>, outbox2: seq<Message>, monitor: bool)
    requires fired1 == fired0 + QueueFirings(dev, filters, done)
    requires fired2 == fired1 + FrameFirings(dev, filters, f)
    requires outbox1 == outbox0 + (if monitor then [] else QueueReplies(dev, filters, done))
    requires outbox2 == outbox1 + (if monitor then [] else OptionToSeq(FrameReply(dev, filters, f)))
    ensures fired2 == fired0 + QueueFirings(dev, filters, done + [f])
    ensures outbox2 == outbox0 + (if monitor then [] else QueueReplies(dev, filters, done + [f]))
  {
    QueueSnoc(dev, filters, done, f);
    AppendAssoc(fired0, QueueFirings(dev, filters, done), FrameFirings(dev, filters, f));
    AppendAssoc(outbox0, QueueReplies(dev, filters, done), OptionToSeq(FrameReply(dev, filters, f)));
  }

  // ---------------------------------------------------------------------------
  // Transmission attempts (`HDMICEC::send`)

  /** Outcome of one `send_frame_` call on the bus. */
  datatype SendResult = Success | BusCollision | NoAck

  // ---------------------------------------------------------------------------
  // The bit-level receiver (`gpio_intr_`, `reset_state_variables_`)

  datatype ReceiverState = Idle | ReceivingByte | WaitingForEOM | WaitingForAck | WaitingForEOMAck

  /** One pin interrupt: a falling edge, or a rising edge ending a low pulse of
      the given length (the clock readings are folded into the length). */
  datatype Edge = Falling | Rising(pulseUs: nat)

  /** The receiver's variables; `acksDriven` counts the acknowledgement
      pulses driven onto the bus, the only effect of a falling edge. */
  datatype Rx = Rx(state: ReceiverState, bitCounter: Byte, byteBuffer: Byte, frameBuffer: Frame,
                   queue: seq<Frame>, ackQueued: bool, acksDriven: nat)

  /** The zero-initialised receiver of a freshly allocated component. */
  const InitialRx := Rx(Idle, 0, 0, [], [], false, 0)

  /** Invariant of the receiver: fewer than eight bits are pending and the
      pending bits fit in them, there is a header byte whenever the EOM bit
      is next, and every queued frame has a header. */
  predicate RxValid(rx: Rx)
  {
    && rx.bitCounter < 8
    && rx.byteBuffer < Pow2(rx.bitCounter)
    && (rx.state == WaitingForEOM ==> |rx.frameBuffer| >= 1)
    && (rx.state != ReceivingByte ==> rx.bitCounter == 0)
    && (forall k :: 0 <= k < |rx.queue| ==> |rx.queue[k]| >= 1)
  }

  /** The bit a pulse carries: logic 1 iff its low part lasted 400..800 us. */
  function PulseBit(pulseUs: nat): (b: nat)
    ensures b <= 1
  {
    if HIGH_BIT_MIN_US <= pulseUs <= HIGH_BIT_MAX_US then 1 else 0
  }

  /** A falling edge: the acknowledgement queued for this frame, if any, is
      driven now, unless the device only monitors the bus. */
  function RxFalling(rx: Rx, monitor: bool): (r: Rx)
    requires RxValid(rx)
    ensures RxValid(r)
  {
    if rx.ackQueued && !monitor then rx.(ackQueued := false, acksDriven := rx.acksDriven + 1) else rx
  }

  /** A start bit: reception restarts with an empty frame buffer. */
  function RxStartBit(rx: Rx): (r: Rx)
    requires RxValid(rx)
    ensures RxValid(r)
  {
    rx.(state := ReceivingByte, bitCounter := 0, byteBuffer := 0, frameBuffer := [], ackQueued := false)
  }

  /** A data bit, EOM bit or acknowledgement slot, by receiver state. */
  function RxBit(rx: Rx, address: Byte, bit: nat): (r: Rx)
    requires RxValid(rx) && bit <= 1
    ensures RxValid(r)
  {
    match rx.state
    case ReceivingByte =>
      assert rx.byteBuffer * 2 + bit < Pow2(rx.bitCounter + 1);
      var b: Byte := (rx.byteBuffer * 2 + bit) % 256;
      var c: Byte := rx.bitCounter + 1;
      if c >= 8 then rx.(frameBuffer := rx.frameBuffer + [b], bitCounter := 0, byteBuffer := 0, state := WaitingForEOM)
      else rx.(byteBuffer := b, bitCounter := c, state := ReceivingByte)
    case WaitingForEOM =>
      var dest := rx.frameBuffer[0] % 16;
      var ack := rx.ackQueued || (dest != BROADCAST_ADDRESS && dest == address);
      if bit == 1 then
        rx.(ackQueued := ack, queue := rx.queue + [rx.frameBuffer], bitCounter := 0, byteBuffer := 0,
            frameBuffer := [], state := WaitingForEOMAck)
      else rx.(ackQueued := ack, state := WaitingForAck)
    case WaitingForAck => rx.(state := ReceivingByte)
    case WaitingForEOMAck => rx.(state := Idle)
    case Idle => rx
  }

  /** One run of `gpio_intr_`: a rising edge ending a pulse longer than a
      start bit's minimum is a start bit, any other carries one bit. */
  function RxStep(rx: Rx, address: Byte, monitor: bool, e: Edge): (r: Rx)
    requires RxValid(rx)
    ensures RxValid(r)
  {
    match e
    case Falling => RxFalling(rx, monitor)
    case Rising(d) => if d > START_BIT_MIN_US then RxStartBit(rx) else RxBit(rx, address, PulseBit(d))
  }

  /** The receiver after a sequence of interrupts. */
  function RxRun(rx: Rx, address: Byte, monitor: bool, es: seq<Edge>): (r: Rx)
    requires RxValid(rx)
    ensures RxValid(r)
    decreases |es|
  {
    if es == [] then rx else RxStep(RxRun(rx, address, monitor, es[..|es| - 1]), address, monitor, es[|es| - 1])
  }

  /** The value of pulses read as bits, most significant first. */
  function PulsesValue(pulses: seq<nat>): nat
    decreases |pulses|
  {
    if pulses == [] then 0 else PulsesValue(pulses[..|pulses| - 1]) * 2 + PulseBit(pulses[|pulses| - 1])
  }

  /** The edges of data bits on the bus: each bit is a falling edge, then a
      rising edge ending its low pulse. */
  function BitEdges(pulses: seq<nat>): (es: seq<Edge>)
    ensures |es| == 2 * |pulses|
    decreases |pulses|
  {
    if pulses == [] then [] else BitEdges(pulses[..|pulses| - 1]) + [Falling, Rising(pulses[|pulses| - 1])]
  }

  lemma RxRunTwo(rx: Rx, address: Byte, monitor: bool, es: seq<Edge>, e1: Edge, e2: Edge)
    requires RxValid(rx)
    ensures RxRun(rx, address, monitor, es + [e1, e2])
         == RxStep(RxStep(RxRun(rx, address, monitor, es), address, monitor, e1), address, monitor, e2)
  {
    var all := es + [e1, e2];
    assert all[..|all| - 1] == es + [e1];
    assert (es + [e1])[..|es|] == es;
  }

  /** While fewer than eight bits have arrived, the receiver keeps them most
      significant first in its byte buffer and leaves the frame alone. */
  lemma {:induction false} PartialByte(rx: Rx, address: Byte, monitor: bool, pulses: seq<nat>)
    requires RxValid(rx) && rx.state == ReceivingByte && rx.bitCounter == 0
    requires |pulses| < 8
    requires forall i :: 0 <= i < |pulses| ==> pulses[i] <= START_BIT_MIN_US
    ensures var r := RxRun(rx, address, monitor, BitEdges(pulses));
      && r.state == ReceivingByte && r.bitCounter == |pulses| && r.byteBuffer == PulsesValue(pulses)
      && r.frameBuffer == rx.frameBuffer && r.queue == rx.queue
    decreases |pulses|
  {
    if pulses != [] {
      var init := pulses[..|pulses| - 1];
      var p := pulses[|pulses| - 1];
      PartialByte(rx, address, monitor, init);
      RxRunTwo(rx, address, monitor, BitEdges(init), Falling, Rising(p));
      DataBit(RxRun(rx, address, monitor, BitEdges(init)), address, monitor, p);
    } else {
      assert rx.byteBuffer < Pow2(0);
    }
  }

  /** One data bit (a falling edge and the rising edge after it) in the middle
      of a byte shifts the bit into the byte buffer. */
  lemma DataBit(r0: Rx, address: Byte, monitor: bool, p: nat)
    requires RxValid(r0) && r0.state == ReceivingByte && p <= START_BIT_MIN_US
    ensures var r := RxStep(RxStep(r0, address, monitor, Falling), address, monitor, Rising(p));
      && r.frameBuffer == (if r0.bitCounter == 7 then r0.frameBuffer + [r0.byteBuffer * 2 + PulseBit(p)] else r0.frameBuffer)
      && r.queue == r0.queue
      && r.state == (if r0.bitCounter == 7 then WaitingForEOM else ReceivingByte)
      && r.bitCounter == (if r0.bitCounter == 7 then 0 else r0.bitCounter + 1)
      && r.byteBuffer == (if r0.bitCounter == 7 then 0 else r0.byteBuffer * 2 + PulseBit(p))
  {
    var r1 := RxStep(r0, address, monitor, Falling);
    assert r1.state == r0.state && r1.bitCounter == r0.bitCounter && r1.byteBuffer == r0.byteBuffer;
    assert r1.frameBuffer == r0.frameBuffer && r1.queue == r0.queue;
    TwiceBelowPow2(r1.byteBuffer, PulseBit(p), r1.bitCounter);
  }

  lemma TwiceBelowPow2(b: nat, bit: nat, n: nat)
    requires b < Pow2(n) && bit <= 1 && n < 8
    ensures b * 2 + bit < 256 && (b * 2 + bit) % 256 == b * 2 + bit
  {
    assert Pow2(n) <= Pow2(7) by { Pow2Monotone(n, 7); }
  }

  lemma {:induction false} Pow2Monotone(m: nat, n: nat)
    requires m <= n
    ensures Pow2(m) <= Pow2(n)
    decreases n
  {
    if m < n {
      Pow2Monotone(m, n - 1);
    }
  }

  /** Eight data bits, most significant first, append one byte to the frame
      buffer, after which the receiver waits for the EOM bit. */
  lemma ByteAssembly(rx: Rx, address: Byte, monitor: bool, pulses: seq<nat>)
    requires RxValid(rx) && rx.state == ReceivingByte && rx.bitCounter == 0
    requires |pulses| == 8
    requires forall i :: 0 <= i < |pulses| ==> pulses[i] <= START_BIT_MIN_US
    ensures var r := RxRun(rx, address, monitor, BitEdges(pulses));
      && r.state == WaitingForEOM && r.bitCounter == 0 && r.byteBuffer == 0
      && r.frameBuffer == rx.frameBuffer + [PulsesValue(pulses)] && r.queue == rx.queue
  {
    var init := pulses[..7];
    assert init == pulses[..|pulses| - 1];
    PartialByte(rx, address, monitor, init);
    RxRunTwo(rx, address, monitor, BitEdges(init), Falling, Rising(pulses[7]));
    DataBit(RxRun(rx, address, monitor, BitEdges(init)), address, monitor, pulses[7]);
  }

  /** A set EOM bit hands the buffered frame to the application's queue and
      empties the buffer; either way the acknowledgement slot comes next. */
  lemma EndOfMessage(rx: Rx, address: Byte, monitor: bool, pulseUs: nat)
    requires RxValid(rx) && rx.state == WaitingForEOM && pulseUs <= START_BIT_MIN_US
    ensures var r := RxStep(rx, address, monitor, Rising(pulseUs));
      && (PulseBit(pulseUs) == 1 ==> r.queue == rx.queue + [rx.frameBuffer] && r.frameBuffer == []
                                     && r.state == WaitingForEOMAck)
      && (PulseBit(pulseUs) == 0 ==> r.queue == rx.queue && r.frameBuffer == rx.frameBuffer
                                     && r.state == WaitingForAck)
  {
  }

  /** A start bit restarts reception from scratch and drops a pending ack. */
  lemma StartBitResets(rx: Rx, address: Byte, monitor: bool, pulseUs: nat)
    requires RxValid(rx) && pulseUs > START_BIT_MIN_US
    ensures var r := RxStep(rx, address, monitor, Rising(pulseUs));
      && r.state == ReceivingByte && r.bitCounter == 0 && r.byteBuffer == 0 && r.frameBuffer == []
      && !r.ackQueued && r.queue == rx.queue
  {
  }

  /** An acknowledgement is only ever queued for a frame directly addressed to
      this device: its header's destination nibble is the device's address and
      not the broadcast address. */
  lemma AckOnlyForUs(rx: Rx, address: Byte, monitor: bool, e: Edge)
    requires RxValid(rx) && !rx.ackQueued
    ensures RxStep(rx, address, monitor, e).ackQueued ==>
      && rx.state == WaitingForEOM && rx.frameBuffer[0] % 16 == address && address != BROADCAST_ADDRESS
  {
  }

  /** In monitor mode the receiver never drives the bus. */
  lemma {:induction false} MonitorNeverAcks(rx: Rx, address: Byte, es: seq<Edge>)
    requires RxValid(rx)
    ensures RxRun(rx, address, true, es).acksDriven == rx.acksDriven
    decreases |es|
  {
    if es != [] {
      MonitorNeverAcks(rx, address, es[..|es| - 1]);
    }
  }
}
