/** The runtime objects of the component (hdmi_cec.h, hdmi_cec.cpp): the
    HDMICEC device with its settings, its registered `on_message` triggers,
    its bit-level receiver and its transmitter; the MessageTrigger with its
    optional filters; and the `hdmi_cec.send` action. Every method updates the
    object in place and is proved against the functions of CecProtocol. */
module HdmiCecComponent {
  import opened Common
  import opened CecFrame
  import opened CecProtocol

  /** The settings written by the setters that the generated code calls. */
  datatype Settings = Settings(pin: nat, address: Byte, physicalAddress: Uint16, promiscuousMode: bool,
                               monitorMode: bool, logPings: bool, osdNameBytes: seq<Byte>)

  /** The HDMICEC component. A freshly allocated component is zero-initialised
      (`new HDMICEC()` value-initialises the members of a class without a
      user-written constructor). The bus itself is not modelled: `medium(k)`,
      fixed at construction, is the outcome of the k-th `send_frame_` call. */
  class HdmiCec {
    // settings
    var pin: nat
    var address: Byte
    var physicalAddress: Uint16
    var promiscuousMode: bool
    var monitorMode: bool
    var logPings: bool
    var osdNameBytes: seq<Byte>
    var messageTriggers: seq<MessageTrigger>

    // receiver (written by the pin interrupt)
    var receiverState: ReceiverState
    var recvBitCounter: Byte
    var recvByteBuffer: Byte
    var recvFrameBuffer: Frame
    var recvQueue: seq<Frame>
    var recvAckQueued: bool
    var acksDriven: nat

    // transmitter
    const medium: nat -> SendResult
    var attempts: nat          // number of send_frame_ calls so far
    var outbox: seq<Message>   // every send that reached the transmitter, in order

    // application side: every trigger->trigger(...) call, in order
    var fired: seq<Firing>

    function SettingsView(): Settings
      reads this
    {
      Settings(pin, address, physicalAddress, promiscuousMode, monitorMode, logPings, osdNameBytes)
    }

    function RxView(): Rx
      reads this
    {
      Rx(receiverState, recvBitCounter, recvByteBuffer, recvFrameBuffer, recvQueue, recvAckQueued, acksDriven)
    }

    /** What `loop` reads of the device. */
    function DeviceViewOf(): DeviceView
      reads this
    {
      DeviceView(address, promiscuousMode, osdNameBytes, physicalAddress)
    }

    ghost predicate Valid()
      reads this
    {
      RxValid(RxView())
    }

    constructor (medium: nat -> SendResult)
      ensures Valid()
      ensures SettingsView() == Settings(0, 0, 0, false, false, false, [])
      ensures messageTriggers == []
      ensures RxView() == InitialRx
      ensures this.medium == medium
      ensures attempts == 0 && outbox == [] && fired == []
    {
      pin, address, physicalAddress := 0, 0, 0;
      promiscuousMode, monitorMode, logPings := false, false, false;
      osdNameBytes, messageTriggers := [], [];
      receiverState, recvBitCounter, recvByteBuffer := Idle, 0, 0;
      recvFrameBuffer, recvQueue, recvAckQueued, acksDriven := [], [], false, 0;
      this.medium := medium;
      attempts, outbox, fired := 0, [], [];
    }

    // -------------------------------------------------------------------------
    // setters

    method SetPin(p: nat)
      modifies this
      ensures SettingsView() == old(SettingsView()).(pin := p)
      ensures messageTriggers == old(messageTriggers) && RxView() == old(RxView())
      ensures attempts == old(attempts) && outbox == old(outbox) && fired == old(fired)
    {
      pin := p;
    }

    method SetAddress(a: Byte)
      modifies this
      ensures SettingsView() == old(SettingsView()).(address := a)
      ensures messageTriggers == old(messageTriggers) && RxView() == old(RxView())
      ensures attempts == old(attempts) && outbox == old(outbox) && fired == old(fired)
    {
      address := a;
    }

    /** `address()` */
    function Address(): Byte
      reads this
    {
      address
    }

    method SetPhysicalAddress(pa: Uint16)
      modifies this
      ensures SettingsView() == old(SettingsView()).(physicalAddress := pa)
      ensures messageTriggers == old(messageTriggers) && RxView() == old(RxView())
      ensures attempts == old(attempts) && outbox == old(outbox) && fired == old(fired)
    {
      physicalAddress := pa;
    }

    method SetPromiscuousMode(on: bool)
      modifies this
      ensures SettingsView() == old(SettingsView()).(promiscuousMode := on)
      ensures messageTriggers == old(messageTriggers) && RxView() == old(RxView())
      ensures attempts == old(attempts) && outbox == old(outbox) && fired == old(fired)
    {
      promiscuousMode := on;
    }

    method SetMonitorMode(on: bool)
      modifies this
      ensures SettingsView() == old(SettingsView()).(monitorMode := on)
      ensures messageTriggers == old(messageTriggers) && RxView() == old(RxView())
      ensures attempts == old(attempts) && outbox == old(outbox) && fired == old(fired)
    {
      monitorMode := on;
    }

    method SetLogPings(on: bool)
      modifies this
      ensures SettingsView() == old(SettingsView()).(logPings := on)
      ensures messageTriggers == old(messageTriggers) && RxView() == old(RxView())
      ensures attempts == old(attempts) && outbox == old(outbox) && fired == old(fired)
    {
      logPings := on;
    }

    method SetOsdNameBytes(name: seq<Byte>)
      modifies this
      ensures SettingsView() == old(SettingsView()).(osdNameBytes := name)
      ensures messageTriggers == old(messageTriggers) && RxView() == old(RxView())
      ensures attempts == old(attempts) && outbox == old(outbox) && fired == old(fired)
    {
      osdNameBytes := name;
    }

    method AddMessageTrigger(t: MessageTrigger)
      modifies this
      ensures messageTriggers == old(messageTriggers) + [t]
      ensures SettingsView() == old(SettingsView()) && RxView() == old(RxView())
      ensures attempts == old(attempts) && outbox == old(outbox) && fired == old(fired)
    {
      messageTriggers := messageTriggers + [t];
    }

    // -------------------------------------------------------------------------
    // transmitter

    /** The bus transmission of one frame; its outcome is the medium's. */
    method SendFrame(frame: Frame, isBroadcast: bool) returns (result: SendResult)
      modifies this`attempts
      ensures result == medium(old(attempts)) && attempts == old(attempts) + 1
    {
      result := medium(attempts);
      attempts := attempts + 1;
    }

    /** `send`: refuses in monitor mode; otherwise hands the message to the
        transmitter and tries up to MAX_ATTEMPTS times, stopping at the first
        acknowledged attempt. */
    method Send(source: Byte, destination: Byte, dataBytes: seq<Byte>) returns (ok: bool)
      modifies this`attempts, this`outbox
      ensures monitorMode ==> !ok && attempts == old(attempts) && outbox == old(outbox)
      ensures !monitorMode ==>
        && outbox == old(outbox) + [Message(source, destination, dataBytes)]
        && old(attempts) < attempts <= old(attempts) + MAX_ATTEMPTS
        && (forall k :: old(attempts) <= k < attempts - 1 ==> medium(k) != Success)
        && (ok <==> medium(attempts - 1) == Success)
        && (!ok ==> attempts == old(attempts) + MAX_ATTEMPTS)
      ensures attempts >= old(attempts)
    {
      if monitorMode {
        return false;
      }
      var isBroadcast := destination == BROADCAST_ADDRESS;
      var frame := MakeFrame(source, destination, dataBytes);
      outbox := outbox + [Message(source, destination, dataBytes)];
      var i := 0;
      while i < MAX_ATTEMPTS
        invariant 0 <= i <= MAX_ATTEMPTS
        invariant attempts == old(attempts) + i
        invariant forall k :: old(attempts) <= k < attempts ==> medium(k) != Success
        invariant outbox == old(outbox) + [Message(source, destination, dataBytes)]
      {
        var result := SendFrame(frame, isBroadcast);
        if result == Success {
          return true;
        }
        i := i + 1;
      }
      return false;
    }

    // -------------------------------------------------------------------------
    // application side

    /** `try_builtin_handler_`: sends the built-in reply, if there is one. */
    method TryBuiltinHandler(source: Byte, destination: Byte, data: seq<Byte>)
      modifies this`attempts, this`outbox
      ensures outbox == old(outbox) + (if monitorMode then [] else
        OptionToSeq(BuiltinReply(address, osdNameBytes, physicalAddress, source, data)))
      ensures attempts >= old(attempts)
    {
      if |data| == 0 {
        return;
      }
      var opcode := data[0];
      var ok;
      if opcode == 0x9F {
        ok := Send(address, source, [0x9E, 0x04]);
      } else if opcode == 0x8F {
        ok := Send(address, source, [0x90, 0x00]);
      } else if opcode == 0x46 {
        var reply := [0x47] + osdNameBytes;
        ok := Send(address, source, reply);
      } else if opcode == 0x83 {
        var physicalAddressBytes := DecodeValue(physicalAddress);
        var reply := [0x84] + physicalAddressBytes + [DeviceTypeOf(address)];
        ok := Send(address, BROADCAST_ADDRESS, reply);
      } else if opcode == 0x00 {
        // Feature Abort responses are ignored
      } else {
        ok := Send(address, source, [0x00, opcode, 0x00]);
      }
    }

    /** The trigger loop of `loop` for one frame: fires, in registration
        order, every trigger whose filters accept it, and tells whether one did. */
    method FireTriggers(src: Byte, dest: Byte, data: seq<Byte>, ghost filters: seq<Filter>) returns (handledByTrigger: bool)
      requires |data| >= 1 && filters == FiltersOf(messageTriggers)
      modifies this`fired
      ensures fired == old(fired) + FiringsOf(Matching(filters, src, dest, data, |filters|), src, dest, data)
      ensures handledByTrigger <==> Matching(filters, src, dest, data, |filters|) != []
    {
      var triggers := messageTriggers;
      var calls := fired;
      handledByTrigger := false;
      var i := 0;
      while i < |triggers|
        invariant 0 <= i <= |filters| == |triggers|
        invariant calls == old(fired) + FiringsOf(Matching(filters, src, dest, data, i), src, dest, data)
        invariant handledByTrigger <==> Matching(filters, src, dest, data, i) != []
      {
        assert triggers[i].AsFilter() == filters[i];
        var accepts := Accepts(triggers[i].AsFilter(), src, dest, data);
        MatchingStep(filters, src, dest, data, i);
        if accepts {
          calls := calls + [Firing(i, src, dest, data)];
          handledByTrigger := true;
        }
        i := i + 1;
      }
      assert i == |filters|;
      fired := calls;
    }

    /** The body of `loop`'s queue-draining loop, for one frame; `dev` and
        `filters` name what the device and its triggers are at the call. */
    method HandleFrame(frame: Frame, ghost dev: DeviceView, ghost filters: seq<Filter>)
      requires |frame| >= 1
      requires dev == DeviceViewOf() && filters == FiltersOf(messageTriggers)
      modifies this`fired, this`attempts, this`outbox
      ensures fired == old(fired) + FrameFirings(dev, filters, frame)
      ensures outbox == old(outbox) + (if monitorMode then [] else OptionToSeq(FrameReply(dev, filters, frame)))
      ensures attempts >= old(attempts)
    {
      var src := Initiator(frame);
      var dest := Destination(frame);
      if !promiscuousMode && dest != BROADCAST_ADDRESS && dest != address {
        return;  // not meant for us
      }
      if |frame| == 1 {
        return;  // a ping, already dealt with by the acknowledgement
      }
      var data := frame[1..];
      var handledByTrigger := FireTriggers(src, dest, data, filters);
      var isDirectlyAddressed := dest != BROADCAST_ADDRESS && dest == address;
      if isDirectlyAddressed && !handledByTrigger {
        TryBuiltinHandler(src, dest, data);
      }
    }

    /** One iteration of `loop`'s queue-draining loop: `front()`, `pop()`,
        then the dispatch of that frame. */
    method DispatchFront(ghost dev: DeviceView, ghost filters: seq<Filter>) returns (ghost frame: Frame)
      requires Valid() && |recvQueue| > 0
      requires dev == DeviceViewOf() && filters == FiltersOf(messageTriggers)
      modifies this`recvQueue, this`fired, this`attempts, this`outbox
      ensures Valid() && old(recvQueue) == [frame] + recvQueue
      ensures fired == old(fired) + FrameFirings(dev, filters, frame)
      ensures outbox == old(outbox) + (if monitorMode then [] else OptionToSeq(FrameReply(dev, filters, frame)))
      ensures attempts >= old(attempts)
    {
      var f := recvQueue[0];
      recvQueue := recvQueue[1..];
      assert old(recvQueue) == [f] + recvQueue;
      HandleFrame(f, dev, filters);
      frame := f;
    }

    /** `loop`: drains the receive queue, dispatching each frame in order. */
    method Loop()
      requires Valid()
      modifies this`recvQueue, this`fired, this`attempts, this`outbox
      ensures Valid()
      ensures recvQueue == []
      ensures fired == old(fired) + QueueFirings(DeviceViewOf(), FiltersOf(messageTriggers), old(recvQueue))
      ensures outbox == old(outbox) + (if monitorMode then [] else
        QueueReplies(DeviceViewOf(), FiltersOf(messageTriggers), old(recvQueue)))
      ensures attempts >= old(attempts)
    {
      ghost var dev, filters := DeviceViewOf(), FiltersOf(messageTriggers);
      ghost var q0, fired0, outbox0, attempts0 := recvQueue, fired, outbox, attempts;
      ghost var done: seq<Frame> := [];
      assert q0 == done + recvQueue;
      while |recvQueue| > 0
        invariant Valid()
        invariant q0 == done + recvQueue
        invariant dev == DeviceViewOf() && filters == FiltersOf(messageTriggers)
        invariant fired == fired0 + QueueFirings(dev, filters, done)
        invariant outbox == outbox0 + (if monitorMode then [] else QueueReplies(dev, filters, done))
        invariant attempts >= attempts0
        decreases |recvQueue|
      {
        ghost var fired1, outbox1 := fired, outbox;
        var frame := DispatchFront(dev, filters);
        AppendAssoc(done, [frame], recvQueue);
        DrainStep(dev, filters, done, frame, fired0, fired1, fired, outbox0, outbox1, outbox, monitorMode);
        done := done + [frame];
      }
      assert done == q0;
    }

    // -------------------------------------------------------------------------
    // receiver

    /** `reset_state_variables_` */
    method ResetStateVariables()
      modifies this`recvBitCounter, this`recvByteBuffer, this`recvFrameBuffer
      ensures RxView() == old(RxView()).(bitCounter := 0, byteBuffer := 0, frameBuffer := [])
    {
      recvBitCounter := 0;
      recvByteBuffer := 0;
      recvFrameBuffer := [];
    }

    /** `gpio_intr_`: one pin interrupt. */
    method GpioIntr(e: Edge)
      requires Valid()
      modifies this`receiverState, this`recvBitCounter, this`recvByteBuffer, this`recvFrameBuffer
      modifies this`recvQueue, this`recvAckQueued, this`acksDriven
      ensures Valid()
      ensures RxView() == RxStep(old(RxView()), address, monitorMode, e)
    {
      if e.Falling? {
        OnFallingEdge();
        return;
      }
      var pulseDuration := e.pulseUs;
      if pulseDuration > START_BIT_MIN_US {
        OnStartBit();
        return;
      }
      var value := HIGH_BIT_MIN_US <= pulseDuration <= HIGH_BIT_MAX_US;
      OnBit(if value then 1 else 0);
    }

    /** The falling-edge branch of `gpio_intr_`. */
    method OnFallingEdge()
      requires Valid()
      modifies this`recvAckQueued, this`acksDriven
      ensures RxView() == RxFalling(old(RxView()), monitorMode)
    {
      if recvAckQueued && !monitorMode {
        recvAckQueued := false;
        acksDriven := acksDriven + 1;  // pull the line low for LOW_BIT_US
      }
    }

    /** The start-bit branch of `gpio_intr_`. */
    method OnStartBit()
      requires Valid()
      modifies this`receiverState, this`recvBitCounter, this`recvByteBuffer, this`recvFrameBuffer
      modifies this`recvAckQueued
      ensures RxView() == RxStartBit(old(RxView()))
    {
      receiverState := ReceivingByte;
      ResetStateVariables();
      recvAckQueued := false;
    }

    /** The `switch (receiver_state_)` of `gpio_intr_`, for a bit of value `bit`. */
    method OnBit(bit: nat)
      requires Valid() && bit <= 1
      modifies this`receiverState, this`recvBitCounter, this`recvByteBuffer, this`recvFrameBuffer
      modifies this`recvQueue, this`recvAckQueued
      ensures RxView() == RxBit(old(RxView()), address, bit)
    {
      match receiverState {
        case ReceivingByte =>
          TwiceBelowPow2(recvByteBuffer, bit, recvBitCounter);
          recvByteBuffer := (recvByteBuffer * 2 + bit) % 256;
          recvBitCounter := recvBitCounter + 1;
          if recvBitCounter >= 8 {
            recvFrameBuffer := recvFrameBuffer + [recvByteBuffer];
            recvBitCounter := 0;
            recvByteBuffer := 0;
            receiverState := WaitingForEOM;
          } else {
            receiverState := ReceivingByte;
          }
        case WaitingForEOM =>
          var destinationAddress := recvFrameBuffer[0] % 16;
          if destinationAddress != BROADCAST_ADDRESS && destinationAddress == address {
            recvAckQueued := true;
          }
          var isEom := bit == 1;
          if isEom {
            recvQueue := recvQueue + [recvFrameBuffer];
            ResetStateVariables();
          }
          receiverState := if isEom then WaitingForEOMAck else WaitingForAck;
        case WaitingForAck =>
          receiverState := ReceivingByte;
        case WaitingForEOMAck =>
          receiverState := Idle;
        case Idle =>
      }
    }
  }

  /** The filters of the given triggers, in order. */
  function FiltersOf(ts: seq<MessageTrigger>): (fs: seq<Filter>)
    reads ts
    ensures |fs| == |ts|
    ensures forall i :: 0 <= i < |ts| ==> fs[i] == ts[i].AsFilter()
  {
    seq(|ts|, i requires 0 <= i < |ts| reads ts => ts[i].AsFilter())
  }

  /** An `on_message` trigger. Constructing it registers it with its parent,
      so the parent's trigger order is construction order. */
  class MessageTrigger {
    var source: Option<Byte>
    var destination: Option<Byte>
    var opcode: Option<Byte>
    var data: Option<seq<Byte>>

    function AsFilter(): Filter
      reads this
    {
      Filter(source, destination, opcode, data)
    }

    constructor (parent: HdmiCec)
      modifies parent
      ensures AsFilter() == NoFilter
      ensures parent.messageTriggers == old(parent.messageTriggers) + [this]
      ensures parent.SettingsView() == old(parent.SettingsView()) && parent.RxView() == old(parent.RxView())
      ensures parent.attempts == old(parent.attempts) && parent.outbox == old(parent.outbox)
      ensures parent.fired == old(parent.fired)
    {
      source, destination, opcode, data := None, None, None, None;
      new;
      parent.AddMessageTrigger(this);
    }

    method SetSource(s: Byte)
      modifies this
      ensures AsFilter() == old(AsFilter()).(source := Some(s))
    {
      source := Some(s);
    }

    method SetDestination(d: Byte)
      modifies this
      ensures AsFilter() == old(AsFilter()).(destination := Some(d))
    {
      destination := Some(d);
    }

    method SetOpcode(op: Byte)
      modifies this
      ensures AsFilter() == old(AsFilter()).(opcode := Some(op))
    {
      opcode := Some(op);
    }

    method SetData(bytes: seq<Byte>)
      modifies this
      ensures AsFilter() == old(AsFilter()).(data := Some(bytes))
    {
      data := Some(bytes);
    }
  }

  /** A value that is either fixed or computed from the action's arguments
      when the action runs (`TEMPLATABLE_VALUE`). */
  datatype TemplatableValue<!A, T> = Constant(value: T) | Lambda(f: A -> T)
  {
    function Value(x: A): T
    {
      match this
      case Constant(v) => v
      case Lambda(f) => f(x)
    }
  }

  /** The `hdmi_cec.send` action; `A` stands for the trigger arguments `Ts...`. */
  class SendAction<A> {
    const parent: HdmiCec
    var source: Option<Byte>
    var destination: Byte
    var data: TemplatableValue<A, seq<Byte>>

    /** `destination_` has no initialiser in the source; the generated code
        always sets it, and the model starts it at 0. An unset data value
        yields the empty vector. */
    constructor (parent: HdmiCec)
      ensures this.parent == parent && source == None && destination == 0 && data == Constant([])
    {
      this.parent := parent;
      source, destination, data := None, 0, Constant([]);
    }

    method SetSource(s: Byte)
      modifies this
      ensures source == Some(s) && destination == old(destination) && data == old(data)
    {
      source := Some(s);
    }

    method SetDestination(d: Byte)
      modifies this
      ensures destination == d && source == old(source) && data == old(data)
    {
      destination := d;
    }

    method SetData(v: TemplatableValue<A, seq<Byte>>)
      modifies this
      ensures data == v && source == old(source) && destination == old(destination)
    {
      data := v;
    }

    /** `play`: one send, from the configured source or else from the
        parent's own address, of the data evaluated for these arguments. */
    method Play(x: A)
      modifies parent
      ensures var src := if source.Some? then source.value else old(parent.address);
        parent.outbox == old(parent.outbox)
          + (if parent.monitorMode then [] else [Message(src, destination, data.Value(x))])
      ensures parent.SettingsView() == old(parent.SettingsView())
      ensures parent.messageTriggers == old(parent.messageTriggers)
      ensures parent.RxView() == old(parent.RxView()) && parent.fired == old(parent.fired)
    {
      var sourceAddress := if source.Some? then source.value else parent.Address();
      var bytes := data.Value(x);
      var ok := parent.Send(sourceAddress, destination, bytes);
    }
  }
}
