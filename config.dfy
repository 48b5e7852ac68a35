/** The code-generation side of the component (__init__.py): the validators
    for the `data` and `osd_name` options, the configuration schema with its
    bounded integer fields and defaults, and the lowering of a validated
    configuration (`to_code`) and of the `hdmi_cec.send` action
    (`send_action_to_code`) into an ordered list of construct and setter
    instructions. */
module Config {
  import opened Common

  /** A YAML value as the validators see it; `PyLambda` is a `!lambda`
      template, which only templatable options accept. */
  datatype PyValue =
    | PyInt(i: int)
    | PyBool(b: bool)
    | PyStr(s: string)
    | PyList(items: seq<PyValue>)
    | PyLambda(id: nat)

  /** Why a configuration is rejected: the two validators' own messages, or
      a schema check on a named key. */
  datatype ConfigError =
    | Invalid(message: string)
    | BadElement(index: nat)
    | OutOfRange(key: string)
    | WrongType(key: string)
    | Missing(key: string)

  // ---- validate_data_array ----

  /** `cv.hex_uint8_t` on one element: an integer in 0..255. */
  function HexUint8(v: PyValue): Option<Byte>
  {
    if v.PyInt? && 0 <= v.i <= 255 then Some(v.i) else None
  }

  /** `cv.Schema([cv.hex_uint8_t])` from position `k` on: each element in
      order, failing at the first one that is not a byte. */
  function ValidateBytesFrom(items: seq<PyValue>, k: nat): Result<seq<Byte>, ConfigError>
    requires k <= |items|
    decreases |items| - k
  {
    if k == |items| then Ok([])
    else
      match HexUint8(items[k])
      case None => Err(BadElement(k))
      case Some(b) =>
        match ValidateBytesFrom(items, k + 1)
        case Err(e) => Err(e)
        case Ok(rest) => Ok([b] + rest)
  }

  /** `validate_data_array`: a list is validated element-wise; anything else
      is rejected. */
  function ValidateDataArray(v: PyValue): Result<seq<Byte>, ConfigError>
  {
    if v.PyList? then ValidateBytesFrom(v.items, 0)
    else Err(Invalid("data must be a list of bytes"))
  }

  lemma {:induction false} ValidateBytesFromCorrect(items: seq<PyValue>, k: nat)
    requires k <= |items|
    ensures var r := ValidateBytesFrom(items, k);
      && (r.Ok? <==> forall j :: k <= j < |items| ==> HexUint8(items[j]).Some?)
      && (r.Ok? ==>
            && |r.value| == |items| - k
            && forall j :: k <= j < |items| ==> r.value[j - k] == items[j].i)
      && (r.Err? ==>
            && r.error.BadElement? && k <= r.error.index < |items|
            && HexUint8(items[r.error.index]).None?
            && forall j :: k <= j < r.error.index ==> HexUint8(items[j]).Some?)
    decreases |items| - k
  {
    if k < |items| {
      ValidateBytesFromCorrect(items, k + 1);
    }
  }

  /** A list is accepted exactly when every element is a byte; the result
      keeps the elements' order and count (an empty list is accepted), and a
      rejection names the first offending position. A non-list is rejected
      with "data must be a list of bytes". */
  lemma ValidateDataArrayCorrect(v: PyValue)
    ensures var r := ValidateDataArray(v);
      && (!v.PyList? ==> r == Err(Invalid("data must be a list of bytes")))
      && (v.PyList? ==>
            && (r.Ok? <==> forall j :: 0 <= j < |v.items| ==> HexUint8(v.items[j]).Some?)
            && (r.Ok? ==>
                  && |r.value| == |v.items|
                  && forall j :: 0 <= j < |v.items| ==> r.value[j] == v.items[j].i)
            && (r.Err? ==>
                  && r.error.BadElement? && r.error.index < |v.items|
                  && HexUint8(v.items[r.error.index]).None?))
  {
    if v.PyList? {
      ValidateBytesFromCorrect(v.items, 0);
    }
  }

  /** The accepted bytes, re-encoded as a list, validate to themselves. */
  lemma {:induction false} ValidateDataArrayIdempotent(bs: seq<Byte>)
    ensures ValidateDataArray(PyList(seq(|bs|, j requires 0 <= j < |bs| => PyInt(bs[j])))) == Ok(bs)
  {
    var items := seq(|bs|, j requires 0 <= j < |bs| => PyInt(bs[j]));
    ValidateBytesFromCorrect(items, 0);
    var r := ValidateBytesFrom(items, 0);
    assert forall j :: 0 <= j < |items| ==> HexUint8(items[j]).Some?;
    assert |r.value| == |bs|;
    assert forall j :: 0 <= j < |bs| ==> r.value[j] == items[j].i == bs[j];
    assert r.value == bs;
  }

  // ---- validate_osd_name ----

  /** The characters an OSD name may hold: 0x20 <= ord(c) < 0x7E. */
  predicate OsdChar(c: char)
  {
    0x20 <= c as int < 0x7E
  }

  const MAX_OSD_NAME_LENGTH: nat := 14

  /** The message naming a rejected character and its code. */
  function BadCharMessage(c: char): string
  {
    "character '" + [c] + "' (" + Decimal(c as int) + ") is outside of the supported character range (0x20..0x7e)"
  }

  /** The first position from `k` on whose character is out of range. */
  function FirstBadChar(s: string, k: nat): (r: Option<nat>)
    requires k <= |s|
    ensures r.Some? ==> k <= r.value < |s|
    decreases |s| - k
  {
    if k == |s| then None
    else if !OsdChar(s[k]) then Some(k)
    else FirstBadChar(s, k + 1)
  }

  /** `validate_osd_name`: a string of 1..14 characters, each in range;
      the input itself on success. */
  function OsdNameCheck(v: PyValue): Result<string, ConfigError>
  {
    if !v.PyStr? then Err(Invalid("Must be a string"))
    else if |v.s| < 1 then Err(Invalid("Must be a non-empty string"))
    else if |v.s| > MAX_OSD_NAME_LENGTH then Err(Invalid("Must not be more than 14-characters long"))
    else
      match FirstBadChar(v.s, 0)
      case Some(k) => Err(Invalid(BadCharMessage(v.s[k])))
      case None => Ok(v.s)
  }

  /** `validate_osd_name`'s character loop, which stops at the first
      character out of range. */
  method ValidateOsdName(v: PyValue) returns (r: Result<string, ConfigError>)
    ensures r == OsdNameCheck(v)
  {
    if !v.PyStr? {
      return Err(Invalid("Must be a string"));
    }
    var value := v.s;
    if |value| < 1 {
      return Err(Invalid("Must be a non-empty string"));
    }
    if |value| > MAX_OSD_NAME_LENGTH {
      return Err(Invalid("Must not be more than 14-characters long"));
    }
    var k := 0;
    while k < |value|
      invariant 0 <= k <= |value|
      invariant FirstBadChar(value, k) == FirstBadChar(value, 0)
    {
      var c := value[k];
      if !OsdChar(c) {
        return Err(Invalid(BadCharMessage(c)));
      }
      k := k + 1;
    }
    return Ok(value);
  }

  lemma {:induction false} FirstBadCharCorrect(s: string, k: nat)
    requires k <= |s|
    ensures FirstBadChar(s, k).None? <==> forall j :: k <= j < |s| ==> OsdChar(s[j])
    ensures FirstBadChar(s, k).Some? ==>
      var b := FirstBadChar(s, k).value;
      k <= b < |s| && !OsdChar(s[b]) && forall j :: k <= j < b ==> OsdChar(s[j])
    decreases |s| - k
  {
    if k < |s| {
      FirstBadCharCorrect(s, k + 1);
    }
  }

  /** An OSD name is accepted exactly when it is a string of 1 to 14
      characters all in 0x20..0x7D, and comes back unchanged. */
  lemma OsdNameCheckCorrect(v: PyValue)
    ensures OsdNameCheck(v).Ok? <==>
      v.PyStr? && 1 <= |v.s| <= MAX_OSD_NAME_LENGTH && forall j :: 0 <= j < |v.s| ==> OsdChar(v.s[j])
    ensures OsdNameCheck(v).Ok? ==> OsdNameCheck(v).value == v.s
  {
    if v.PyStr? {
      FirstBadCharCorrect(v.s, 0);
    }
  }

  /** Validating an accepted name again gives the same answer. */
  lemma OsdNameCheckIdempotent(v: PyValue)
    requires OsdNameCheck(v).Ok?
    ensures OsdNameCheck(PyStr(OsdNameCheck(v).value)) == OsdNameCheck(v)
  {
    OsdNameCheckCorrect(v);
  }

  /** '~' (0x7E) is rejected although the message's range ends at 0x7e; the
      message names the character and its decimal code. */
  lemma TildeRejected()
    ensures OsdNameCheck(PyStr("a~")) == Err(Invalid(BadCharMessage('~')))
    ensures !OsdChar('~') && OsdChar('}')
  {
    assert FirstBadChar("a~", 1) == Some(1);
  }

  // ---- CONFIG_SCHEMA ----

  /** A `cv.int_range(min=lo, max=hi)` (also `cv.uint8_t`, `cv.uint16_t`) field. */
  function IntField(key: string, v: PyValue, lo: int, hi: int): (r: Result<int, ConfigError>)
    ensures r.Ok? <==> v.PyInt? && lo <= v.i <= hi
    ensures r.Ok? ==> r.value == v.i
    ensures r.Err? ==> r.error == (if v.PyInt? then OutOfRange(key) else WrongType(key))
  {
    if !v.PyInt? then Err(WrongType(key))
    else if v.i < lo || v.i > hi then Err(OutOfRange(key))
    else Ok(v.i)
  }

  /** A `cv.boolean` field with its default when absent. */
  function BoolField(key: string, v: Option<PyValue>, default: bool): (r: Result<bool, ConfigError>)
    ensures v.None? ==> r == Ok(default)
    ensures v.Some? ==> (r.Ok? <==> v.value.PyBool?) && (r.Ok? ==> r.value == v.value.b)
  {
    match v
    case None => Ok(default)
    case Some(PyBool(b)) => Ok(b)
    case Some(_) => Err(WrongType(key))
  }

  /** One `on_message` entry as written in YAML, with its generated trigger id. */
  datatype RawMessage = RawMessage(
    triggerId: nat,
    source: Option<PyValue>,
    destination: Option<PyValue>,
    opcode: Option<PyValue>,
    data: Option<PyValue>)

  /** The component's YAML block, with its generated id. `pin` stands for
      a pin number. */
  datatype RawConfig = RawConfig(
    id: nat,
    pin: Option<PyValue>,
    address: Option<PyValue>,
    physicalAddress: Option<PyValue>,
    promiscuousMode: Option<PyValue>,
    monitorMode: Option<PyValue>,
    osdName: Option<PyValue>,
    logPings: Option<PyValue>,
    onMessage: seq<RawMessage>)

  datatype MessageConfig = MessageConfig(
    triggerId: nat,
    source: Option<Nibble>,
    destination: Option<Nibble>,
    opcode: Option<Byte>,
    data: Option<seq<Byte>>)

  datatype HdmiCecConfig = HdmiCecConfig(
    id: nat,
    pin: nat,
    address: Nibble,
    physicalAddress: Uint16,
    promiscuousMode: bool,
    monitorMode: bool,
    osdName: string,
    logPings: bool,
    onMessage: seq<MessageConfig>)

  const DEFAULT_OSD_NAME: string := "esphome"

  /** An optional `cv.int_range` field of an `on_message` entry. */
  function OptionalIntField(key: string, v: Option<PyValue>, lo: int, hi: int): Result<Option<int>, ConfigError>
  {
    match v
    case None => Ok(None)
    case Some(x) =>
      match IntField(key, x, lo, hi)
      case Err(e) => Err(e)
      case Ok(i) => Ok(Some(i))
  }

  /** The `on_message` schema: optional source and destination in 0..15,
      optional opcode in 0..255, optional data array. */
  function ValidateMessage(m: RawMessage): Result<MessageConfig, ConfigError>
  {
    match (OptionalIntField("source", m.source, 0, 15),
           OptionalIntField("destination", m.destination, 0, 15),
           OptionalIntField("opcode", m.opcode, 0, 255))
    case (Ok(src), Ok(dst), Ok(op)) =>
      var data := match m.data
        case None => Ok(None)
        case Some(d) => (match ValidateDataArray(d) case Err(e) => Err(e) case Ok(bs) => Ok(Some(bs)));
      (match data
       case Err(e) => Err(e)
       case Ok(bytes) =>
         Ok(MessageConfig(m.triggerId,
           (match src case None => None case Some(s) => Some(s as Nibble)),
           (match dst case None => None case Some(d) => Some(d as Nibble)),
           (match op case None => None case Some(o) => Some(o as Byte)),
           bytes)))
    case (Err(e), _, _) => Err(e)
    case (_, Err(e), _) => Err(e)
    case (_, _, Err(e)) => Err(e)
  }

  /** An optional integer key is absent, or present as an integer in lo..hi. */
  predicate OptionalInRange(v: Option<PyValue>, lo: int, hi: int)
  {
    v.None? || (v.value.PyInt? && lo <= v.value.i <= hi)
  }

  /** A validated entry keeps its raw entry's trigger id, each present key's
      value and no absent one, and the validated data bytes. */
  predicate MessageKeeps(m: RawMessage, c: MessageConfig)
  {
    && c.triggerId == m.triggerId
    && (c.source.None? <==> m.source.None?)
    && (c.source.Some? ==> m.source.value == PyInt(c.source.value as int))
    && (c.destination.None? <==> m.destination.None?)
    && (c.destination.Some? ==> m.destination.value == PyInt(c.destination.value as int))
    && (c.opcode.None? <==> m.opcode.None?)
    && (c.opcode.Some? ==> m.opcode.value == PyInt(c.opcode.value as int))
    && (m.data.None? ==> c.data.None?)
    && (m.data.Some? ==> ValidateDataArray(m.data.value).Ok? && c.data == Some(ValidateDataArray(m.data.value).value))
  }

  /** An entry is accepted exactly when each present key is in its range and
      its data is a valid byte list; the accepted entry keeps every field. */
  lemma ValidateMessageCorrect(m: RawMessage)
    ensures ValidateMessage(m).Ok? <==>
      && OptionalInRange(m.source, 0, 15)
      && OptionalInRange(m.destination, 0, 15)
      && OptionalInRange(m.opcode, 0, 255)
      && (m.data.Some? ==> ValidateDataArray(m.data.value).Ok?)
    ensures ValidateMessage(m).Ok? ==> MessageKeeps(m, ValidateMessage(m).value)
  {
  }

  function ValidateMessages(ms: seq<RawMessage>): Result<seq<MessageConfig>, ConfigError>
    decreases |ms|
  {
    if ms == [] then Ok([])
    else
      match ValidateMessage(ms[0])
      case Err(e) => Err(e)
      case Ok(m) =>
        match ValidateMessages(ms[1..])
        case Err(e) => Err(e)
        case Ok(rest) => Ok([m] + rest)
  }

  /** `CONFIG_SCHEMA`: required pin, address (0..15) and physical address
      (0..65535); optional flags defaulting to false and `osd_name`
      defaulting to "esphome"; the `on_message` entries in order. Errors are
      reported for the first bad key in this order. */
  function ValidateConfig(raw: RawConfig): Result<HdmiCecConfig, ConfigError>
  {
    if raw.pin.None? then Err(Missing("pin"))
    else if raw.address.None? then Err(Missing("address"))
    else if raw.physicalAddress.None? then Err(Missing("physical_address"))
    else
      match (IntField("pin", raw.pin.value, 0, 0x7FFF_FFFF),
             IntField("address", raw.address.value, 0, 15),
             IntField("physical_address", raw.physicalAddress.value, 0, 65535))
      case (Err(e), _, _) => Err(e)
      case (_, Err(e), _) => Err(e)
      case (_, _, Err(e)) => Err(e)
      case (Ok(pin), Ok(address), Ok(pa)) =>
        match (BoolField("promiscuous_mode", raw.promiscuousMode, false),
               BoolField("monitor_mode", raw.monitorMode, false),
               BoolField("log_pings", raw.logPings, false))
        case (Err(e), _, _) => Err(e)
        case (_, Err(e), _) => Err(e)
        case (_, _, Err(e)) => Err(e)
        case (Ok(promiscuous), Ok(monitor), Ok(logPings)) =>
          var name := match raw.osdName case None => Ok(DEFAULT_OSD_NAME) case Some(v) => OsdNameCheck(v);
          match (name, ValidateMessages(raw.onMessage))
          case (Err(e), _) => Err(e)
          case (_, Err(e)) => Err(e)
          case (Ok(osd), Ok(ms)) =>
            Ok(HdmiCecConfig(raw.id, pin, address, pa, promiscuous, monitor, osd, logPings, ms))
  }

  /** A validated configuration has its bounded fields in range, its flags
      taken or defaulted, an OSD name the validator accepts, and each
      `on_message` entry validated with its fields kept. */
  lemma ValidateConfigFields(raw: RawConfig)
    requires ValidateConfig(raw).Ok?
    ensures var c := ValidateConfig(raw).value;
      && c.id == raw.id
      && raw.address == Some(PyInt(c.address)) && 0 <= c.address <= 15
      && raw.physicalAddress == Some(PyInt(c.physicalAddress))
      && (raw.promiscuousMode.None? ==> !c.promiscuousMode)
      && (raw.monitorMode.None? ==> !c.monitorMode)
      && (raw.logPings.None? ==> !c.logPings)
      && (raw.osdName.None? ==> c.osdName == DEFAULT_OSD_NAME)
      && (raw.osdName.Some? ==> raw.osdName.value == PyStr(c.osdName))
      && 1 <= |c.osdName| <= MAX_OSD_NAME_LENGTH
      && (forall j :: 0 <= j < |c.osdName| ==> OsdChar(c.osdName[j]))
      && (raw.promiscuousMode.Some? ==> raw.promiscuousMode.value == PyBool(c.promiscuousMode))
      && (raw.monitorMode.Some? ==> raw.monitorMode.value == PyBool(c.monitorMode))
      && (raw.logPings.Some? ==> raw.logPings.value == PyBool(c.logPings))
      && |c.onMessage| == |raw.onMessage|
      && forall j :: 0 <= j < |raw.onMessage| ==> MessageKeeps(raw.onMessage[j], c.onMessage[j])
  {
    var c := ValidateConfig(raw).value;
    if raw.osdName.Some? {
      OsdNameCheckCorrect(raw.osdName.value);
    } else {
      assert OsdChar('e') && OsdChar('s') && OsdChar('p') && OsdChar('h') && OsdChar('o') && OsdChar('m');
      assert forall j :: 0 <= j < |DEFAULT_OSD_NAME| ==> OsdChar(DEFAULT_OSD_NAME[j]);
    }
    ValidateMessagesLength(raw.onMessage);
    ValidateMessagesKeep(raw.onMessage);
  }

  lemma {:induction false} ValidateMessagesLength(ms: seq<RawMessage>)
    ensures ValidateMessages(ms).Ok? ==> |ValidateMessages(ms).value| == |ms|
    decreases |ms|
  {
    if ms != [] {
      ValidateMessagesLength(ms[1..]);
    }
  }

  /** The entries are accepted exactly when each one is, and the j-th
      validated entry keeps the fields of the j-th raw entry. */
  lemma {:induction false} ValidateMessagesKeep(ms: seq<RawMessage>)
    ensures ValidateMessages(ms).Ok? <==> forall j :: 0 <= j < |ms| ==> ValidateMessage(ms[j]).Ok?
    ensures ValidateMessages(ms).Ok? ==>
      |ValidateMessages(ms).value| == |ms| &&
      forall j :: 0 <= j < |ms| ==> MessageKeeps(ms[j], ValidateMessages(ms).value[j])
    decreases |ms|
  {
    if ms != [] {
      ValidateMessagesKeep(ms[1..]);
      ValidateMessageCorrect(ms[0]);
      if ValidateMessages(ms).Ok? {
        var rest := ValidateMessages(ms[1..]).value;
        assert ValidateMessages(ms).value == [ValidateMessage(ms[0]).value] + rest;
        forall j | 0 < j < |ms|
          ensures MessageKeeps(ms[j], ValidateMessages(ms).value[j])
        {
          assert ms[j] == ms[1..][j - 1];
        }
      }
      forall j | 0 < j < |ms|
        ensures ms[j] == ms[1..][j - 1]
      {
      }
    }
  }

  // ---- to_code / send_action_to_code ----

  /** A `cg.templatable` value: a constant or a lambda. */
  datatype Templatable<T> = Constant(value: T) | Lambda(id: nat)

  /** The generated C++ statements, in emission order. `pin` stands for the
      pin expression, `BuildAutomation` for the automation wired to a
      trigger with its argument names. */
  datatype Instr =
    | NewHdmiCec(id: nat)
    | RegisterComponent(id: nat)
    | SetPin(target: nat, pin: nat)
    | SetAddress(target: nat, address: Nibble)
    | SetPhysicalAddress(target: nat, physicalAddress: Uint16)
    | SetPromiscuousMode(target: nat, on: bool)
    | SetMonitorMode(target: nat, on: bool)
    | SetLogPings(target: nat, on: bool)
    | SetOsdNameBytes(target: nat, bytes: seq<Byte>)
    | NewMessageTrigger(trigger: nat, parent: nat)
    | TriggerSetSource(trigger: nat, source: Nibble)
    | TriggerSetDestination(trigger: nat, destination: Nibble)
    | TriggerSetOpcode(trigger: nat, opcode: Byte)
    | TriggerSetData(trigger: nat, data: seq<Byte>)
    | BuildAutomation(trigger: nat, args: seq<string>)
    | NewSendAction(action: nat, parent: nat)
    | ActionSetSource(action: nat, sourceTemplate: Templatable<Nibble>)
    | ActionSetDestination(action: nat, destinationTemplate: Templatable<Nibble>)
    | ActionSetData(action: nat, dataTemplate: Templatable<seq<Byte>>)

  /** The trigger arguments `build_automation` declares: source, destination, data. */
  const TRIGGER_ARGS: seq<string> := ["source", "destination", "data"]

  /** `bytes(name, 'ascii', 'ignore')`: the codes of the ASCII characters, in
      order, others dropped. */
  function AsciiBytes(s: string): seq<Byte>
    decreases |s|
  {
    if s == [] then []
    else (if s[0] as int < 128 then [s[0] as int as Byte] else []) + AsciiBytes(s[1..])
  }

  /** An accepted OSD name encodes to one byte per character, its code. */
  lemma {:induction false} AsciiBytesOfOsdName(s: string)
    requires forall j :: 0 <= j < |s| ==> OsdChar(s[j])
    ensures |AsciiBytes(s)| == |s|
    ensures forall j :: 0 <= j < |s| ==> AsciiBytes(s)[j] == s[j] as int
    decreases |s|
  {
    if s != [] {
      AsciiBytesOfOsdName(s[1..]);
    }
  }

  function SourceSetter(m: MessageConfig): seq<Instr>
  {
    if m.source.Some? then [TriggerSetSource(m.triggerId, m.source.value)] else []
  }

  function DestinationSetter(m: MessageConfig): seq<Instr>
  {
    if m.destination.Some? then [TriggerSetDestination(m.triggerId, m.destination.value)] else []
  }

  function OpcodeSetter(m: MessageConfig): seq<Instr>
  {
    if m.opcode.Some? then [TriggerSetOpcode(m.triggerId, m.opcode.value)] else []
  }

  function DataSetter(m: MessageConfig): seq<Instr>
  {
    if m.data.Some? then [TriggerSetData(m.triggerId, m.data.value)] else []
  }

  /** The statements emitted for one `on_message` entry: the trigger, the
      setters of the filters that are present, the automation. */
  function TriggerCode(parent: nat, m: MessageConfig): seq<Instr>
  {
    [NewMessageTrigger(m.triggerId, parent)] + SourceSetter(m) + DestinationSetter(m)
      + OpcodeSetter(m) + DataSetter(m) + [BuildAutomation(m.triggerId, TRIGGER_ARGS)]
  }

  /** The statements `to_code` emits before the `on_message` loop. */
  function ComponentCode(c: HdmiCecConfig): seq<Instr>
  {
    [NewHdmiCec(c.id), RegisterComponent(c.id), SetPin(c.id, c.pin),
     SetAddress(c.id, c.address), SetPhysicalAddress(c.id, c.physicalAddress),
     SetPromiscuousMode(c.id, c.promiscuousMode), SetMonitorMode(c.id, c.monitorMode),
     SetLogPings(c.id, c.logPings), SetOsdNameBytes(c.id, AsciiBytes(c.osdName))]
  }

  /** The statements of the first `n` `on_message` entries, in order. */
  function TriggersCode(parent: nat, ms: seq<MessageConfig>): seq<Instr>
    decreases |ms|
  {
    if ms == [] then [] else TriggersCode(parent, ms[..|ms| - 1]) + TriggerCode(parent, ms[|ms| - 1])
  }

  /** `to_code`: the component statements, then each `on_message` entry's
      statements in declaration order. */
  method ToCode(c: HdmiCecConfig) returns (code: seq<Instr>)
    ensures code == ComponentCode(c) + TriggersCode(c.id, c.onMessage)
  {
    code := [NewHdmiCec(c.id), RegisterComponent(c.id), SetPin(c.id, c.pin),
      SetAddress(c.id, c.address), SetPhysicalAddress(c.id, c.physicalAddress),
      SetPromiscuousMode(c.id, c.promiscuousMode), SetMonitorMode(c.id, c.monitorMode),
      SetLogPings(c.id, c.logPings), SetOsdNameBytes(c.id, AsciiBytes(c.osdName))];
    ghost var header := code;
    assert header == ComponentCode(c);
    var k := 0;
    while k < |c.onMessage|
      invariant 0 <= k <= |c.onMessage|
      invariant code == header + TriggersCode(c.id, c.onMessage[..k])
    {
      var block := MessageCode(c.id, c.onMessage[k]);
      ghost var done := c.onMessage[..k];
      assert c.onMessage[..k + 1] == done + [c.onMessage[k]];
      assert TriggersCode(c.id, c.onMessage[..k + 1]) == TriggersCode(c.id, done) + block;
      AppendAssoc(header, TriggersCode(c.id, done), block);
      code := code + block;
      k := k + 1;
    }
    assert c.onMessage[..k] == c.onMessage;
  }

  /** One round of `to_code`'s `on_message` loop: construct the trigger with
      parent `var`, set each filter that is present, wire the automation. */
  method MessageCode(parent: nat, conf: MessageConfig) returns (block: seq<Instr>)
    ensures block == TriggerCode(parent, conf)
  {
    block := [NewMessageTrigger(conf.triggerId, parent)];
    if conf.source.Some? {
      block := block + [TriggerSetSource(conf.triggerId, conf.source.value)];
    }
    assert block == [NewMessageTrigger(conf.triggerId, parent)] + SourceSetter(conf);
    if conf.destination.Some? {
      block := block + [TriggerSetDestination(conf.triggerId, conf.destination.value)];
    }
    assert block == [NewMessageTrigger(conf.triggerId, parent)] + SourceSetter(conf) + DestinationSetter(conf);
    if conf.opcode.Some? {
      block := block + [TriggerSetOpcode(conf.triggerId, conf.opcode.value)];
    }
    ghost var upToOpcode := block;
    assert upToOpcode == [NewMessageTrigger(conf.triggerId, parent)] + SourceSetter(conf)
      + DestinationSetter(conf) + OpcodeSetter(conf);
    if conf.data.Some? {
      block := block + [TriggerSetData(conf.triggerId, conf.data.value)];
    }
    assert block == upToOpcode + DataSetter(conf);
    block := block + [BuildAutomation(conf.triggerId, TRIGGER_ARGS)];
  }

  /** The trigger ids constructed by a statement list, in order. */
  function ConstructedTriggers(code: seq<Instr>): seq<nat>
    decreases |code|
  {
    if code == [] then []
    else
      var last := code[|code| - 1];
      ConstructedTriggers(code[..|code| - 1]) + (if last.NewMessageTrigger? then [last.trigger] else [])
  }

  lemma {:induction false} ConstructedTriggersAppend(a: seq<Instr>, b: seq<Instr>)
    ensures ConstructedTriggers(a + b) == ConstructedTriggers(a) + ConstructedTriggers(b)
    decreases |b|
  {
    if b == [] {
      assert a + b == a;
    } else {
      assert (a + b)[..|a + b| - 1] == a + b[..|b| - 1];
      ConstructedTriggersAppend(a, b[..|b| - 1]);
    }
  }

  /** Each entry's block constructs exactly its own trigger. */
  lemma TriggerCodeConstructs(parent: nat, m: MessageConfig)
    ensures ConstructedTriggers(TriggerCode(parent, m)) == [m.triggerId]
  {
    var first := [NewMessageTrigger(m.triggerId, parent)];
    var rest := TriggerCode(parent, m)[1..];
    assert TriggerCode(parent, m) == first + rest;
    assert forall j :: 0 <= j < |rest| ==> !rest[j].NewMessageTrigger?;
    NoTriggerConstructed(rest);
    ConstructedTriggersAppend(first, rest);
    assert first[..0] == [];
  }

  lemma {:induction false} NoTriggerConstructed(code: seq<Instr>)
    requires forall j :: 0 <= j < |code| ==> !code[j].NewMessageTrigger?
    ensures ConstructedTriggers(code) == []
    decreases |code|
  {
    if code != [] {
      NoTriggerConstructed(code[..|code| - 1]);
    }
  }

  /** The triggers are constructed one per `on_message` entry, in declaration
      order, and the component statements construct none. */
  lemma {:induction false} TriggersInDeclarationOrder(c: HdmiCecConfig, ms: seq<MessageConfig>)
    ensures ConstructedTriggers(TriggersCode(c.id, ms)) ==
      seq(|ms|, j requires 0 <= j < |ms| => ms[j].triggerId)
    decreases |ms|
  {
    if ms != [] {
      var init := ms[..|ms| - 1];
      TriggersInDeclarationOrder(c, init);
      ConstructedTriggersAppend(TriggersCode(c.id, init), TriggerCode(c.id, ms[|ms| - 1]));
      TriggerCodeConstructs(c.id, ms[|ms| - 1]);
    }
  }

  /** `to_code` constructs exactly the configured triggers, in order. */
  lemma ToCodeTriggers(c: HdmiCecConfig)
    ensures ConstructedTriggers(ComponentCode(c) + TriggersCode(c.id, c.onMessage)) ==
      seq(|c.onMessage|, j requires 0 <= j < |c.onMessage| => c.onMessage[j].triggerId)
  {
    var head := ComponentCode(c);
    assert forall j :: 0 <= j < |head| ==> !head[j].NewMessageTrigger?;
    NoTriggerConstructed(head);
    ConstructedTriggersAppend(head, TriggersCode(c.id, c.onMessage));
    TriggersInDeclarationOrder(c, c.onMessage);
  }

  /** A trigger's block sets a filter exactly when the entry has it, and
      always ends with its automation. */
  lemma TriggerCodeFilters(parent: nat, m: MessageConfig)
    ensures var code := TriggerCode(parent, m);
      && code[0] == NewMessageTrigger(m.triggerId, parent)
      && code[|code| - 1] == BuildAutomation(m.triggerId, TRIGGER_ARGS)
      && (m.source.Some? <==> exists j :: 0 <= j < |code| && code[j].TriggerSetSource?)
      && (m.destination.Some? <==> exists j :: 0 <= j < |code| && code[j].TriggerSetDestination?)
      && (m.opcode.Some? <==> exists j :: 0 <= j < |code| && code[j].TriggerSetOpcode?)
      && (m.data.Some? <==> exists j :: 0 <= j < |code| && code[j].TriggerSetData?)
      && |code| == 2 + (if m.source.Some? then 1 else 0) + (if m.destination.Some? then 1 else 0)
           + (if m.opcode.Some? then 1 else 0) + (if m.data.Some? then 1 else 0)
  {
    var code := TriggerCode(parent, m);
    if m.source.Some? {
      assert code[1].TriggerSetSource?;
    }
    if m.destination.Some? {
      var j := if m.source.Some? then 2 else 1;
      assert code[j].TriggerSetDestination?;
    }
    if m.opcode.Some? {
      var j := 1 + (if m.source.Some? then 1 else 0) + (if m.destination.Some? then 1 else 0);
      assert code[j].TriggerSetOpcode?;
    }
    if m.data.Some? {
      var j := 1 + (if m.source.Some? then 1 else 0) + (if m.destination.Some? then 1 else 0)
        + (if m.opcode.Some? then 1 else 0);
      assert code[j].TriggerSetData?;
    }
  }

  /** The flags and the OSD name are emitted even when left at their
      defaults: an omitted `promiscuous_mode`, `monitor_mode`, `log_pings` or
      `osd_name` still produces its setter, with false or "esphome". */
  lemma DefaultsEmitted(raw: RawConfig)
    requires ValidateConfig(raw).Ok?
    ensures var c := ValidateConfig(raw).value;
      var code := ComponentCode(c) + TriggersCode(c.id, c.onMessage);
      && (raw.promiscuousMode.None? ==> code[5] == SetPromiscuousMode(raw.id, false))
      && (raw.monitorMode.None? ==> code[6] == SetMonitorMode(raw.id, false))
      && (raw.logPings.None? ==> code[7] == SetLogPings(raw.id, false))
      && (raw.osdName.None? ==> code[8] == SetOsdNameBytes(raw.id, [0x65, 0x73, 0x70, 0x68, 0x6F, 0x6D, 0x65]))
  {
    var c := ValidateConfig(raw).value;
    ValidateConfigFields(raw);
    var head := ComponentCode(c);
    var code := head + TriggersCode(c.id, c.onMessage);
    assert code[5] == head[5] && code[6] == head[6] && code[7] == head[7] && code[8] == head[8];
    if raw.osdName.None? {
      DefaultOsdNameBytes();
    }
  }

  /** "esphome" encodes to its seven ASCII codes. */
  lemma DefaultOsdNameBytes()
    ensures AsciiBytes(DEFAULT_OSD_NAME) == [0x65, 0x73, 0x70, 0x68, 0x6F, 0x6D, 0x65]
  {
    var s := DEFAULT_OSD_NAME;
    assert forall j :: 0 <= j < |s| ==> OsdChar(s[j]);
    AsciiBytesOfOsdName(s);
  }

  /** The validated `hdmi_cec.send` options: the parent id, an optional
      source and the destination (templatable, 0..15), the data
      (templatable byte list). */
  datatype SendActionConfig = SendActionConfig(
    parent: nat,
    source: Option<Templatable<Nibble>>,
    destination: Templatable<Nibble>,
    data: Templatable<seq<Byte>>)

  /** `cv.templatable(cv.int_range(min=0, max=15))`. */
  function AddressTemplate(key: string, v: PyValue): Result<Templatable<Nibble>, ConfigError>
  {
    if v.PyLambda? then Ok(Lambda(v.id))
    else
      match IntField(key, v, 0, 15)
      case Err(e) => Err(e)
      case Ok(a) => Ok(Constant(a as Nibble))
  }

  /** The `hdmi_cec.send` schema: source optional, destination and data
      required. */
  function ValidateSendAction(parent: nat, source: Option<PyValue>, destination: Option<PyValue>,
                              data: Option<PyValue>): Result<SendActionConfig, ConfigError>
  {
    if destination.None? then Err(Missing("destination"))
    else if data.None? then Err(Missing("data"))
    else
      var src := match source
        case None => Ok(None)
        case Some(v) => (match AddressTemplate("source", v) case Err(e) => Err(e) case Ok(t) => Ok(Some(t)));
      var dataTemplate := if data.value.PyLambda? then Ok(Lambda(data.value.id))
        else (match ValidateDataArray(data.value) case Err(e) => Err(e) case Ok(bs) => Ok(Constant(bs)));
      match (src, AddressTemplate("destination", destination.value), dataTemplate)
      case (Err(e), _, _) => Err(e)
      case (_, Err(e), _) => Err(e)
      case (_, _, Err(e)) => Err(e)
      case (Ok(s), Ok(d), Ok(bs)) => Ok(SendActionConfig(parent, s, d, bs))
  }

  /** A constant address accepted by the action schema is in 0..15. */
  lemma ValidateSendActionBounds(parent: nat, source: Option<PyValue>, destination: Option<PyValue>,
                                 data: Option<PyValue>)
    requires ValidateSendAction(parent, source, destination, data).Ok?
    ensures var a := ValidateSendAction(parent, source, destination, data).value;
      && destination.Some? && data.Some?
      && (a.destination.Constant? ==> destination.value == PyInt(a.destination.value))
      && (a.source.Some? <==> source.Some?)
      && (a.source.Some? && a.source.value.Constant? ==> source.value == PyInt(a.source.value.value))
  {
  }

  /** `send_action_to_code`: construct the action with its parent, set the
      source only when given, then always the destination and the data. */
  function SendActionCode(action: nat, a: SendActionConfig): (code: seq<Instr>)
  {
    [NewSendAction(action, a.parent)]
    + (match a.source case Some(s) => [ActionSetSource(action, s)] case None => [])
    + [ActionSetDestination(action, a.destination), ActionSetData(action, a.data)]
  }

  /** The action's statements: construction first, a source setter exactly
      when a source is configured, and the destination and data setters last. */
  lemma SendActionCodeShape(action: nat, a: SendActionConfig)
    ensures var code := SendActionCode(action, a);
      && code[0] == NewSendAction(action, a.parent)
      && |code| == (if a.source.Some? then 4 else 3)
      && (a.source.Some? <==> exists j :: 0 <= j < |code| && code[j].ActionSetSource?)
      && code[|code| - 2] == ActionSetDestination(action, a.destination)
      && code[|code| - 1] == ActionSetData(action, a.data)
  {
    var code := SendActionCode(action, a);
    if a.source.Some? {
      assert code[1].ActionSetSource?;
    }
  }
}
