/** The text rendering of a CEC frame computed by `Decoder` (cec_decoder.h/.cpp):
    an address prefix, the opcode name in angle brackets, then one bracketed
    word per decoded operand. This module holds the decoder's tables and, as
    functions, what each `do_operand` specialisation does to the decoder's
    state; the class in module CecDecoder runs the same steps imperatively. */
module CecDecoderSpec {
  import opened Common
  import opened CecFrame

  // The operand types of `enum Operand : uint8_t`, with the values the
  // enumeration gives them (OsdString is an alias of OsdName).
  const OpNone: Byte := 0
  const OpAbortReason: Byte := 1
  const OpAnalogBroadcastType: Byte := 2
  const OpAnalogFrequency: Byte := 3
  const OpAsciiDigit: Byte := 4
  const OpAscii: Byte := 5
  const OpAudioFormat: Byte := 6
  const OpAudioRate: Byte := 7
  const OpAudioStatus: Byte := 8
  const OpBoolean: Byte := 9
  const OpBroadcastSystem: Byte := 10
  const OpCecVersion: Byte := 11
  const OpChannelIdentifier: Byte := 12
  const OpDeckControlMode: Byte := 13
  const OpDeckInfo: Byte := 14
  const OpDeviceType: Byte := 15
  const OpDigitalServiceIdentification: Byte := 16
  const OpDisplayControl: Byte := 17
  const OpDuration: Byte := 18
  const OpExternalPhysicalAddress: Byte := 19
  const OpExternalPlug: Byte := 20
  const OpExternalSourceSpecifier: Byte := 21
  const OpHour: Byte := 22
  const OpFeatureOpcode: Byte := 23
  const OpLanguage: Byte := 24
  const OpMenuRequestType: Byte := 25
  const OpMenuState: Byte := 26
  const OpMinute: Byte := 27
  const OpNewAddress: Byte := 28
  const OpOriginalAddress: Byte := 29
  const OpOsdName: Byte := 30
  const OpOsdString: Byte := OpOsdName
  const OpPhysicalAddress: Byte := 31
  const OpPlayMode: Byte := 32
  const OpPowerStatus: Byte := 33
  const OpProgramTitleString: Byte := 34
  const OpRecordSource: Byte := 35
  const OpRecordStatusInfo: Byte := 36
  const OpRecordingSequence: Byte := 37
  const OpShortAudioDescriptor: Byte := 38
  const OpStatusRequest: Byte := 39
  const OpStartDateTime: Byte := 40
  const OpSystemAudioStatus: Byte := 41
  const OpTime: Byte := 42
  const OpTimerClearedStatusData: Byte := 43
  const OpTimerStatusData: Byte := 44
  const OpTunerDeviceInfo: Byte := 45
  const OpUIBroadcastType: Byte := 46
  const OpUICommand: Byte := 47
  const OpUIFunctionMedia: Byte := 48
  const OpUIFunctionSelectAVInput: Byte := 49
  const OpUIFunctionSelectAudioInput: Byte := 50
  const OpUISoundPresentationControl: Byte := 51
  const OpVendorId: Byte := 52
  const OpVendorSpecificData: Byte := 53
  const OpVendorSpecificRCCode: Byte := 54

  /** `Two(first, secnd) = first | (secnd << 8)`: for byte-sized operand types
      the two fields do not overlap, so the `|` is an addition. */
  function Two(first: Byte, secnd: Byte): nat
  {
    first + secnd * 256
  }

  /** `Three(first, secnd, third) = first | (secnd << 8) | (third << 16)`. */
  function Three(first: Byte, secnd: Byte, third: Byte): nat
  {
    first + secnd * 256 + third * 65536
  }

  /** `& 0xFF` recovers the first operand type and `>> 8` the rest. */
  lemma TwoUnpack(first: Byte, secnd: Byte)
    ensures Two(first, secnd) % 256 == first
    ensures Two(first, secnd) / 256 == secnd
  {
  }

  lemma ThreeUnpack(first: Byte, secnd: Byte, third: Byte)
    ensures Three(first, secnd, third) % 256 == first
    ensures Three(first, secnd, third) / 256 == Two(secnd, third)
  {
  }

  /** A `cec_opcode_table` entry: the opcode's name and its packed operand types. */
  datatype OpcodeInfo = OpcodeInfo(name: string, operands: nat)

  // `cec_opcode_table` (0x00 "Feature Abort" is listed twice in the source with
  // the same entry; a std::map keeps one) and `vendor_ids`.
  /** `UI_Commands`: the [UI Command] names, indexed by command code (0x77 entries). */
  const UiCommandNames: seq<string> := [
    "Select", "Up", "Down", "Left",
    "Right", "Right-Up", "Right-Down", "Left-Up",
    "Left-Down", "Root Menu", "Setup Menu", "Contents Menu",
    "Favorite Menu", "Exit", "Reserved", "Reserved",
    "Media Top Menu", "Media Context-sensitive Menu", "Reserved", "Reserved",
    "Reserved", "Reserved", "Reserved", "Reserved",
    "Reserved", "Reserved", "Reserved", "Reserved",
    "Reserved", "Number Entry Mode", "11", "12",
    "0", "1", "2", "3",
    "4", "5", "6", "7",
    "8", "9", "Dot", "Enter",
    "Clear", "Reserved", "Reserved", "Next Favorite",
    "Channel Up", "Channel Down", "Previous Channel", "Sound Select",
    "Input Select", "isplay Information", "Help", "Page Up",
    "Page Down", "Reserved", "Reserved", "Reserved",
    "Reserved", "Reserved", "Reserved", "Reserved",
    "Power", "Volume Up", "Volume Down", "Mute",
    "Play", "Stop", "Pause", "Record",
    "Rewind", "Fast forward", "Eject", "Forward",
    "Backward", "Stop-Record", "Pause-Record", "Reserved",
    "Angle", "Sub picture", "Video on Demand", "Electronic Program Guide",
    "Timer Programming", "Initial Configuration", "Select Broadcast Type", "Select Sound Presentation",
    "Reserved", "Reserved", "Reserved", "Reserved",
    "Reserved", "Reserved", "Reserved", "Reserved",
    "Play Function", "Pause-Play Function", "Record Function", "Pause-Record Function",
    "Stop Function", "Mute Function", "Restore Volume Function", "Tune Function",
    "Select Media Function", "Select A/V Input Function", "Select Audio Input Function", "Power Toggle Function",
    "Power Off Function", "Power On Function", "Reserved", "Reserved",
    "Reserved", "F1 (Blue)", "F2 (Red)", "F3 (Green)",
    "F4 (Yellow)", "F5", "Data"
  ]

  /** `cec_opcode_table`: the name and the packed operand types of each
      listed opcode (written as two halves, below and from 0x80). */
  function OpcodeEntry(op: Byte): Option<OpcodeInfo>
  {
    if op < 0x80 then OpcodeEntryLow(op) else OpcodeEntryHigh(op)
  }

  /** The entries for opcodes 0x00-0x7F. */
  function OpcodeEntryLow(op: Byte): Option<OpcodeInfo>
  {
    match op
    case 0x04 => Some(OpcodeInfo("Image View On", OpNone))
    case 0x00 => Some(OpcodeInfo("Feature Abort", Two(OpFeatureOpcode, OpAbortReason)))
    case 0x0D => Some(OpcodeInfo("Text View On", OpNone))
    case 0x36 => Some(OpcodeInfo("Standby", OpNone))
    case 0x0B => Some(OpcodeInfo("Record Off", OpNone))
    case 0x09 => Some(OpcodeInfo("Record On", OpRecordSource))
    case 0x0A => Some(OpcodeInfo("Record Status", OpRecordStatusInfo))
    case 0x0F => Some(OpcodeInfo("Record TV Screen", OpNone))
    case 0x33 => Some(OpcodeInfo("Clear Analogue Timer", Two(OpStartDateTime, OpDuration)))
    case 0x34 => Some(OpcodeInfo("Set Analogue Timer", Two(OpStartDateTime, OpDuration)))
    case 0x67 => Some(OpcodeInfo("Set Timer Program Title", OpProgramTitleString))
    case 0x43 => Some(OpcodeInfo("Timer Cleared Status", OpTimerClearedStatusData))
    case 0x35 => Some(OpcodeInfo("Timer Status", OpTimerStatusData))
    case 0x32 => Some(OpcodeInfo("Set Menu Language", OpLanguage))
    case 0x42 => Some(OpcodeInfo("Deck Control", OpDeckControlMode))
    case 0x1B => Some(OpcodeInfo("Deck Status", OpDeckInfo))
    case 0x1A => Some(OpcodeInfo("Give Deck Status", OpStatusRequest))
    case 0x41 => Some(OpcodeInfo("Play", OpPlayMode))
    case 0x08 => Some(OpcodeInfo("Give Tuner Device Status", OpStatusRequest))
    case 0x07 => Some(OpcodeInfo("Tuner Device Status", OpTunerDeviceInfo))
    case 0x06 => Some(OpcodeInfo("Tuner Step Decrement", OpNone))
    case 0x05 => Some(OpcodeInfo("Tuner Step Increment", OpNone))
    case 0x64 => Some(OpcodeInfo("Set OSD String", Two(OpDisplayControl, OpOsdString)))
    case 0x46 => Some(OpcodeInfo("Give OSD Name", OpNone))
    case 0x47 => Some(OpcodeInfo("Set OSD Name", OpOsdName))
    case 0x44 => Some(OpcodeInfo("User Control Pressed", OpUICommand))
    case 0x45 => Some(OpcodeInfo("User Control Released", OpNone))
    case 0x71 => Some(OpcodeInfo("Give Audio Status", OpNone))
    case 0x7D => Some(OpcodeInfo("Give System Audio Mode Status", OpNone))
    case 0x7A => Some(OpcodeInfo("Report Audio Status", OpAudioStatus))
    case 0x72 => Some(OpcodeInfo("Set System Audio Mode", OpSystemAudioStatus))
    case 0x70 => Some(OpcodeInfo("System Audio Mode Request", OpPhysicalAddress))
    case 0x7E => Some(OpcodeInfo("System Audio Mode Status", OpSystemAudioStatus))
    case _ => None
  }

  /** The entries for opcodes 0x80-0xFF. */
  function OpcodeEntryHigh(op: Byte): Option<OpcodeInfo>
  {
    match op
    case 0x9D => Some(OpcodeInfo("Inactive Source", OpPhysicalAddress))
    case 0x85 => Some(OpcodeInfo("Request Active Source", OpNone))
    case 0x80 => Some(OpcodeInfo("Routing Change", Two(OpPhysicalAddress, OpPhysicalAddress)))
    case 0x81 => Some(OpcodeInfo("Routing Information", OpPhysicalAddress))
    case 0x86 => Some(OpcodeInfo("Set Stream Path", OpPhysicalAddress))
    case 0x99 => Some(OpcodeInfo("Clear Digital Timer", Two(OpStartDateTime, OpDuration)))
    case 0xA1 => Some(OpcodeInfo("Clear External Timer", Two(OpStartDateTime, OpDuration)))
    case 0x97 => Some(OpcodeInfo("Set Digital Timer", Two(OpStartDateTime, OpDuration)))
    case 0xA2 => Some(OpcodeInfo("Set External Timer", Two(OpStartDateTime, OpDuration)))
    case 0x9E => Some(OpcodeInfo("CEC Version", OpCecVersion))
    case 0x9F => Some(OpcodeInfo("Get CEC Version", OpNone))
    case 0x83 => Some(OpcodeInfo("Give Physical Address", OpNone))
    case 0x91 => Some(OpcodeInfo("Get Menu Language", OpNone))
    case 0x84 => Some(OpcodeInfo("Report Physical Address", Two(OpPhysicalAddress, OpDeviceType)))
    case 0x92 => Some(OpcodeInfo("Select Analogue Service", Three(OpAnalogBroadcastType, OpAnalogFrequency, OpBroadcastSystem)))
    case 0x93 => Some(OpcodeInfo("Select Digital Service", OpDigitalServiceIdentification))
    case 0x87 => Some(OpcodeInfo("Device Vendor ID", OpVendorId))
    case 0x8C => Some(OpcodeInfo("Give Device Vendor ID", OpNone))
    case 0x89 => Some(OpcodeInfo("Vendor Command", OpVendorSpecificData))
    case 0xA0 => Some(OpcodeInfo("Vendor Command With ID", Two(OpVendorId, OpVendorSpecificData)))
    case 0x8A => Some(OpcodeInfo("Vendor Remote Button Down", OpVendorSpecificRCCode))
    case 0x8B => Some(OpcodeInfo("Vendor Remote Button Up", OpNone))
    case 0x8D => Some(OpcodeInfo("Menu Request", OpMenuRequestType))
    case 0x8E => Some(OpcodeInfo("Menu Status", OpMenuState))
    case 0x8F => Some(OpcodeInfo("Give Device Power Status", OpNone))
    case 0x90 => Some(OpcodeInfo("Report Power Status", OpPowerStatus))
    case 0xFF => Some(OpcodeInfo("Abort", OpNone))
    case 0xA3 => Some(OpcodeInfo("Report Short Audio Descriptor", OpShortAudioDescriptor))
    case 0xA4 => Some(OpcodeInfo("Request Short Audio Descriptor", OpAudioFormat))
    case 0x9A => Some(OpcodeInfo("Set Audio Rate", OpAudioRate))
    case 0xC0 => Some(OpcodeInfo("Initiate ARC", OpNone))
    case 0xC1 => Some(OpcodeInfo("Report ARC Initiated", OpNone))
    case 0xC2 => Some(OpcodeInfo("Report ARC Terminated", OpNone))
    case 0xC3 => Some(OpcodeInfo("Request ARC Initiation", OpNone))
    case 0xC4 => Some(OpcodeInfo("Request ARC Termination", OpNone))
    case 0xC5 => Some(OpcodeInfo("Terminate ARC", OpNone))
    case 0xF8 => Some(OpcodeInfo("CDC Message", OpNone))
    case _ => None
  }

  function VendorName(id: nat): Option<string>
  {
    match id
    case 0x000039 => Some("Toshiba")
    case 0x0000F0 => Some("Samsung")
    case 0x0005CD => Some("Denon")
    case 0x000678 => Some("Maranz")
    case 0x000982 => Some("Loewe")
    case 0x0009B0 => Some("Onkyo")
    case 0x000CB8 => Some("Medion")
    case 0x000CE7 => Some("Toshiba")
    case 0x0010FA => Some("Apple")
    case 0x001582 => Some("Pulse Eight")
    case 0x001950 => Some("Harman Kardon")
    case 0x001A11 => Some("Google")
    case 0x0020C7 => Some("Akai")
    case 0x002467 => Some("AOC")
    case 0x008045 => Some("Panasonic")
    case 0x00903E => Some("Philips")
    case 0x009053 => Some("Daewoo")
    case 0x00A0DE => Some("Yamaha")
    case 0x00D0D5 => Some("Grundig")
    case 0x00E036 => Some("Pioneer")
    case 0x00E091 => Some("LG")
    case 0x08001F => Some("Sharp")
    case 0x080046 => Some("Sony")
    case 0x18C086 => Some("Broadcom")
    case 0x534850 => Some("Sharp")
    case 0x6B746D => Some("Vizio")
    case 0x8065E9 => Some("Benq")
    case 0x9C645E => Some("Harman Kardon")
    case _ => None
  }

  // The name tables of the specialisations. Where the source declares an
  // array longer than its initialiser, the remaining entries are null
  // pointers; the sequences here hold the given names, and the declared size
  // is passed separately to `TableWord`.

  const AbortReasonNames: seq<string> := ["Unrecognized opcode", "Not in correct mode to respond",
    "Cannot provide source", "Invalid operand", "Refused", "Unable to determine"]
  const DeviceTypeNames: seq<string> := ["TV]", "Recording Device]", "Reserved", "Tuner",
    "Playback Device", "Audio System", "Pure CEC Switch", "Video Processor"]
  const DisplayControlNames: seq<string> := ["Default Time", "Until cleared", "Clear previous", "Reserved"]
  const PowerStatusNames: seq<string> := ["On", "Standby", "Standby->On", "On->Standby"]
  const SystemAudioStatusNames: seq<string> := ["Off", "On"]
  const CecVersionNames: seq<string> := ["?", "1.2", "1.2a", "1.3", "1.3a", "1.4", "2.0", "2.x", "2.x"]
  /** `audio_formats`: 0x11 slots, 16 names. */
  const AudioFormatNames: seq<string> := ["reserved", "LPCM", "AC3", "MPEG-1", "MP3", "MPEG-2", "AAC",
    "DTS", "ATRAC", "DSD", "DD+", "DTS-HD", "MAT/Dolby TrueHD", "DST Audio", "WMA Pro", "Extension?"]
  const AudioSampleRates: seq<string> := ["32", "44.1", "48", "88", "96", "176", "192", "Reserved"]

  /** The logical-address names of `address_decode`. */
  const AddressNames: seq<string> := ["TV", "RecordingDev1", "RecordingDev2", "Tuner1",
    "PlaybackDev1", "AudioSystem", "Tuner2", "Tuner3", "PlaybackDev2", "RecordingDev3",
    "Tuner4", "PlaybackDev3", "Reserved", "Reserved", "SpecificUse", "Unregistered"]

  /** `address_decode`: "<initiator> to <destination or All>: ". */
  function AddressDecode(f: Frame): string
    requires |f| >= 1
  {
    var dest := if IsBroadcast(f) then "All" else AddressNames[Destination(f)];
    AddressNames[Initiator(f)] + " to " + dest + ": "
  }

  /** `find_opcode_name`: the table's name, or "?" for an opcode it lacks. */
  function FindOpcodeName(op: Byte): string
  {
    match OpcodeEntry(op)
    case Some(info) => info.name
    case None => "?"
  }

  /** "?" is the answer exactly for the opcodes the table lacks: no listed name is "?". */
  lemma FindOpcodeNameUnknown(op: Byte)
    ensures FindOpcodeName(op) == "?" <==> OpcodeEntry(op).None?
  {
    if op < 0x80 {
      LowNamesNotUnknown(op);
    } else {
      HighNamesNotUnknown(op);
    }
  }

  lemma LowNamesNotUnknown(op: Byte)
    ensures OpcodeEntryLow(op).Some? ==> |OpcodeEntryLow(op).value.name| >= 4
  {
  }

  lemma HighNamesNotUnknown(op: Byte)
    ensures OpcodeEntryHigh(op).Some? ==> |OpcodeEntryHigh(op).value.name| >= 4
  {
  }

  /** The decoder's working state: `offset_`, `length_`, and the operand words
      written to `line_` so far (line_ holds "[w1][w2]..."). */
  datatype Trace = Trace(offset: nat, length: nat, words: seq<string>)

  /** The outcome of an operand step: the new state with the step's answer
      ("a further operand can be decoded"), or `Undefined` where the source's
      behaviour is undefined (a null table entry, a read past the frame, a
      write past a buffer). */
  datatype Step = Step(trace: Trace, more: bool) | Undefined

  /** The text of `line_`: each word in brackets, in order. */
  function Bracketed(words: seq<string>): string
    decreases |words|
  {
    if words == [] then "" else Bracketed(words[..|words| - 1]) + "[" + words[|words| - 1] + "]"
  }

  /** At most the first 255 characters of `s`: what fits in `line_` before
      its terminating NUL. */
  function Clip(s: string): string
  {
    if |s| <= 255 then s else s[..255]
  }

  /** The C string `line_` holds after the words were appended with
      `snprintf`, each call bounded by the room left in the buffer. */
  function LineText(words: seq<string>): string
  {
    Clip(Bracketed(words))
  }

  /** `append_operand(word, incr)`: writes "[word]" at `length_`, adds the
      printed length to `length_` and `incr` to `offset_`, and answers whether
      the text still fits and frame bytes remain. Writing at `length_ >= 256`
      would be past the end of `line_`. */
  function AppendWord(f: Frame, t: Trace, word: string, incr: nat): Step
  {
    if t.length >= 256 then Undefined
    else
      var next := Trace(t.offset + incr, t.length + |word| + 2, t.words + [word]);
      Step(next, next.length < 256 && next.offset < |f|)
  }

  /** The table overload of `append_operand`: the name the byte at `offset_`
      indexes when it is below the declared size `n`, else "?". The byte is read
      unchecked, and a slot past the given names is a null pointer. */
  function TableWord(f: Frame, t: Trace, names: seq<string>, n: nat): Step
    requires |names| <= n
  {
    if t.offset >= |f| then Undefined
    else if f[t.offset] < n && f[t.offset] >= |names| then Undefined
    else AppendWord(f, t, TableName(names, n, f[t.offset]), 1)
  }

  /** `(operand_value < N) ? strings[operand_value] : "?"` for a non-null entry. */
  function TableName(names: seq<string>, n: nat, v: nat): string
    requires v < n ==> v < |names|
  {
    if v < n then names[v] else "?"
  }

  /** `do_operand<AudioFormat>`: one table word per remaining byte while the
      previous append answered true. */
  function AudioFormatRun(f: Frame, t: Trace, ok: bool): Step
    decreases |f| - t.offset
  {
    if !(ok && t.offset < |f|) then Step(t, ok)
    else
      match TableWord(f, t, AudioFormatNames, 0x11)
      case Undefined => Undefined
      case Step(next, more) => AudioFormatRun(f, next, more)
  }

  /** The "Mute=%d,Vol=%02X" word of `do_operand<AudioStatus>`. */
  function AudioStatusWord(field: Byte): string
  {
    "Mute=" + Decimal(field / 128) + ",Vol=" + Hex2Upper(field % 128)
  }

  function AudioStatusOperand(f: Frame, t: Trace): Step
  {
    if t.offset < |f| then AppendWord(f, t, AudioStatusWord(f[t.offset]), 1)
    else AppendWord(f, t, "?", 1)
  }

  function FeatureOpcodeOperand(f: Frame, t: Trace): Step
  {
    if t.offset >= |f| then Step(t, false)
    else AppendWord(f, t, FindOpcodeName(f[t.offset]), 1)
  }

  /** The characters `%s` copies from the frame: the bytes before the first
      zero byte, or all of them when there is none. */
  function TextUpToNul(bs: seq<Byte>): (s: string)
    ensures |s| <= |bs|
    ensures forall i :: 0 <= i < |s| ==> bs[i] != 0 && s[i] == bs[i] as char
    ensures |s| < |bs| ==> bs[|s|] == 0
    decreases |bs|
  {
    if bs == [] || bs[0] == 0 then "" else [bs[0] as char] + TextUpToNul(bs[1..])
  }

  /** `do_operand<OsdString>`: copies the rest of the frame into a 20-byte
      buffer, moves `offset_` to the frame end, then appends (with the default
      increment, so `offset_` ends one past the frame). */
  function OsdStringOperand(f: Frame, t: Trace): Step
  {
    if t.offset > |f| then Undefined
    else
      var text := TextUpToNul(f[t.offset..]);
      if |text| >= 20 then Undefined
      else AppendWord(f, t.(offset := |f|), text, 1)
  }

  /** The "%1x.%1x.%1x.%1x" word: the four nibbles, high to low. */
  function PhysicalAddressWord(b0: Byte, b1: Byte): string
  {
    [LowerHexDigit(b0 / 16), '.', LowerHexDigit(b0 % 16), '.',
     LowerHexDigit(b1 / 16), '.', LowerHexDigit(b1 % 16)]
  }

  function PhysicalAddressOperand(f: Frame, t: Trace): Step
    requires |f| >= 2
  {
    if f[1] == 0x70 && t.offset >= |f| then AppendWord(f, t, "Off", 1)
    else if t.offset + 1 >= |f| then AppendWord(f, t, "?", 2)
    else AppendWord(f, t, PhysicalAddressWord(f[t.offset], f[t.offset + 1]), 2)
  }

  /** The sample-rate part of a short audio descriptor: ",<rate>kHz" for each
      set bit of `rates`, lowest bit first (`bit` is the index of its lowest bit). */
  function RatesText(rates: nat, bit: nat): string
    requires bit <= 8 && rates < Pow2(8 - bit)
    decreases rates
  {
    if rates == 0 then ""
    else (if rates % 2 == 1 then "," + AudioSampleRates[bit] + "kHz" else "") + RatesText(rates / 2, bit + 1)
  }

  /** The LPCM sample widths: ",<16 + 4i>bits" for each set bit i of `widths`. */
  function WidthsText(widths: nat, i: nat): string
    decreases widths
  {
    if widths == 0 then ""
    else (if widths % 2 == 1 then "," + Decimal(16 + 4 * i) + "bits" else "") + WidthsText(widths / 2, i + 1)
  }

  /** The audio format code of a descriptor: bits 6..3 of its first byte. */
  function AudioFormatCode(b0: Byte): nat
  {
    (b0 / 8) % 16
  }

  /** The word of one 3-byte short audio descriptor. */
  function DescriptorWord(b0: Byte, b1: Byte, b2: Byte): string
  {
    var format := AudioFormatCode(b0);
    AudioFormatNames[format] + ",num_channels=" + Decimal(b0 % 8) + RatesText(b1, 0)
      + (if format == 1 then WidthsText(b2 % 8, 0) else "")
  }

  /** The word of the descriptor at offset `o` of the frame. */
  function DescriptorWordAt(f: Frame, o: nat): string
    requires o + 2 < |f|
  {
    DescriptorWord(f[o], f[o + 1], f[o + 2])
  }

  /** `do_operand<ShortAudioDescriptor>`: one word per 3-byte descriptor while
      at least 3 bytes remain and the previous append answered true. */
  function DescriptorRun(f: Frame, t: Trace, ok: bool): Step
    decreases |f| - t.offset
  {
    if !(ok && t.offset + 2 < |f|) then Step(t, ok)
    else
      match AppendWord(f, t, DescriptorWordAt(f, t.offset), 3)
      case Undefined => Undefined
      case Step(next, more) => DescriptorRun(f, next, more)
  }

  /** The UI commands that carry one extra operand; the operand types they
      name (UIBroadcastType, UISoundPresentationControl, PlayMode,
      ChannelIdentifier, UIFunctionMedia, UIFunctionSelectAVInput,
      UIFunctionSelectAudioInput) have no specialisation. */
  predicate HasExtraOperand(command: Byte)
  {
    command == 0x56 || command == 0x57 || command == 0x60 || command == 0x67
      || command == 0x68 || command == 0x69 || command == 0x6A
  }

  function UiCommandOperand(f: Frame, t: Trace): Step
  {
    if t.offset >= |f| then Undefined
    else
      var command := f[t.offset];
      match TableWord(f, t, UiCommandNames, 0x77)
      case Undefined => Undefined
      case Step(next, ok) =>
        if !ok then Step(next, false)
        else if HasExtraOperand(command) then AppendWord(f, next, ".", 1)
        else Step(next, true)
  }

  /** `(b0 << 16) | (b1 << 8) | b2`: the 24-bit vendor id, most significant byte first. */
  function VendorIdValue(b0: Byte, b1: Byte, b2: Byte): nat
  {
    b0 * 65536 + b1 * 256 + b2
  }

  /** `%0nx` of a value below 16^n: n lower-case hex digits, most significant first. */
  function HexLower(v: nat, n: nat): (s: string)
    ensures |s| == n
  {
    if n == 0 then "" else HexLower(v / 16, n - 1) + [LowerHexDigit(v % 16)]
  }

  function VendorWord(id: nat): string
  {
    match VendorName(id)
    case Some(name) => name
    case None => "ID=" + HexLower(id, 6)
  }

  function VendorIdOperand(f: Frame, t: Trace): Step
  {
    if t.offset + 2 >= |f| then AppendWord(f, t, "?", 3)
    else AppendWord(f, t, VendorWord(VendorIdValue(f[t.offset], f[t.offset + 1], f[t.offset + 2])), 3)
  }

  /** `do_operand<code>` for a single operand type: the specialisations, and
      the generic "." word for a type without one. */
  function Operand(f: Frame, code: Byte, t: Trace): Step
    requires |f| >= 2
  {
    if code == OpNone then AppendWord(f, t, "", 1)
    else if code == OpAbortReason then TableWord(f, t, AbortReasonNames, 7)
    else if code == OpAudioFormat then AudioFormatRun(f, t, true)
    else if code == OpAudioStatus then AudioStatusOperand(f, t)
    else if code == OpDeviceType then TableWord(f, t, DeviceTypeNames, 9)
    else if code == OpDisplayControl then TableWord(f, t, DisplayControlNames, 9)
    else if code == OpFeatureOpcode then FeatureOpcodeOperand(f, t)
    else if code == OpOsdString then OsdStringOperand(f, t)
    else if code == OpPhysicalAddress then PhysicalAddressOperand(f, t)
    else if code == OpPowerStatus then TableWord(f, t, PowerStatusNames, 5)
    else if code == OpShortAudioDescriptor then DescriptorRun(f, t, true)
    else if code == OpSystemAudioStatus then TableWord(f, t, SystemAudioStatusNames, 3)
    else if code == OpUICommand then UiCommandOperand(f, t)
    else if code == OpVendorId then VendorIdOperand(f, t)
    else if code == OpCecVersion then TableWord(f, t, CecVersionNames, 9)
    else AppendWord(f, t, ".", 1)
  }

  /** The generic `do_operand<OPERANDS>`: a packed code above 0xFF decodes
      its low byte's type, then (only if that answered true) the rest. */
  function Operands(f: Frame, code: nat, t: Trace): Step
    requires |f| >= 2
    decreases code
  {
    if code <= 0xFF then Operand(f, code, t)
    else
      match Operands(f, code % 256, t)
      case Undefined => Undefined
      case Step(next, more) => if !more then Step(next, false) else Operands(f, code / 256, next)
  }

  /** `decode`, with `line_` read as the words written: the prefix, then
      "Ping" for a frame without opcode, "<?>" for an unknown opcode, else
      "<name>" and the operand text decoded from offset 2 with empty text.
      None where the operand decoding is undefined. */
  function DecodeText(f: Frame): Option<string>
    requires |f| >= 1
  {
    var prefix := AddressDecode(f);
    if |f| <= 1 then Some(prefix + "Ping")
    else
      match OpcodeEntry(Opcode(f))
      case None => Some(prefix + "<?>")
      case Some(info) =>
        match Operands(f, info.operands, Trace(2, 0, []))
        case Undefined => None
        case Step(t, _) => Some(prefix + "<" + info.name + ">" + LineText(t.words))
  }

  /** `decode` as written: `line_` is never initialised, so when no operand
      word was written, `result += &line_[0]` reads an indeterminate buffer. */
  function DecodeTextAsWritten(f: Frame): Option<string>
    requires |f| >= 1
  {
    var prefix := AddressDecode(f);
    if |f| <= 1 then Some(prefix + "Ping")
    else
      match OpcodeEntry(Opcode(f))
      case None => Some(prefix + "<?>")
      case Some(info) =>
        match Operands(f, info.operands, Trace(2, 0, []))
        case Undefined => None
        case Step(t, _) =>
          if t.words == [] then None else Some(prefix + "<" + info.name + ">" + LineText(t.words))
  }

  // ---- Properties ----

  /** `line_` holds a prefix of the words' text, all of it when it fits. */
  lemma LineTextBounds(words: seq<string>)
    ensures |LineText(words)| <= 255
    ensures LineText(words) == Bracketed(words)[..|LineText(words)|]
    ensures |Bracketed(words)| <= 255 <==> LineText(words) == Bracketed(words)
  {
  }

  /** One bounded `snprintf` of "[w]" at `length_` extends the clipped text by
      as much of "[w]" as the room left allows. */
  lemma LineTextSnoc(words: seq<string>, w: string)
    requires |Bracketed(words)| < 256
    ensures var piece := "[" + w + "]";
      var room := 255 - |Bracketed(words)|;
      LineText(words + [w]) == LineText(words) + piece[..if |piece| <= room then |piece| else room]
  {
    var b := Bracketed(words);
    var piece := "[" + w + "]";
    assert (words + [w])[..|words + [w]| - 1] == words;
    assert Bracketed(words + [w]) == b + piece;
    var room := 255 - |b|;
    if |piece| > room {
      assert (b + piece)[..255] == b + piece[..room];
    }
  }

  /** A packed pair decodes its first operand, then (if that answered true) its second. */
  lemma CompositeTwo(f: Frame, first: Byte, secnd: Byte, t: Trace)
    requires |f| >= 2 && secnd >= 1
    ensures Operands(f, Two(first, secnd), t) ==
      match Operand(f, first, t)
      case Undefined => Undefined
      case Step(next, more) => if !more then Step(next, false) else Operand(f, secnd, next)
  {
    TwoUnpack(first, secnd);
  }

  /** A packed triple decodes its operands in order, stopping at the first false. */
  lemma CompositeThree(f: Frame, first: Byte, secnd: Byte, third: Byte, t: Trace)
    requires |f| >= 2 && secnd >= 1 && third >= 1
    ensures Operands(f, Three(first, secnd, third), t) ==
      match Operand(f, first, t)
      case Undefined => Undefined
      case Step(next, more) =>
        if !more then Step(next, false)
        else
          match Operand(f, secnd, next)
          case Undefined => Undefined
          case Step(last, more') => if !more' then Step(last, false) else Operand(f, third, last)
  {
    ThreeUnpack(first, secnd, third);
    var rest := Two(secnd, third);
    assert rest > 0xFF;
    match Operand(f, first, t)
    case Undefined =>
    case Step(next, more) =>
      if more {
        CompositeTwo(f, secnd, third, next);
      }
  }

  /** Every decode starts with the address prefix; a frame without opcode is a
      "Ping", an unknown opcode "<?>", a known one "<name>" and its operands. */
  lemma DecodeShape(f: Frame)
    requires |f| >= 1
    ensures DecodeText(f).Some? ==>
      var s := DecodeText(f).value;
      |AddressDecode(f)| <= |s| && s[..|AddressDecode(f)|] == AddressDecode(f)
    ensures |f| <= 1 ==> DecodeText(f) == Some(AddressDecode(f) + "Ping")
    ensures |f| >= 2 && OpcodeEntry(f[1]).None? ==> DecodeText(f) == Some(AddressDecode(f) + "<?>")
    ensures |f| >= 2 && OpcodeEntry(f[1]).Some? && DecodeText(f).Some? ==>
      var head := AddressDecode(f) + "<" + OpcodeEntry(f[1]).value.name + ">";
      var s := DecodeText(f).value;
      |head| <= |s| && s[..|head|] == head
  {
    var prefix := AddressDecode(f);
    if |f| >= 2 && OpcodeEntry(f[1]).Some? && DecodeText(f).Some? {
      var info := OpcodeEntry(f[1]).value;
      var t := Operands(f, info.operands, Trace(2, 0, [])).trace;
      var head := prefix + "<" + info.name + ">";
      assert DecodeText(f).value == head + LineText(t.words);
      assert head[..|prefix|] == prefix;
    } else if DecodeText(f).Some? {
      var s := DecodeText(f).value;
      assert s[..|prefix|] == prefix;
    }
  }

  /** The word of a physical address reads back, nibble by nibble, as the two bytes. */
  lemma PhysicalAddressRoundTrip(b0: Byte, b1: Byte)
    ensures var w := PhysicalAddressWord(b0, b1);
      && |w| == 7 && w[1] == '.' && w[3] == '.' && w[5] == '.'
      && HexValue(w[0]).Some? && HexValue(w[2]).Some? && HexValue(w[4]).Some? && HexValue(w[6]).Some?
      && HexValue(w[0]).value * 16 + HexValue(w[2]).value == b0
      && HexValue(w[4]).value * 16 + HexValue(w[6]).value == b1
  {
    LowerHexDigitRoundTrip(b0 / 16);
    LowerHexDigitRoundTrip(b0 % 16);
    LowerHexDigitRoundTrip(b1 / 16);
    LowerHexDigitRoundTrip(b1 % 16);
  }

  /** The audio status word: its mute digit is bit 7 and its two hex digits the
      low 7 bits, which together give back the byte. */
  lemma AudioStatusRoundTrip(field: Byte)
    ensures var w := AudioStatusWord(field);
      && |w| == 13 && w[..5] == "Mute=" && w[6..11] == ",Vol="
      && (w[5] == '0' || w[5] == '1')
      && ParseHex2(w[11..]).Some?
      && ParseHex2(w[11..]).value < 128
      && (w[5] as int - '0' as int) * 128 + ParseHex2(w[11..]).value == field
  {
    var w := AudioStatusWord(field);
    assert Decimal(field / 128) == ["0123456789"[field / 128]];
    assert w[11..] == Hex2Upper(field % 128);
    Hex2UpperRoundTrip(field % 128);
  }

  function Pow16(n: nat): (r: nat)
    ensures r >= 1
  {
    if n == 0 then 1 else 16 * Pow16(n - 1)
  }

  /** The value of a string of hex digits, most significant first. */
  function ParseHexNumber(s: string): Option<nat>
    decreases |s|
  {
    if s == [] then Some(0)
    else
      match (ParseHexNumber(s[..|s| - 1]), HexValue(s[|s| - 1]))
      case (Some(high), Some(low)) => Some(high * 16 + low)
      case _ => None
  }

  lemma {:induction false} HexLowerRoundTrip(v: nat, n: nat)
    requires v < Pow16(n)
    ensures ParseHexNumber(HexLower(v, n)) == Some(v)
    decreases n
  {
    if n > 0 {
      var s := HexLower(v, n);
      assert s[..|s| - 1] == HexLower(v / 16, n - 1);
      HexLowerRoundTrip(v / 16, n - 1);
      LowerHexDigitRoundTrip(v % 16);
    }
  }

  lemma DivMod256(q: nat, r: nat)
    requires r < 256
    ensures (q * 256 + r) / 256 == q && (q * 256 + r) % 256 == r
  {
  }

  lemma DivMod65536(q: nat, r: nat)
    requires r < 65536
    ensures (q * 65536 + r) / 65536 == q
  {
  }

  /** The vendor id packs its three bytes without overlap, and its "ID=" text
      reads back as the id. */
  lemma VendorIdRoundTrip(b0: Byte, b1: Byte, b2: Byte)
    ensures var id := VendorIdValue(b0, b1, b2);
      && id < Pow16(6)
      && id / 65536 == b0 && (id / 256) % 256 == b1 && id % 256 == b2
      && ParseHexNumber(HexLower(id, 6)) == Some(id)
  {
    var id := VendorIdValue(b0, b1, b2);
    assert Pow16(6) == 16777216;
    DivMod65536(b0, b1 * 256 + b2);
    DivMod256(b0 * 256 + b1, b2);
    DivMod256(b0, b1);
    HexLowerRoundTrip(id, 6);
  }

  /** The format code and the channel count are disjoint bit fields of the
      descriptor's first byte. */
  lemma DescriptorFields(b0: Byte)
    ensures AudioFormatCode(b0) < 16 && b0 % 8 < 8
    ensures b0 == (b0 / 128) * 128 + AudioFormatCode(b0) * 8 + b0 % 8
  {
  }

  /** A single set bit lists exactly the rate it stands for. */
  lemma {:induction false} RatesTextPow2(j: nat, bit: nat)
    requires bit + j < 8
    ensures Pow2(j) < Pow2(8 - bit)
    ensures RatesText(Pow2(j), bit) == "," + AudioSampleRates[bit + j] + "kHz"
    decreases j
  {
    if j == 0 {
      assert Pow2(8 - bit) == 2 * Pow2(7 - bit);
      assert RatesText(0, bit + 1) == "";
    } else {
      RatesTextPow2(j - 1, bit + 1);
      assert Pow2(j) / 2 == Pow2(j - 1);
    }
  }

  /** A single set width bit i lists exactly the width 16 + 4i. */
  lemma {:induction false} WidthsTextPow2(j: nat, i: nat)
    ensures WidthsText(Pow2(j), i) == "," + Decimal(16 + 4 * (i + j)) + "bits"
    decreases j
  {
    if j == 0 {
      assert WidthsText(0, i + 1) == "";
    } else {
      WidthsTextPow2(j - 1, i + 1);
      assert Pow2(j) / 2 == Pow2(j - 1);
    }
  }

  /** The third descriptor byte matters only for LPCM (format 1). */
  lemma DescriptorWidthsOnlyForLpcm(b0: Byte, b1: Byte, b2: Byte)
    requires AudioFormatCode(b0) != 1
    ensures DescriptorWord(b0, b1, b2) == DescriptorWord(b0, b1, 0)
  {
  }

  // ---- The decoder's state invariant ----

  /** `length_` is the length of the text in `line_`. */
  predicate Consistent(t: Trace)
  {
    t.length == |Bracketed(t.words)|
  }

  /** `u` is a later state than `t`: the words of `t` are kept and the offset
      has not moved back. */
  predicate Follows(t: Trace, u: Trace)
  {
    |t.words| <= |u.words| && u.words[..|t.words|] == t.words && t.offset <= u.offset
  }

  /** What every operand step promises from a consistent state with room in
      `line_`: it only appends, `length_` stays the text's length, and it
      answers true only while the text is below 256 characters. */
  predicate Continues(t: Trace, r: Step)
  {
    r.Step? ==> Follows(t, r.trace) && Consistent(r.trace) && (r.more ==> r.trace.length < 256)
  }

  lemma FollowsTransitive(t: Trace, u: Trace, v: Trace)
    requires Follows(t, u) && Follows(u, v)
    ensures Follows(t, v)
  {
    assert v.words[..|t.words|] == v.words[..|u.words|][..|t.words|];
  }

  lemma AppendWordContinues(f: Frame, t: Trace, word: string, incr: nat)
    requires Consistent(t)
    ensures Continues(t, AppendWord(f, t, word, incr))
  {
    var ws := t.words + [word];
    assert ws[..|ws| - 1] == t.words;
    assert ws[..|t.words|] == t.words;
  }

  lemma TableWordContinues(f: Frame, t: Trace, names: seq<string>, n: nat)
    requires |names| <= n && Consistent(t)
    ensures Continues(t, TableWord(f, t, names, n))
  {
    if t.offset < |f| && !(f[t.offset] < n && f[t.offset] >= |names|) {
      AppendWordContinues(f, t, TableName(names, n, f[t.offset]), 1);
    }
  }

  lemma {:induction false} AudioFormatRunContinues(f: Frame, t: Trace, ok: bool)
    requires Consistent(t) && (ok ==> t.length < 256)
    ensures Continues(t, AudioFormatRun(f, t, ok))
    decreases |f| - t.offset
  {
    if ok && t.offset < |f| {
      var r := TableWord(f, t, AudioFormatNames, 0x11);
      TableWordContinues(f, t, AudioFormatNames, 0x11);
      if r.Step? {
        AudioFormatRunContinues(f, r.trace, r.more);
        var u := AudioFormatRun(f, r.trace, r.more);
        if u.Step? {
          FollowsTransitive(t, r.trace, u.trace);
        }
      }
    }
  }

  lemma {:induction false} DescriptorRunContinues(f: Frame, t: Trace, ok: bool)
    requires Consistent(t) && (ok ==> t.length < 256)
    ensures Continues(t, DescriptorRun(f, t, ok))
    decreases |f| - t.offset
  {
    if ok && t.offset + 2 < |f| {
      var word := DescriptorWordAt(f, t.offset);
      var r := AppendWord(f, t, word, 3);
      AppendWordContinues(f, t, word, 3);
      if r.Step? {
        DescriptorRunContinues(f, r.trace, r.more);
        var u := DescriptorRun(f, r.trace, r.more);
        if u.Step? {
          FollowsTransitive(t, r.trace, u.trace);
        }
      }
    }
  }

  lemma UiCommandContinues(f: Frame, t: Trace)
    requires Consistent(t)
    ensures Continues(t, UiCommandOperand(f, t))
  {
    if t.offset < |f| {
      var r := TableWord(f, t, UiCommandNames, 0x77);
      TableWordContinues(f, t, UiCommandNames, 0x77);
      if r.Step? && r.more && HasExtraOperand(f[t.offset]) {
        AppendWordContinues(f, r.trace, ".", 1);
        var u := AppendWord(f, r.trace, ".", 1);
        if u.Step? {
          FollowsTransitive(t, r.trace, u.trace);
        }
      }
    }
  }

  lemma OperandContinues(f: Frame, code: Byte, t: Trace)
    requires |f| >= 2 && Consistent(t) && t.length < 256
    ensures Continues(t, Operand(f, code, t))
  {
    if code == OpAbortReason {
      TableWordContinues(f, t, AbortReasonNames, 7);
    } else if code == OpAudioFormat {
      AudioFormatRunContinues(f, t, true);
    } else if code == OpAudioStatus {
      AppendWordContinues(f, t, if t.offset < |f| then AudioStatusWord(f[t.offset]) else "?", 1);
    } else if code == OpDeviceType {
      TableWordContinues(f, t, DeviceTypeNames, 9);
    } else if code == OpDisplayControl {
      TableWordContinues(f, t, DisplayControlNames, 9);
    } else if code == OpFeatureOpcode {
      if t.offset < |f| {
        AppendWordContinues(f, t, FindOpcodeName(f[t.offset]), 1);
      }
    } else if code == OpOsdString {
      if t.offset <= |f| {
        AppendWordContinues(f, t.(offset := |f|), TextUpToNul(f[t.offset..]), 1);
      }
    } else if code == OpPhysicalAddress {
      if f[1] == 0x70 && t.offset >= |f| {
        AppendWordContinues(f, t, "Off", 1);
      } else if t.offset + 1 >= |f| {
        AppendWordContinues(f, t, "?", 2);
      } else {
        AppendWordContinues(f, t, PhysicalAddressWord(f[t.offset], f[t.offset + 1]), 2);
      }
    } else if code == OpPowerStatus {
      TableWordContinues(f, t, PowerStatusNames, 5);
    } else if code == OpShortAudioDescriptor {
      DescriptorRunContinues(f, t, true);
    } else if code == OpSystemAudioStatus {
      TableWordContinues(f, t, SystemAudioStatusNames, 3);
    } else if code == OpUICommand {
      UiCommandContinues(f, t);
    } else if code == OpVendorId {
      if t.offset + 2 >= |f| {
        AppendWordContinues(f, t, "?", 3);
      } else {
        AppendWordContinues(f, t, VendorWord(VendorIdValue(f[t.offset], f[t.offset + 1], f[t.offset + 2])), 3);
      }
    } else if code == OpCecVersion {
      TableWordContinues(f, t, CecVersionNames, 9);
    } else if code == OpNone {
      AppendWordContinues(f, t, "", 1);
    } else {
      AppendWordContinues(f, t, ".", 1);
    }
  }

  /** The invariant holds for every operand code, packed or not. */
  lemma {:induction false} OperandsContinue(f: Frame, code: nat, t: Trace)
    requires |f| >= 2 && Consistent(t) && t.length < 256
    ensures Continues(t, Operands(f, code, t))
    decreases code
  {
    if code <= 0xFF {
      OperandContinues(f, code, t);
    } else {
      OperandsContinue(f, code % 256, t);
      var r := Operands(f, code % 256, t);
      if r.Step? && r.more {
        OperandsContinue(f, code / 256, r.trace);
        var u := Operands(f, code / 256, r.trace);
        if u.Step? {
          FollowsTransitive(t, r.trace, u.trace);
        }
      }
    }
  }

  /** The table overload reads the byte at `offset_`, writes the name it
      selects (a defined entry) and consumes exactly that byte. */
  lemma TableWordAppends(f: Frame, t: Trace, names: seq<string>, n: nat)
    requires |names| <= n
    ensures var r := TableWord(f, t, names, n);
      r.Step? ==>
        && t.offset < |f| && (f[t.offset] < n ==> f[t.offset] < |names|)
        && r.trace.offset == t.offset + 1
        && r.trace.words == t.words + [TableName(names, n, f[t.offset])]
  {
  }

  /** `do_operand<AudioFormat>` consumes one byte per word it writes and
      answers true only once the frame is exhausted. */
  lemma {:induction false} AudioFormatRunConsumes(f: Frame, t: Trace, ok: bool, r: Step)
    requires r == AudioFormatRun(f, t, ok)
    ensures r.Step? ==>
      && Follows(t, r.trace)
      && r.trace.offset == t.offset + (|r.trace.words| - |t.words|)
      && (r.more ==> r.trace.offset >= |f|)
    decreases |f| - t.offset
  {
    if ok && t.offset < |f| {
      var s := TableWord(f, t, AudioFormatNames, 0x11);
      if s.Step? {
        AudioFormatRunConsumes(f, s.trace, s.more, r);
        if r.Step? {
          FollowsTransitive(t, s.trace, r.trace);
        }
      }
    }
  }

  /** The words `do_operand<AudioFormat>` writes name the bytes it consumes,
      in frame order: the byte at position j gives word |t.words| + (j - t.offset)
      (and none of them is the null slot 16). */
  lemma {:induction false} AudioFormatRunWords(f: Frame, t: Trace, ok: bool, r: Step)
    requires r == AudioFormatRun(f, t, ok)
    ensures r.Step? ==>
      && r.trace.offset == t.offset + (|r.trace.words| - |t.words|)
      && (r.trace.offset > t.offset ==> r.trace.offset <= |f|)
      && forall j :: t.offset <= j < r.trace.offset ==>
           f[j] != 16 &&
           r.trace.words[|t.words| + (j - t.offset)] == TableName(AudioFormatNames, 0x11, f[j])
  {
    if r.Step? {
      AudioFormatRunConsumes(f, t, ok, r);
      if r.trace.offset > t.offset {
        AudioFormatByteAt(f, t, ok, r, r.trace.offset - 1);
      }
      forall j | t.offset <= j < r.trace.offset
        ensures j < |f| && f[j] != 16
        ensures r.trace.words[|t.words| + (j - t.offset)] == TableName(AudioFormatNames, 0x11, f[j])
      {
        AudioFormatByteAt(f, t, ok, r, j);
      }
    }
  }

  /** One position of `AudioFormatRunWords`. */
  lemma AudioFormatByteAt(f: Frame, t: Trace, ok: bool, r: Step, j: int)
    requires r == AudioFormatRun(f, t, ok) && r.Step?
    requires t.offset <= j < r.trace.offset
    ensures j < |f| && f[j] != 16 && |t.words| + (j - t.offset) < |r.trace.words|
    ensures r.trace.words[|t.words| + (j - t.offset)] == TableName(AudioFormatNames, 0x11, f[j])
  {
    AudioFormatRunConsumes(f, t, ok, r);
    AudioFormatWordAt(f, t, ok, r, |t.words| + (j - t.offset));
  }

  /** The k-th word written by `do_operand<AudioFormat>` names the byte it consumed. */
  lemma {:induction false} AudioFormatWordAt(f: Frame, t: Trace, ok: bool, r: Step, k: nat)
    requires r == AudioFormatRun(f, t, ok) && r.Step?
    requires |t.words| <= k < |r.trace.words|
    ensures t.offset + (k - |t.words|) < |f| && f[t.offset + (k - |t.words|)] != 16
    ensures r.trace.words[k] == TableName(AudioFormatNames, 0x11, f[t.offset + (k - |t.words|)])
    decreases |f| - t.offset
  {
    var s := TableWord(f, t, AudioFormatNames, 0x11);
    TableWordAppends(f, t, AudioFormatNames, 0x11);
    assert |AudioFormatNames| == 16;
    AudioFormatRunConsumes(f, s.trace, s.more, r);
    if k == |t.words| {
      assert r.trace.words[k] == r.trace.words[..|s.trace.words|][k];
    } else {
      AudioFormatWordAt(f, s.trace, s.more, r, k);
    }
  }

  /** `do_operand<ShortAudioDescriptor>` consumes 3 bytes per word it writes
      and answers true only when fewer than 3 bytes remain. */
  lemma {:induction false} DescriptorRunConsumes(f: Frame, t: Trace, ok: bool, r: Step)
    requires r == DescriptorRun(f, t, ok)
    ensures r.Step? ==>
      && Follows(t, r.trace)
      && r.trace.offset == t.offset + 3 * (|r.trace.words| - |t.words|)
      && (|r.trace.words| > |t.words| ==> t.offset + 2 < |f|)
      && (r.more ==> r.trace.offset + 2 >= |f|)
    decreases |f| - t.offset
  {
    if ok && t.offset + 2 < |f| {
      var s := AppendWord(f, t, DescriptorWordAt(f, t.offset), 3);
      if s.Step? {
        DescriptorRunConsumes(f, s.trace, s.more, r);
        if r.Step? {
          FollowsTransitive(t, s.trace, r.trace);
        }
      }
    }
  }

  // ---- The uninitialised line_ ----

  /** Feature Abort without operands, 40:00: `do_operand<FeatureOpcode>`
      answers false without writing, so the decoder as written returns text
      read from an indeterminate buffer; with `line_` starting empty the
      text is just the prefix and the opcode name. */
  lemma FeatureAbortWithoutOperands()
    ensures DecodeTextAsWritten([0x40, 0x00]).None?
    ensures DecodeText([0x40, 0x00]) == Some("PlaybackDev1 to TV: <Feature Abort>")
  {
    var f: Frame := [0x40, 0x00];
    TwoUnpack(OpFeatureOpcode, OpAbortReason);
    assert Operands(f, Two(OpFeatureOpcode, OpAbortReason), Trace(2, 0, [])) == Step(Trace(2, 0, []), false);
    assert OpcodeEntry(0x00) == Some(OpcodeInfo("Feature Abort", Two(OpFeatureOpcode, OpAbortReason)));
    assert LineText([]) == "";
    assert DecodeText(f) == Some(AddressDecode(f) + "<" + "Feature Abort" + ">" + "");
    assert AddressDecode(f) == "PlaybackDev1" + " to " + "TV" + ": ";
    FeatureAbortText();
  }

  lemma FeatureAbortText()
    ensures "PlaybackDev1" + " to " + "TV" + ": " + "<" + "Feature Abort" + ">" + ""
      == "PlaybackDev1 to TV: <Feature Abort>"
  {
    var s := "PlaybackDev1" + " to " + "TV" + ": " + "<" + "Feature Abort" + ">" + "";
    assert |s| == 35;
    forall i | 0 <= i < 35 ensures s[i] == "PlaybackDev1 to TV: <Feature Abort>"[i] {
    }
  }

  /** Wherever the decoder as written is defined, the corrected one gives the
      same text. */
  lemma DecodeTextCorrects(f: Frame)
    requires |f| >= 1
    ensures DecodeTextAsWritten(f).Some? ==> DecodeText(f) == DecodeTextAsWritten(f)
  {
  }

  /** The decoded operand text is what `length_` counts. */
  lemma DecodedLengthCounts(f: Frame)
    requires |f| >= 2 && OpcodeEntry(f[1]).Some?
    ensures var r := Operands(f, OpcodeEntry(f[1]).value.operands, Trace(2, 0, []));
      r.Step? ==> r.trace.length == |Bracketed(r.trace.words)| && r.trace.offset >= 2
  {
    OperandsContinue(f, OpcodeEntry(f[1]).value.operands, Trace(2, 0, []));
  }
}
