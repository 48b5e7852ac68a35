/** The `Decoder` class of cec_decoder.cpp: it walks a frame's operand bytes
    from offset 2, appending one bracketed word per operand to the 256-byte
    text buffer `line_`. Every method is proved against the functions of
    CecDecoderSpec: after each call, the state read as a `Trace` and the
    method's answer are exactly the `Step` the matching function computes. */
module CecDecoder {
  import opened Common
  import opened CecFrame
  import opened CecDecoderSpec

  class Decoder {
    /** `frame_`: the frame under decode. */
    const frame: Frame
    /** `line_`, as the C string it holds. */
    var line: string
    /** `length_`: the accumulated length of the operand text. */
    var length: nat
    /** `offset_`: the frame position of the next operand byte. */
    var offset: nat
    /** The operand words appended so far. */
    ghost var words: seq<string>

    /** `line_` holds the clipped text of the words, and `length_` counts all
        of it (including whatever did not fit). */
    ghost predicate Valid()
      reads this
    {
      length == |Bracketed(words)| && line == LineText(words)
    }

    /** The state the spec functions step. */
    ghost function State(): Trace
      reads this
    {
      Trace(offset, length, words)
    }

    /** `Decoder(frame)`: `length_` 0 and `offset_` 2. `line_` is left
        uninitialised by the source; the model starts it empty. */
    constructor (f: Frame)
      ensures frame == f && Valid()
      ensures State() == Trace(2, 0, [])
    {
      frame := f;
      line := "";
      length := 0;
      offset := 2;
      words := [];
    }

    /** `append_operand(word, incr)`: `snprintf` "[word]" into the room left
        in `line_`, count its full length, advance the frame offset. */
    method AppendOperand(word: string, incr: nat) returns (more: bool)
      requires Valid() && length < 256
      modifies this
      ensures Valid()
      ensures words == old(words) + [word]
      ensures offset == old(offset) + incr && length == old(length) + |word| + 2
      ensures more <==> length < 256 && offset < |frame|
      ensures Step(State(), more) == AppendWord(frame, old(State()), word, incr)
    {
      var piece := "[" + word + "]";
      var room := 255 - length;
      LineTextSnoc(words, word);
      line := line + piece[..if |piece| <= room then |piece| else room];
      words := words + [word];
      length := length + |piece|;
      offset := offset + incr;
      more := length < 256 && offset < |frame|;
    }

    /** The table overload of `append_operand`: the name the current byte
        indexes, or "?" past the declared size `n`. */
    method AppendTableOperand(names: seq<string>, n: nat) returns (more: bool)
      requires Valid() && |names| <= n
      requires TableWord(frame, State(), names, n).Step?
      modifies this
      ensures Valid()
      ensures Step(State(), more) == TableWord(frame, old(State()), names, n)
    {
      var value := frame[offset];
      var s := if value < n then names[value] else "?";
      more := AppendOperand(s, 1);
    }

    /** `do_operand<AudioFormat>`: one table word per byte until the frame is
        exhausted or an append answers false. */
    method DoAudioFormat() returns (ok: bool)
      requires Valid() && AudioFormatRun(frame, State(), true).Step?
      modifies this
      ensures Valid()
      ensures Step(State(), ok) == AudioFormatRun(frame, old(State()), true)
    {
      ghost var goal := AudioFormatRun(frame, State(), true);
      ok := true;
      while ok && offset < |frame|
        invariant Valid()
        invariant AudioFormatRun(frame, State(), ok) == goal
        decreases |frame| - offset
      {
        ok := AppendTableOperand(AudioFormatNames, 0x11);
      }
    }

    /** `do_operand<AudioStatus>`: "Mute=%d,Vol=%02X" of the current byte, or
        "?" when the frame is exhausted. */
    method DoAudioStatus() returns (more: bool)
      requires Valid() && AudioStatusOperand(frame, State()).Step?
      modifies this
      ensures Valid()
      ensures Step(State(), more) == AudioStatusOperand(frame, old(State()))
    {
      if offset < |frame| {
        var field := frame[offset];
        more := AppendOperand(AudioStatusWord(field), 1);
      } else {
        more := AppendOperand("?", 1);
      }
    }

    /** `do_operand<FeatureOpcode>`: the name of the opcode byte, or false
        without writing when the frame is exhausted. */
    method DoFeatureOpcode() returns (more: bool)
      requires Valid() && FeatureOpcodeOperand(frame, State()).Step?
      modifies this
      ensures Valid()
      ensures Step(State(), more) == FeatureOpcodeOperand(frame, old(State()))
    {
      if offset >= |frame| {
        return false;
      }
      var opcode := frame[offset];
      more := AppendOperand(FindOpcodeName(opcode), 1);
    }

    /** `do_operand<OsdString>`: the rest of the frame as text, then
        `offset_` set to the frame size before the append. */
    method DoOsdString() returns (more: bool)
      requires Valid() && OsdStringOperand(frame, State()).Step?
      modifies this
      ensures Valid()
      ensures Step(State(), more) == OsdStringOperand(frame, old(State()))
    {
      var text := TextUpToNul(frame[offset..]);
      offset := |frame|;
      more := AppendOperand(text, 1);
    }

    /** `do_operand<PhysicalAddress>`: "Off" for an absent optional operand of
        <System Audio Mode Request>, "?" for a truncated one, else the four
        nibbles. */
    method DoPhysicalAddress() returns (more: bool)
      requires Valid() && |frame| >= 2 && PhysicalAddressOperand(frame, State()).Step?
      modifies this
      ensures Valid()
      ensures Step(State(), more) == PhysicalAddressOperand(frame, old(State()))
    {
      if frame[1] == 0x70 && offset >= |frame| {
        more := AppendOperand("Off", 1);
      } else if offset + 1 >= |frame| {
        more := AppendOperand("?", 2);
      } else {
        more := AppendOperand(PhysicalAddressWord(frame[offset], frame[offset + 1]), 2);
      }
    }

    /** `do_operand<ShortAudioDescriptor>`: one word per 3-byte descriptor
        while three bytes remain and the previous append answered true. */
    method DoShortAudioDescriptor() returns (ok: bool)
      requires Valid() && DescriptorRun(frame, State(), true).Step?
      modifies this
      ensures Valid()
      ensures Step(State(), ok) == DescriptorRun(frame, old(State()), true)
    {
      ghost var goal := DescriptorRun(frame, State(), true);
      ok := true;
      while ok && offset + 2 < |frame|
        invariant Valid()
        invariant DescriptorRun(frame, State(), ok) == goal
        decreases |frame| - offset
      {
        var word := DescriptorText(frame[offset], frame[offset + 1], frame[offset + 2]);
        ok := AppendOperand(word, 3);
      }
    }

    /** `do_operand<UICommand>`: the command's name, then one generic word for
        the commands that carry an extra operand. The command byte is read
        unchecked. */
    method DoUiCommand() returns (more: bool)
      requires Valid() && UiCommandOperand(frame, State()).Step?
      modifies this
      ensures Valid()
      ensures Step(State(), more) == UiCommandOperand(frame, old(State()))
    {
      var command := frame[offset];
      var ok := AppendTableOperand(UiCommandNames, 0x77);
      if !ok {
        return false;
      }
      if HasExtraOperand(command) {
        more := AppendOperand(".", 1);
      } else {
        more := ok;
      }
    }

    /** `do_operand<VendorId>`: the vendor's name for a known 24-bit id,
        "ID=%06x" for another, "?" when fewer than three bytes remain. */
    method DoVendorId() returns (more: bool)
      requires Valid() && VendorIdOperand(frame, State()).Step?
      modifies this
      ensures Valid()
      ensures Step(State(), more) == VendorIdOperand(frame, old(State()))
    {
      if offset + 2 >= |frame| {
        more := AppendOperand("?", 3);
        return;
      }
      var id := VendorIdValue(frame[offset], frame[offset + 1], frame[offset + 2]);
      more := AppendOperand(VendorWord(id), 3);
    }

    /** `do_operand<code>` for one operand type: its specialisation, or the
        generic "." word. */
    method DoOperand(code: Byte) returns (more: bool)
      requires Valid() && |frame| >= 2 && Operand(frame, code, State()).Step?
      modifies this
      ensures Valid()
      ensures Step(State(), more) == Operand(frame, code, old(State()))
    {
      if code == OpNone {
        more := AppendOperand("", 1);
      } else if code == OpAbortReason {
        more := AppendTableOperand(AbortReasonNames, 7);
      } else if code == OpAudioFormat {
        more := DoAudioFormat();
      } else if code == OpAudioStatus {
        more := DoAudioStatus();
      } else if code == OpDeviceType {
        more := AppendTableOperand(DeviceTypeNames, 9);
      } else if code == OpDisplayControl {
        more := AppendTableOperand(DisplayControlNames, 9);
      } else if code == OpFeatureOpcode {
        more := DoFeatureOpcode();
      } else if code == OpOsdString {
        more := DoOsdString();
      } else if code == OpPhysicalAddress {
        more := DoPhysicalAddress();
      } else if code == OpPowerStatus {
        more := AppendTableOperand(PowerStatusNames, 5);
      } else if code == OpShortAudioDescriptor {
        more := DoShortAudioDescriptor();
      } else if code == OpSystemAudioStatus {
        more := AppendTableOperand(SystemAudioStatusNames, 3);
      } else if code == OpUICommand {
        more := DoUiCommand();
      } else if code == OpVendorId {
        more := DoVendorId();
      } else if code == OpCecVersion {
        more := AppendTableOperand(CecVersionNames, 9);
      } else {
        more := AppendOperand(".", 1);
      }
    }

    /** The generic `do_operand<OPERANDS>` for a packed code: its low byte's
        operand, then the rest only if that answered true. */
    method DoOperands(code: nat) returns (more: bool)
      requires Valid() && |frame| >= 2 && Operands(frame, code, State()).Step?
      modifies this
      ensures Valid()
      ensures Step(State(), more) == Operands(frame, code, old(State()))
      decreases code
    {
      if code <= 0xFF {
        more := DoOperand(code);
      } else {
        more := DoOperands(code % 256);
        if more {
          more := DoOperands(code / 256);
        }
      }
    }

    /** `decode`: the address prefix, then "Ping", "<?>" or "<name>" followed
        by the operand text. Unlike the source, `line_` is emptied along with
        `length_` and `offset_`, so a frame whose operands write nothing
        decodes to the name alone. */
    method Decode() returns (text: string)
      requires |frame| >= 1 && DecodeText(frame).Some?
      modifies this
      ensures Some(text) == DecodeText(frame)
    {
      var result := AddressDecode(frame);
      if |frame| <= 1 {
        return result + "Ping";
      }
      var entry := OpcodeEntry(frame[1]);
      if entry.None? {
        return result + "<?>";
      }
      result := result + "<" + entry.value.name + ">";
      line := "";
      words := [];
      length := 0;
      offset := 2;
      var more := DoOperands(entry.value.operands);
      text := result + line;
    }
  }

  /** The sample-rate loop of `do_operand<ShortAudioDescriptor>`: one
      ",<rate>kHz" per set bit, shifting `rates` right each round. */
  method RatesSuffix(rates0: Byte) returns (s: string)
    ensures s == RatesText(rates0, 0)
  {
    s := "";
    var rates: nat := rates0;
    var bit: nat := 0;
    while rates != 0
      invariant bit <= 8 && rates < Pow2(8 - bit)
      invariant s + RatesText(rates, bit) == RatesText(rates0, 0)
      decreases rates
    {
      var piece := if rates % 2 == 1 then "," + AudioSampleRates[bit] + "kHz" else "";
      AppendAssoc(s, piece, RatesText(rates / 2, bit + 1));
      s := s + piece;
      rates := rates / 2;
      bit := bit + 1;
    }
  }

  /** The LPCM sample-width loop: one ",<16 + 4i>bits" per set bit. */
  method WidthsSuffix(widths0: nat) returns (s: string)
    ensures s == WidthsText(widths0, 0)
  {
    s := "";
    var widths := widths0;
    var i: nat := 0;
    while widths != 0
      invariant s + WidthsText(widths, i) == WidthsText(widths0, 0)
      decreases widths
    {
      var piece := if widths % 2 == 1 then "," + Decimal(16 + 4 * i) + "bits" else "";
      AppendAssoc(s, piece, WidthsText(widths / 2, i + 1));
      s := s + piece;
      widths := widths / 2;
      i := i + 1;
    }
  }

  /** The word `sprintf` builds for one short audio descriptor: format name,
      channel count, sample rates, and for LPCM the sample widths. */
  method DescriptorText(b0: Byte, b1: Byte, b2: Byte) returns (s: string)
    ensures s == DescriptorWord(b0, b1, b2)
  {
    var format := AudioFormatCode(b0);
    s := AudioFormatNames[format] + ",num_channels=" + Decimal(b0 % 8);
    var rates := RatesSuffix(b1);
    s := s + rates;
    if format == 1 {
      var widths := WidthsSuffix(b2 % 8);
      s := s + widths;
    } else {
      s := s + "";
    }
  }
}
