/** The CEC frame (HDMI 1.4 Supplement 1, section CEC 6 "Frame Description"):
    one header block holding the initiator and destination logical addresses,
    followed by the opcode and operand blocks. The component stores a frame as a
    byte vector (`Frame`, a `std::vector<uint8_t>`). */
module CecFrame {
  import opened Common

  type Frame = seq<Byte>

  /** Logical address 15: "Unregistered" as initiator, "broadcast" as destination
      (section CEC 10.2). */
  const BROADCAST_ADDRESS: Nibble := 15

  /** `Frame(initiator_addr, target_addr, payload)`: the header byte packs the
      low nibbles of both addresses, `((i & 0xF) << 4) | (t & 0xF)`, followed by
      the payload bytes in order. */
  function MakeFrame(initiator: Byte, target: Byte, payload: seq<Byte>): (f: Frame)
    ensures |f| == 1 + |payload|
  {
    var header: Byte := (initiator % 16) * 16 + target % 16;
    [header] + payload
  }

  // The accessors below are not part of the shown source; they are defined as
  // the uses in hdmi_cec.cpp require: the initiator is the high nibble of the
  // header, the destination the low nibble, broadcast is destination 15, and
  // the opcode is the second byte.

  function Initiator(f: Frame): Nibble
    requires |f| >= 1
  {
    f[0] / 16
  }

  function Destination(f: Frame): Nibble
    requires |f| >= 1
  {
    f[0] % 16
  }

  predicate IsBroadcast(f: Frame)
    requires |f| >= 1
  {
    Destination(f) == BROADCAST_ADDRESS
  }

  function Opcode(f: Frame): Byte
    requires |f| >= 2
  {
    f[1]
  }

  /** The accessors read back what the constructor packed. */
  lemma MakeFrameFields(initiator: Byte, target: Byte, payload: seq<Byte>)
    ensures var f := MakeFrame(initiator, target, payload);
      && Initiator(f) == initiator % 16
      && Destination(f) == target % 16
      && f[1..] == payload
      && (|payload| >= 1 ==> Opcode(f) == payload[0])
  {
    var f := MakeFrame(initiator, target, payload);
    assert f[1..] == payload;
  }

  /** Every non-empty frame is the frame its own fields build. */
  lemma MakeFrameOfFields(f: Frame)
    requires |f| >= 1
    ensures MakeFrame(Initiator(f), Destination(f), f[1..]) == f
  {
    var g := MakeFrame(Initiator(f), Destination(f), f[1..]);
    assert g[0] == f[0];
    assert g[1..] == f[1..];
  }

  /** The hex text of `Frame::to_string` (without the decoder suffix):
      each byte as `%02X`, the bytes joined by ':'. */
  function HexText(f: Frame): string
    decreases |f|
  {
    if |f| == 0 then ""
    else if |f| == 1 then Hex2Upper(f[0])
    else Hex2Upper(f[0]) + ":" + HexText(f[1..])
  }

  /** The inverse of `HexText`: reads "XX:XX:...:XX" back into bytes. */
  function ParseHexText(s: string): Option<Frame>
    decreases |s|
  {
    if |s| == 0 then Some([])
    else if |s| == 2 then
      match ParseHex2(s)
      case Some(b) => Some([b])
      case None => None
    else if |s| > 3 && s[2] == ':' then
      match (ParseHex2(s[..2]), ParseHexText(s[3..]))
      case (Some(b), Some(rest)) => Some([b] + rest)
      case _ => None
    else None
  }

  lemma {:induction false} HexTextLength(f: Frame)
    requires |f| >= 1
    ensures |HexText(f)| == 3 * |f| - 1
    decreases |f|
  {
    if |f| > 1 {
      HexTextLength(f[1..]);
    }
  }

  /** The rendered text parses back to the frame: no two frames print alike. */
  lemma {:induction false} HexTextRoundTrip(f: Frame)
    ensures ParseHexText(HexText(f)) == Some(f)
    decreases |f|
  {
    if |f| == 1 {
      Hex2UpperRoundTrip(f[0]);
      assert [f[0]] == f;
    } else if |f| > 1 {
      var s := HexText(f);
      HexTextLength(f[1..]);
      HexTextRoundTrip(f[1..]);
      Hex2UpperRoundTrip(f[0]);
      assert s[..2] == Hex2Upper(f[0]);
      assert s[3..] == HexText(f[1..]);
      assert [f[0]] + f[1..] == f;
    }
  }

  /** Appending a byte appends ':' and its two digits. */
  lemma {:induction false} HexTextSnoc(f: Frame, b: Byte)
    requires |f| >= 1
    ensures HexText(f + [b]) == HexText(f) + ":" + Hex2Upper(b)
    decreases |f|
  {
    if |f| == 1 {
      assert (f + [b])[1..] == [b];
    } else {
      assert (f + [b])[1..] == f[1..] + [b];
      HexTextSnoc(f[1..], b);
    }
  }

  /** `Frame::to_string`'s loop (hex part): appends each byte's "%02X" and a
      ':' after every byte but the last. */
  method ToHexString(f: Frame) returns (result: string)
    ensures result == HexText(f)
  {
    result := "";
    var i := 0;
    while i < |f|
      invariant 0 <= i <= |f|
      invariant i == 0 ==> result == ""
      invariant 0 < i ==> result == HexText(f[..i]) + (if i < |f| then ":" else "")
    {
      if i > 0 {
        assert f[..i + 1] == f[..i] + [f[i]];
        HexTextSnoc(f[..i], f[i]);
      } else {
        assert f[..1] == [f[0]];
      }
      result := result + Hex2Upper(f[i]);
      if i != |f| - 1 {
        result := result + ":";
      }
      i := i + 1;
    }
    assert f[..i] == f;
  }
}
