/** The EDID checks of `ddc::Sink` (ddc_sink.cpp): the block checksum of
    VESA E-EDID Release A Revision 2, section 3.11 (all 128 bytes of a block
    sum to 0 modulo 256), the fixed 8-byte header of section 3.3
    (00 FF FF FF FF FF FF 00), and the decisions `read_physical_address`
    takes over the base block and the first extension block it reads. */
module DdcSink {
  import opened Common

  /** The exact (non-wrapping) sum of a byte sequence. */
  function ByteSum(s: seq<Byte>): nat
    decreases |s|
  {
    if s == [] then 0 else ByteSum(s[..|s| - 1]) + s[|s| - 1]
  }

  /** A block whose bytes sum to 0 modulo 256. */
  predicate ChecksumOk(s: seq<Byte>)
  {
    ByteSum(s) % 256 == 0
  }

  /** `validate_edid_block_(data, len)`: adds the first `len` bytes into a
      wrapping `uint8_t` and accepts a zero total. */
  method ValidateEdidBlock(data: array<Byte>, len: nat) returns (valid: bool)
    requires len <= data.Length
    ensures valid <==> ChecksumOk(data[..len])
  {
    var sum: Byte := 0;
    var i := 0;
    while i < len
      invariant 0 <= i <= len
      invariant sum == ByteSum(data[..i]) % 256
    {
      assert data[..i + 1][..i] == data[..i];
      sum := (sum + data[i]) % 256;
      i := i + 1;
    }
    valid := sum % 256 == 0;
  }

  lemma {:induction false} ByteSumAppend(a: seq<Byte>, b: seq<Byte>)
    ensures ByteSum(a + b) == ByteSum(a) + ByteSum(b)
    decreases |b|
  {
    if b != [] {
      assert (a + b)[..|a + b| - 1] == a + b[..|b| - 1];
      ByteSumAppend(a, b[..|b| - 1]);
    } else {
      assert a + b == a;
    }
  }

  /** The checksum byte: setting the last byte to (256 - sum of the others)
      mod 256 makes any block of at least one byte pass. */
  lemma ChecksumFix(s: seq<Byte>)
    requires |s| >= 1
    ensures ChecksumOk(s[..|s| - 1] + [(256 - ByteSum(s[..|s| - 1]) % 256) % 256])
  {
    var body := s[..|s| - 1];
    var fixed := body + [(256 - ByteSum(body) % 256) % 256];
    assert fixed[..|fixed| - 1] == body;
  }

  /** Removing one byte from the sum. */
  lemma ByteSumRemove(s: seq<Byte>, j: nat)
    requires j < |s|
    ensures ByteSum(s) == ByteSum(s[..j] + s[j + 1..]) + s[j]
  {
    var a := s[..j];
    var b := s[j + 1..];
    assert s == (a + [s[j]]) + b;
    ByteSumAppend(a + [s[j]], b);
    ByteSumAppend(a, [s[j]]);
    assert ByteSum([s[j]]) == s[j] by {
      assert [s[j]][..0] == [];
    }
    ByteSumAppend(a, b);
  }

  /** The sum does not depend on the order of the bytes. */
  lemma {:induction false} ByteSumPermutation(s: seq<Byte>, t: seq<Byte>)
    requires multiset(s) == multiset(t)
    ensures ByteSum(s) == ByteSum(t)
    decreases |s|
  {
    if s == [] {
      assert |t| == |multiset(t)| == 0;
    } else {
      var x := s[|s| - 1];
      assert s == s[..|s| - 1] + [x];
      assert x in multiset(t);
      var j :| 0 <= j < |t| && t[j] == x;
      var rest := t[..j] + t[j + 1..];
      assert t == t[..j] + [x] + t[j + 1..];
      assert multiset(rest) == multiset(t) - multiset{x};
      assert multiset(s[..|s| - 1]) == multiset(s) - multiset{x};
      ByteSumPermutation(s[..|s| - 1], rest);
      ByteSumRemove(t, j);
    }
  }

  /** Hence the checksum verdict is independent of byte order. */
  lemma ChecksumOrderIndependent(s: seq<Byte>, t: seq<Byte>)
    requires multiset(s) == multiset(t)
    ensures ChecksumOk(s) <==> ChecksumOk(t)
  {
    ByteSumPermutation(s, t);
  }

  /** The fixed EDID header pattern of section 3.3. */
  const EdidHeader: seq<Byte> := [0x00, 0xFF, 0xFF, 0xFF, 0xFF, 0xFF, 0xFF, 0x00]

  /** `validate_edid_header_` as written: for i in 0..6 it demands
      `data[i] == 0x00` when i is 0 and `data[i] == 0xFF` always, so byte 0
      can satisfy neither both ways and every buffer is rejected; index 7 is
      never inspected. */
  method ValidateEdidHeaderAsWritten(data: array<Byte>, maxLen: nat) returns (valid: bool)
    requires maxLen <= data.Length
    ensures !valid
  {
    if maxLen < 8 {
      return false;
    }
    valid := true;
    var i := 0;
    while i < 7 && valid
      invariant 0 <= i <= 7
      invariant valid ==> i == 0
      decreases 7 - i, valid
    {
      if (i == 0 || i == 7) && data[i] != 0x00 {
        valid := false;
      } else if data[i] != 0xFF {
        valid := false;
      } else {
        i := i + 1;
      }
    }
  }

  /** The header check as the comment describes it: the first 8 bytes are
      00 FF FF FF FF FF FF 00, and a buffer shorter than 8 bytes fails. */
  method ValidateEdidHeader(data: array<Byte>, maxLen: nat) returns (valid: bool)
    requires maxLen <= data.Length
    ensures valid <==> maxLen >= 8 && data[..8] == EdidHeader
  {
    if maxLen < 8 {
      return false;
    }
    var i := 0;
    while i < 8
      invariant 0 <= i <= 8
      invariant forall k :: 0 <= k < i ==> data[k] == EdidHeader[k]
    {
      var expected: Byte := if i == 0 || i == 7 then 0x00 else 0xFF;
      if data[i] != expected {
        assert data[..8][i] != EdidHeader[i];
        return false;
      }
      i := i + 1;
    }
    assert data[..8] == EdidHeader;
    return true;
  }

  /** The diagnostics `read_physical_address` logs. */
  datatype Warning =
    | InvalidHeader
    | ChecksumError
    | NoExtensionBlock
    | NotCea861Extension

  /** `read_physical_address` over the two blocks it would read: warnings
      for a bad header or checksum, then an early empty answer when byte
      0x7E (the extension count) is zero or the first extension does not
      carry the CEA-861 tag 0x02. The extension block is read only when the
      count is non-zero; the physical address is never parsed, so every path
      answers empty. */
  method ReadPhysicalAddress(edid: array<Byte>, ext: array<Byte>)
    returns (address: Option<Uint16>, warnings: seq<Warning>, readExtension: bool)
    requires edid.Length == 128 && ext.Length == 128
    ensures address.None?
    ensures readExtension <==> edid[0x7E] != 0x00
    ensures InvalidHeader in warnings <==> edid[..8] != EdidHeader
    ensures ChecksumError in warnings <==> !ChecksumOk(edid[..])
    ensures NoExtensionBlock in warnings <==> edid[0x7E] == 0x00
    ensures NotCea861Extension in warnings <==> edid[0x7E] != 0x00 && ext[0] != 0x02
  {
    warnings := [];
    var headerOk := ValidateEdidHeader(edid, 128);
    if !headerOk {
      warnings := warnings + [InvalidHeader];
    }
    var blockOk := ValidateEdidBlock(edid, 128);
    assert edid[..128] == edid[..];
    if !blockOk {
      warnings := warnings + [ChecksumError];
    }
    readExtension := false;
    if edid[0x7E] == 0x00 {
      warnings := warnings + [NoExtensionBlock];
      return None, warnings, readExtension;
    }
    readExtension := true;
    if ext[0] != 0x02 {
      warnings := warnings + [NotCea861Extension];
      return None, warnings, readExtension;
    }
    return None, warnings, readExtension;
  }
}
