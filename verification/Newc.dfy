/** The newc cpio format, as the initramfs printer writes it. */
module Newc {
  import opened Bytes

  const TWO_32: nat := 0x1_0000_0000
  const HEADER_SIZE: nat := 110

  /** "070701" */
  const MAGIC: ByteString := [48, 55, 48, 55, 48, 49]

  /** "TRAILER!!!" */
  const TRAILER: ByteString := [84, 82, 65, 73, 76, 69, 82, 33, 33, 33]

  datatype Entry = Entry(name: ByteString, mode: nat, nlink: nat, data: ByteString)

  predicate Fits(e: Entry) {
    e.mode < TWO_32 && e.nlink < TWO_32 && |e.name| + 1 < TWO_32
  }

  // Hexadecimal fields

  function Digit(d: nat): Byte
    requires d < 16
  {
    if d < 10 then (48 + d) as Byte else (55 + d) as Byte
  }

  /** v shifted right by k hexadecimal digits. */
  function Shift(v: nat, k: nat): nat {
    if k == 0 then v else Shift(v, k - 1) / 16
  }

  function DigitAt(v: nat, i: nat): Byte
    requires i < 8
  {
    Digit(Shift(v, 7 - i) % 16)
  }

  /** The last eight hexadecimal digits of v. */
  function Hex8(v: nat): (s: ByteString)
    ensures |s| == 8
  {
    seq(8, i requires 0 <= i < 8 => DigitAt(v, i))
  }

  predicate IsHexDigit(b: Byte) { 48 <= b <= 57 || 65 <= b <= 70 || 97 <= b <= 102 }

  predicate IsHex(s: ByteString) { forall i :: 0 <= i < |s| ==> IsHexDigit(s[i]) }

  function DigitValue(b: Byte): (v: nat)
    requires IsHexDigit(b)
    ensures v < 16
  {
    if b <= 57 then b as int - 48 else if b <= 70 then b as int - 55 else b as int - 87
  }

  function HexValue(s: ByteString): nat
    requires IsHex(s)
  {
    if s == [] then 0 else 16 * HexValue(s[..|s| - 1]) + DigitValue(s[|s| - 1])
  }

  lemma {:induction false} ReadDigits(v: nat, i: nat)
    requires i <= 8 && Shift(v, 8) == 0
    ensures IsHex(Hex8(v)[..i]) && HexValue(Hex8(v)[..i]) == Shift(v, 8 - i)
  {
    if i > 0 {
      ReadDigits(v, i - 1);
      assert Hex8(v)[..i][..i - 1] == Hex8(v)[..i - 1];
      assert Hex8(v)[i - 1] == DigitAt(v, i - 1);
      assert Shift(v, 9 - i) == Shift(v, 8 - i) / 16;
    }
  }

  lemma ShiftedOut(v: nat)
    requires v < TWO_32
    ensures Shift(v, 8) == 0
  {
    assert Shift(v, 1) == v / 16;
    assert Shift(v, 3) == Shift(v, 1) / 16 / 16 < 0x10_0000;
    assert Shift(v, 5) == Shift(v, 3) / 16 / 16 < 0x1000;
    assert Shift(v, 7) == Shift(v, 5) / 16 / 16 < 0x10;
  }

  /** Reading a field back gives its value. */
  lemma HexRoundTrip(v: nat)
    requires v < TWO_32
    ensures IsHex(Hex8(v)) && HexValue(Hex8(v)) == v
  {
    ShiftedOut(v);
    ReadDigits(v, 8);
    assert Hex8(v)[..8] == Hex8(v);
  }

  /** appendHex8, digit by digit from the lowest. */
  method AppendHex8(dst: ByteString, v: nat) returns (out: ByteString)
    ensures out == dst + Hex8(v)
  {
    var f := new Byte[8];
    var i, rest := 7, v;
    while i >= 0
      invariant -1 <= i <= 7 && rest == Shift(v, 7 - i)
      invariant forall k :: i < k < 8 ==> f[k] == DigitAt(v, k)
      decreases i
    {
      f[i] := Digit(rest % 16);
      rest := rest / 16;
      i := i - 1;
    }
    assert f[..] == Hex8(v);
    out := dst + f[..];
  }

  // Members

  function PadLen(n: nat): (p: nat)
    ensures p < 4 && (n + p) % 4 == 0
  {
    (4 - n % 4) % 4
  }

  function Zeros(n: nat): (s: ByteString)
    ensures |s| == n && forall i :: 0 <= i < n ==> s[i] == 0
  {
    seq(n, _ => 0)
  }

  function HexAll(fields: seq<nat>): (s: ByteString)
    ensures |s| == 8 * |fields|
  {
    if fields == [] then [] else HexAll(fields[..|fields| - 1]) + Hex8(fields[|fields| - 1])
  }

  /** The thirteen header fields: inode, mode, uid, gid, nlink, mtime, size, four device numbers,
      name size and checksum. */
  function Field(e: Entry, ino: nat, k: nat): nat {
    match k
    case 0 => ino
    case 1 => e.mode
    case 4 => e.nlink
    case 6 => |e.data| % TWO_32
    case 11 => (|e.name| + 1) % TWO_32
    case _ => 0
  }

  function FieldsOf(e: Entry, ino: nat): (fs: seq<nat>)
    ensures |fs| == 13
  {
    seq(13, k requires 0 <= k => Field(e, ino, k))
  }

  function Head(e: Entry, ino: nat): ByteString {
    MAGIC + HexAll(FieldsOf(e, ino)) + e.name + [0] + Zeros(PadLen(HEADER_SIZE + |e.name| + 1))
  }

  /** One member as it appears in the archive. */
  function Written(e: Entry, ino: nat): ByteString {
    Head(e, ino) + e.data + Zeros(PadLen(|e.data|))
  }

  method AppendFields(dst: ByteString, fields: seq<nat>) returns (out: ByteString)
    ensures out == dst + HexAll(fields)
  {
    out := dst;
    for k := 0 to |fields|
      invariant out == dst + HexAll(fields[..k])
    {
      assert fields[..k + 1][..k] == fields[..k];
      out := AppendHex8(out, fields[k]);
    }
    assert fields[..|fields|] == fields;
  }

  /** writeEntry: append one member. */
  method WriteEntry(w: ByteString, e: Entry, ino: nat) returns (out: ByteString)
    ensures out == w + Written(e, ino)
  {
    var nameSize := |e.name| + 1;
    var buf := AppendFields(MAGIC, FieldsOf(e, ino));
    buf := buf + e.name + [0];
    if PadLen(HEADER_SIZE + nameSize) > 0 {
      buf := buf + Zeros(PadLen(HEADER_SIZE + nameSize));
    }
    assert buf == Head(e, ino);
    out := w + buf;
    if |e.data| == 0 {
      assert Written(e, ino) == buf;
      return;
    }
    out := out + e.data;
    if PadLen(|e.data|) > 0 {
      out := out + Zeros(PadLen(|e.data|));
    }
    assert out == w + Written(e, ino);
  }
}
