/** What stands where in a written archive, by the byte offsets of the newc format, and what a
    kernel unpacks from the composed one. */
module NewcLayout {
  import opened Bytes
  import opened Wrappers
  import opened Newc
  import opened MemberStream
  import opened NewcReader
  import opened Initramfs

  predicate UpperHex(b: Byte) { 48 <= b <= 57 || 65 <= b <= 70 }

  /** Eight uppercase hexadecimal digits at `at` spell v. */
  predicate Spells(b: ByteString, at: nat, v: nat) {
    at + 8 <= |b| && (forall i :: at <= i < at + 8 ==> UpperHex(b[i])) && HexValue(b[at..at + 8]) == v
  }

  lemma DigitsAreUpper(v: nat)
    ensures forall i :: 0 <= i < 8 ==> UpperHex(Hex8(v)[i])
  {
    forall i | 0 <= i < 8
      ensures UpperHex(Hex8(v)[i])
    {
      assert Hex8(v)[i] == DigitAt(v, i);
    }
  }

  /** The fields of a header in the format's order: inode, mode, owner, group, link count, time,
      size, four device numbers, name size and check. */
  function Listed(e: Entry, ino: nat): seq<nat> {
    [ino, e.mode, 0, 0, e.nlink, 0, |e.data|, 0, 0, 0, 0, |e.name| + 1, 0]
  }

  /** The header at `at` is entry e's: the magic "070701", the fields, eight digits each, then the
      name and a NUL. */
  predicate HeaderSays(b: ByteString, at: nat, e: Entry, ino: nat) {
    at + 110 + |e.name| + 1 <= |b| && b[at..at + 6] == [48, 55, 48, 55, 48, 49] &&
    (forall k :: 0 <= k < 13 ==> Spells(b, at + 6 + 8 * k, Listed(e, ino)[k])) &&
    b[at + 110..at + 110 + |e.name|] == e.name && b[at + 110 + |e.name|] == 0
  }

  lemma FieldsAreListed(e: Entry, ino: nat)
    requires Fits(e) && |e.data| < TWO_32
    ensures FieldsOf(e, ino) == Listed(e, ino)
  {
  }

  lemma FieldSpells(b: ByteString, at: nat, e: Entry, ino: nat, k: nat)
    requires at + DataStart(e) <= |b| && b[at..at + DataStart(e)] == Head(e, ino) && k < 13
    requires FieldsOf(e, ino)[k] < TWO_32
    ensures Spells(b, at + 6 + 8 * k, FieldsOf(e, ino)[k])
  {
    var fields := FieldsOf(e, ino);
    HeadParts(e, ino);
    SubSlice(b, at, DataStart(e), 6, HEADER_SIZE);
    SubSlice(b, at + 6, 104, 8 * k, 8 * k + 8);
    HexAllAt(fields, k);
    DigitsAreUpper(fields[k]);
    HexRoundTrip(fields[k]);
    var at' := at + 6 + 8 * k;
    assert b[at'..at' + 8] == Hex8(fields[k]);
    forall i | at' <= i < at' + 8
      ensures UpperHex(b[i])
    {
      assert b[i] == b[at'..at' + 8][i - at'];
    }
  }

  lemma FieldsSpell(b: ByteString, at: nat, e: Entry, ino: nat)
    requires at + DataStart(e) <= |b| && b[at..at + DataStart(e)] == Head(e, ino)
    requires ino < TWO_32 && Fits(e)
    ensures forall k :: 0 <= k < 13 ==> Spells(b, at + 6 + 8 * k, FieldsOf(e, ino)[k])
  {
    FieldsFit(e, ino);
    forall k | 0 <= k < 13
      ensures Spells(b, at + 6 + 8 * k, FieldsOf(e, ino)[k])
    {
      FieldSpells(b, at, e, ino, k);
    }
  }

  lemma HeadSays(b: ByteString, at: nat, e: Entry, ino: nat)
    requires at + DataStart(e) <= |b| && b[at..at + DataStart(e)] == Head(e, ino)
    requires ino < TWO_32 && Fits(e) && |e.data| < TWO_32
    ensures HeaderSays(b, at, e, ino)
  {
    HeadParts(e, ino);
    SubSlice(b, at, DataStart(e), 0, 6);
    NameIsRead(b, at, e, ino);
    FieldsSpell(b, at, e, ino);
    FieldsAreListed(e, ino);
  }

  /** In every archive each member's header says what its entry is, at the format's offsets, with
      its 1-based position as inode. */
  lemma ArchiveSays(es: seq<Entry>, k: nat)
    requires k < |es| < TWO_32 - 1 && Storable(es[k]) && |es[k].data| < TWO_32
    ensures HeaderSays(Archive(es), Offset(Pieces(es), k), es[k], k + 1)
  {
    ArchiveAligned(es, k);
    HeadSays(Archive(es), Offset(Pieces(es), k), es[k], k + 1);
  }

  // What the composed archive unpacks to

  const REGULAR := 0x8 // 0o10, the type digits of a regular file's mode
  const DIRECTORY := 0x4
  const PERMISSIONS := 0x1ED // 0o755

  predicate Unpacks(m: Member, kind: nat, nlink: nat, ino: nat, data: ByteString) {
    |m.fields| == 13 && m.fields[0] == ino && m.fields[1] == 0x1000 * kind + PERMISSIONS && m.fields[4] == nlink &&
    (forall k :: k in {2, 3, 5, 7, 8, 9, 10, 12} ==> m.fields[k] == 0) && m.data == data
  }

  /** The composed archive unpacks to one regular file, the executable init with the payload, and
      directories, in order and numbered from one; nothing in it is owned by anyone but root or
      carries a time. */
  lemma InitramfsUnpacks(init: ByteString)
    requires |init| < TWO_32
    ensures ReadArchive(Archive(EntriesFor(NAMES, init))).Some?
    ensures
      var ms := ReadArchive(Archive(EntriesFor(NAMES, init))).value;
      |ms| == |NAMES| &&
      forall i :: 0 <= i < |ms| ==>
                  ms[i].name == ToBytes(NAMES[i]) &&
                  if NAMES[i] == "init" then Unpacks(ms[i], REGULAR, 1, i + 1, init)
                  else Unpacks(ms[i], DIRECTORY, 2, i + 1, [])
  {
    InitramfsReadsBack(init);
    var es := EntriesFor(NAMES, init);
    forall i | 0 <= i < |NAMES|
      ensures var m := MembersOf(es)[i];
              m.name == ToBytes(NAMES[i]) &&
              if NAMES[i] == "init" then Unpacks(m, REGULAR, 1, i + 1, init) else Unpacks(m, DIRECTORY, 2, i + 1, [])
    {
      assert MembersOf(es)[i] == MemberOf(EntryFor(NAMES[i], init), i + 1);
    }
  }
}
