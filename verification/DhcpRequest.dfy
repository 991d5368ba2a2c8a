/** Rendering the client's own DHCP messages. */
module DhcpRequest {
  import opened Bytes
  import opened Dhcp

  type Uint32 = x: int | 0 <= x < 0x1_0000_0000

  function PutUint32(v: Uint32): (b: ByteString)
    ensures |b| == 4
  {
    [(v / 0x100_0000 % 256) as Byte, (v / 0x1_0000 % 256) as Byte, (v / 0x100 % 256) as Byte, (v % 256) as Byte]
  }

  lemma PutUint32ReadsBack(v: Uint32)
    ensures BigEndian(PutUint32(v)) == v
  {
    var b := PutUint32(v);
    assert b[..3][..2] == b[..2] && b[..2][..1] == b[..1] && b[..1][..0] == [];
    assert BigEndian(b[..1]) == v / 0x100_0000;
    assert BigEndian(b[..2]) == 256 * BigEndian(b[..1]) + b[1] as int == v / 0x1_0000;
    assert BigEndian(b[..3]) == 256 * BigEndian(b[..2]) + b[2] as int == v / 0x100;
  }

  function AddrOption(code: Byte, a: Addr): seq<Item> {
    if Usable(a) then [Opt(code, a.octets)] else []
  }

  /** The options of a client message, in order. */
  function Options(msgType: Byte, mac: ByteString, requested: Addr, serverId: Addr): seq<Item> {
    [Opt(MESSAGE_TYPE, [msgType])] + [Opt(CLIENT_ID, [1] + mac)] + AddrOption(REQUESTED_IP, requested)
    + AddrOption(SERVER_ID, serverId) + [Opt(PARAM_REQUEST, [SUBNET_MASK, ROUTER, DNS, LEASE_TIME])]
  }

  predicate Names(x: Item, code: Byte) { x.Opt? && x.code == code }

  /** One option of that code, with that value. */
  predicate Asks(xs: seq<Item>, code: Byte, val: ByteString) {
    exists i :: 0 <= i < |xs| && xs[i] == Opt(code, val) && forall j :: 0 <= j < |xs| && Names(xs[j], code) ==> j == i
  }

  predicate AsksAddress(xs: seq<Item>, code: Byte, a: Addr) {
    if Usable(a) then Asks(xs, code, a.octets) else forall j :: 0 <= j < |xs| ==> !Names(xs[j], code)
  }

  /** What the client says, by the option codes of RFC 2132: the message type (53) first, itself
      as Ethernet and its address (61), the address it wants (50) and the server it means (54) when
      it knows them, and the parameters it wants back (55): mask, router, name servers, lease. */
  predicate SaysItAll(xs: seq<Item>, msgType: Byte, mac: ByteString, requested: Addr, serverId: Addr) {
    (forall j :: 0 <= j < |xs| ==> xs[j].Opt? && xs[j].code in {53, 61, 50, 54, 55}) &&
    |xs| > 0 && xs[0].code == 53 && Asks(xs, 53, [msgType]) && Asks(xs, 61, [1] + mac) &&
    AsksAddress(xs, 50, requested) && AsksAddress(xs, 54, serverId) && Asks(xs, 55, [1, 3, 6, 51])
  }

  /** The codes of the options, in order. */
  function Codes(requested: Addr, serverId: Addr): seq<Byte> {
    [53, 61] + (if Usable(requested) then [50] else []) + (if Usable(serverId) then [54] else []) + [55]
  }

  /** The options bear these codes, no two the same. */
  predicate Coded(xs: seq<Item>, codes: seq<Byte>) {
    |xs| == |codes| && (forall j :: 0 <= j < |xs| ==> xs[j].Opt? && xs[j].code == codes[j]) &&
    forall i, j :: 0 <= i < j < |codes| ==> codes[i] != codes[j]
  }

  lemma OptionsCoded(msgType: Byte, mac: ByteString, requested: Addr, serverId: Addr)
    ensures Coded(Options(msgType, mac, requested, serverId), Codes(requested, serverId))
  {
  }

  lemma AskedAt(xs: seq<Item>, codes: seq<Byte>, i: nat)
    requires Coded(xs, codes) && i < |xs|
    ensures Asks(xs, codes[i], xs[i].val)
  {
  }

  lemma AddressAsked(msgType: Byte, mac: ByteString, requested: Addr, serverId: Addr)
    ensures
      var xs := Options(msgType, mac, requested, serverId);
      AsksAddress(xs, 50, requested) && AsksAddress(xs, 54, serverId)
  {
    var xs, codes := Options(msgType, mac, requested, serverId), Codes(requested, serverId);
    OptionsCoded(msgType, mac, requested, serverId);
    if Usable(requested) {
      AskedAt(xs, codes, 2);
    }
    if Usable(serverId) {
      AskedAt(xs, codes, |xs| - 2);
    }
  }

  lemma OptionsSay(msgType: Byte, mac: ByteString, requested: Addr, serverId: Addr)
    ensures SaysItAll(Options(msgType, mac, requested, serverId), msgType, mac, requested, serverId)
  {
    var xs, codes := Options(msgType, mac, requested, serverId), Codes(requested, serverId);
    OptionsCoded(msgType, mac, requested, serverId);
    AddressAsked(msgType, mac, requested, serverId);
    AskedAt(xs, codes, 0);
    AskedAt(xs, codes, 1);
    AskedAt(xs, codes, |xs| - 1);
  }

  /** appendOption, after the options already in the buffer. */
  method AppendOption(buf: ByteString, code: Byte, val: ByteString, ghost head: ByteString, ghost xs: seq<Item>)
    returns (out: ByteString)
    requires AllEncodable(xs) && Encodable(Opt(code, val)) && buf == head + Encode(xs)
    ensures AllEncodable(xs + [Opt(code, val)]) && out == head + Encode(xs + [Opt(code, val)])
  {
    EncodeSnoc(xs, Opt(code, val));
    out := buf + ([code, |val| as Byte] + val);
    Regroup(head, Encode(xs), [code, |val| as Byte] + val);
  }

  lemma EncodeSnoc(xs: seq<Item>, x: Item)
    requires AllEncodable(xs) && Encodable(x)
    ensures AllEncodable(xs + [x]) && Encode(xs + [x]) == Encode(xs) + EncodeOne(x)
  {
    EncodeConcat(xs, [x]);
    EncodeSingle(x);
  }

  lemma EncodeSingle(x: Item)
    requires Encodable(x)
    ensures Encode([x]) == EncodeOne(x)
  {
    assert [x][1..] == [];
    assert EncodeOne(x) + [] == EncodeOne(x);
  }

  lemma {:induction false} EncodeConcat(a: seq<Item>, b: seq<Item>)
    requires AllEncodable(a) && AllEncodable(b)
    ensures AllEncodable(a + b) && Encode(a + b) == Encode(a) + Encode(b)
  {
    if a == [] {
      assert a + b == b;
    } else {
      assert (a + b)[1..] == a[1..] + b;
      EncodeConcat(a[1..], b);
      Regroup(EncodeOne(a[0]), Encode(a[1..]), Encode(b));
    }
  }

  /** Section 2 of RFC 2132: an option is its code, its length and its value; a padding is a zero
      byte. */
  predicate LaidOut(b: ByteString, at: nat, x: Item) {
    if x.Padding? then at < |b| && b[at] == 0
    else
      at + 2 + |x.val| <= |b| && b[at] == x.code && b[at + 1] as int == |x.val| &&
      b[at + 2..at + 2 + |x.val|] == x.val
  }

  lemma OneLaidOut(a: ByteString, x: Item, c: ByteString)
    requires Encodable(x)
    ensures LaidOut(a + EncodeOne(x) + c, |a|, x)
  {
    var b := a + EncodeOne(x) + c;
    assert b[|a|] == EncodeOne(x)[0];
    if x.Opt? {
      assert b[|a| + 1] == EncodeOne(x)[1];
      assert EncodeOne(x)[2..] == x.val;
    }
  }

  /** An option stands that way wherever it is among others. */
  lemma OptionOnTheWire(before: seq<Item>, x: Item, after: seq<Item>)
    requires AllEncodable(before) && Encodable(x) && AllEncodable(after)
    ensures AllEncodable(before + [x] + after)
    ensures LaidOut(Encode(before + [x] + after), |Encode(before)|, x)
  {
    EncodeSnoc(before, x);
    EncodeConcat(before + [x], after);
    OneLaidOut(Encode(before), x, Encode(after));
  }

  /** The fixed part of a client message. */
  predicate FixedPart(b: ByteString, xid: Uint32, mac: ByteString) {
    |b| == FIXED_LEN && b[0] == 1 && b[1] == 1 && b[2] == 6 && b[3] == 0 && BigEndian(b[4..8]) == xid &&
    b[10] == 0x80 && b[28..34] == mac && b[236..240] == MAGIC &&
    forall i :: 0 <= i < 240 && (8 <= i < 10 || 11 <= i < 28 || 34 <= i < 236) ==> b[i] == 0
  }

  method RenderFixed(xid: Uint32, mac: ByteString) returns (out: ByteString)
    requires |mac| == 6
    ensures FixedPart(out, xid, mac)
  {
    var buf := new Byte[FIXED_LEN](_ => 0);
    buf[0], buf[1], buf[2] := 1, 1, 6;
    buf[3] := 0;
    Put(buf, 4, PutUint32(xid));
    buf[10] := 0x80;
    Put(buf, 28, mac);
    Put(buf, 236, MAGIC);
    out := buf[..];
    PutUint32ReadsBack(xid);
    SliceIs(out, 4, PutUint32(xid));
    SliceIs(out, 28, mac);
    SliceIs(out, 236, MAGIC);
  }

  lemma SliceIs(out: ByteString, at: nat, b: ByteString)
    requires at + |b| <= |out| && forall i :: 0 <= i < |b| ==> out[at + i] == b[i]
    ensures out[at..at + |b|] == b
  {
  }

  method Put(buf: array<Byte>, at: nat, b: ByteString)
    requires at + |b| <= buf.Length
    modifies buf
    ensures forall i :: 0 <= i < buf.Length ==> buf[i] == if at <= i < at + |b| then b[i - at] else old(buf[i])
  {
    for k := 0 to |b|
      invariant forall i :: 0 <= i < buf.Length ==> buf[i] == if at <= i < at + k then b[i - at] else old(buf[i])
    {
      buf[at + k] := b[k];
    }
  }

  datatype Built = BadHardwareAddress | Message(bytes: ByteString)

  /** buildDHCP: the fixed part names the transaction and the client, and the options decode to
      what the client has to say. */
  method Build(xid: Uint32, mac: ByteString, msgType: Byte, requested: Addr, serverId: Addr) returns (r: Built)
    ensures r.BadHardwareAddress? <==> |mac| != 6
    ensures r.Message? ==> |r.bytes| > FIXED_LEN && FixedPart(r.bytes[..FIXED_LEN], xid, mac)
    ensures r.Message? ==> Decode(r.bytes[FIXED_LEN..]) == Items(Options(msgType, mac, requested, serverId))
    ensures r.Message? ==> r.bytes[|r.bytes| - 1] == 255
    ensures r.Message? ==>
              SaysItAll(Decode(r.bytes[FIXED_LEN..]).items, msgType, mac, requested, serverId)
  {
    if |mac| != 6 {
      return BadHardwareAddress;
    }
    var head := RenderFixed(xid, mac);
    assert head + [] == head;
    var buf := RenderOptions(head, mac, msgType, requested, serverId);
    r := Message(buf + [END]);
    Cut(r.bytes, head, Encode(Options(msgType, mac, requested, serverId)));
    DecodeEncode(r.bytes[FIXED_LEN..], Options(msgType, mac, requested, serverId), [END]);
    OptionsSay(msgType, mac, requested, serverId);
  }

  lemma Cut(b: ByteString, head: ByteString, rest: ByteString)
    requires b == head + rest + [END]
    ensures b[..|head|] == head && b[|head|..] == rest + [END]
  {
  }

  method RenderOptions(head: ByteString, mac: ByteString, msgType: Byte, requested: Addr, serverId: Addr)
    returns (buf: ByteString)
    requires |mac| == 6
    ensures AllEncodable(Options(msgType, mac, requested, serverId))
    ensures buf == head + Encode(Options(msgType, mac, requested, serverId))
  {
    assert head == head + Encode([]);
    buf := AppendOption(head, MESSAGE_TYPE, [msgType], head, []);
    ghost var xs := [Opt(MESSAGE_TYPE, [msgType])];
    assert [] + xs == xs;
    buf := AppendOption(buf, CLIENT_ID, [1] + mac, head, xs);
    xs := xs + [Opt(CLIENT_ID, [1] + mac)];
    buf := AppendAddr(buf, REQUESTED_IP, requested, head, xs);
    xs := xs + AddrOption(REQUESTED_IP, requested);
    buf := AppendAddr(buf, SERVER_ID, serverId, head, xs);
    xs := xs + AddrOption(SERVER_ID, serverId);
    buf := AppendOption(buf, PARAM_REQUEST, [SUBNET_MASK, ROUTER, DNS, LEASE_TIME], head, xs);
  }

  method AppendAddr(buf: ByteString, code: Byte, a: Addr, ghost head: ByteString, ghost xs: seq<Item>)
    returns (out: ByteString)
    requires AllEncodable(xs) && Encodable(Opt(code, [])) && buf == head + Encode(xs)
    ensures AllEncodable(xs + AddrOption(code, a)) && out == head + Encode(xs + AddrOption(code, a))
  {
    if Usable(a) {
      out := AppendOption(buf, code, a.octets, head, xs);
    } else {
      out := buf;
      assert xs + [] == xs;
    }
  }
}
