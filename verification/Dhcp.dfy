/** The guest's DHCPv4 client codec: options, replies and requests (sections 2, 3 and 9 of RFC 2132). */
module Dhcp {
  import opened Bytes

  const FIXED_LEN: nat := 240
  const MAX_LEN: nat := 1500
  const MAGIC: ByteString := [99, 130, 83, 99]
  const PAD: Byte := 0
  const END: Byte := 255
  const SUBNET_MASK: Byte := 1
  const ROUTER: Byte := 3
  const DNS: Byte := 6
  const REQUESTED_IP: Byte := 50
  const LEASE_TIME: Byte := 51
  const MESSAGE_TYPE: Byte := 53
  const SERVER_ID: Byte := 54
  const PARAM_REQUEST: Byte := 55
  const CLIENT_ID: Byte := 61

  /** An IPv4 address, or none. */
  datatype Addr = NoAddr | Addr4(octets: Octets)

  type Octets = b: ByteString | |b| == 4 witness [0, 0, 0, 0]

  predicate Usable(a: Addr) { a.Addr4? && a.octets != [0, 0, 0, 0] }

  datatype Lease = Lease(address: Addr, mask: Addr, gateway: Addr, dns: seq<Addr>, serverId: Addr, seconds: nat)

  function BigEndian(b: ByteString): nat {
    if b == [] then 0 else 256 * BigEndian(b[..|b| - 1]) + b[|b| - 1] as int
  }

  // The option list, as a grammar

  datatype Item = Padding | Opt(code: Byte, val: ByteString)

  predicate Encodable(x: Item) {
    x.Opt? ==> x.code != PAD && x.code != END && |x.val| <= 255
  }

  function EncodeOne(x: Item): ByteString
    requires Encodable(x)
  {
    match x
    case Padding => [PAD]
    case Opt(code, val) => [code, |val| as Byte] + val
  }

  predicate AllEncodable(xs: seq<Item>) {
    forall i :: 0 <= i < |xs| ==> Encodable(xs[i])
  }

  function Encode(xs: seq<Item>): ByteString
    requires AllEncodable(xs)
  {
    if xs == [] then [] else EncodeOne(xs[0]) + Encode(xs[1..])
  }

  /** What follows the options: nothing, or an end mark and anything. */
  predicate Closes(rest: ByteString) {
    rest == [] || rest[0] == END
  }

  datatype Decoded = Items(items: seq<Item>) | CutShort(code: Byte) | PastEnd(code: Byte, claimed: Byte)

  function Decode(b: ByteString): (d: Decoded)
    ensures d.Items? ==> AllEncodable(d.items)
    decreases |b|
  {
    if Closes(b) then Items([])
    else if b[0] == PAD then Then(Padding, Decode(b[1..]))
    else if |b| < 2 then CutShort(b[0])
    else
      var n := b[1] as int;
      if 2 + n > |b| then PastEnd(b[0], b[1]) else Then(Opt(b[0], b[2..2 + n]), Decode(b[2 + n..]))
  }

  function Then(x: Item, d: Decoded): Decoded {
    if d.Items? then Items([x] + d.items) else d
  }

  /** Decoding recovers every encoded list, whatever follows its end. */
  lemma {:induction false} DecodeEncode(b: ByteString, xs: seq<Item>, rest: ByteString)
    requires AllEncodable(xs) && Closes(rest) && b == Encode(xs) + rest
    ensures Decode(b) == Items(xs)
    decreases |xs|
  {
    if xs == [] {
      assert b == rest;
    } else {
      var more := Encode(xs[1..]) + rest;
      DecodeEncode(more, xs[1..], rest);
      Regroup(EncodeOne(xs[0]), Encode(xs[1..]), rest);
      DecodeFirst(b, xs[0], more);
      assert xs == [xs[0]] + xs[1..];
    }
  }

  lemma Regroup(a: ByteString, b: ByteString, c: ByteString)
    ensures a + b + c == a + (b + c)
  {
  }

  lemma DecodeFirst(b: ByteString, x: Item, rest: ByteString)
    requires Encodable(x) && b == EncodeOne(x) + rest
    ensures Decode(b) == Then(x, Decode(rest))
  {
    if x.Padding? {
      assert b[1..] == rest;
    } else {
      var n := |x.val|;
      assert b[0] == x.code && b[1] as int == n;
      assert b[2..2 + n] == x.val && b[2 + n..] == rest;
    }
  }

  /** The first item of a list that decodes, and what follows it. */
  lemma FirstDecoded(b: ByteString) returns (x: Item, more: ByteString)
    requires Decode(b).Items? && !Closes(b)
    ensures Encodable(x) && b == EncodeOne(x) + more && |more| < |b|
    ensures Decode(more).Items? && Decode(b).items == [x] + Decode(more).items
  {
    if b[0] == PAD {
      return Padding, b[1..];
    }
    var n := b[1] as int;
    x, more := Opt(b[0], b[2..2 + n]), b[2 + n..];
    assert b == [b[0], b[1]] + b[2..2 + n] + more;
  }

  /** Whatever decodes is an encoding and a close: decoding fails exactly on what is neither. */
  lemma {:induction false} EncodeDecode(b: ByteString) returns (rest: ByteString)
    requires Decode(b).Items?
    ensures Closes(rest) && b == Encode(Decode(b).items) + rest
    decreases |b|
  {
    if Closes(b) {
      assert b == [] + b;
      return b;
    }
    var x, more := FirstDecoded(b);
    rest := EncodeDecode(more);
    EncodeCons(x, Decode(more).items);
    Regroup(EncodeOne(x), Encode(Decode(more).items), rest);
  }

  lemma EncodeCons(x: Item, xs: seq<Item>)
    requires Encodable(x) && AllEncodable(xs)
    ensures AllEncodable([x] + xs) && Encode([x] + xs) == EncodeOne(x) + Encode(xs)
  {
    assert ([x] + xs)[1..] == xs;
  }

  // What the options say

  datatype Said = Said(msgType: Byte, lease: Lease)

  function Addresses(val: ByteString): seq<Addr> {
    if |val| < 4 then [] else [Addr4(val[..4])] + Addresses(val[4..])
  }

  /** One option's effect: a known code with a length it can have sets its field; DNS adds to it. */
  function Hear(s: Said, x: Item): Said {
    if x.Padding? then s
    else if x.code == MESSAGE_TYPE && |x.val| == 1 then s.(msgType := x.val[0])
    else if x.code == SUBNET_MASK && |x.val| == 4 then s.(lease := s.lease.(mask := Addr4(x.val)))
    else if x.code == ROUTER && |x.val| >= 4 then s.(lease := s.lease.(gateway := Addr4(x.val[..4])))
    else if x.code == DNS then s.(lease := s.lease.(dns := s.lease.dns + Addresses(x.val)))
    else if x.code == SERVER_ID && |x.val| == 4 then s.(lease := s.lease.(serverId := Addr4(x.val)))
    else if x.code == LEASE_TIME && |x.val| == 4 then s.(lease := s.lease.(seconds := BigEndian(x.val)))
    else s
  }

  function HearAll(s: Said, xs: seq<Item>): Said
    decreases |xs|
  {
    if xs == [] then s else HearAll(Hear(s, xs[0]), xs[1..])
  }

  const KNOWN: set<Byte> := {SUBNET_MASK, ROUTER, DNS, LEASE_TIME, MESSAGE_TYPE, SERVER_ID}

  predicate Known(x: Item) { x.Opt? && x.code in KNOWN }

  function OnlyKnown(xs: seq<Item>): seq<Item> {
    if xs == [] then [] else (if Known(xs[0]) then [xs[0]] else []) + OnlyKnown(xs[1..])
  }

  /** Padding and unknown options, wherever they stand, change nothing. */
  lemma {:induction false} OthersAreIgnored(s: Said, xs: seq<Item>)
    ensures HearAll(s, xs) == HearAll(s, OnlyKnown(xs))
    decreases |xs|
  {
    if xs != [] {
      OthersAreIgnored(Hear(s, xs[0]), xs[1..]);
      if Known(xs[0]) {
        assert OnlyKnown(xs)[1..] == OnlyKnown(xs[1..]);
      } else {
        assert OnlyKnown(xs) == OnlyKnown(xs[1..]);
      }
    }
  }

  // Replies

  datatype Parsed = NotForUs | Malformed(why: Decoded) | Reply(msgType: Byte, lease: Lease)

  /** The fixed header answers this transaction of this client. */
  predicate Answers(buf: ByteString, xid: nat, mac: ByteString) {
    FIXED_LEN <= |buf| <= MAX_LEN && buf[0] == 2 && buf[1] == 1 && BigEndian(buf[4..8]) == xid &&
    |mac| == 6 && buf[28..34] == mac && buf[236..240] == MAGIC
  }

  function Offered(buf: ByteString): Said
    requires |buf| >= FIXED_LEN
  {
    Said(0, Lease(Addr4(buf[16..20]), NoAddr, NoAddr, [], NoAddr, 0))
  }

  /** What a reply amounts to, from what was said before its remaining options. */
  function Outcome(s: Said, d: Decoded): Parsed {
    if !d.Items? then Malformed(d)
    else
      var all := HearAll(s, d.items);
      if all.msgType == 0 then NotForUs else Reply(all.msgType, all.lease)
  }

  lemma OutcomeThen(s: Said, x: Item, d: Decoded)
    ensures Outcome(s, Then(x, d)) == Outcome(Hear(s, x), d)
  {
    if d.Items? {
      assert ([x] + d.items)[1..] == d.items;
    }
  }

  /** ParseReply: on every buffer it ends, stays in bounds, and returns what the options say. */
  method ParseReply(buf: ByteString, xid: nat, mac: ByteString) returns (r: Parsed)
    ensures r == if Answers(buf, xid, mac) then Outcome(Offered(buf), Decode(buf[FIXED_LEN..])) else NotForUs
  {
    if |buf| < FIXED_LEN || |buf| > MAX_LEN {
      return NotForUs;
    }
    if buf[0] != 2 || buf[1] != 1 {
      return NotForUs;
    }
    if BigEndian(buf[4..8]) != xid {
      return NotForUs;
    }
    if |mac| != 6 || buf[28..34] != mac {
      return NotForUs;
    }
    if buf[236..240] != MAGIC {
      return NotForUs;
    }
    var said, i := Offered(buf), FIXED_LEN;
    while i < |buf|
      invariant FIXED_LEN <= i <= |buf|
      invariant Outcome(said, Decode(buf[i..])) == Outcome(Offered(buf), Decode(buf[FIXED_LEN..]))
      decreases |buf| - i
    {
      var code := buf[i];
      ghost var b := buf[i..];
      if code == END {
        break;
      }
      if code == PAD {
        assert b[1..] == buf[i + 1..];
        OutcomeThen(said, Padding, Decode(buf[i + 1..]));
        i := i + 1;
        continue;
      }
      if i + 2 > |buf| {
        return Malformed(CutShort(code));
      }
      var n := buf[i + 1] as int;
      if i + 2 + n > |buf| {
        return Malformed(PastEnd(code, buf[i + 1]));
      }
      var val := buf[i + 2..i + 2 + n];
      assert b[2..2 + n] == val && b[2 + n..] == buf[i + 2 + n..];
      OutcomeThen(said, Opt(code, val), Decode(buf[i + 2 + n..]));
      said := HearOption(said, code, val);
      i := i + 2 + n;
    }
    assert Closes(buf[i..]);
    if said.msgType == 0 {
      return NotForUs;
    }
    r := Reply(said.msgType, said.lease);
  }

  method HearOption(s: Said, code: Byte, val: ByteString) returns (out: Said)
    ensures out == Hear(s, Opt(code, val))
  {
    out := s;
    var n := |val|;
    if code == MESSAGE_TYPE {
      if n == 1 {
        out := out.(msgType := val[0]);
      }
    } else if code == SUBNET_MASK {
      if n == 4 {
        out := out.(lease := out.lease.(mask := Addr4(val)));
      }
    } else if code == ROUTER {
      if n >= 4 {
        out := out.(lease := out.lease.(gateway := Addr4(val[..4])));
      }
    } else if code == DNS {
      var more := TakeAddresses(s.lease.dns, val);
      out := out.(lease := out.lease.(dns := more));
    } else if code == SERVER_ID {
      if n == 4 {
        out := out.(lease := out.lease.(serverId := Addr4(val)));
      }
    } else if code == LEASE_TIME {
      if n == 4 {
        out := out.(lease := out.lease.(seconds := BigEndian(val)));
      }
    }
  }

  method TakeAddresses(before: seq<Addr>, val: ByteString) returns (out: seq<Addr>)
    ensures out == before + Addresses(val)
  {
    out := before;
    var off := 0;
    while off + 4 <= |val|
      invariant off <= |val| && out + Addresses(val[off..]) == before + Addresses(val)
    {
      var rest := val[off..];
      assert rest[..4] == val[off..off + 4] && rest[4..] == val[off + 4..];
      out := out + [Addr4(val[off..off + 4])];
      off := off + 4;
    }
  }

  /** On a valid header and any encoded option list, the reply is the fold of the known options:
      padding, unknown options and whatever follows the end mark do not matter. */
  lemma ReplyIsItsOptions(buf: ByteString, xid: nat, mac: ByteString, xs: seq<Item>, rest: ByteString)
    requires Answers(buf, xid, mac) && AllEncodable(xs) && Closes(rest) && buf[FIXED_LEN..] == Encode(xs) + rest
    ensures Outcome(Offered(buf), Decode(buf[FIXED_LEN..])) == Outcome(Offered(buf), Items(OnlyKnown(xs)))
  {
    DecodeEncode(buf[FIXED_LEN..], xs, rest);
    OthersAreIgnored(Offered(buf), xs);
  }

  /** A reply is malformed exactly when its options are no encoded list. */
  lemma MalformedExactly(b: ByteString)
    ensures Decode(b).Items? <==> exists xs, rest :: AllEncodable(xs) && Closes(rest) && b == Encode(xs) + rest
  {
    if Decode(b).Items? {
      var rest := EncodeDecode(b);
    }
    if xs, rest :| AllEncodable(xs) && Closes(rest) && b == Encode(xs) + rest {
      DecodeEncode(b, xs, rest);
    }
  }
}
