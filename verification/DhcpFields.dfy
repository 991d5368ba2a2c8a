/** Which option of a reply sets which field of the lease: the last word on each. */
module DhcpFields {
  import opened Bytes
  import opened Dhcp

  /** The option codes of RFC 2132 whose last word counts: the subnet mask (1), the router (3), the
      lease time (51), the message type (53) and the server (54). */
  const SINGLE: set<Byte> := {1, 3, 51, 53, 54}

  /** The lengths section 3 and section 9 of RFC 2132 give these options. */
  predicate LegalLength(code: Byte, n: nat) {
    if code == 53 then n == 1 else if code == 3 then n >= 4 else n == 4
  }

  predicate Legal(x: Item, code: Byte) { x.Opt? && x.code == code && LegalLength(code, |x.val|) }

  predicate NoneLegal(xs: seq<Item>, code: Byte) {
    forall i :: 0 <= i < |xs| ==> !Legal(xs[i], code)
  }

  predicate LastLegal(xs: seq<Item>, code: Byte, i: nat) {
    i < |xs| && Legal(xs[i], code) && forall j :: i < j < |xs| ==> !Legal(xs[j], code)
  }

  /** s has what an option of this code and value sets. */
  predicate Carries(s: Said, code: Byte, val: ByteString)
    requires LegalLength(code, |val|)
  {
    (code == 53 ==> s.msgType == val[0]) &&
    (code == 1 ==> s.lease.mask == Addr4(val)) &&
    (code == 3 ==> s.lease.gateway == Addr4(val[..4])) &&
    (code == 54 ==> s.lease.serverId == Addr4(val)) &&
    (code == 51 ==> s.lease.seconds == Seconds(val))
  }

  /** Four bytes as an unsigned number, the first the most significant. */
  function Seconds(val: ByteString): nat
    requires |val| == 4
  {
    0x100_0000 * val[0] as nat + 0x1_0000 * val[1] as nat + 0x100 * val[2] as nat + val[3] as nat
  }

  lemma BigEndianIs(val: ByteString)
    requires |val| == 4
    ensures BigEndian(val) == Seconds(val)
  {
    var a, b, c := val[..1], val[..2], val[..3];
    assert c[..2] == b && b[..1] == a && a[..0] == [];
    assert BigEndian(a) == val[0] as nat;
    assert BigEndian(b) == 0x100 * val[0] as nat + val[1] as nat;
    assert BigEndian(c) == 0x100 * BigEndian(b) + val[2] as nat;
  }

  predicate SameField(s: Said, t: Said, code: Byte) {
    (code == 53 ==> s.msgType == t.msgType) &&
    (code == 1 ==> s.lease.mask == t.lease.mask) &&
    (code == 3 ==> s.lease.gateway == t.lease.gateway) &&
    (code == 54 ==> s.lease.serverId == t.lease.serverId) &&
    (code == 51 ==> s.lease.seconds == t.lease.seconds)
  }

  lemma HearOne(s: Said, x: Item, code: Byte)
    requires code in SINGLE
    ensures Legal(x, code) ==> Carries(Hear(s, x), code, x.val)
    ensures !Legal(x, code) ==> SameField(Hear(s, x), s, code)
  {
    if Legal(x, code) && code == LEASE_TIME {
      BigEndianIs(x.val);
    }
  }

  /** Each field but the name servers is what the last option of its code with a legal length
      says, or unchanged when there is none. */
  lemma {:induction false} LastWordCounts(s: Said, xs: seq<Item>, code: Byte, i: nat)
    requires code in SINGLE
    ensures NoneLegal(xs, code) ==> SameField(HearAll(s, xs), s, code)
    ensures LastLegal(xs, code, i) ==> Carries(HearAll(s, xs), code, xs[i].val)
    decreases |xs|
  {
    if xs != [] {
      HearOne(s, xs[0], code);
      LastWordCounts(Hear(s, xs[0]), xs[1..], code, if i == 0 then 0 else i - 1);
      if LastLegal(xs, code, i) && i > 0 {
        assert xs[1..][i - 1] == xs[i];
        assert forall j :: i - 1 < j < |xs[1..]| ==> xs[1..][j] == xs[j + 1];
        assert LastLegal(xs[1..], code, i - 1);
      }
    }
  }

  /** All the bytes the DNS options (6) carry, each option's in whole addresses. */
  function DnsBytes(xs: seq<Item>): (b: ByteString)
    ensures |b| % 4 == 0
  {
    if xs == [] then []
    else
      var x, more := xs[0], DnsBytes(xs[1..]);
      if x.Opt? && x.code == 6 then x.val[..|x.val| - |x.val| % 4] + more else more
  }

  predicate Spells(addrs: seq<Addr>, b: ByteString) {
    |b| == 4 * |addrs| && forall k :: 0 <= k < |addrs| ==> addrs[k] == Addr4(b[4 * k..4 * k + 4])
  }

  lemma SpellsConcat(a: seq<Addr>, b: seq<Addr>, x: ByteString, y: ByteString)
    requires Spells(a, x) && Spells(b, y)
    ensures Spells(a + b, x + y)
  {
    forall k | 0 <= k < |a + b|
      ensures (a + b)[k] == Addr4((x + y)[4 * k..4 * k + 4])
    {
      if k < |a| {
        assert (x + y)[4 * k..4 * k + 4] == x[4 * k..4 * k + 4];
      } else {
        var j := k - |a|;
        assert (x + y)[4 * k..4 * k + 4] == y[4 * j..4 * j + 4];
      }
    }
  }

  lemma {:induction false} AddressesSpell(val: ByteString)
    ensures Spells(Addresses(val), val[..|val| - |val| % 4])
    decreases |val|
  {
    if |val| >= 4 {
      var n := |val| - |val| % 4;
      AddressesSpell(val[4..]);
      assert val[4..][..n - 4] == val[4..n];
      assert Spells([Addr4(val[..4])], val[..4]) by {
        assert val[..4][0..4] == val[..4];
      }
      SpellsConcat([Addr4(val[..4])], Addresses(val[4..]), val[..4], val[4..n]);
      assert val[..4] + val[4..n] == val[..n];
    }
  }

  /** The name servers heard are those before and then every whole address of every DNS option,
      in order. */
  lemma {:induction false} DnsIsAll(s: Said, xs: seq<Item>, before: ByteString)
    requires Spells(s.lease.dns, before)
    ensures Spells(HearAll(s, xs).lease.dns, before + DnsBytes(xs))
    decreases |xs|
  {
    if xs == [] {
      assert before + [] == before;
    } else {
      var x := xs[0];
      if x.Opt? && x.code == DNS {
        var whole := x.val[..|x.val| - |x.val| % 4];
        AddressesSpell(x.val);
        SpellsConcat(s.lease.dns, Addresses(x.val), before, whole);
        DnsIsAll(Hear(s, x), xs[1..], before + whole);
        Regroup(before, whole, DnsBytes(xs[1..]));
      } else {
        DnsIsAll(Hear(s, x), xs[1..], before);
      }
    }
  }

  lemma {:induction false} AddressStays(s: Said, xs: seq<Item>)
    ensures HearAll(s, xs).lease.address == s.lease.address
    decreases |xs|
  {
    if xs != [] {
      AddressStays(Hear(s, xs[0]), xs[1..]);
    }
  }

  /** What a lease owes an encoded option list. */
  ghost predicate SaysOf(r: Said, buf: ByteString, xs: seq<Item>)
    requires |buf| >= FIXED_LEN
  {
    (forall code, i: nat :: code in SINGLE && LastLegal(xs, code, i) ==> Carries(r, code, xs[i].val)) &&
    (forall code :: code in SINGLE && NoneLegal(xs, code) ==> SameField(r, UNSAID, code)) &&
    Spells(r.lease.dns, DnsBytes(xs)) && r.lease.address == Addr4(buf[16..20])
  }

  const UNSAID := Said(0, Lease(NoAddr, NoAddr, NoAddr, [], NoAddr, 0))

  /** On a valid header and any encoded option list, whatever follows its end: the reply is taken
      exactly when some legal message type option ends with a value other than zero, and its lease
      has the offered address, every DNS address in order, and in each other field the last word. */
  lemma ReplySays(buf: ByteString, xid: nat, mac: ByteString, xs: seq<Item>, rest: ByteString) returns (r: Said)
    requires Answers(buf, xid, mac) && AllEncodable(xs) && Closes(rest) && buf[FIXED_LEN..] == Encode(xs) + rest
    ensures SaysOf(r, buf, xs)
    ensures Outcome(Offered(buf), Decode(buf[FIXED_LEN..])) ==
            if r.msgType == 0 then NotForUs else Reply(r.msgType, r.lease)
  {
    DecodeEncode(buf[FIXED_LEN..], xs, rest);
    var s := Offered(buf);
    r := HearAll(s, xs);
    forall code, i: nat | code in SINGLE && LastLegal(xs, code, i)
      ensures Carries(r, code, xs[i].val)
    {
      LastWordCounts(s, xs, code, i);
    }
    forall code | code in SINGLE && NoneLegal(xs, code)
      ensures SameField(r, UNSAID, code)
    {
      LastWordCounts(s, xs, code, 0);
    }
    AddressStays(s, xs);
    DnsIsAll(s, xs, []);
    assert [] + DnsBytes(xs) == DnsBytes(xs);
  }
}
