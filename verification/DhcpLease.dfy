/** Judging a lease: the prefix length of its mask, and whether it can be configured. */
module DhcpLease {
  import opened Bytes
  import opened Dhcp

  function Pow2(n: nat): (p: nat)
    ensures p > 0
  {
    if n == 0 then 1 else 2 * Pow2(n - 1)
  }

  function Shr(x: nat, k: nat): nat {
    if k == 0 then x else Shr(x, k - 1) / 2
  }

  function BitValue(bit: bool): nat { if bit then 1 else 0 }

  /** The number whose binary digits these are, highest first. */
  function Value(bits: seq<bool>): nat {
    if bits == [] then 0 else 2 * Value(bits[..|bits| - 1]) + BitValue(bits[|bits| - 1])
  }

  lemma {:induction false} ValueIsInjective(a: seq<bool>, b: seq<bool>)
    requires |a| == |b| && Value(a) == Value(b)
    ensures a == b
  {
    if a != [] {
      var n := |a| - 1;
      ValueIsInjective(a[..n], b[..n]);
      assert a == a[..n] + [a[n]] && b == b[..n] + [b[n]];
    }
  }

  lemma {:induction false} ValueConcat(a: seq<bool>, b: seq<bool>)
    ensures Value(a + b) == Value(a) * Pow2(|b|) + Value(b)
    decreases |b|
  {
    if b == [] {
      assert a + b == a;
    } else {
      var n := |b| - 1;
      assert (a + b)[..|a + b| - 1] == a + b[..n];
      ValueConcat(a, b[..n]);
      Twice(Value(a), Pow2(n));
    }
  }

  lemma Twice(v: nat, p: nat)
    ensures 2 * (v * p) == v * (2 * p)
  {
  }

  /** Bit j of an octet, counted from the highest. */
  predicate OctetBit(x: Byte, j: nat)
    requires j < 8
  {
    Shr(x as int, 7 - j) % 2 == 1
  }

  function OctetBits(x: Byte): (bits: seq<bool>)
    ensures |bits| == 8 && forall j :: 0 <= j < 8 ==> bits[j] == OctetBit(x, j)
  {
    seq(8, j requires 0 <= j < 8 => OctetBit(x, j))
  }

  lemma {:induction false} OctetPrefix(x: Byte, j: nat)
    requires j <= 8 && Shr(x as int, 8) == 0
    ensures Value(OctetBits(x)[..j]) == Shr(x as int, 8 - j)
  {
    if j > 0 {
      OctetPrefix(x, j - 1);
      assert OctetBits(x)[..j][..j - 1] == OctetBits(x)[..j - 1];
      assert Shr(x as int, 9 - j) == Shr(x as int, 8 - j) / 2;
    }
  }

  lemma OctetValue(x: Byte)
    ensures Value(OctetBits(x)) == x as int
  {
    var v := x as int;
    assert Shr(v, 1) == v / 2;
    assert Shr(v, 3) == Shr(v, 1) / 2 / 2 < 32;
    assert Shr(v, 5) == Shr(v, 3) / 2 / 2 < 8;
    assert Shr(v, 7) == Shr(v, 5) / 2 / 2 < 2;
    OctetPrefix(x, 8);
    assert OctetBits(x)[..8] == OctetBits(x);
  }

  /** The bits of a run of octets, highest first. */
  function Bits(b: ByteString): (bits: seq<bool>)
    ensures |bits| == 8 * |b|
  {
    if b == [] then [] else Bits(b[..|b| - 1]) + OctetBits(b[|b| - 1])
  }

  lemma {:induction false} BitsAt(b: ByteString, o: nat, j: nat)
    requires o < |b| && j < 8
    ensures Bits(b)[8 * o + j] == OctetBit(b[o], j)
  {
    var n := |b| - 1;
    if o < n {
      BitsAt(b[..n], o, j);
    }
  }

  lemma {:induction false} BitsValue(b: ByteString)
    ensures Value(Bits(b)) == BigEndian(b)
  {
    if b != [] {
      var n := |b| - 1;
      BitsValue(b[..n]);
      ValueConcat(Bits(b[..n]), OctetBits(b[n]));
      OctetValue(b[n]);
      assert Pow2(2) == 4 && Pow2(4) == 16 && Pow2(6) == 64 && Pow2(8) == 256;
    }
  }

  /** n ones, then zeros. */
  predicate IsPrefix(bits: seq<bool>, n: nat) {
    n <= |bits| && forall i :: 0 <= i < |bits| ==> (bits[i] <==> i < n)
  }

  lemma {:induction false} PrefixValue(bits: seq<bool>, n: nat)
    requires IsPrefix(bits, n)
    ensures Value(bits) + Pow2(|bits| - n) == Pow2(|bits|)
  {
    if bits != [] {
      var k := |bits| - 1;
      if n == |bits| {
        PrefixValue(bits[..k], n - 1);
      } else {
        PrefixValue(bits[..k], n);
      }
    }
  }

  /** The bits are n ones and then zeros exactly when their number is 2^len - 2^(len - n). */
  lemma PrefixExactly(bits: seq<bool>, n: nat)
    requires n <= |bits|
    ensures IsPrefix(bits, n) <==> Value(bits) + Pow2(|bits| - n) == Pow2(|bits|)
  {
    if IsPrefix(bits, n) {
      PrefixValue(bits, n);
    }
    if Value(bits) + Pow2(|bits| - n) == Pow2(|bits|) {
      var ones := seq(|bits|, i => i < n);
      PrefixValue(ones, n);
      ValueIsInjective(bits, ones);
    }
  }

  /** The mask is 2^32 - 2^(32 - n). */
  predicate MaskOf(mask: ByteString, n: nat) {
    n <= 32 && BigEndian(mask) + Pow2(32 - n) == 0x1_0000_0000
  }

  lemma Pow2Of32()
    ensures Pow2(32) == 0x1_0000_0000
  {
    assert Pow2(8) == 256;
    assert Pow2(16) == 65536;
    assert Pow2(24) == 16777216;
  }

  lemma MaskExactly(mask: ByteString, n: nat)
    requires |mask| == 4 && n <= 32
    ensures IsPrefix(Bits(mask), n) <==> MaskOf(mask, n)
  {
    BitsValue(mask);
    PrefixExactly(Bits(mask), n);
    Pow2Of32();
  }

  datatype Length = NoMask | NotContiguous | Prefix(length: nat)

  /** PrefixLen, octet by octet and bit by bit. */
  method PrefixLen(mask: Addr) returns (r: Length)
    ensures r.NoMask? <==> mask.NoAddr?
    ensures mask.Addr4? ==> forall n: nat :: r == Prefix(n) <==> MaskOf(mask.octets, n)
  {
    if mask.NoAddr? {
      return NoMask;
    }
    r := CountOnes(mask.octets, Bits(mask.octets));
    forall n: nat
      ensures r == Prefix(n) <==> MaskOf(mask.octets, n)
    {
      if n <= 32 {
        MaskExactly(mask.octets, n);
      }
    }
  }

  method CountOnes(b: ByteString, ghost bits: seq<bool>) returns (r: Length)
    requires |b| == 4 && bits == Bits(b)
    ensures !r.NoMask? && (r.Prefix? ==> r.length <= 32)
    ensures forall n :: 0 <= n <= 32 ==> (r == Prefix(n) <==> IsPrefix(bits, n))
  {
    var ones, seenZero := 0, false;
    for o := 0 to 4
      invariant Scanned(bits, 8 * o, ones, seenZero)
    {
      var bit := 7;
      while bit >= 0
        invariant -1 <= bit <= 7 && Scanned(bits, 8 * o + 7 - bit, ones, seenZero)
        decreases bit
      {
        BitsAt(b, o, 7 - bit);
        if OctetBit(b[o], 7 - bit) {
          if seenZero {
            NoPrefix(bits, 8 * o + 7 - bit, ones);
            return NotContiguous;
          }
          ones := ones + 1;
        } else {
          seenZero := true;
        }
        bit := bit - 1;
      }
    }
    OnePrefix(bits, ones);
    r := Prefix(ones);
  }

  /** The first k bits are some ones and then zeros. */
  predicate Scanned(bits: seq<bool>, k: nat, ones: nat, seenZero: bool) {
    k <= |bits| && ones <= k && (seenZero <==> ones < k) && forall i :: 0 <= i < k ==> (bits[i] <==> i < ones)
  }

  lemma NoPrefix(bits: seq<bool>, k: nat, ones: nat)
    requires k < |bits| && Scanned(bits, k, ones, true) && bits[k]
    ensures forall n :: 0 <= n <= |bits| ==> !IsPrefix(bits, n)
  {
    assert !bits[ones];
  }

  lemma OnePrefix(bits: seq<bool>, ones: nat)
    requires ones <= |bits| && forall i :: 0 <= i < |bits| ==> (bits[i] <==> i < ones)
    ensures forall n :: 0 <= n <= |bits| ==> (IsPrefix(bits, n) <==> n == ones)
  {
    assert ones < |bits| ==> !bits[ones];
    forall n | 0 <= n <= |bits| && IsPrefix(bits, n)
      ensures n == ones
    {
      assert n < |bits| ==> !bits[n];
    }
  }

  datatype Verdict = Valid | NoAddress | NoSubnet | NoRouter | BadMask

  /** Validate: the guest can be configured exactly from a lease with an address, a contiguous
      mask and a router; the first one missing is reported. */
  method Validate(l: Lease) returns (v: Verdict)
    ensures v.Valid? <==> Usable(l.address) && Usable(l.gateway) && l.mask.Addr4? &&
                          exists n :: MaskOf(l.mask.octets, n)
    ensures v.NoAddress? <==> !Usable(l.address)
    ensures v.NoSubnet? <==> Usable(l.address) && l.mask.NoAddr?
    ensures v.NoRouter? <==> Usable(l.address) && l.mask.Addr4? && !Usable(l.gateway)
  {
    if !Usable(l.address) {
      return NoAddress;
    }
    if l.mask.NoAddr? {
      return NoSubnet;
    }
    if !Usable(l.gateway) {
      return NoRouter;
    }
    var n := PrefixLen(l.mask);
    assert n.Prefix? ==> n == Prefix(n.length);
    v := if n.Prefix? then Valid else BadMask;
  }
}
