/** Machine-independent byte order: the portable loads and stores (low byte first), the direct-memory
    forms used on x86, and the byte-reversing forms of a big-endian host.

    Words are numbers in the range of their type; a shift is a division or multiplication by a power of
    two, a cast to a narrower type a remainder, and a bitwise or of fields that do not overlap a sum. */
module ByteOrder {
  import opened Words

  function ToByte(x: nat): Byte {
    x % 256
  }

  function At(a: seq<Byte>, i: nat): nat
    requires i < |a|
  {
    a[i]
  }

  function AsInt32(x: UInt32): int {
    if x < 0x8000_0000 then x else x - 0x1_0000_0000
  }

  // ----- Portable loads -----

  function Uint2Korr(a: seq<Byte>): UInt16
    requires |a| >= 2
  {
    At(a, 0) + 0x100 * At(a, 1)
  }

  function Uint3Korr(a: seq<Byte>): UInt32
    requires |a| >= 3
  {
    At(a, 0) + 0x100 * At(a, 1) + 0x1_0000 * At(a, 2)
  }

  function Sint3Korr(a: seq<Byte>): int
    requires |a| >= 3
  {
    AsInt32(if At(a, 2) >= 128 then 255 * 0x100_0000 + 0x1_0000 * At(a, 2) + 0x100 * At(a, 1) + At(a, 0)
            else 0x1_0000 * At(a, 2) + 0x100 * At(a, 1) + At(a, 0))
  }

  function Uint4Korr(a: seq<Byte>): UInt32
    requires |a| >= 4
  {
    At(a, 0) + 0x100 * At(a, 1) + 0x1_0000 * At(a, 2) + 0x100_0000 * At(a, 3)
  }

  function Uint5Korr(a: seq<Byte>): UInt64
    requires |a| >= 5
  {
    Uint4Korr(a) + 0x1_0000_0000 * At(a, 4)
  }

  function Uint6Korr(a: seq<Byte>): UInt64
    requires |a| >= 6
  {
    Uint4Korr(a) + 0x1_0000_0000 * At(a, 4) + 0x100_0000_0000 * At(a, 5)
  }

  function Uint8Korr(a: seq<Byte>): UInt64
    requires |a| >= 8
  {
    Uint4Korr(a) + 0x1_0000_0000 * Uint4Korr(a[4..])
  }

  // ----- The x86 forms read and write the host's memory directly -----

  function Pow256(n: nat): (p: nat)
    ensures p > 0
  {
    if n == 0 then 1 else 256 * Pow256(n - 1)
  }

  /** What a little-endian host reads as one word from consecutive bytes. */
  function HostLoad(a: seq<Byte>): (v: nat)
    ensures v < Pow256(|a|)
  {
    if a == [] then 0 else At(a, 0) + 256 * HostLoad(a[1..])
  }

  /** The bytes a little-endian host writes for the low `n` bytes of a word. */
  function HostStore(v: nat, n: nat): (a: seq<Byte>)
    ensures |a| == n
  {
    if n == 0 then [] else [ToByte(v)] + HostStore(v / 256, n - 1)
  }

  /** Memory after the bytes `a` are written at position `at`. */
  function Written(mem: seq<Byte>, at: nat, a: seq<Byte>): seq<Byte>
    requires at + |a| <= |mem|
  {
    mem[..at] + a + mem[at + |a|..]
  }

  lemma HostLoadSteps(a: seq<Byte>, n: nat)
    requires 0 < n <= |a|
    ensures HostLoad(a[..n]) == a[0] + 256 * HostLoad(a[1..][..n - 1])
  {
    assert a[..n][1..] == a[1..][..n - 1];
  }

  lemma DirectRead4(a: seq<Byte>)
    requires |a| >= 4
    ensures HostLoad(a[..2]) == Uint2Korr(a)
    ensures HostLoad(a[..3]) == Uint3Korr(a)
    ensures HostLoad(a[..4]) == Uint4Korr(a)
  {
    DirectRead3(a[1..]);
    HostLoadSteps(a, 2);
    HostLoadSteps(a, 3);
    HostLoadSteps(a, 4);
  }

  lemma DirectRead3(a: seq<Byte>)
    requires |a| >= 3
    ensures HostLoad(a[..1]) == At(a, 0)
    ensures HostLoad(a[..2]) == At(a, 0) + 0x100 * At(a, 1)
    ensures HostLoad(a[..3]) == At(a, 0) + 0x100 * At(a, 1) + 0x1_0000 * At(a, 2)
  {
    var b, c := a[1..], a[1..][1..];
    HostLoadSteps(a, 1);
    HostLoadSteps(a, 2);
    HostLoadSteps(a, 3);
    HostLoadSteps(b, 1);
    HostLoadSteps(b, 2);
    HostLoadSteps(c, 1);
    assert b[..0] == [] && c[..0] == [] && c[1..][..0] == [];
  }

  lemma {:induction false} JoinedRead(low: seq<Byte>, high: seq<Byte>)
    ensures HostLoad(low + high) == HostLoad(low) + Pow256(|low|) * HostLoad(high)
  {
    if low == [] {
      assert low + high == high;
    } else {
      JoinedRead(low[1..], high);
      assert (low + high)[1..] == low[1..] + high;
      Scaled(HostLoad(low[1..]), Pow256(|low| - 1), HostLoad(high));
    }
  }

  lemma Scaled(l: nat, p: nat, h: nat)
    ensures 256 * (l + p * h) == 256 * l + (256 * p) * h
  {
  }

  /** On a little-endian host the portable loads and the direct reads agree for every byte string. */
  lemma PortableLoadsAreDirectReads(a: seq<Byte>)
    requires |a| == 8
    ensures Uint2Korr(a) == HostLoad(a[..2])
    ensures Uint3Korr(a) == HostLoad(a[..3])
    ensures Uint4Korr(a) == HostLoad(a[..4])
    ensures Uint5Korr(a) == HostLoad(a[..5])
    ensures Uint6Korr(a) == HostLoad(a[..6])
    ensures Uint8Korr(a) == HostLoad(a)
  {
    DirectRead4(a);
    DirectRead4(a[4..]);
    assert Pow256(4) == 0x1_0000_0000;
    forall n | 4 <= n <= 8 ensures HostLoad(a[..n]) == HostLoad(a[..4]) + 0x1_0000_0000 * HostLoad(a[4..n]) {
      JoinedRead(a[..4], a[4..n]);
      assert a[..4] + a[4..n] == a[..n];
    }
    assert a[..8] == a && a[4..8] == a[4..][..4] && a[4..6] == a[4..][..2];
    assert a[4..5] == a[4..][..1];
    HostLoadSteps(a[4..], 1);
  }

  // ----- Round trips -----

  lemma MultipleIsFar(d: int, k: int)
    requires d >= 0
    ensures k >= 1 ==> d * k >= d
    ensures k <= -1 ==> d * k <= -d
  {
  }

  lemma RemainderIsUnique(v: nat, d: nat, q: nat, r: nat)
    requires v == d * q + r && r < d
    ensures v % d == r && v / d == q
  {
    MultipleIsFar(d, q - v / d);
    assert d * (q - v / d) == d * q - d * (v / d);
    assert v == d * (v / d) + v % d;
  }

  lemma RemainderSplits(v: nat, p: nat)
    requires p > 0
    ensures v % (256 * p) == 256 * (v / 256 % p) + v % 256
  {
    var q, r := v / 256 / p, v / 256 % p;
    assert v / 256 == p * q + r;
    assert 256 * (p * q) == (256 * p) * q;
    RemainderIsUnique(v, 256 * p, q, 256 * r + v % 256);
  }

  lemma {:induction false} LoadAfterStore(v: nat, n: nat)
    ensures HostLoad(HostStore(v, n)) == v % Pow256(n)
  {
    if n > 0 {
      LoadAfterStore(v / 256, n - 1);
      RemainderSplits(v, Pow256(n - 1));
      assert HostStore(v, n)[1..] == HostStore(v / 256, n - 1);
    }
  }

  lemma {:induction false} StoreAfterLoad(a: seq<Byte>)
    ensures HostStore(HostLoad(a), |a|) == a
  {
    if a != [] {
      StoreAfterLoad(a[1..]);
      assert HostLoad(a) / 256 == HostLoad(a[1..]);
      assert a == [a[0]] + a[1..];
    }
  }

  lemma StoredPrefixLoads(v: nat, n: nat)
    requires n <= 8
    ensures HostStore(v, 8)[..n] == HostStore(v, n)
    ensures HostLoad(HostStore(v, 8)[..n]) == v % Pow256(n)
  {
    LoadAfterStore(v, n);
    ShorterStoreIsPrefix(v, n, 8);
  }

  lemma PowersOf256()
    ensures Pow256(2) == 0x1_0000 && Pow256(3) == 0x100_0000 && Pow256(4) == 0x1_0000_0000
    ensures Pow256(5) == 0x100_0000_0000 && Pow256(6) == 0x1_0000_0000_0000
    ensures Pow256(8) == 0x1_0000_0000_0000_0000
  {
    assert Pow256(2) == 0x1_0000;
    assert Pow256(4) == 0x1_0000_0000;
    assert Pow256(6) == 0x1_0000_0000_0000;
  }

  /** Every portable load undoes the store of its width, on the whole range of that width. */
  lemma PortableRoundTrips(v: nat)
    ensures Uint2Korr(HostStore(v, 2)) == v % 0x1_0000
    ensures Uint3Korr(HostStore(v, 3)) == v % 0x100_0000
    ensures Uint4Korr(HostStore(v, 4)) == v % 0x1_0000_0000
    ensures Uint5Korr(HostStore(v, 5)) == v % 0x100_0000_0000
    ensures Uint6Korr(HostStore(v, 6)) == v % 0x1_0000_0000_0000
    ensures Uint8Korr(HostStore(v, 8)) == v % 0x1_0000_0000_0000_0000
  {
    PowersOf256();
    var a := HostStore(v, 8);
    PortableLoadsAreDirectReads(a);
    PrefixesLoadTheSame(a);
    StoredPrefixLoads(v, 2);
    StoredPrefixLoads(v, 3);
    StoredPrefixLoads(v, 4);
    StoredPrefixLoads(v, 5);
    StoredPrefixLoads(v, 6);
    StoredPrefixLoads(v, 8);
    assert a[..8] == a;
  }

  /** Storing what a portable load read gives back the bytes it read. */
  lemma PortableStoreAfterLoad(a: seq<Byte>)
    requires |a| == 8
    ensures HostStore(Uint2Korr(a), 2) == a[..2]
    ensures HostStore(Uint3Korr(a), 3) == a[..3]
    ensures HostStore(Uint4Korr(a), 4) == a[..4]
    ensures HostStore(Uint5Korr(a), 5) == a[..5]
    ensures HostStore(Uint6Korr(a), 6) == a[..6]
    ensures HostStore(Uint8Korr(a), 8) == a
  {
    PortableLoadsAreDirectReads(a);
    StoreAfterLoad(a[..2]);
    StoreAfterLoad(a[..3]);
    StoreAfterLoad(a[..4]);
    StoreAfterLoad(a[..5]);
    StoreAfterLoad(a[..6]);
    StoreAfterLoad(a);
  }

  lemma PrefixesLoadTheSame(a: seq<Byte>)
    requires |a| == 8
    ensures Uint2Korr(a[..2]) == Uint2Korr(a) && Uint3Korr(a[..3]) == Uint3Korr(a)
    ensures Uint4Korr(a[..4]) == Uint4Korr(a) && Uint5Korr(a[..5]) == Uint5Korr(a)
    ensures Uint6Korr(a[..6]) == Uint6Korr(a)
  {
  }

  lemma {:induction false} ShorterStoreIsPrefix(v: nat, n: nat, m: nat)
    requires n <= m
    ensures HostStore(v, m)[..n] == HostStore(v, n)
  {
    if n > 0 {
      ShorterStoreIsPrefix(v / 256, n - 1, m - 1);
      assert HostStore(v, m)[..n] == [ToByte(v)] + HostStore(v / 256, m - 1)[..n - 1];
    }
  }

  lemma ThreeByteRoundTrip(v: nat)
    ensures Uint3Korr(HostStore(v, 3)) == v % 0x100_0000
  {
    PortableRoundTrips(v);
  }

  lemma SignBitOfThreeBytes(a: seq<Byte>)
    requires |a| == 3
    ensures Sint3Korr(a) == if Uint3Korr(a) < 0x80_0000 then Uint3Korr(a) else Uint3Korr(a) - 0x100_0000
  {
    assert a[2] >= 128 <==> Uint3Korr(a) >= 0x80_0000;
  }

  lemma SignExtension(v: UInt32, k: nat, u: nat)
    requires v == 0x100_0000 * k + u && u < 0x100_0000
    ensures (if u < 0x80_0000 then u else u - 0x100_0000) == AsInt32(v) <==> -0x80_0000 <= AsInt32(v) < 0x80_0000
  {
  }

  /** The sign-extending load undoes the three-byte store exactly on [-2^23, 2^23). */
  lemma SignedRoundTrip(v: UInt32)
    ensures Sint3Korr(HostStore(v, 3)) == AsInt32(v) <==> -0x80_0000 <= AsInt32(v) < 0x80_0000
  {
    ThreeByteRoundTrip(v);
    SignBitOfThreeBytes(HostStore(v, 3));
    SignExtension(v, v / 0x100_0000, v % 0x100_0000);
  }

  // ----- Portable stores, in place -----

  /** The byte at place `i` of a store is the word shifted right by 8 * i, cut to a byte. */
  lemma {:induction false} StoredByte(v: nat, n: nat, i: nat)
    requires i < n
    ensures HostStore(v, n)[i] == ToByte(v / Pow256(i))
  {
    if i > 0 {
      StoredByte(v / 256, n - 1, i - 1);
      DivideTwice(v, Pow256(i - 1));
    }
  }

  lemma DivideTwice(v: nat, p: nat)
    requires p > 0
    ensures v / 256 / p == v / (256 * p)
  {
    var q, r := v / 256 / p, v / 256 % p;
    assert v / 256 == p * q + r;
    assert v == (256 * p) * q + (256 * r + v % 256);
    RemainderIsUnique(v, 256 * p, q, 256 * r + v % 256);
  }

  lemma StoredBytes(v: nat, n: nat)
    requires n <= 8
    ensures 0 < n ==> HostStore(v, n)[0] == ToByte(v)
    ensures 1 < n ==> HostStore(v, n)[1] == ToByte(v / 0x100)
    ensures 2 < n ==> HostStore(v, n)[2] == ToByte(v / 0x1_0000)
    ensures 3 < n ==> HostStore(v, n)[3] == ToByte(v / 0x100_0000)
    ensures 4 < n ==> HostStore(v, n)[4] == ToByte(v / 0x1_0000_0000)
    ensures 5 < n ==> HostStore(v, n)[5] == ToByte(v / 0x100_0000_0000)
  {
    assert Pow256(1) == 0x100 && Pow256(2) == 0x1_0000 && Pow256(4) == 0x1_0000_0000;
    assert Pow256(3) == 0x100_0000 && Pow256(5) == 0x100_0000_0000;
    if 0 < n { StoredByte(v, n, 0); }
    if 1 < n { StoredByte(v, n, 1); }
    if 2 < n { StoredByte(v, n, 2); }
    if 3 < n { StoredByte(v, n, 3); }
    if 4 < n { StoredByte(v, n, 4); }
    if 5 < n { StoredByte(v, n, 5); }
  }

  lemma BytesWritten(mem: seq<Byte>, now: seq<Byte>, at: nat, a: seq<Byte>)
    requires at + |a| <= |mem| == |now|
    requires forall k :: 0 <= k < |a| ==> now[at + k] == a[k]
    requires forall k :: 0 <= k < at || at + |a| <= k < |mem| ==> now[k] == mem[k]
    ensures now == Written(mem, at, a)
  {
  }

  method Int2Store(t: array<Byte>, at: nat, v: UInt16)
    requires at + 2 <= t.Length
    modifies t
    ensures t[..] == Written(old(t[..]), at, HostStore(v, 2))
  {
    ghost var mem := t[..];
    StoredBytes(v, 2);
    t[at] := ToByte(v);
    t[at + 1] := ToByte(v / 0x100);
    BytesWritten(mem, t[..], at, HostStore(v, 2));
  }

  method Int3Store(t: array<Byte>, at: nat, v: UInt32)
    requires at + 3 <= t.Length
    modifies t
    ensures t[..] == Written(old(t[..]), at, HostStore(v, 3))
  {
    ghost var mem := t[..];
    StoredBytes(v, 3);
    t[at] := ToByte(v);
    t[at + 1] := ToByte(v / 0x100);
    t[at + 2] := ToByte(v / 0x1_0000);
    BytesWritten(mem, t[..], at, HostStore(v, 3));
  }

  method Int4Store(t: array<Byte>, at: nat, v: UInt32)
    requires at + 4 <= t.Length
    modifies t
    ensures t[..] == Written(old(t[..]), at, HostStore(v, 4))
  {
    ghost var mem := t[..];
    StoredBytes(v, 4);
    t[at] := ToByte(v);
    t[at + 1] := ToByte(v / 0x100);
    t[at + 2] := ToByte(v / 0x1_0000);
    t[at + 3] := ToByte(v / 0x100_0000);
    BytesWritten(mem, t[..], at, HostStore(v, 4));
  }

  method Int5Store(t: array<Byte>, at: nat, v: UInt64)
    requires at + 5 <= t.Length
    modifies t
    ensures t[..] == Written(old(t[..]), at, HostStore(v, 5))
  {
    ghost var mem := t[..];
    StoredBytes(v, 5);
    t[at] := ToByte(v);
    t[at + 1] := ToByte(v / 0x100);
    t[at + 2] := ToByte(v / 0x1_0000);
    t[at + 3] := ToByte(v / 0x100_0000);
    t[at + 4] := ToByte(v / 0x1_0000_0000);
    BytesWritten(mem, t[..], at, HostStore(v, 5));
  }

  method Int6Store(t: array<Byte>, at: nat, v: UInt64)
    requires at + 6 <= t.Length
    modifies t
    ensures t[..] == Written(old(t[..]), at, HostStore(v, 6))
  {
    ghost var mem := t[..];
    StoredBytes(v, 6);
    t[at] := ToByte(v);
    t[at + 1] := ToByte(v / 0x100);
    t[at + 2] := ToByte(v / 0x1_0000);
    t[at + 3] := ToByte(v / 0x100_0000);
    t[at + 4] := ToByte(v / 0x1_0000_0000);
    t[at + 5] := ToByte(v / 0x100_0000_0000);
    BytesWritten(mem, t[..], at, HostStore(v, 6));
  }

  /** The portable eight-byte store is two four-byte stores of the word's halves. */
  method Int8Store(t: array<Byte>, at: nat, v: UInt64)
    requires at + 8 <= t.Length
    modifies t
    ensures t[..] == Written(old(t[..]), at, HostStore(v, 8))
  {
    ghost var mem := t[..];
    Int4Store(t, at, v % 0x1_0000_0000);
    Int4Store(t, at + 4, v / 0x1_0000_0000);
    HalvesCompose(v);
    WrittenTwice(mem, at, HostStore(v % 0x1_0000_0000, 4), HostStore(v / 0x1_0000_0000, 4));
  }

  lemma WrittenTwice(mem: seq<Byte>, at: nat, a: seq<Byte>, b: seq<Byte>)
    requires at + |a| + |b| <= |mem|
    ensures Written(Written(mem, at, a), at + |a|, b) == Written(mem, at, a + b)
  {
  }

  lemma HalvesCompose(v: UInt64)
    ensures HostStore(v, 8) == HostStore(v % 0x1_0000_0000, 4) + HostStore(v / 0x1_0000_0000, 4)
  {
    var l, h := v % 0x1_0000_0000, v / 0x1_0000_0000;
    FourByteRoundTrip(l);
    FourByteRoundTrip(h);
    JoinedRead(HostStore(l, 4), HostStore(h, 4));
    FourIs32Bits(h);
    assert HostLoad(HostStore(l, 4) + HostStore(h, 4)) == v;
    StoreAfterLoad(HostStore(l, 4) + HostStore(h, 4));
  }

  lemma FourByteRoundTrip(v: UInt32)
    ensures HostLoad(HostStore(v, 4)) == v
  {
    LoadAfterStore(v, 4);
    FourIs32Bits(0);
  }

  lemma FourIs32Bits(h: nat)
    ensures Pow256(4) == 0x1_0000_0000 && Pow256(4) * h == 0x1_0000_0000 * h
  {
    assert Pow256(2) == 0x1_0000;
  }

  // ----- A big-endian host -----

  function Reversed(a: seq<Byte>): (r: seq<Byte>)
    ensures |r| == |a|
    ensures forall i :: 0 <= i < |a| ==> r[i] == a[|a| - 1 - i]
  {
    if a == [] then [] else Reversed(a[1..]) + [a[0]]
  }

  /** The bytes of the low `n` bytes of a word in a big-endian host's memory: the low byte is last. */
  function BigHostBytes(v: nat, n: nat): (a: seq<Byte>)
    ensures |a| == n
  {
    if n == 0 then [] else BigHostBytes(v / 256, n - 1) + [ToByte(v)]
  }

  /** What a big-endian host reads as one word from consecutive bytes. */
  function BigHostLoad(a: seq<Byte>): nat {
    if a == [] then 0 else 256 * BigHostLoad(a[..|a| - 1]) + At(a, |a| - 1)
  }

  /** The two hosts' memories of a word are each other's reverse. */
  lemma {:induction false} HostsAreReversed(v: nat, n: nat)
    ensures Reversed(BigHostBytes(v, n)) == HostStore(v, n) && BigHostBytes(v, n) == Reversed(HostStore(v, n))
  {
    if n > 0 {
      HostsAreReversed(v / 256, n - 1);
      ReversedSnoc(BigHostBytes(v / 256, n - 1), ToByte(v));
      assert HostStore(v, n)[1..] == HostStore(v / 256, n - 1);
    }
  }

  lemma ReversedTwice(a: seq<Byte>)
    ensures Reversed(Reversed(a)) == a
  {
  }

  lemma ReversedSnoc(a: seq<Byte>, b: Byte)
    ensures Reversed(a + [b]) == [b] + Reversed(a)
  {
  }

  lemma {:induction false} BigLoadAfterStore(v: nat, n: nat)
    ensures BigHostLoad(BigHostBytes(v, n)) == v % Pow256(n)
  {
    if n > 0 {
      BigLoadAfterStore(v / 256, n - 1);
      RemainderSplits(v, Pow256(n - 1));
      assert BigHostBytes(v, n)[..n - 1] == BigHostBytes(v / 256, n - 1);
    }
  }

  /** `host` is the memory of a float or double on this host; the value is taken as its raw bytes. */
  method Float4Store(t: array<Byte>, at: nat, host: seq<Byte>)
    requires at + 4 <= t.Length && |host| == 4
    modifies t
    ensures t[..] == Written(old(t[..]), at, Reversed(host))
  {
    ghost var mem := t[..];
    t[at] := host[3];
    t[at + 1] := host[2];
    t[at + 2] := host[1];
    t[at + 3] := host[0];
    BytesWritten(mem, t[..], at, Reversed(host));
  }

  method Float4Get(m: array<Byte>, at: nat) returns (host: seq<Byte>)
    requires at + 4 <= m.Length
    ensures host == Reversed(m[at..at + 4])
  {
    host := [m[at + 3], m[at + 2], m[at + 1], m[at]];
  }

  method Float8Store(t: array<Byte>, at: nat, host: seq<Byte>)
    requires at + 8 <= t.Length && |host| == 8
    modifies t
    ensures t[..] == Written(old(t[..]), at, Reversed(host))
  {
    ghost var mem := t[..];
    t[at] := host[7];
    t[at + 1] := host[6];
    t[at + 2] := host[5];
    t[at + 3] := host[4];
    t[at + 4] := host[3];
    t[at + 5] := host[2];
    t[at + 6] := host[1];
    t[at + 7] := host[0];
    BytesWritten(mem, t[..], at, Reversed(host));
  }

  method Float8Get(m: array<Byte>, at: nat) returns (host: seq<Byte>)
    requires at + 8 <= m.Length
    ensures host == Reversed(m[at..at + 8])
  {
    host := [m[at + 7], m[at + 6], m[at + 5], m[at + 4], m[at + 3], m[at + 2], m[at + 1], m[at]];
  }

  /** Machine order: the big-endian host's own. */
  method ShortStore(t: array<Byte>, at: nat, v: UInt16)
    requires at + 2 <= t.Length
    modifies t
    ensures t[..] == Written(old(t[..]), at, BigHostBytes(v, 2))
  {
    ghost var mem := t[..];
    BigBytes(v, 2);
    t[at + 1] := ToByte(v);
    t[at] := ToByte(v / 0x100);
    BytesWritten(mem, t[..], at, BigHostBytes(v, 2));
  }

  method LongStore(t: array<Byte>, at: nat, v: UInt32)
    requires at + 4 <= t.Length
    modifies t
    ensures t[..] == Written(old(t[..]), at, BigHostBytes(v, 4))
  {
    ghost var mem := t[..];
    BigBytes(v, 4);
    t[at + 3] := ToByte(v);
    t[at + 2] := ToByte(v / 0x100);
    t[at + 1] := ToByte(v / 0x1_0000);
    t[at] := ToByte(v / 0x100_0000);
    BytesWritten(mem, t[..], at, BigHostBytes(v, 4));
  }

  lemma BigBytes(v: nat, n: nat)
    requires n <= 4
    ensures 0 < n ==> BigHostBytes(v, n)[n - 1] == ToByte(v)
    ensures 1 < n ==> BigHostBytes(v, n)[n - 2] == ToByte(v / 0x100)
    ensures 2 < n ==> BigHostBytes(v, n)[n - 3] == ToByte(v / 0x1_0000)
    ensures 3 < n ==> BigHostBytes(v, n)[n - 4] == ToByte(v / 0x100_0000)
  {
    HostsAreReversed(v, n);
    StoredBytes(v, n);
  }

  function UShortGet(m: seq<Byte>): UInt16
    requires |m| == 2
  {
    At(m, 1) + 0x100 * At(m, 0)
  }

  /** Machine order on a big-endian host: the short read is the host's own read of two bytes, and it
      reads back what the short store wrote. */
  lemma ShortReadsBack(m: seq<Byte>, v: UInt16)
    requires |m| == 2
    ensures UShortGet(m) == BigHostLoad(m)
    ensures UShortGet(BigHostBytes(v, 2)) == v
  {
    BigLoadOfTwo(m);
    BigLoadOfTwo(BigHostBytes(v, 2));
    BigLoadAfterStore(v, 2);
    PowersOf256();
  }

  lemma BigLoadOfTwo(m: seq<Byte>)
    requires |m| == 2
    ensures BigHostLoad(m) == At(m, 1) + 0x100 * At(m, 0)
  {
    assert m[..1][..0] == [] && BigHostLoad(m[..1]) == At(m, 0);
  }

  /** A float whose raw bits are the word `v`: what the big-endian host stores is what a little-endian
      host, which copies its own memory, stores; the little-endian host reads it as the same word; and
      the big-endian get gives the big-endian host its own memory of the word again. */
  lemma FloatsAgreeAcrossHosts(mem: seq<Byte>, at: nat, v: nat, n: nat)
    requires at + n <= |mem|
    ensures var stored := Written(mem, at, Reversed(BigHostBytes(v, n)));
      && stored == Written(mem, at, HostStore(v, n))
      && HostLoad(stored[at..at + n]) == v % Pow256(n)
      && Reversed(stored[at..at + n]) == BigHostBytes(v, n)
  {
    HostsAreReversed(v, n);
    LoadAfterStore(v, n);
    WrittenThere(mem, at, HostStore(v, n));
  }

  lemma WrittenThere(mem: seq<Byte>, at: nat, a: seq<Byte>)
    requires at + |a| <= |mem|
    ensures Written(mem, at, a)[at..at + |a|] == a
  {
  }

  /** A float or double get undoes the store of its width at the same place, whatever the bytes are. */
  lemma GetUndoesStore(mem: seq<Byte>, at: nat, host: seq<Byte>)
    requires at + |host| <= |mem|
    ensures Reversed(Written(mem, at, Reversed(host))[at..at + |host|]) == host
  {
    var r := Reversed(host);
    WrittenThere(mem, at, r);
    ReversedTwice(host);
  }
}
