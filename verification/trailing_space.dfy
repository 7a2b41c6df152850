/** The two versions of skip_trailing_space: eight bytes at a time, and three phases around
    word-aligned reads. Both return what a naive backward scan returns. */
module TrailingSpace {
  import opened ByteOrder
  import opened Words

  const SPACE: Byte := 0x20

  /** The naive scan: drop the last byte while it is a space. */
  function Trimmed(s: seq<Byte>): (end: nat)
    ensures end <= |s|
  {
    if s != [] && s[|s| - 1] == SPACE then Trimmed(s[..|s| - 1]) else |s|
  }

  predicate AllSpaces(s: seq<Byte>) {
    forall i :: 0 <= i < |s| ==> s[i] == SPACE
  }

  /** The scan finds the only position that has nothing but spaces behind it and no space before it. */
  lemma {:induction false} TrimmedIsLastNonSpace(s: seq<Byte>, end: nat)
    requires end <= |s|
    ensures end == Trimmed(s) <==> AllSpaces(s[end..]) && (end > 0 ==> s[end - 1] != SPACE)
  {
    if s != [] && s[|s| - 1] == SPACE {
      var shorter := s[..|s| - 1];
      if end < |s| {
        TrimmedIsLastNonSpace(shorter, end);
        assert s[end..] == shorter[end..] + [SPACE];
      }
    } else if end < |s| {
      assert s[end..][|s| - 1 - end] != SPACE;
    }
  }

  lemma {:induction false} SpacesCanBeDropped(s: seq<Byte>, n: nat)
    requires n <= |s| && AllSpaces(s[n..])
    ensures Trimmed(s[..n]) == Trimmed(s)
    decreases |s|
  {
    if n < |s| {
      assert s[n..][|s| - 1 - n] == SPACE;
      assert s[..|s| - 1][..n] == s[..n];
      assert AllSpaces(s[..|s| - 1][n..]) by {
        assert forall i :: 0 <= i < |s| - 1 - n ==> s[..|s| - 1][n..][i] == s[n..][i];
      }
      SpacesCanBeDropped(s[..|s| - 1], n);
    } else {
      assert s[..n] == s;
    }
  }

  // ----- A word of spaces -----

  function Spaces(n: nat): (s: seq<Byte>)
    ensures |s| == n && AllSpaces(s)
  {
    if n == 0 then [] else [SPACE] + Spaces(n - 1)
  }

  /** In either byte order, a word reads as the word of spaces if and only if all its bytes are spaces. */
  lemma SpaceWord(a: seq<Byte>)
    ensures HostLoad(a) == HostLoad(Spaces(|a|)) <==> AllSpaces(a)
    ensures HostLoad(Reversed(a)) == HostLoad(Spaces(|a|)) <==> AllSpaces(a)
  {
    LoadIsInjective(a, Spaces(|a|));
    LoadIsInjective(Reversed(a), Spaces(|a|));
    OnlySpaces(a);
    OnlySpaces(Reversed(a));
    ReversedSpaces(a);
  }

  lemma OnlySpaces(a: seq<Byte>)
    ensures a == Spaces(|a|) <==> AllSpaces(a)
  {
  }

  lemma ReversedSpaces(a: seq<Byte>)
    ensures AllSpaces(Reversed(a)) <==> AllSpaces(a)
  {
    if AllSpaces(Reversed(a)) {
      forall i | 0 <= i < |a| ensures a[i] == SPACE {
        assert Reversed(a)[|a| - 1 - i] == a[i];
      }
    }
  }

  lemma LoadIsInjective(a: seq<Byte>, b: seq<Byte>)
    requires |a| == |b|
    ensures HostLoad(a) == HostLoad(b) <==> a == b
  {
    StoreAfterLoad(a);
    StoreAfterLoad(b);
  }

  lemma SpaceConstants()
    ensures HostLoad(Spaces(4)) == 0x2020_2020
    ensures HostLoad(Spaces(8)) == 0x2020_2020_2020_2020
  {
    forall n | 0 < n <= 8 ensures HostLoad(Spaces(n)) == 0x20 + 256 * HostLoad(Spaces(n - 1)) {
      assert Spaces(n)[1..] == Spaces(n - 1);
    }
    assert HostLoad(Spaces(2)) == 0x2020;
    assert HostLoad(Spaces(4)) == 0x2020_2020;
    assert HostLoad(Spaces(6)) == 0x2020_2020_2020;
  }

  lemma EightSpaces(a: seq<Byte>)
    requires |a| == 8
    ensures Uint8Korr(a) == 0x2020_2020_2020_2020 <==> AllSpaces(a)
  {
    PortableLoadsAreDirectReads(a);
    SpaceWord(a);
    SpaceConstants();
  }

  /** Cutting the buffer at `end` leaves the result of the naive scan unchanged. */
  ghost predicate ScanFrom(ptr: seq<Byte>, end: nat) {
    end <= |ptr| && Trimmed(ptr[..end]) == Trimmed(ptr)
  }

  lemma ScanStarts(ptr: seq<Byte>)
    ensures ScanFrom(ptr, |ptr|)
  {
    assert ptr[..|ptr|] == ptr;
  }

  lemma ScanMoves(ptr: seq<Byte>, n: nat, end: nat)
    requires n <= end && ScanFrom(ptr, end) && AllSpaces(ptr[n..end])
    ensures ScanFrom(ptr, n)
  {
    assert ptr[..end][..n] == ptr[..n] && ptr[..end][n..] == ptr[n..end];
    SpacesCanBeDropped(ptr[..end], n);
  }

  lemma ScanStops(ptr: seq<Byte>, end: nat)
    requires ScanFrom(ptr, end) && (end > 0 ==> ptr[end - 1] != SPACE)
    ensures end == Trimmed(ptr)
  {
  }

  // ----- Eight bytes at a time, ignoring alignment -----

  method SkipTrailingSpace(ptr: seq<Byte>) returns (end: nat)
    ensures end == Trimmed(ptr)
  {
    end := |ptr|;
    ScanStarts(ptr);
    while end >= 8
      invariant ScanFrom(ptr, end)
    {
      EightSpaces(ptr[end - 8..end]);
      if Uint8Korr(ptr[end - 8..end]) != 0x2020_2020_2020_2020 {
        break;
      }
      ScanMoves(ptr, end - 8, end);
      end := end - 8;
    }
    end := SkipBytes(ptr, 0, end);
    ScanStops(ptr, end);
  }

  // ----- Word-aligned reads -----

  predicate Aligned(address: nat, width: nat) {
    if width == 4 then address % 4 == 0 else width == 8 && address % 8 == 0
  }

  /** A read of one machine word; legal only inside the buffer and at an aligned address. */
  function ReadWord(ptr: seq<Byte>, base: nat, address: nat, width: nat, bigEndian: bool): nat
    requires width > 0 && base <= address && address + width <= base + |ptr|
    requires Aligned(address, width)
  {
    var bytes := ptr[address - base..address - base + width];
    HostLoad(if bigEndian then Reversed(bytes) else bytes)
  }

  lemma MultipleBelow(address: nat)
    ensures (address - address % 4) % 4 == 0 && (address - address % 8) % 8 == 0
  {
    assert address == 4 * (address / 4) + address % 4;
    assert address == 8 * (address / 8) + address % 8;
  }

  /** The last multiple of the word size that is not after `address`. */
  function RoundedDown(address: nat, width: nat): (r: nat)
    requires width == 4 || width == 8
    ensures r <= address < r + width
    ensures Aligned(r, width)
  {
    MultipleBelow(address);
    if width == 4 then address - address % 4 else address - address % 8
  }

  lemma FourApart(address: nat, start: nat)
    requires address % 4 == 0 && start % 4 == 0 && start < address
    ensures start <= address - 4 && (address - 4) % 4 == 0
  {
  }

  lemma EightApart(address: nat, start: nat)
    requires address % 8 == 0 && start % 8 == 0 && start < address
    ensures start <= address - 8 && (address - 8) % 8 == 0
  {
  }

  lemma OneWordBack(address: nat, start: nat, width: nat)
    requires width == 4 || width == 8
    requires Aligned(address, width) && Aligned(start, width) && start < address
    ensures start <= address - width && Aligned(address - width, width)
  {
    if width == 4 {
      FourApart(address, start);
    } else {
      EightApart(address, start);
    }
  }

  lemma WordIsSpaces(ptr: seq<Byte>, base: nat, address: nat, width: nat, bigEndian: bool)
    requires width == 4 || width == 8
    requires base <= address && address + width <= base + |ptr| && Aligned(address, width)
    ensures ReadWord(ptr, base, address, width, bigEndian)
         == (if width == 4 then 0x2020_2020 else 0x2020_2020_2020_2020)
        <==> AllSpaces(ptr[address - base..address - base + width])
  {
    SpaceConstants();
    SpaceWord(ptr[address - base..address - base + width]);
  }

  lemma WordCanBeDropped(ptr: seq<Byte>, base: nat, address: nat, width: nat, bigEndian: bool)
    requires width == 4 || width == 8
    requires base <= address && address + width <= base + |ptr| && Aligned(address, width)
    requires ReadWord(ptr, base, address, width, bigEndian)
          == if width == 4 then 0x2020_2020 else 0x2020_2020_2020_2020
    requires ScanFrom(ptr, address + width - base)
    ensures ScanFrom(ptr, address - base)
  {
    WordIsSpaces(ptr, base, address, width, bigEndian);
    ScanMoves(ptr, address - base, address + width - base);
  }

  /** The byte-by-byte loop: stops at `stop` or behind a byte that is no space. */
  method SkipBytes(ptr: seq<Byte>, stop: nat, from: nat) returns (end: nat)
    requires stop <= from && ScanFrom(ptr, from)
    ensures stop <= end <= from && ScanFrom(ptr, end)
    ensures end > stop ==> ptr[end - 1] != SPACE
  {
    end := from;
    while end > stop && ptr[end - 1] == SPACE
      invariant stop <= end <= from && ScanFrom(ptr, end)
    {
      ScanMoves(ptr, end - 1, end);
      end := end - 1;
    }
  }

  /** The word-by-word loop, on addresses: every word it reads is aligned and inside the buffer. */
  method SkipWords(ptr: seq<Byte>, base: nat, startWords: nat, from: nat, width: nat, bigEndian: bool)
    returns (end: nat)
    requires width == 4 || width == 8
    requires base <= startWords < from && ScanFrom(ptr, from - base)
    requires Aligned(startWords, width) && Aligned(from, width)
    ensures startWords <= end <= from && ScanFrom(ptr, end - base)
  {
    var spaceInt := if width == 4 then 0x2020_2020 else 0x2020_2020_2020_2020;
    end := from;
    OneWordBack(end, startWords, width);
    while end > startWords && ReadWord(ptr, base, end - width, width, bigEndian) == spaceInt
      invariant startWords <= end <= from && Aligned(end, width) && ScanFrom(ptr, end - base)
      invariant end > startWords ==> startWords <= end - width && Aligned(end - width, width)
    {
      WordCanBeDropped(ptr, base, end - width, width, bigEndian);
      end := end - width;
      if end > startWords {
        OneWordBack(end, startWords, width);
      }
    }
  }

  /** The buffer starts at address `base`; words have `width` bytes, the machine's SIZEOF_INT. */
  method SkipTrailingSpaceAligned(ptr: seq<Byte>, base: nat, width: nat, bigEndian: bool) returns (end: nat)
    requires width == 4 || width == 8
    ensures end == base + Trimmed(ptr)
  {
    end := base + |ptr|;
    ScanStarts(ptr);
    if |ptr| > 20 {
      var endWords := RoundedDown(end, width);
      var startWords := RoundedDown(base + width - 1, width);
      assert base <= startWords && endWords > base;
      var zone := SkipBytes(ptr, endWords - base, |ptr|);
      end := base + zone;
      if ptr[zone - 1] == SPACE && startWords < endWords {
        end := SkipWords(ptr, base, startWords, end, width, bigEndian);
      }
    }
    var last := SkipBytes(ptr, 0, end - base);
    end := base + last;
    ScanStops(ptr, last);
  }
}
