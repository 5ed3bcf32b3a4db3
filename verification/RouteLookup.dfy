/**
 Longest-prefix route lookup over the kernel's route tables (internal/provider/linux/route_lookup.go and the
 field parsers of route_list.go).

 A line of a table is the sequence of its fields (strings.Fields); an address is its bytes, most significant
 first, and its bits are numbered from the top.
 */
module RouteLookup {
  import opened Wrappers
  import opened Strconv

  type Addr = seq<bv8>

  // ---------------------------------------------------------------- bits

  function OneBit(i: nat): bv8
    requires i < 8
  {
    if i == 0 then 0x80 else if i == 1 then 0x40 else if i == 2 then 0x20 else if i == 3 then 0x10
    else if i == 4 then 0x08 else if i == 5 then 0x04 else if i == 6 then 0x02 else 0x01
  }

  predicate Bit8(b: bv8, i: nat)
    requires i < 8
  {
    b & OneBit(i) != 0
  }

  predicate Bit(a: Addr, k: nat)
    requires k < 8 * |a|
  {
    Bit8(a[k / 8], k % 8)
  }

  // The top n bits are the same.
  predicate Agree(a: Addr, b: Addr, n: nat)
    requires |a| == |b| && n <= 8 * |a|
  {
    forall k :: 0 <= k < n ==> Bit(a, k) == Bit(b, k)
  }

  lemma ShiftedBit(b: bv8, i: nat)
    requires i < 8
    ensures ((b >> (7 - i)) & 1 == 1) <==> Bit8(b, i)
  {
    if i == 0 {} else if i == 1 {} else if i == 2 {} else if i == 3 {}
    else if i == 4 {} else if i == 5 {} else if i == 6 {} else {}
  }

  // The two bytes are the same once masked.
  predicate SameUnder(b: bv8, d: bv8, m: bv8) {
    b & m == d & m
  }

  lemma MaskedEqualBit(b: bv8, d: bv8, m: bv8, i: nat)
    requires SameUnder(b, d, m) && i < 8 && Bit8(m, i)
    ensures Bit8(b, i) == Bit8(d, i)
  {
    if i == 0 {} else if i == 1 {} else if i == 2 {} else if i == 3 {}
    else if i == 4 {} else if i == 5 {} else if i == 6 {} else {}
  }

  lemma BitsMakeByte(b: bv8, d: bv8, m: bv8)
    requires m & 0x80 != 0 ==> b & 0x80 == d & 0x80
    requires m & 0x40 != 0 ==> b & 0x40 == d & 0x40
    requires m & 0x20 != 0 ==> b & 0x20 == d & 0x20
    requires m & 0x10 != 0 ==> b & 0x10 == d & 0x10
    requires m & 0x08 != 0 ==> b & 0x08 == d & 0x08
    requires m & 0x04 != 0 ==> b & 0x04 == d & 0x04
    requires m & 0x02 != 0 ==> b & 0x02 == d & 0x02
    requires m & 0x01 != 0 ==> b & 0x01 == d & 0x01
    ensures SameUnder(b, d, m)
  {
  }

  lemma SameBit(b: bv8, d: bv8, i: nat)
    requires i < 8 && Bit8(b, i) == Bit8(d, i)
    ensures b & OneBit(i) == d & OneBit(i)
  {
    if i == 0 {} else if i == 1 {} else if i == 2 {} else if i == 3 {}
    else if i == 4 {} else if i == 5 {} else if i == 6 {} else {}
  }

  lemma MaskedEqual(b: bv8, d: bv8, m: bv8)
    ensures SameUnder(b, d, m) <==> forall i :: 0 <= i < 8 && Bit8(m, i) ==> Bit8(b, i) == Bit8(d, i)
  {
    if SameUnder(b, d, m) {
      forall i | 0 <= i < 8 && Bit8(m, i)
        ensures Bit8(b, i) == Bit8(d, i)
      {
        MaskedEqualBit(b, d, m, i);
      }
    }
    if forall i :: 0 <= i < 8 && Bit8(m, i) ==> Bit8(b, i) == Bit8(d, i) {
      forall i | 0 <= i < 8 && Bit8(m, i)
        ensures b & OneBit(i) == d & OneBit(i)
      {
        SameBit(b, d, i);
      }
      OneBitsMakeByte(b, d, m);
    }
  }

  lemma OneBitsMakeByte(b: bv8, d: bv8, m: bv8)
    requires forall i :: 0 <= i < 8 && Bit8(m, i) ==> b & OneBit(i) == d & OneBit(i)
    ensures SameUnder(b, d, m)
  {
    assert m & OneBit(0) != 0 ==> b & OneBit(0) == d & OneBit(0) by { assert Bit8(m, 0) || !Bit8(m, 0); }
    assert m & OneBit(1) != 0 ==> b & OneBit(1) == d & OneBit(1) by { assert Bit8(m, 1) || !Bit8(m, 1); }
    assert m & OneBit(2) != 0 ==> b & OneBit(2) == d & OneBit(2) by { assert Bit8(m, 2) || !Bit8(m, 2); }
    assert m & OneBit(3) != 0 ==> b & OneBit(3) == d & OneBit(3) by { assert Bit8(m, 3) || !Bit8(m, 3); }
    assert m & OneBit(4) != 0 ==> b & OneBit(4) == d & OneBit(4) by { assert Bit8(m, 4) || !Bit8(m, 4); }
    assert m & OneBit(5) != 0 ==> b & OneBit(5) == d & OneBit(5) by { assert Bit8(m, 5) || !Bit8(m, 5); }
    assert m & OneBit(6) != 0 ==> b & OneBit(6) == d & OneBit(6) by { assert Bit8(m, 6) || !Bit8(m, 6); }
    assert m & OneBit(7) != 0 ==> b & OneBit(7) == d & OneBit(7) by { assert Bit8(m, 7) || !Bit8(m, 7); }
    BitsMakeByte(b, d, m);
  }

  // byte(0xff << (8 - r))
  function TopMask(r: nat): bv8
    requires 0 < r < 8
  {
    if r == 1 then 0xFF << 7 else if r == 2 then 0xFF << 6 else if r == 3 then 0xFF << 5
    else if r == 4 then 0xFF << 4 else if r == 5 then 0xFF << 3 else if r == 6 then 0xFF << 2
    else 0xFF << 1
  }

  lemma TopMaskBits(r: nat, i: nat)
    requires 0 < r < 8 && i < 8
    ensures Bit8(TopMask(r), i) <==> i < r
  {
  }

  lemma ByteEqual(b: bv8, d: bv8)
    ensures b == d <==> forall i :: 0 <= i < 8 ==> Bit8(b, i) == Bit8(d, i)
  {
    MaskedEqual(b, d, 0xFF);
    assert b & 0xFF == b && d & 0xFF == d;
    forall i | 0 <= i < 8
      ensures Bit8(0xFF, i)
    {
      if i == 0 {} else if i == 1 {} else if i == 2 {} else if i == 3 {}
      else if i == 4 {} else if i == 5 {} else if i == 6 {} else {}
    }
  }

  // ---------------------------------------------------------------- membership

  // ip and dest agree wherever the mask has a one.
  predicate Masked(ip: Addr, dest: Addr, mask: Addr)
    requires |ip| == |dest| == |mask|
  {
    forall k :: 0 <= k < 8 * |ip| && Bit(mask, k) ==> Bit(ip, k) == Bit(dest, k)
  }

  predicate ByteMasked(ip: Addr, dest: Addr, mask: Addr, i: nat)
    requires |ip| == |dest| == |mask| && i < |ip|
  {
    SameUnder(ip[i], dest[i], mask[i])
  }

  lemma MaskedByBytes(ip: Addr, dest: Addr, mask: Addr)
    requires |ip| == |dest| == |mask|
    ensures Masked(ip, dest, mask) <==> forall i :: 0 <= i < |ip| ==> ByteMasked(ip, dest, mask, i)
  {
    if Masked(ip, dest, mask) {
      forall i | 0 <= i < |ip|
        ensures ByteMasked(ip, dest, mask, i)
      {
        MaskedByte(ip, dest, mask, i);
      }
    }
    if forall i :: 0 <= i < |ip| ==> ByteMasked(ip, dest, mask, i) {
      forall k | 0 <= k < 8 * |ip| && Bit(mask, k)
        ensures Bit(ip, k) == Bit(dest, k)
      {
        assert ByteMasked(ip, dest, mask, k / 8);
        MaskedEqualBit(ip[k / 8], dest[k / 8], mask[k / 8], k % 8);
      }
    }
  }

  lemma MaskedByte(ip: Addr, dest: Addr, mask: Addr, i: nat)
    requires |ip| == |dest| == |mask| && Masked(ip, dest, mask) && i < |ip|
    ensures ByteMasked(ip, dest, mask, i)
  {
    forall j | 0 <= j < 8 && Bit8(mask[i], j)
      ensures Bit8(ip[i], j) == Bit8(dest[i], j)
    {
      BitOfByte(ip, i, j);
      BitOfByte(dest, i, j);
      BitOfByte(mask, i, j);
      assert Bit(mask, 8 * i + j);
    }
    MaskedEqual(ip[i], dest[i], mask[i]);
  }

  lemma BitOfByte(a: Addr, i: nat, j: nat)
    requires i < |a| && j < 8
    ensures Bit(a, 8 * i + j) == Bit8(a[i], j)
  {
    assert (8 * i + j) / 8 == i && (8 * i + j) % 8 == j;
  }

  // The mask is n ones followed by zeros.
  predicate Contiguous(mask: Addr, n: nat) {
    n <= 8 * |mask| && forall k :: 0 <= k < 8 * |mask| ==> (Bit(mask, k) <==> k < n)
  }

  // Number of ones before the first zero.
  function LeadingOnes(mask: Addr, k: nat := 0): nat
    requires k <= 8 * |mask|
    decreases 8 * |mask| - k
  {
    if k == 8 * |mask| || !Bit(mask, k) then 0 else 1 + LeadingOnes(mask, k + 1)
  }

  lemma {:induction false} LeadingOnesAre(mask: Addr, n: nat, k: nat := 0)
    requires k <= n <= 8 * |mask|
    requires forall j :: 0 <= j < n ==> Bit(mask, j)
    requires n == 8 * |mask| || !Bit(mask, n)
    ensures LeadingOnes(mask, k) == n - k
    decreases n - k
  {
    if k == n {
    } else {
      LeadingOnesAre(mask, n, k + 1);
    }
  }

  // For a contiguous mask, membership is agreement of the top bits.
  lemma ContiguousMasked(ip: Addr, dest: Addr, mask: Addr, n: nat)
    requires |ip| == |dest| == |mask| && Contiguous(mask, n)
    ensures Masked(ip, dest, mask) <==> Agree(ip, dest, n)
  {
  }

  method Ipv4InNetwork(ip: Addr, dest: Option<Addr>, mask: Option<Addr>) returns (inside: bool)
    requires |ip| == 4 && (dest.Some? ==> |dest.value| == 4) && (mask.Some? ==> |mask.value| == 4)
    ensures inside <==> dest.Some? && mask.Some? && Masked(ip, dest.value, mask.value)
  {
    if dest.None? || mask.None? {
      return false;
    }
    MaskedByBytes(ip, dest.value, mask.value);
    var i := 0;
    while i < 4
      invariant 0 <= i <= 4
      invariant forall j :: 0 <= j < i ==> ByteMasked(ip, dest.value, mask.value, j)
    {
      if !SameUnder(ip[i], dest.value[i], mask.value[i]) {
        assert !ByteMasked(ip, dest.value, mask.value, i);
        return false;
      }
      i := i + 1;
    }
    return true;
  }

  // Agreement of n = 8 * full + rem bits: the first full bytes, then the top rem bits of the next one.
  lemma AgreeByBytes(ip: Addr, dest: Addr, n: nat)
    requires |ip| == |dest| && n <= 8 * |ip|
    ensures Agree(ip, dest, n) <==> FullBytesEqual(ip, dest, n / 8) && (n % 8 > 0 ==> RestEqual(ip, dest, n))
  {
    if Agree(ip, dest, n) {
      forall i | 0 <= i < n / 8
        ensures ip[i] == dest[i]
      {
        AgreeByte(ip, dest, n, i);
        ByteEqual(ip[i], dest[i]);
      }
      if n % 8 > 0 { AgreeRest(ip, dest, n); }
    }
    if FullBytesEqual(ip, dest, n / 8) && (n % 8 > 0 ==> RestEqual(ip, dest, n)) {
      forall k | 0 <= k < n
        ensures Bit(ip, k) == Bit(dest, k)
      {
        if k / 8 == n / 8 {
          RestEqualBit(ip, dest, n, k);
        }
      }
    }
  }

  predicate FullBytesEqual(ip: Addr, dest: Addr, full: nat)
    requires |ip| == |dest| && full <= |ip|
  {
    forall i :: 0 <= i < full ==> ip[i] == dest[i]
  }

  predicate TopEqual(b: bv8, d: bv8, r: nat)
    requires 0 < r < 8
  {
    SameUnder(b, d, TopMask(r))
  }

  predicate RestEqual(ip: Addr, dest: Addr, n: nat)
    requires |ip| == |dest| && n <= 8 * |ip| && n % 8 > 0
  {
    TopEqual(ip[n / 8], dest[n / 8], n % 8)
  }

  lemma RestEqualBit(ip: Addr, dest: Addr, n: nat, k: nat)
    requires |ip| == |dest| && n <= 8 * |ip| && n % 8 > 0 && RestEqual(ip, dest, n)
    requires k < n && k / 8 == n / 8
    ensures Bit(ip, k) == Bit(dest, k)
  {
    TopMaskBits(n % 8, k % 8);
    MaskedEqualBit(ip[n / 8], dest[n / 8], TopMask(n % 8), k % 8);
  }

  lemma AgreeByte(ip: Addr, dest: Addr, n: nat, i: nat)
    requires |ip| == |dest| && n <= 8 * |ip| && Agree(ip, dest, n) && i < n / 8
    ensures forall j :: 0 <= j < 8 ==> Bit8(ip[i], j) == Bit8(dest[i], j)
  {
    forall j | 0 <= j < 8
      ensures Bit8(ip[i], j) == Bit8(dest[i], j)
    {
      BitOfByte(ip, i, j);
      BitOfByte(dest, i, j);
      assert Bit(ip, 8 * i + j) == Bit(dest, 8 * i + j);
    }
  }

  lemma AgreeRest(ip: Addr, dest: Addr, n: nat)
    requires |ip| == |dest| && n <= 8 * |ip| && Agree(ip, dest, n) && n % 8 > 0
    ensures RestEqual(ip, dest, n)
  {
    var full, rem := n / 8, n % 8;
    var mask := TopMask(rem);
    forall j | 0 <= j < 8 && Bit8(mask, j)
      ensures Bit8(ip[full], j) == Bit8(dest[full], j)
    {
      TopMaskBits(rem, j);
      BitOfByte(ip, full, j);
      BitOfByte(dest, full, j);
      assert Bit(ip, 8 * full + j) == Bit(dest, 8 * full + j);
    }
    MaskedEqual(ip[full], dest[full], mask);
  }

  method Ipv6InNetwork(ip: Addr, dest: Option<Addr>, prefixLen: int) returns (inside: bool)
    requires |ip| == 16 && (dest.Some? ==> |dest.value| == 16)
    ensures inside <==> dest.Some? && 0 <= prefixLen <= 128 && Agree(ip, dest.value, prefixLen)
  {
    if dest.None? {
      return false;
    }
    if prefixLen < 0 || prefixLen > 128 {
      return false;
    }
    AgreeByBytes(ip, dest.value, prefixLen);
    var fullBytes := prefixLen / 8;
    var remBits := prefixLen % 8;
    inside := SameBytes(ip, dest.value, fullBytes);
    if inside && remBits > 0 {
      inside := SameTopBits(ip[fullBytes], dest.value[fullBytes], remBits);
    }
  }

  method SameBytes(ip: Addr, dest: Addr, fullBytes: nat) returns (same: bool)
    requires |ip| == |dest| && fullBytes <= |ip|
    ensures same <==> FullBytesEqual(ip, dest, fullBytes)
  {
    var i := 0;
    while i < fullBytes
      invariant 0 <= i <= fullBytes
      invariant FullBytesEqual(ip, dest, i)
    {
      if ip[i] != dest[i] {
        return false;
      }
      i := i + 1;
    }
    return true;
  }

  method SameTopBits(b: bv8, d: bv8, remBits: nat) returns (same: bool)
    requires 0 < remBits < 8
    ensures same <==> TopEqual(b, d, remBits)
  {
    var mask := TopMask(remBits);
    return SameUnder(b, d, mask);
  }

  // ---------------------------------------------------------------- route_list.go: fields of a line

  // Little-endian hexadecimal of a 32-bit word, most significant byte of the address first in the result.
  function ParseIpv4Hex(hex: string): Option<Addr> {
    match ParseHex(hex, 0xFFFF_FFFF)
    case None => None
    case Some(v) => Some([ByteOf(v), ByteOf(v / 0x100), ByteOf(v / 0x1_0000), ByteOf(v / 0x100_0000)])
  }

  function ByteOf(v: nat): bv8 {
    (v % 256) as bv8
  }

  // How the kernel prints an address: %08X of the word whose lowest byte is the address's first.
  function KernelHex4(a: nat, b: nat, c: nat, d: nat): string
    requires a < 256 && b < 256 && c < 256 && d < 256
  {
    Hex2(d) + Hex2(c) + Hex2(b) + Hex2(a)
  }

  // Reading back what the kernel printed gives the address.
  lemma Ipv4HexRoundTrip(a: nat, b: nat, c: nat, d: nat)
    requires a < 256 && b < 256 && c < 256 && d < 256
    ensures ParseIpv4Hex(KernelHex4(a, b, c, d)) == Some([a as bv8, b as bv8, c as bv8, d as bv8])
  {
    var word := ((d * 256 + c) * 256 + b) * 256 + a;
    WordOfHex(a, b, c, d);
    WordBytes(a, b, c, d);
    ReadWord(KernelHex4(a, b, c, d), word);
    assert ByteOf(word) == a as bv8;
    assert ByteOf(word / 0x100) == b as bv8;
    assert ByteOf(word / 0x1_0000) == c as bv8;
    assert ByteOf(word / 0x100_0000) == d as bv8;
  }

  lemma ReadWord(hex: string, word: nat)
    requires AllHex(hex) && hex != "" && HexValue(hex) == word <= 0xFFFF_FFFF
    ensures ParseIpv4Hex(hex) ==
            Some([ByteOf(word), ByteOf(word / 0x100), ByteOf(word / 0x1_0000), ByteOf(word / 0x100_0000)])
  {
  }

  lemma WordOfHex(a: nat, b: nat, c: nat, d: nat)
    requires a < 256 && b < 256 && c < 256 && d < 256
    ensures var hex := KernelHex4(a, b, c, d);
            hex != "" && AllHex(hex) && HexValue(hex) == ((d * 256 + c) * 256 + b) * 256 + a
  {
    Hex2Value("", d);
    assert "" + Hex2(d) == Hex2(d);
    Hex2Value(Hex2(d), c);
    Hex2Value(Hex2(d) + Hex2(c), b);
    Hex2Value(Hex2(d) + Hex2(c) + Hex2(b), a);
  }

  lemma WordBytes(a: nat, b: nat, c: nat, d: nat)
    requires a < 256 && b < 256 && c < 256 && d < 256
    ensures var v := ((d * 256 + c) * 256 + b) * 256 + a;
            && v <= 0xFFFF_FFFF && v % 256 == a && (v / 0x100) % 256 == b
            && (v / 0x1_0000) % 256 == c && (v / 0x100_0000) % 256 == d
  {
    var v := ((d * 256 + c) * 256 + b) * 256 + a;
    assert v / 0x100 == (d * 256 + c) * 256 + b;
    assert v / 0x1_0000 == d * 256 + c;
    assert v / 0x100_0000 == d;
  }

  // The mask's leading ones, counted byte by byte and bit by bit; 0 when the mask could not be parsed.
  method MaskBitsFromIpv4(mask: Option<Addr>) returns (bits: nat)
    requires mask.Some? ==> |mask.value| == 4
    ensures bits == if mask.Some? then LeadingOnes(mask.value) else 0
  {
    if mask.None? {
      return 0;
    }
    bits := 0;
    var i := 0;
    while i < 4
      invariant 0 <= i <= 4 && bits == 8 * i
      invariant forall k :: 0 <= k < bits ==> Bit(mask.value, k)
    {
      var b := mask.value[i];
      var j := 7;
      while j >= 0
        invariant -1 <= j <= 7 && bits == 8 * i + 7 - j
        invariant forall k :: 0 <= k < bits ==> Bit(mask.value, k)
      {
        ShiftedBit(b, 7 - j);
        BitOfByte(mask.value, i, 7 - j);
        if (b >> j) & 1 == 1 {
          bits := bits + 1;
        } else {
          LeadingOnesAre(mask.value, bits);
          return bits;
        }
        j := j - 1;
      }
      i := i + 1;
    }
    LeadingOnesAre(mask.value, 32);
  }

  // The address a 32-digit field stands for: within each group of four the bytes are reversed.
  function ParseIpv6(hex: string): Option<Addr> {
    if |hex| != 32 || !AllHex(hex) then None
    else Some(seq(16, i requires 0 <= i < 16 => HexByte(hex, Swapped(i))))
  }

  function Swapped(i: nat): nat
    requires i < 16
  {
    if i < 4 then 3 - i else if i < 8 then 11 - i else if i < 12 then 19 - i else 27 - i
  }

  lemma SwappedIs(i: nat)
    requires i < 16
    ensures Swapped(i) == 4 * (i / 4) + 3 - i % 4
  {
  }

  predicate HexAt(hex: string, i: nat) {
    2 * i + 2 <= |hex| && HexDigit(hex[2 * i]).Some? && HexDigit(hex[2 * i + 1]).Some?
  }

  // The byte written as the i-th pair of digits.
  function HexByte(hex: string, i: nat): bv8
    requires HexAt(hex, i)
  {
    ByteOf(HexDigit(hex[2 * i]).value * 16 + HexDigit(hex[2 * i + 1]).value)
  }

  lemma PairOfDigits(hex: string, i: nat)
    requires 2 * i + 2 <= |hex|
    ensures ParseHex(hex[i * 2..(i + 1) * 2], 0xFF).Some? <==> HexAt(hex, i)
    ensures HexAt(hex, i) ==> ByteOf(ParseHex(hex[i * 2..(i + 1) * 2], 0xFF).value) == HexByte(hex, i)
  {
    var s := hex[i * 2..(i + 1) * 2];
    assert s[0] == hex[2 * i] && s[1] == hex[2 * i + 1];
    assert HexAt(hex, i) <==> AllHex(s);
    if AllHex(s) {
      assert s[..1][..0] == "" && HexValue(s[..1]) == HexDigit(s[0]).value;
    }
  }

  lemma AllHexByPairs(hex: string)
    requires |hex| == 32
    ensures AllHex(hex) <==> forall i :: 0 <= i < 16 ==> HexAt(hex, i)
  {
    if forall i :: 0 <= i < 16 ==> HexAt(hex, i) {
      forall k | 0 <= k < 32
        ensures HexDigit(hex[k]).Some?
      {
        assert HexAt(hex, k / 2);
      }
    }
  }

  // c is the digit for v, in either case.
  predicate IsNibble(c: char, v: nat) {
    v < 16 && (c == "0123456789abcdef"[v] || c == "0123456789ABCDEF"[v])
  }

  lemma NibbleIs(c: char, v: nat)
    ensures HexDigit(c) == Some(v) <==> IsNibble(c, v)
  {
  }

  predicate IsByte(c: char, d: char, b: bv8) {
    exists high: nat, low: nat | high < 16 && low < 16 ::
      IsNibble(c, high) && IsNibble(d, low) && b == (16 * high + low) as bv8
  }

  // The i-th pair of digits is the byte j.
  predicate PairIs(hex: string, i: nat, a: Addr, j: nat)
    requires 2 * i + 2 <= |hex| && j < |a|
  {
    IsByte(hex[2 * i], hex[2 * i + 1], a[j])
  }

  // The text is the bytes of the address, two digits each, with every group of four in reverse (SwappedIs).
  predicate IsIpv6Text(hex: string, a: Addr) {
    |hex| == 32 && |a| == 16 && forall i: nat :: i < 16 ==> PairIs(hex, i, a, Swapped(i))
  }

  lemma ByteIs(c: char, d: char, b: bv8)
    ensures IsByte(c, d, b) <==>
            HexDigit(c).Some? && HexDigit(d).Some? && ByteOf(HexDigit(c).value * 16 + HexDigit(d).value) == b
  {
    forall v: nat
      ensures HexDigit(c) == Some(v) <==> IsNibble(c, v)
      ensures HexDigit(d) == Some(v) <==> IsNibble(d, v)
    {
      NibbleIs(c, v);
      NibbleIs(d, v);
    }
  }

  predicate ReadsAs(hex: string, a: Addr, i: nat)
    requires |hex| == 32 && |a| == 16 && i < 16
  {
    HexAt(hex, i) && HexByte(hex, i) == a[Swapped(i)]
  }

  lemma PairAt(hex: string, a: Addr, i: nat)
    requires |hex| == 32 && |a| == 16 && i < 16
    ensures PairIs(hex, i, a, Swapped(i)) <==> ReadsAs(hex, a, i)
  {
    ByteIs(hex[2 * i], hex[2 * i + 1], a[Swapped(i)]);
  }

  lemma TextAt(hex: string, a: Addr)
    requires |hex| == 32 && |a| == 16
    ensures IsIpv6Text(hex, a) <==> forall i: nat :: i < 16 ==> ReadsAs(hex, a, i)
  {
    forall i: nat | i < 16
      ensures PairIs(hex, i, a, Swapped(i)) <==> ReadsAs(hex, a, i)
    {
      PairAt(hex, a, i);
    }
  }

  lemma ParsedAt(hex: string, a: Addr)
    requires |hex| == 32 && |a| == 16
    ensures ParseIpv6(hex) == Some(a) <==>
            forall i: nat :: i < 16 ==> ReadsAs(hex, a, i)
  {
    AllHexByPairs(hex);
    if forall i: nat :: i < 16 ==> ReadsAs(hex, a, i) {
      forall i: nat | i < 16
        ensures HexAt(hex, i)
      {
        assert ReadsAs(hex, a, i);
      }
      forall i: nat | i < 16
        ensures ParseIpv6(hex).Some? && ParseIpv6(hex).value[i] == a[i]
      {
        SwappedTwice(i);
        assert ReadsAs(hex, a, Swapped(i));
      }
      assert ParseIpv6(hex).value == a;
    }
    if ParseIpv6(hex) == Some(a) {
      forall i: nat | i < 16
        ensures ReadsAs(hex, a, i)
      {
        SwappedTwice(i);
      }
    }
  }

  lemma SwappedTwice(i: nat)
    requires i < 16
    ensures Swapped(i) < 16 && Swapped(Swapped(i)) == i
  {
  }

  // The field is read as this address exactly if it is its text.
  lemma Ipv6TextIff(hex: string, a: Addr)
    ensures ParseIpv6(hex) == Some(a) <==> IsIpv6Text(hex, a)
  {
    if |hex| == 32 && |a| == 16 {
      ParsedAt(hex, a);
      TextAt(hex, a);
    }
  }

  method ParseIpv6Hex(hex: string) returns (ip: Option<Addr>)
    ensures ip == ParseIpv6(hex)
    ensures forall a :: ip == Some(a) <==> IsIpv6Text(hex, a)
  {
    forall a
      ensures ParseIpv6(hex) == Some(a) <==> IsIpv6Text(hex, a)
    {
      Ipv6TextIff(hex, a);
    }
    if |hex| != 32 {
      return None;
    }
    AllHexByPairs(hex);
    var buffer := new bv8[16];
    var i := 0;
    while i < 16
      invariant 0 <= i <= 16
      invariant forall j :: 0 <= j < i ==> HexAt(hex, j) && buffer[j] == HexByte(hex, j)
    {
      PairOfDigits(hex, i);
      var b := ParseHex(hex[i * 2..(i + 1) * 2], 0xFF);
      if b.None? {
        return None;
      }
      buffer[i] := ByteOf(b.value);
      i := i + 1;
    }
    ReverseGroups(buffer);
    assert buffer[..] == seq(16, i requires 0 <= i < 16 => HexByte(hex, Swapped(i)));
    return Some(buffer[..]);
  }

  // Reverse every group of four bytes in place.
  method ReverseGroups(ip: array<bv8>)
    requires ip.Length == 16
    modifies ip
    ensures forall i :: 0 <= i < 16 ==> ip[i] == old(ip[Swapped(i)])
  {
    var i := 0;
    while i < 4
      invariant 0 <= i <= 4
      invariant forall k :: 0 <= k < 4 * i ==> ip[k] == old(ip[Swapped(k)])
      invariant forall k :: 4 * i <= k < 16 ==> ip[k] == old(ip[k])
    {
      ReverseGroup(ip, 4 * i);
      i := i + 1;
    }
  }

  method ReverseGroup(ip: array<bv8>, first: nat)
    requires first + 4 <= ip.Length
    modifies ip
    ensures forall k :: first <= k < first + 4 ==> ip[k] == old(ip[first + first + 3 - k])
    ensures forall k :: 0 <= k < first || first + 4 <= k < ip.Length ==> ip[k] == old(ip[k])
  {
    var j := 0;
    while j < 2
      invariant 0 <= j <= 2
      invariant forall k :: first <= k < first + 4 ==>
        ip[k] == if first + j <= k < first + 4 - j then old(ip[k]) else old(ip[first + first + 3 - k])
      invariant forall k :: 0 <= k < first || first + 4 <= k < ip.Length ==> ip[k] == old(ip[k])
    {
      ip[first + j], ip[first + 3 - j] := ip[first + 3 - j], ip[first + j];
      j := j + 1;
    }
  }

  // ---------------------------------------------------------------- the best row

  type Line = seq<string>

  datatype Target = Default | Network(addr: Addr, bits: int) | Host(addr: Addr)

  // NoGateway is the all-zero address, which is not reported; Unparsed prints as <nil>.
  datatype Gateway = NoGateway | Via(addr: Addr) | Unparsed

  datatype Source = Source(addr: Option<Addr>, bits: int)

  datatype RouteInfo = RouteInfo(dest: Target, gateway: Gateway, iface: string, metric: int, source: Option<Source>)

  function GatewayOf(addr: Option<Addr>): Gateway {
    match addr
    case None => Unparsed
    case Some(a) => if forall i :: 0 <= i < |a| ==> a[i] == 0 then NoGateway else Via(a)
  }

  // A row that contains the address: its prefix length and what is reported if it is chosen.
  datatype Candidate = Candidate(bits: nat, route: RouteInfo)

  // Row r is the earliest among those with the longest prefix; other rows do not contain the address.
  ghost predicate Wins(rows: seq<Option<Candidate>>, r: nat) {
    WinsOf(rows, |rows|, r)
  }

  // The same among the first n rows.
  ghost predicate WinsOf(rows: seq<Option<Candidate>>, n: nat, r: nat)
    requires n <= |rows|
  {
    && r < n && rows[r].Some?
    && (forall j :: 0 <= j < n && rows[j].Some? ==> rows[j].value.bits <= rows[r].value.bits)
    && (forall j :: 0 <= j < r && rows[j].Some? ==> rows[j].value.bits < rows[r].value.bits)
  }

  // What a lookup promises: nothing iff no row contains the address, otherwise the winning row's route.
  ghost predicate Chosen(rows: seq<Option<Candidate>>, best: Option<RouteInfo>) {
    && (best.None? <==> forall j :: 0 <= j < |rows| ==> rows[j].None?)
    && (best.Some? ==> exists r: nat :: Wins(rows, r) && best.value == rows[r].value.route)
  }

  lemma OnlyOneIsChosen(rows: seq<Option<Candidate>>, a: Option<RouteInfo>, b: Option<RouteInfo>)
    requires Chosen(rows, a) && Chosen(rows, b)
    ensures a == b
  {
    if a.Some? {
      var r: nat :| Wins(rows, r) && a.value == rows[r].value.route;
      var q: nat :| Wins(rows, q) && b.value == rows[q].value.route;
      assert r == q;
    }
  }

  // The first i rows have been seen and `row` is the best of them so far.
  ghost predicate BestOf(rows: seq<Option<Candidate>>, i: nat, row: Option<nat>, bestBits: int, best: Option<RouteInfo>)
    requires i <= |rows|
  {
    match row
    case None => best.None? && bestBits == -1 && forall j :: 0 <= j < i ==> rows[j].None?
    case Some(r) =>
      WinsOf(rows, i, r) && bestBits == rows[r].value.bits && best == Some(rows[r].value.route)
  }

  // A later row takes over exactly when its prefix is strictly longer than the best so far.
  lemma NextRow(rows: seq<Option<Candidate>>, i: nat, row: Option<nat>, bestBits: int, best: Option<RouteInfo>)
    requires i < |rows| && BestOf(rows, i, row, bestBits, best)
    ensures
      if rows[i].Some? && rows[i].value.bits > bestBits then
        BestOf(rows, i + 1, Some(i), rows[i].value.bits, Some(rows[i].value.route))
      else BestOf(rows, i + 1, row, bestBits, best)
  {
  }

  lemma AllSeen(rows: seq<Option<Candidate>>, row: Option<nat>, bestBits: int, best: Option<RouteInfo>)
    requires BestOf(rows, |rows|, row, bestBits, best)
    ensures Chosen(rows, best)
  {
  }

  // ---------------------------------------------------------------- IPv4

  function Candidate4(line: Line, ip: Addr): Option<Candidate>
    requires |ip| == 4
  {
    if |line| < 8 then None
    else
      var dest, mask := ParseIpv4Hex(line[1]), ParseIpv4Hex(line[7]);
      if dest.None? || mask.None? || !Masked(ip, dest.value, mask.value) then None
      else
        var bits := LeadingOnes(mask.value);
        Some(Candidate(bits,
          RouteInfo(if bits == 0 then Default else if bits < 32 then Network(dest.value, bits) else Host(dest.value),
                    GatewayOf(ParseIpv4Hex(line[2])), line[0], Atoi(line[6]).0, None)))
  }

  // The header line is not a candidate.
  function Candidates4(lines: seq<Line>, ip: Addr): seq<Option<Candidate>>
    requires |ip| == 4
  {
    seq(|lines|, i requires 0 <= i < |lines| => if i == 0 then None else Candidate4(lines[i], ip))
  }

  method JudgeIpv4(line: Line, ip: Addr) returns (candidate: Option<Candidate>)
    requires |ip| == 4
    ensures candidate == Candidate4(line, ip)
  {
    if |line| < 8 {
      return None;
    }
    var destIp := ParseIpv4Hex(line[1]);
    var maskIp := ParseIpv4Hex(line[7]);
    var maskBits := MaskBitsFromIpv4(maskIp);
    var inside := Ipv4InNetwork(ip, destIp, maskIp);
    if !inside {
      return None;
    }
    var dest := Host(destIp.value);
    if maskBits == 0 {
      dest := Default;
    } else if maskBits < 32 {
      dest := Network(destIp.value, maskBits);
    }
    return Some(Candidate(maskBits,
      RouteInfo(dest, GatewayOf(ParseIpv4Hex(line[2])), line[0], Atoi(line[6]).0, None)));
  }

  method JudgeIpv4Row(lines: seq<Line>, ip: Addr, i: nat, ghost rows: seq<Option<Candidate>>)
    returns (candidate: Option<Candidate>)
    requires |ip| == 4 && 0 < i < |lines| && rows == Candidates4(lines, ip)
    ensures candidate == rows[i]
  {
    candidate := JudgeIpv4(lines[i], ip);
  }

  // The loop over the rows after the header.
  method BestIpv4Row(lines: seq<Line>, ip: Addr, ghost rows: seq<Option<Candidate>>)
    returns (best: Option<RouteInfo>)
    requires |ip| == 4 && lines != [] && rows == Candidates4(lines, ip) && rows[0].None?
    ensures Chosen(rows, best)
  {
    ghost var row: Option<nat> := None;
    best := None;
    var bestBits: int := -1;
    var i := 1;
    while i < |lines|
      invariant 1 <= i <= |lines|
      invariant BestOf(rows, i, row, bestBits, best)
    {
      var candidate := JudgeIpv4Row(lines, ip, i, rows);
      NextRow(rows, i, row, bestBits, best);
      if candidate.Some? && candidate.value.bits > bestBits {
        bestBits := candidate.value.bits;
        best := Some(candidate.value.route);
        row := Some(i);
      }
      i := i + 1;
    }
    AllSeen(rows, row, bestBits, best);
  }

  // A slice past the end panics.
  datatype Panic = SliceOutOfRange

  // Panics on a table without even a header line. Otherwise no route iff no line contains the address, and else
  // the earliest line with the longest prefix.
  method LookupIpv4Route(lines: seq<Line>, ip: Addr) returns (result: Result<Option<RouteInfo>, Panic>)
    requires |ip| == 4
    ensures result.Err? <==> lines == []
    ensures result.Ok? ==> Chosen(Candidates4(lines, ip), result.value) && IsAnswer4(lines, ip, result.value)
  {
    if |lines| == 0 {
      return Err(SliceOutOfRange);
    }
    var best := BestIpv4Row(lines, ip, Candidates4(lines, ip));
    ReportedIpv4Row(lines, ip, best);
    return Ok(best);
  }

  // ---------------------------------------------------------------- IPv6

  function Candidate6(line: Line, ip: Addr): Option<Candidate>
    requires |ip| == 16
  {
    if |line| < 10 then None
    else
      var dest, bits, sourceBits := ParseIpv6(line[0]), Atoi(line[1]).0, Atoi(line[3]).0;
      if dest.None? || bits < 0 || bits > 128 || !Agree(ip, dest.value, bits) then None
      else
        Some(Candidate(bits,
          RouteInfo(if bits == 0 then Default else Network(dest.value, bits), GatewayOf(ParseIpv6(line[4])), line[9],
                    Atoi(line[5]).0, if sourceBits > 0 then Some(Source(ParseIpv6(line[2]), sourceBits)) else None)))
  }

  function Candidates6(lines: seq<Line>, ip: Addr): seq<Option<Candidate>>
    requires |ip| == 16
  {
    seq(|lines|, i requires 0 <= i < |lines| => Candidate6(lines[i], ip))
  }

  method JudgeIpv6(line: Line, ip: Addr) returns (candidate: Option<Candidate>)
    requires |ip| == 16
    ensures candidate == Candidate6(line, ip)
  {
    if |line| < 10 {
      return None;
    }
    var destLen := Atoi(line[1]).0;
    var srcLen := Atoi(line[3]).0;
    var destIp := ParseIpv6Hex(line[0]);
    var inside := Ipv6InNetwork(ip, destIp, destLen);
    if !inside {
      return None;
    }
    var gatewayIp := ParseIpv6Hex(line[4]);
    var srcIp := ParseIpv6Hex(line[2]);
    var dest := Network(destIp.value, destLen);
    if destLen == 0 {
      dest := Default;
    }
    var source := None;
    if srcLen > 0 {
      source := Some(Source(srcIp, srcLen));
    }
    return Some(Candidate(destLen, RouteInfo(dest, GatewayOf(gatewayIp), line[9], Atoi(line[5]).0, source)));
  }

  method JudgeIpv6Row(lines: seq<Line>, ip: Addr, i: nat, ghost rows: seq<Option<Candidate>>)
    returns (candidate: Option<Candidate>)
    requires |ip| == 16 && i < |lines| && rows == Candidates6(lines, ip)
    ensures candidate == rows[i]
  {
    candidate := JudgeIpv6(lines[i], ip);
  }

  // The loop over the rows.
  method BestIpv6Row(lines: seq<Line>, ip: Addr, ghost rows: seq<Option<Candidate>>)
    returns (best: Option<RouteInfo>)
    requires |ip| == 16 && rows == Candidates6(lines, ip)
    ensures Chosen(rows, best)
  {
    ghost var row: Option<nat> := None;
    best := None;
    var bestBits: int := -1;
    var i := 0;
    while i < |lines|
      invariant 0 <= i <= |lines|
      invariant BestOf(rows, i, row, bestBits, best)
    {
      var candidate := JudgeIpv6Row(lines, ip, i, rows);
      NextRow(rows, i, row, bestBits, best);
      if candidate.Some? && candidate.value.bits > bestBits {
        bestBits := candidate.value.bits;
        best := Some(candidate.value.route);
        row := Some(i);
      }
      i := i + 1;
    }
    AllSeen(rows, row, bestBits, best);
  }

  method LookupIpv6Route(lines: seq<Line>, ip: Addr) returns (best: Option<RouteInfo>)
    requires |ip| == 16
    ensures Chosen(Candidates6(lines, ip), best) && IsAnswer6(lines, ip, best)
  {
    best := BestIpv6Row(lines, ip, Candidates6(lines, ip));
    ReportedIpv6Row(lines, ip, best);
  }

  // ---------------------------------------------------------------- the chosen network is the innermost

  function Flip(a: Addr, k: nat): Addr
    requires k < 8 * |a|
  {
    a[k / 8 := a[k / 8] ^ OneBit(k % 8)]
  }

  lemma FlipBit8(b: bv8, i: nat, j: nat)
    requires i < 8 && j < 8
    ensures Bit8(b ^ OneBit(i), j) == if i == j then !Bit8(b, j) else Bit8(b, j)
  {
  }

  lemma FlipBit(a: Addr, k: nat, j: nat)
    requires k < 8 * |a| && j < 8 * |a|
    ensures Bit(Flip(a, k), j) == if j == k then !Bit(a, j) else Bit(a, j)
  {
    if k / 8 == j / 8 { FlipBit8(a[k / 8], k % 8, j % 8); }
  }

  // The network of d1 and m1 lies inside that of d2 and m2.
  ghost predicate Inside(d1: Addr, m1: Addr, d2: Addr, m2: Addr)
    requires |d1| == |m1| == |d2| == |m2|
  {
    forall a: Addr :: |a| == |d1| && Masked(a, d1, m1) ==> Masked(a, d2, m2)
  }

  // Of two networks that share an address, one lies inside the other iff its mask has all the other's ones.
  lemma InsideIffMaskCovers(ip: Addr, d1: Addr, m1: Addr, d2: Addr, m2: Addr)
    requires |ip| == |d1| == |m1| == |d2| == |m2|
    requires Masked(ip, d1, m1) && Masked(ip, d2, m2)
    ensures Inside(d1, m1, d2, m2) <==> forall k :: 0 <= k < 8 * |ip| && Bit(m2, k) ==> Bit(m1, k)
  {
    if Inside(d1, m1, d2, m2) {
      forall k | 0 <= k < 8 * |ip| && Bit(m2, k)
        ensures Bit(m1, k)
      {
        if !Bit(m1, k) {
          FlipOutside(ip, d1, m1, d2, m2, k);
        }
      }
    }
  }

  // Flipping a bit that only the second mask looks at leads out of the second network only.
  lemma FlipOutside(ip: Addr, d1: Addr, m1: Addr, d2: Addr, m2: Addr, k: nat)
    requires |ip| == |d1| == |m1| == |d2| == |m2| && k < 8 * |ip|
    requires Masked(ip, d1, m1) && Masked(ip, d2, m2) && Bit(m2, k) && !Bit(m1, k)
    ensures !Inside(d1, m1, d2, m2)
  {
    var a := Flip(ip, k);
    forall j | 0 <= j < 8 * |a| && Bit(m1, j)
      ensures Bit(a, j) == Bit(d1, j)
    {
      FlipBit(ip, k, j);
    }
    FlipBit(ip, k, k);
    assert Masked(a, d1, m1) && !Masked(a, d2, m2);
  }

  // IPv4, contiguous masks: every address of the chosen network is in every other matching network.
  lemma ChosenIpv4IsInnermost(lines: seq<Line>, ip: Addr, r: nat, j: nat, n: nat, m: nat)
    requires |ip| == 4 && Wins(Candidates4(lines, ip), r)
    requires j < |lines| && Candidates4(lines, ip)[j].Some?
    requires Contiguous(ParseIpv4Hex(lines[r][7]).value, n) && Contiguous(ParseIpv4Hex(lines[j][7]).value, m)
    ensures Inside(ParseIpv4Hex(lines[r][1]).value, ParseIpv4Hex(lines[r][7]).value,
                   ParseIpv4Hex(lines[j][1]).value, ParseIpv4Hex(lines[j][7]).value)
  {
    var rMask, jMask := ParseIpv4Hex(lines[r][7]).value, ParseIpv4Hex(lines[j][7]).value;
    assert Candidates4(lines, ip)[j] == Candidate4(lines[j], ip);
    assert Candidates4(lines, ip)[r] == Candidate4(lines[r], ip);
    LeadingOnesAre(rMask, n);
    LeadingOnesAre(jMask, m);
    InsideIffMaskCovers(ip, ParseIpv4Hex(lines[r][1]).value, rMask, ParseIpv4Hex(lines[j][1]).value, jMask);
  }

  // IPv6: the same, always.
  lemma ChosenIpv6IsInnermost(lines: seq<Line>, ip: Addr, r: nat, j: nat, a: Addr)
    requires |ip| == 16 && Wins(Candidates6(lines, ip), r)
    requires j < |lines| && Candidates6(lines, ip)[j].Some?
    requires |a| == 16 && Candidate6(lines[r], a).Some?
    ensures Candidate6(lines[j], a).Some?
  {
    assert Candidates6(lines, ip)[j] == Candidate6(lines[j], ip);
    assert Candidates6(lines, ip)[r] == Candidate6(lines[r], ip);
  }

  // ---------------------------------------------------------------- the reported target

  // Agreement of all bits is equality.
  lemma AgreeOnAll(a: Addr, b: Addr)
    requires |a| == |b| && Agree(a, b, 8 * |a|)
    ensures a == b
  {
    forall i | 0 <= i < |a|
      ensures a[i] == b[i]
    {
      AgreeByte(a, b, 8 * |a|, i);
      ByteEqual(a[i], b[i]);
    }
  }

  // The address is in the reported network.
  predicate Holds(target: Target, ip: Addr) {
    match target
    case Default => true
    case Network(addr, bits) => |addr| == |ip| && 0 < bits <= 8 * |ip| && Agree(ip, addr, bits)
    case Host(addr) => addr == ip
  }

  function LengthOf(target: Target): int {
    match target
    case Default => 0
    case Network(_, bits) => bits
    case Host(addr) => 8 * |addr|
  }

  // A row of the IPv4 table whose network contains the address.
  predicate Contains4(line: Line, ip: Addr)
    requires |ip| == 4
  {
    && |line| >= 8 && ParseIpv4Hex(line[1]).Some? && ParseIpv4Hex(line[7]).Some?
    && Masked(ip, ParseIpv4Hex(line[1]).value, ParseIpv4Hex(line[7]).value)
  }

  // IPv4, contiguous mask: what is reported for a row holds the address that was looked up.
  lemma ReportedIpv4HoldsAddress(line: Line, ip: Addr, n: nat)
    requires |ip| == 4 && Contains4(line, ip) && Contiguous(ParseIpv4Hex(line[7]).value, n)
    ensures Candidate4(line, ip).Some? && Candidate4(line, ip).value.bits == n
    ensures var target := Candidate4(line, ip).value.route.dest; Holds(target, ip) && LengthOf(target) == n
  {
    var dest, mask := ParseIpv4Hex(line[1]).value, ParseIpv4Hex(line[7]).value;
    LeadingOnesAre(mask, n);
    ContiguousMasked(ip, dest, mask, n);
    if n == 32 { AgreeOnAll(ip, dest); }
  }

  // Every mask of the rows that contain the address is contiguous.
  predicate WellMasked(lines: seq<Line>, ip: Addr)
    requires |ip| == 4
  {
    forall j :: 0 < j < |lines| && Contains4(lines[j], ip) ==>
      Contiguous(ParseIpv4Hex(lines[j][7]).value, LeadingOnes(ParseIpv4Hex(lines[j][7]).value))
  }

  // The whole lookup, IPv4: nothing is reported iff no row contains the address; what is reported contains it, and
  // no row that contains it has a longer mask.
  lemma ReportedIpv4IsLongest(lines: seq<Line>, ip: Addr, best: Option<RouteInfo>)
    requires |ip| == 4 && WellMasked(lines, ip) && Chosen(Candidates4(lines, ip), best)
    ensures best.None? <==> forall j :: 0 < j < |lines| ==> !Contains4(lines[j], ip)
    ensures best.Some? ==> Holds(best.value.dest, ip)
    ensures best.Some? ==> forall j, n: nat ::
              0 < j < |lines| && Contains4(lines[j], ip) && Contiguous(ParseIpv4Hex(lines[j][7]).value, n) ==>
                n <= LengthOf(best.value.dest)
  {
    var rows := Candidates4(lines, ip);
    forall j | 0 < j < |lines|
      ensures rows[j].Some? <==> Contains4(lines[j], ip)
      ensures forall n: nat :: Contains4(lines[j], ip) && Contiguous(ParseIpv4Hex(lines[j][7]).value, n) ==>
                rows[j].value.bits == n && Holds(rows[j].value.route.dest, ip)
                && LengthOf(rows[j].value.route.dest) == n
    {
      assert rows[j] == Candidate4(lines[j], ip);
      forall n: nat | Contains4(lines[j], ip) && Contiguous(ParseIpv4Hex(lines[j][7]).value, n)
        ensures rows[j].value.bits == n && Holds(rows[j].value.route.dest, ip)
                && LengthOf(rows[j].value.route.dest) == n
      {
        ReportedIpv4HoldsAddress(lines[j], ip, n);
      }
    }
    assert lines != [] ==> rows[0].None?;
  }

  // A row of the IPv6 table whose network of this length contains the address.
  predicate Contains6(line: Line, ip: Addr, bits: int)
    requires |ip| == 16
  {
    && |line| >= 10 && ParseIpv6(line[0]).Some? && Atoi(line[1]).0 == bits
    && 0 <= bits <= 128 && Agree(ip, ParseIpv6(line[0]).value, bits)
  }

  lemma ReportedIpv6HoldsAddress(line: Line, ip: Addr)
    requires |ip| == 16
    ensures Candidate6(line, ip).Some? <==> exists bits :: Contains6(line, ip, bits)
    ensures forall bits :: Contains6(line, ip, bits) ==>
              var c := Candidate6(line, ip);
              c.Some? && c.value.bits == bits && Holds(c.value.route.dest, ip) && LengthOf(c.value.route.dest) == bits
  {
    if Candidate6(line, ip).Some? {
      assert Contains6(line, ip, Atoi(line[1]).0);
    }
  }

  // The whole lookup, IPv6: the same, whatever the rows.
  lemma ReportedIpv6IsLongest(lines: seq<Line>, ip: Addr, best: Option<RouteInfo>)
    requires |ip| == 16 && Chosen(Candidates6(lines, ip), best)
    ensures best.None? <==> forall j, bits :: 0 <= j < |lines| ==> !Contains6(lines[j], ip, bits)
    ensures best.Some? ==> Holds(best.value.dest, ip)
    ensures best.Some? ==> forall j, bits ::
              0 <= j < |lines| && Contains6(lines[j], ip, bits) ==> bits <= LengthOf(best.value.dest)
  {
    var rows := Candidates6(lines, ip);
    forall j | 0 <= j < |lines|
      ensures rows[j].Some? <==> exists bits :: Contains6(lines[j], ip, bits)
      ensures forall bits :: Contains6(lines[j], ip, bits) ==>
                rows[j].value.bits == bits && Holds(rows[j].value.route.dest, ip)
                && LengthOf(rows[j].value.route.dest) == bits
    {
      assert rows[j] == Candidate6(lines[j], ip);
      ReportedIpv6HoldsAddress(lines[j], ip);
    }
  }

  // ---------------------------------------------------------------- the reported row

  // Of the rows that contain the address this is the first of those with the longest mask.
  ghost predicate FirstLongest4(lines: seq<Line>, ip: Addr, r: nat)
    requires |ip| == 4
  {
    && 0 < r < |lines| && Contains4(lines[r], ip)
    && (forall j :: 0 < j < |lines| && Contains4(lines[j], ip) ==>
          LeadingOnes(ParseIpv4Hex(lines[j][7]).value) <= LeadingOnes(ParseIpv4Hex(lines[r][7]).value))
    && (forall j :: 0 < j < r && Contains4(lines[j], ip) ==>
          LeadingOnes(ParseIpv4Hex(lines[j][7]).value) < LeadingOnes(ParseIpv4Hex(lines[r][7]).value))
  }

  function Bytes4(a: nat, b: nat, c: nat, d: nat): Addr
    requires a < 256 && b < 256 && c < 256 && d < 256
  {
    [a as bv8, b as bv8, c as bv8, d as bv8]
  }

  // The route is read off this line: interface, metric, gateway and target from their fields, which the kernel
  // prints in hexadecimal.
  ghost predicate ReadOff4(line: Line, route: RouteInfo)
    requires |line| >= 8
  {
    && route.iface == line[0] && route.metric == Atoi(line[6]).0 && route.source == None
    && (forall a: nat, b: nat, c: nat, d: nat | a < 256 && b < 256 && c < 256 && d < 256 ::
          line[2] == KernelHex4(a, b, c, d) ==>
            route.gateway == if a == b == c == d == 0 then NoGateway else Via(Bytes4(a, b, c, d)))
    && (ParseIpv4Hex(line[2]).None? ==> route.gateway == Unparsed)
    && (forall a: nat, b: nat, c: nat, d: nat | a < 256 && b < 256 && c < 256 && d < 256 ::
          line[1] == KernelHex4(a, b, c, d) && !route.dest.Default? ==> route.dest.addr == Bytes4(a, b, c, d))
  }

  lemma GatewayReadOff4(field: string, a: nat, b: nat, c: nat, d: nat)
    requires a < 256 && b < 256 && c < 256 && d < 256 && field == KernelHex4(a, b, c, d)
    ensures GatewayOf(ParseIpv4Hex(field)) == if a == b == c == d == 0 then NoGateway else Via(Bytes4(a, b, c, d))
    ensures ParseIpv4Hex(field) == Some(Bytes4(a, b, c, d))
  {
    Ipv4HexRoundTrip(a, b, c, d);
    ZeroBytes(a, b, c, d);
  }

  lemma ZeroBytes(a: nat, b: nat, c: nat, d: nat)
    requires a < 256 && b < 256 && c < 256 && d < 256
    ensures (forall i :: 0 <= i < 4 ==> Bytes4(a, b, c, d)[i] == 0) <==> a == b == c == d == 0
  {
    var bytes := Bytes4(a, b, c, d);
    assert bytes[0] == a as bv8 && bytes[1] == b as bv8 && bytes[2] == c as bv8 && bytes[3] == d as bv8;
  }

  lemma CandidateReadOff4(line: Line, ip: Addr)
    requires |ip| == 4
    ensures Candidate4(line, ip).Some? <==> Contains4(line, ip)
    ensures Contains4(line, ip) ==>
              && Candidate4(line, ip).value.bits == LeadingOnes(ParseIpv4Hex(line[7]).value)
              && ReadOff4(line, Candidate4(line, ip).value.route)
  {
    if Contains4(line, ip) {
      var route := Candidate4(line, ip).value.route;
      forall a: nat, b: nat, c: nat, d: nat |
        a < 256 && b < 256 && c < 256 && d < 256 && line[2] == KernelHex4(a, b, c, d)
        ensures route.gateway == if a == b == c == d == 0 then NoGateway else Via(Bytes4(a, b, c, d))
      {
        GatewayReadOff4(line[2], a, b, c, d);
      }
      forall a: nat, b: nat, c: nat, d: nat |
        a < 256 && b < 256 && c < 256 && d < 256 && line[1] == KernelHex4(a, b, c, d)
        ensures !route.dest.Default? ==> route.dest.addr == Bytes4(a, b, c, d)
      {
        GatewayReadOff4(line[1], a, b, c, d);
      }
    }
  }

  // IPv4: nothing is reported iff no row contains the address; else what is reported is read off the first of the
  // rows with the longest mask that do.
  ghost predicate IsAnswer4(lines: seq<Line>, ip: Addr, best: Option<RouteInfo>)
    requires |ip| == 4
  {
    match best
    case None => forall j :: 0 < j < |lines| ==> !Contains4(lines[j], ip)
    case Some(route) => exists r: nat :: FirstLongest4(lines, ip, r) && ReadOff4(lines[r], route)
  }

  lemma ReportedIpv4Row(lines: seq<Line>, ip: Addr, best: Option<RouteInfo>)
    requires |ip| == 4 && Chosen(Candidates4(lines, ip), best)
    ensures IsAnswer4(lines, ip, best)
  {
    var rows := Candidates4(lines, ip);
    assert lines != [] ==> rows[0].None?;
    forall j | 0 < j < |lines|
      ensures rows[j].Some? <==> Contains4(lines[j], ip)
      ensures Contains4(lines[j], ip) ==> rows[j].value.bits == LeadingOnes(ParseIpv4Hex(lines[j][7]).value)
    {
      assert rows[j] == Candidate4(lines[j], ip);
      CandidateReadOff4(lines[j], ip);
    }
    if best.Some? {
      var r: nat :| Wins(rows, r) && best.value == rows[r].value.route;
      assert rows[r] == Candidate4(lines[r], ip);
      CandidateReadOff4(lines[r], ip);
      assert FirstLongest4(lines, ip, r) && ReadOff4(lines[r], best.value);
    }
  }

  // Bytes of an IPv6 field are in reversed order within each group of four.
  ghost predicate FirstLongest6(lines: seq<Line>, ip: Addr, r: nat)
    requires |ip| == 16
  {
    && r < |lines| && |lines[r]| >= 10 && Contains6(lines[r], ip, Atoi(lines[r][1]).0)
    && (forall j, n :: 0 <= j < |lines| && Contains6(lines[j], ip, n) ==> n <= Atoi(lines[r][1]).0)
    && (forall j, n :: 0 <= j < r && Contains6(lines[j], ip, n) ==> n < Atoi(lines[r][1]).0)
  }

  ghost predicate ReadOff6(line: Line, route: RouteInfo)
    requires |line| >= 10
  {
    && route.iface == line[9] && route.metric == Atoi(line[5]).0
    && (match ParseIpv6(line[4])
        case None => route.gateway == Unparsed
        case Some(a) => if a == ZERO_ADDR then route.gateway == NoGateway else route.gateway == Via(a))
    && route.source == (if Atoi(line[3]).0 > 0 then Some(Source(ParseIpv6(line[2]), Atoi(line[3]).0)) else None)
    && (!route.dest.Default? ==> route.dest.Network? && Some(route.dest.addr) == ParseIpv6(line[0]))
  }

  const ZERO_ADDR: Addr := [0, 0, 0, 0, 0, 0, 0, 0, 0, 0, 0, 0, 0, 0, 0, 0]

  lemma ZeroAddr(a: Addr)
    requires |a| == 16
    ensures (forall i :: 0 <= i < |a| ==> a[i] == 0) <==> a == ZERO_ADDR
  {
    assert forall i :: 0 <= i < 16 ==> ZERO_ADDR[i] == 0;
  }

  lemma CandidateReadOff6(line: Line, ip: Addr, n: int)
    requires |ip| == 16 && Contains6(line, ip, n)
    ensures Candidate6(line, ip).Some? && Candidate6(line, ip).value.bits == n
    ensures ReadOff6(line, Candidate6(line, ip).value.route)
  {
    if ParseIpv6(line[4]).Some? { ZeroAddr(ParseIpv6(line[4]).value); }
  }

  // IPv6: the same, with the source the row gives.
  ghost predicate IsAnswer6(lines: seq<Line>, ip: Addr, best: Option<RouteInfo>)
    requires |ip| == 16
  {
    match best
    case None => forall j, n :: 0 <= j < |lines| ==> !Contains6(lines[j], ip, n)
    case Some(route) => exists r: nat :: FirstLongest6(lines, ip, r) && ReadOff6(lines[r], route)
  }

  lemma ReportedIpv6Row(lines: seq<Line>, ip: Addr, best: Option<RouteInfo>)
    requires |ip| == 16 && Chosen(Candidates6(lines, ip), best)
    ensures IsAnswer6(lines, ip, best)
  {
    var rows := Candidates6(lines, ip);
    forall j, n | 0 <= j < |lines| && Contains6(lines[j], ip, n)
      ensures rows[j].Some? && rows[j].value.bits == n
    {
      assert rows[j] == Candidate6(lines[j], ip);
      CandidateReadOff6(lines[j], ip, n);
    }
    if best.Some? {
      var r: nat :| Wins(rows, r) && best.value == rows[r].value.route;
      assert rows[r] == Candidate6(lines[r], ip);
      CandidateReadOff6(lines[r], ip, Atoi(lines[r][1]).0);
      assert FirstLongest6(lines, ip, r) && ReadOff6(lines[r], best.value);
    }
  }
}
