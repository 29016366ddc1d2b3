/** The ACPI processor table and the SMBIOS tables that rombios32.c builds in memory. */
module BiosTables {
  import opened Common

  // ---------------------------------------------------------------------------- checksums

  function Sum(s: seq<byte>): nat {
    if s == [] then 0 else s[0] + Sum(s[1..])
  }

  lemma {:induction false} SumJoin(s: seq<byte>, t: seq<byte>)
    ensures Sum(s + t) == Sum(s) + Sum(t)
  {
    if s == [] {
      assert s + t == t;
    } else {
      assert (s + t)[1..] == s[1..] + t;
      SumJoin(s[1..], t);
    }
  }

  lemma {:induction false} SumUpdate(s: seq<byte>, i: nat, b: byte)
    requires i < |s|
    ensures Sum(s[i := b]) == Sum(s) - s[i] + b
  {
    if i == 0 {
      assert s[0 := b][1..] == s[1..];
    } else {
      assert s[i := b][1..] == s[1..][i - 1 := b];
      SumUpdate(s[1..], i - 1, b);
    }
  }

  /** The sum of the bytes from one index up to another, and its complement: with that byte put
      in the place of a zero byte the sum vanishes mod 256. */
  method Complement(data: array<byte>, from: nat, to: nat) returns (c: byte)
    requires from <= to <= data.Length
    ensures (Sum(data[from..to]) + c) % 256 == 0
  {
    var sum: nat := 0;
    for i := from to to
      invariant sum == Sum(data[from..i])
    {
      assert data[from..i + 1] == data[from..i] + [data[i]];
      SumJoin(data[from..i], [data[i]]);
      sum := sum + data[i];
    }
    var r: nat := (256 - sum % 256) % 256;
    return r;
  }

  /** Putting the complement where a zero byte was makes the range sum to 0. */
  lemma Completed(s: seq<byte>, i: nat, c: byte)
    requires i < |s| && s[i] == 0 && (Sum(s) + c) % 256 == 0
    ensures Sum(s[i := c]) % 256 == 0
  {
    SumUpdate(s, i, c);
  }

  function Le16(x: nat): (r: seq<byte>)
    requires x < U16
    ensures |r| == 2
  {
    [x % 256, x / 256]
  }

  function Le32(x: nat): (r: seq<byte>)
    requires x < U32
    ensures |r| == 4
  {
    Le16(x % U16) + Le16(x / U16)
  }

  function FromLe32(s: seq<byte>): nat
    requires |s| == 4
  {
    var b0: nat, b1: nat, b2: nat, b3: nat := s[0], s[1], s[2], s[3];
    b0 + 256 * b1 + U16 * b2 + 0x100_0000 * b3
  }

  lemma Le32RoundTrip(x: nat)
    requires x < U32
    ensures FromLe32(Le32(x)) == x
  {
  }

  // ------------------------------------------------------------------- the processor table

  const HEADER := 36
  const SSDT: seq<byte> := [0x53, 0x53, 0x44, 0x54]
  const BOCHS: seq<byte> := [0x42, 0x4f, 0x43, 0x48, 0x53, 0x20]
  const BXPC: seq<byte> := [0x42, 0x58, 0x50, 0x43]
  const PR: seq<byte> := [0x5f, 0x50, 0x52, 0x5f]  // "_PR_"

  /** A package length: one byte up to 63, else two bytes with the low four bits in the first.
      length counts what follows; the encoding counts itself too. */
  function PkgLength(length: nat): (r: seq<byte>)
    requires length + 2 < 0x1000
    ensures 1 <= |r| <= 2
  {
    if length <= 0x3e then [length + 1] else [0x40 + (length + 2) % 16, (length + 2) / 16]
  }

  /** How section 20.2.4 of the ACPI Specification reads it. */
  function DecodePkgLength(s: seq<byte>): nat
    requires s != [] && (s[0] >= 0x40 ==> 2 <= |s|)
  {
    var lead: nat := s[0];
    if lead < 0x40 then lead
    else
      var next: nat := s[1];
      lead % 16 + 16 * next
  }

  /** The package length always decodes to exactly the bytes from itself to the end. */
  lemma PkgLengthDecodes(length: nat, rest: seq<byte>)
    requires length + 2 < 0x1000 && |rest| >= length
    ensures var s := PkgLength(length) + rest;
            (s[0] >= 0x40 ==> 2 <= |s|) && DecodePkgLength(s) == |PkgLength(length)| + length
  {
  }

  function HexDigit(d: nat): byte
    requires d < 16
  {
    if d < 10 then 0x30 + d else 0x41 + d - 10
  }

  /** CPU and one hexadecimal digit, or CP and two. */
  function ProcessorName(i: nat): seq<byte>
    requires i < 256
  {
    [0x43, 0x50, if i / 16 != 0 then HexDigit(i / 16) else 0x55, HexDigit(i % 16)]
  }

  lemma NamesDistinct(i: nat, j: nat)
    requires i < j < 256
    ensures ProcessorName(i) != ProcessorName(j)
  {
    var a, b := ProcessorName(i), ProcessorName(j);
    if a[3] == b[3] {
      assert i % 16 == j % 16;
      assert a[2] != b[2];
    }
  }

  function Processor(i: nat): (r: seq<byte>)
    requires i < 256
    ensures |r| == 13
  {
    [0x5b, 0x83, 0x0b] + ProcessorName(i) + [i, 0x10, 0xb0, 0, 0, 6]
  }

  function Processors(n: nat): (r: seq<byte>)
    requires n < 256
    ensures |r| == 13 * n
  {
    if n == 0 then [] else Processors(n - 1) + Processor(n - 1)
  }

  function Scope(n: nat): (r: seq<byte>)
    requires n < 256
  {
    [0x10] + PkgLength(13 * n + 4) + PR + Processors(n)
  }

  /** The package length of the scope counts it to its end. */
  lemma ScopeDecodes(n: nat)
    requires n < 256
    ensures var s := Scope(n)[1..]; s != [] && (s[0] >= 0x40 ==> 2 <= |s|) && DecodePkgLength(s) == |s|
  {
    hide PkgLength, DecodePkgLength, Processors;
    var rest := PR + Processors(n);
    assert Scope(n)[1..] == PkgLength(13 * n + 4) + rest;
    PkgLengthDecodes(13 * n + 4, rest);
  }

  /** So does that of each processor in it. */
  lemma ProcessorDecodes(i: nat)
    requires i < 256
    ensures var p := Processor(i)[2..]; p[0] < 0x40 && DecodePkgLength(p) == |p|
  {
  }

  function HexValue(c: byte): int {
    if c < 0x41 then c as int - 0x30 else c as int - 0x41 + 10
  }

  /** At at lies the object of processor i: its number in the name, in hexadecimal, and in the
      identifier; 6 bytes at 0xb010 are its register block. */
  predicate ProcessorAt(s: seq<byte>, at: nat, i: nat) {
    && at + 13 <= |s| && s[at..at + 3] == [0x5b, 0x83, 0x0b]
    && s[at + 3] == 0x43 && s[at + 4] == 0x50                                     // "CP"
    && (if s[at + 5] == 0x55 then 0 else HexValue(s[at + 5])) * 16 + HexValue(s[at + 6]) == i
    && s[at + 7] == i && FromLe32(s[at + 8..at + 12]) == 0xb010 && s[at + 12] == 6
  }

  /** Of n objects at the end of s, the i-th is that of processor i. */
  predicate ProcessorObject(s: seq<byte>, n: nat, i: nat) {
    i < n && 13 * (n - i) <= |s| && ProcessorAt(s, |s| - 13 * (n - i), i)
  }

  lemma ProcessorFields(s: seq<byte>, at: nat, i: nat)
    requires i < 256 && at + 13 <= |s| && s[at..at + 13] == Processor(i)
    ensures ProcessorAt(s, at, i)
  {
    var p := Processor(i);
    SliceOfSlice(s, at, p, 0, 3);
    SliceOfSlice(s, at, p, 8, 12);
    assert p[0..3] == [0x5b, 0x83, 0x0b] && p[8..12] == [0x10, 0xb0, 0, 0];
    assert forall k :: 0 <= k < 13 ==> p[k] == s[at..at + 13][k];
  }

  lemma {:induction false} ProcessorIn(n: nat, i: nat)
    requires i < n < 256
    ensures Processors(n)[13 * i..13 * i + 13] == Processor(i)
  {
    if i < n - 1 {
      ProcessorIn(n - 1, i);
      assert Processors(n)[..13 * (n - 1)] == Processors(n - 1);
      assert Processors(n)[13 * i..13 * i + 13] == Processors(n - 1)[13 * i..13 * i + 13];
    }
  }

  /** The objects of the n processors fill the end of the scope. */
  lemma ScopeHolds(s: seq<byte>, from: nat, n: nat, i: nat)
    requires i < n < 256 && from <= |s| && s[from..] == Scope(n)
    ensures |s| >= from + 13 * n && ProcessorObject(s, n, i)
  {
    hide Processor, Processors, PkgLength, ProcessorAt;
    ProcessorIn(n, i);
    var head := [0x10] + PkgLength(13 * n + 4) + PR;
    assert Scope(n) == head + Processors(n);
    var at := |s| - 13 * (n - i);
    SliceOfSlice(s, from, s[from..], |head| + 13 * i, |head| + 13 * i + 13);
    SliceOfSlice(Scope(n), |head|, Processors(n), 13 * i, 13 * i + 13);
    ProcessorFields(s, at, i);
  }

  /** Writing bytes through the advancing pointer. */
  method Emit(a: array<byte>, at: nat, data: seq<byte>) returns (next: nat)
    requires at + |data| <= a.Length
    modifies a
    ensures next == at + |data| && a[..] == old(a[..at]) + data + old(a[next..])
  {
    Copy(a, at, data);
    next := at + |data|;
  }

  /** acpi_build_table_header, of a table whose checksum byte has been set to 0 */
  method BuildTableHeader(a: array<byte>, sig: seq<byte>, len: nat, rev: byte)
    requires HEADER <= len <= a.Length && len < U32 && |sig| == 4 && a[9] == 0
    modifies a
    ensures a[HEADER..] == old(a[HEADER..])
    ensures a[..4] == sig && a[4..8] == Le32(len) && Sum(a[..len]) % 256 == 0
    ensures a[8] == rev && a[10..HEADER] == BOCHS + BXPC + sig + Le32(1) + BXPC + Le32(1)
  {
    hide Sum, Le32;
    ghost var body := a[HEADER..];
    var p := Emit(a, 0, sig + Le32(len) + [rev]);
    assert a[..9] == sig + Le32(len) + [rev];
    assert a[..9][..4] == sig && a[..9][4..8] == Le32(len);
    p := Emit(a, 10, BOCHS + BXPC + sig + Le32(1) + BXPC + Le32(1));
    assert a[..4] == sig && a[4..8] == Le32(len);
    SetChecksum(a, 0, len, 9);
    assert a[..len] == a[0..len];
    assert a[HEADER..] == body;
  }

  /** For every number of CPUs the table has its true length in the header, sums to 0, and holds
      the scope with its processors. */
  method BuildProcessorSsdt(ssdt: array<byte>, smpCpus: nat) returns (len: nat)
    requires ssdt.Length >= HEADER + 7 + 13 * 255
    modifies ssdt
    ensures HEADER <= len <= ssdt.Length
    ensures ssdt[HEADER..len] == Scope(Min(smpCpus, 255))
    ensures ssdt[..4] == SSDT && FromLe32(ssdt[4..8]) == len && Sum(ssdt[..len]) % 256 == 0
    ensures ssdt[8] == 1 && ssdt[10..HEADER] == BOCHS + BXPC + SSDT + Le32(1) + BXPC + Le32(1)
    ensures len >= HEADER + 13 * Min(smpCpus, 255)
    ensures forall i :: 0 <= i < Min(smpCpus, 255) ==> ProcessorObject(ssdt[..len], Min(smpCpus, 255), i)
  {
    hide ProcessorObject, Processors;
    var n := if smpCpus > 0xff then 0xff else smpCpus;
    ssdt[9] := 0;
    len := EmitScope(ssdt, n);
    BuildTableHeader(ssdt, SSDT, len, 1);
    Le32RoundTrip(len);
    assert ssdt[HEADER..len] == ssdt[HEADER..][..len - HEADER];
    assert ssdt[..len][HEADER..] == ssdt[HEADER..len];
    AllProcessors(ssdt[..len], n);
  }

  lemma AllProcessors(s: seq<byte>, n: nat)
    requires n < 256 && HEADER <= |s| && s[HEADER..] == Scope(n)
    ensures |s| >= HEADER + 13 * n && forall i :: 0 <= i < n ==> ProcessorObject(s, n, i)
  {
    hide PkgLength, ProcessorObject, Processors;
    forall i | 0 <= i < n
      ensures ProcessorObject(s, n, i)
    {
      ScopeHolds(s, HEADER, n, i);
    }
  }

  method EmitScope(ssdt: array<byte>, n: nat) returns (p: nat)
    requires n < 256 && ssdt.Length >= HEADER + 7 + 13 * 255
    modifies ssdt
    ensures HEADER <= p <= ssdt.Length && ssdt[HEADER..p] == Scope(n) && ssdt[HEADER..][..p - HEADER] == Scope(n)
    ensures ssdt[9] == old(ssdt[9])
  {
    hide Processor, PkgLength, Processors;
    var length := 0x0d * n + 4;
    var head := [0x10] + PkgLength(length) + PR;
    p := Emit(ssdt, HEADER, head);
    assert ssdt[HEADER..p] == head;
    ProcessorsNext(0);
    for i := 0 to n
      invariant p == HEADER + |head| + 13 * i && ssdt[HEADER..p] == head + Processors(i) && ssdt[9] == old(ssdt[9])
    {
      ghost var before, at := ssdt[..], p;
      ProcessorsNext(i);
      p := Emit(ssdt, p, Processor(i));
      Emitted(before, ssdt[..], HEADER, at, Processor(i));
    }
    assert ssdt[HEADER..p] == ssdt[HEADER..][..p - HEADER];
  }

  /** What lies before the bytes written stays, and they follow it. */
  lemma Emitted(before: seq<byte>, after: seq<byte>, from: nat, at: nat, data: seq<byte>)
    requires from <= at && at + |data| <= |before| && after == before[..at] + data + before[at + |data|..]
    ensures after[from..at + |data|] == before[from..at] + data && forall k :: 0 <= k < at ==> after[k] == before[k]
  {
  }

  lemma ProcessorsNext(i: nat)
    requires i < 255
    ensures Processors(0) == [] && Processors(i + 1) == Processors(i) + Processor(i)
  {
  }

  // ------------------------------------------------------------------------------- SMBIOS

  const ENTRY_POINT := 0x1f

  /** The two-pass checksum of smbios_entry_point_init: both parts, and the whole, sum to 0. */
  method EntryPointInit(a: array<byte>, start: nat, maxSize: nat, tableLength: nat, tableAddress: nat, structures: nat)
    requires start + ENTRY_POINT <= a.Length && maxSize < U16 && tableLength < U16 && tableAddress < U32
    requires structures < U16
    modifies a
    ensures a[..start] == old(a[..start]) && a[start + ENTRY_POINT..] == old(a[start + ENTRY_POINT..])
    ensures Sum(a[start..start + 0x10]) % 256 == 0
    ensures Sum(a[start + 0x10..start + ENTRY_POINT]) % 256 == 0
    ensures Sum(a[start..start + ENTRY_POINT]) % 256 == 0
    ensures a[start..start + 4] == [0x5f, 0x53, 0x4d, 0x5f]                       // "_SM_"
    ensures a[start + 5..start + 8] == [0x1f, 2, 4] && a[start + 8..start + 0x10] == Le16(maxSize) + [0, 0, 0, 0, 0, 0]
    ensures a[start + 0x10..start + 0x15] == [0x5f, 0x44, 0x4d, 0x49, 0x5f]       // "_DMI_"
    ensures a[start + 0x1e] == 0x24
    ensures a[start + 0x16..start + 0x18] == Le16(tableLength) && a[start + 0x18..start + 0x1c] == Le32(tableAddress)
    ensures a[start + 0x1c..start + 0x1e] == Le16(structures)
    ensures Word(a[..], start + 8) == maxSize && Word(a[..], start + 0x16) == tableLength && Word(a[..], start + 0x1c) == structures
    ensures Word(a[..], start + 0x18) + U16 * Word(a[..], start + 0x1a) == tableAddress
  {
    hide Sum, Le16, Le32;
    var first: seq<byte> := [0x5f, 0x53, 0x4d, 0x5f, 0, 0x1f, 2, 4] + Le16(maxSize) + [0, 0, 0, 0, 0, 0];
    var second: seq<byte> := [0x5f, 0x44, 0x4d, 0x49, 0x5f, 0] + Le16(tableLength) + Le32(tableAddress) + Le16(structures) + [0x24];
    assert second[6..8] == Le16(tableLength) && second[8..12] == Le32(tableAddress) && second[12..14] == Le16(structures);
    var p := Emit(a, start, first);
    p := Emit(a, p, second);
    TwoChecksums(a, start, first, second);
    FirstHalf(a[..], start, first, maxSize);
    SecondHalf(a[..], start + 0x10, second, tableLength, tableAddress, structures);
    WordsInPlace(a[..], start, maxSize, tableLength, tableAddress, structures);
  }

  /** A little-endian word */
  function Word(s: seq<byte>, at: nat): nat
    requires at + 2 <= |s|
  {
    var low: nat, high: nat := s[at], s[at + 1];
    low + 256 * high
  }

  lemma WordsInPlace(s: seq<byte>, start: nat, maxSize: nat, tableLength: nat, tableAddress: nat, structures: nat)
    requires start + ENTRY_POINT <= |s| && maxSize < U16 && tableLength < U16 && tableAddress < U32 && structures < U16
    requires s[start + 8..start + 0x10] == Le16(maxSize) + [0, 0, 0, 0, 0, 0]
    requires s[start + 0x16..start + 0x18] == Le16(tableLength) && s[start + 0x18..start + 0x1c] == Le32(tableAddress)
    requires s[start + 0x1c..start + 0x1e] == Le16(structures)
    ensures Word(s, start + 8) == maxSize && Word(s, start + 0x16) == tableLength && Word(s, start + 0x1c) == structures
    ensures Word(s, start + 0x18) + U16 * Word(s, start + 0x1a) == tableAddress
  {
    var first := s[start + 8..start + 0x10];
    assert s[start + 8] == first[0] && s[start + 9] == first[1];
    var length, address, count := s[start + 0x16..start + 0x18], s[start + 0x18..start + 0x1c], s[start + 0x1c..start + 0x1e];
    assert s[start + 0x16] == length[0] && s[start + 0x17] == length[1];
    assert s[start + 0x1c] == count[0] && s[start + 0x1d] == count[1];
    assert s[start + 0x18] == address[0] && s[start + 0x19] == address[1] && s[start + 0x1a] == address[2] && s[start + 0x1b] == address[3];
  }

  lemma FirstHalf(s: seq<byte>, start: nat, first: seq<byte>, maxSize: nat)
    requires start + 0x10 <= |s| && maxSize < U16
    requires first == [0x5f, 0x53, 0x4d, 0x5f, 0, 0x1f, 2, 4] + Le16(maxSize) + [0, 0, 0, 0, 0, 0]
    requires s[start..start + 0x10] == first[4 := s[start + 4]]
    ensures s[start..start + 4] == [0x5f, 0x53, 0x4d, 0x5f] && s[start + 5..start + 8] == [0x1f, 2, 4]
    ensures s[start + 8..start + 0x10] == Le16(maxSize) + [0, 0, 0, 0, 0, 0]
  {
    hide Le16;
    var half := s[start..start + 0x10];
    SliceOfSlice(s, start, half, 0, 4);
    SliceOfSlice(s, start, half, 5, 8);
    SliceOfSlice(s, start, half, 8, 16);
    assert half[0..4] == first[0..4] == [0x5f, 0x53, 0x4d, 0x5f];
    assert half[5..8] == first[5..8] == [0x1f, 2, 4];
    assert half[8..16] == first[8..16] == Le16(maxSize) + [0, 0, 0, 0, 0, 0];
  }

  lemma SecondHalf(s: seq<byte>, start: nat, second: seq<byte>, tableLength: nat, tableAddress: nat, structures: nat)
    requires start + 0xf <= |s| && tableLength < U16 && tableAddress < U32 && structures < U16
    requires second == [0x5f, 0x44, 0x4d, 0x49, 0x5f, 0] + Le16(tableLength) + Le32(tableAddress) + Le16(structures) + [0x24]
    requires s[start..start + 0xf] == second[5 := s[start + 5]]
    ensures s[start..start + 5] == [0x5f, 0x44, 0x4d, 0x49, 0x5f] && s[start + 14] == 0x24
    ensures s[start + 6..start + 8] == Le16(tableLength) && s[start + 8..start + 12] == Le32(tableAddress)
    ensures s[start + 12..start + 14] == Le16(structures)
  {
    hide Le16, Le32;
    var half := s[start..start + 0xf];
    SliceOfSlice(s, start, half, 0, 5);
    SliceOfSlice(s, start, half, 6, 8);
    SliceOfSlice(s, start, half, 8, 12);
    SliceOfSlice(s, start, half, 12, 14);
    assert half[0..5] == second[0..5] == [0x5f, 0x44, 0x4d, 0x49, 0x5f];
    assert half[6..8] == second[6..8] == Le16(tableLength);
    assert half[8..12] == second[8..12] == Le32(tableAddress);
    assert half[12..14] == second[12..14] == Le16(structures);
    assert half[14] == second[14] == 0x24;
  }

  method TwoChecksums(a: array<byte>, start: nat, ghost first: seq<byte>, ghost second: seq<byte>)
    requires start + ENTRY_POINT <= a.Length && |first| == 0x10 && |second| == 0xf && first[4] == 0 && second[5] == 0
    requires a[start..start + 0x10] == first && a[start + 0x10..start + ENTRY_POINT] == second
    modifies a
    ensures a[..start] == old(a[..start]) && a[start + ENTRY_POINT..] == old(a[start + ENTRY_POINT..])
    ensures Sum(a[start..start + 0x10]) % 256 == 0
    ensures Sum(a[start + 0x10..start + ENTRY_POINT]) % 256 == 0
    ensures Sum(a[start..start + ENTRY_POINT]) % 256 == 0
    ensures a[start + 0x10..start + ENTRY_POINT] == second[5 := a[start + 0x15]]
    ensures a[start..start + 0x10] == first[4 := a[start + 4]]
  {
    hide Sum;
    SetChecksum(a, start, start + 0x10, 4);
    ghost var a1 := a[start..start + 0x10];
    assert a[start + 0x10..start + ENTRY_POINT] == second;
    SetChecksum(a, start + 0x10, start + ENTRY_POINT, 5);
    assert a[start..start + 0x10] == a1;
    SumJoin(a[start..start + 0x10], a[start + 0x10..start + ENTRY_POINT]);
    assert a[start..start + ENTRY_POINT] == a[start..start + 0x10] + a[start + 0x10..start + ENTRY_POINT];
  }

  /** One pass: the byte at index i of the range, which is 0, becomes the complement of its sum. */
  method SetChecksum(a: array<byte>, from: nat, to: nat, i: nat)
    requires from <= to <= a.Length && i < to - from && a[from + i] == 0
    modifies a
    ensures a[..] == old(a[..])[from + i := a[from + i]] && Sum(a[from..to]) % 256 == 0
  {
    hide Sum;
    ghost var s := a[from..to];
    var c := Complement(a, from, to);
    Completed(s, i, c);
    a[from + i] := c;
    assert a[from..to] == s[i := c];
  }

  /** A memory device with its size in MB and the addresses it is mapped at, in KB. */
  datatype Device = Device(size: nat, first: nat, last: nat)

  const DEVICE_MB := 0x4000

  /** The memory of the first k devices, in MB. */
  function MbBefore(devices: seq<Device>, k: nat): nat
    requires k <= |devices|
  {
    if k == 0 then 0 else MbBefore(devices, k - 1) + devices[k - 1].size
  }

  /** The devices are as few as can be and share out the memory; each is mapped where the memory
      of those before it ends, in addresses of 32 bits. */
  ghost predicate ShareOut(devices: seq<Device>, memsize: nat) {
    && MbBefore(devices, |devices|) == memsize
    && forall i :: 0 <= i < |devices| ==>
         && 1 <= devices[i].size <= DEVICE_MB && (i < |devices| - 1 ==> devices[i].size == DEVICE_MB)
         && devices[i].first == MbBefore(devices, i) * 1024 % U32
         && devices[i].last == (MbBefore(devices, i + 1) * 1024 - 1) % U32
  }

  /** The address ranges are as long as the devices' sizes say, each begins where the one before
      ends, and they go from 0 to the end of the memory. */
  ghost predicate Tile(devices: seq<Device>, memsize: nat) {
    && (forall i :: 0 <= i < |devices| ==> devices[i].last == devices[i].first + devices[i].size * 1024 - 1)
    && (forall i :: 0 < i < |devices| ==> devices[i].first == devices[i - 1].last + 1)
    && if devices == [] then memsize == 0 else devices[0].first == 0 && devices[|devices| - 1].last + 1 == memsize * 1024
  }

  /** Up to 4 TB, and no further, the devices tile the memory exactly. */
  lemma DevicesTile(devices: seq<Device>, memsize: nat)
    requires ShareOut(devices, memsize)
    ensures Tile(devices, memsize) <==> memsize <= 0x40_0000
  {
    hide MbBefore;
    MbOfNone(devices);
    if memsize <= 0x40_0000 {
      forall i | 0 <= i < |devices|
        ensures devices[i].first == MbBefore(devices, i) * 1024 && devices[i].last == MbBefore(devices, i + 1) * 1024 - 1
        ensures devices[i].last == devices[i].first + devices[i].size * 1024 - 1
      {
        DeviceFits(devices, memsize, i);
      }
      assert MbBefore(devices, |devices|) == memsize;
      hide ShareOut;
    } else {
      assert devices[|devices| - 1].last < U32;
      hide ShareOut;
    }
  }

  lemma MbOfNone(devices: seq<Device>)
    ensures MbBefore(devices, 0) == 0
  {
  }

  lemma MbNext(devices: seq<Device>, i: nat)
    requires i < |devices|
    ensures MbBefore(devices, i + 1) == MbBefore(devices, i) + devices[i].size
  {
  }

  lemma DeviceFits(devices: seq<Device>, memsize: nat, i: nat)
    requires ShareOut(devices, memsize) && memsize <= 0x40_0000 && i < |devices|
    ensures devices[i].first == MbBefore(devices, i) * 1024 && devices[i].last == MbBefore(devices, i + 1) * 1024 - 1
    ensures MbBefore(devices, i + 1) == MbBefore(devices, i) + devices[i].size
  {
    hide MbBefore;
    MbNext(devices, i);
    MbGrows(devices, i + 1, |devices|);
    NoWrapBelow(MbBefore(devices, i), MbBefore(devices, i + 1));
  }

  lemma NoWrapBelow(x: nat, y: nat)
    requires x < y <= 0x40_0000
    ensures x * 1024 % U32 == x * 1024 && (y * 1024 - 1) % U32 == y * 1024 - 1
  {
  }

  lemma {:induction false} MbGrows(devices: seq<Device>, j: nat, k: nat)
    requires j <= k <= |devices|
    ensures MbBefore(devices, j) <= MbBefore(devices, k)
  {
    if j < k {
      MbGrows(devices, j, k - 1);
    }
  }

  /** The loop of smbios_init over the memory devices: there is one for each 16 GB begun. */
  method MemoryDevices(memsize: nat) returns (devices: seq<Device>)
    ensures ShareOut(devices, memsize)
    ensures Tile(devices, memsize) <==> memsize <= 0x40_0000
  {
    hide ShareOut, Tile, Size, Address, LastAddress;
    devices := [];
    var n := (memsize + 0x3fff) / DEVICE_MB;
    for i := 0 to n
      invariant |devices| == i
      invariant forall k :: 0 <= k < i ==> devices[k] == Device(Size(memsize, n, k), Address(k), LastAddress(k, Size(memsize, n, k)))
    {
      DeviceFields(memsize, n, i);
      var size := if i == n - 1 then (memsize - 1) % DEVICE_MB + 1 else DEVICE_MB;
      var first := i * 0x100_0000 % U32;
      devices := devices + [Device(size, first, (first + size * 1024 - 1) % U32)];
    }
    SharedOut(devices, memsize);
    DevicesTile(devices, memsize);
  }

  function Size(memsize: nat, n: nat, i: nat): nat {
    if i == n - 1 then (memsize - 1) % DEVICE_MB + 1 else DEVICE_MB
  }

  function Address(i: nat): nat {
    i * 0x100_0000 % U32
  }

  function LastAddress(i: nat, size: nat): nat {
    (Address(i) + size * 1024 - 1) % U32
  }

  lemma DeviceFields(memsize: nat, n: nat, i: nat)
    ensures Size(memsize, n, i) == if i == n - 1 then (memsize - 1) % DEVICE_MB + 1 else DEVICE_MB
    ensures Address(i) == i * 0x100_0000 % U32
    ensures LastAddress(i, Size(memsize, n, i)) == (Address(i) + Size(memsize, n, i) * 1024 - 1) % U32
  {
  }

  lemma SharedOut(devices: seq<Device>, memsize: nat)
    requires |devices| == (memsize + 0x3fff) / DEVICE_MB
    requires forall k :: 0 <= k < |devices| ==>
               devices[k] == Device(Size(memsize, |devices|, k), Address(k), LastAddress(k, Size(memsize, |devices|, k)))
    ensures ShareOut(devices, memsize)
  {
    hide Address, LastAddress;
    FullDevices(devices, |devices|, memsize);
    forall i | 0 <= i < |devices|
      ensures 1 <= devices[i].size <= DEVICE_MB && (i < |devices| - 1 ==> devices[i].size == DEVICE_MB)
      ensures devices[i].first == MbBefore(devices, i) * 1024 % U32
      ensures devices[i].last == (MbBefore(devices, i + 1) * 1024 - 1) % U32
    {
      FullDevices(devices, i, memsize);
      AddressIs(i, devices[i].size);
    }
  }

  lemma AddressIs(i: nat, size: nat)
    ensures Address(i) == i * DEVICE_MB * 1024 % U32
    ensures LastAddress(i, size) == ((i * DEVICE_MB + size) * 1024 - 1) % U32
  {
    var x := i * 0x100_0000;
    assert x == x / U32 * U32 + x % U32;
    ModPlus(x, size * 1024 - 1);
    assert (i * DEVICE_MB + size) * 1024 - 1 == x + (size * 1024 - 1);
  }

  lemma ModPlus(x: int, y: int)
    ensures (x % U32 + y) % U32 == (x + y) % U32
  {
  }

  /** All devices but the last are full. */
  lemma {:induction false} FullDevices(devices: seq<Device>, k: nat, memsize: nat)
    requires k <= |devices| == (memsize + 0x3fff) / DEVICE_MB
    requires forall i :: 0 <= i < |devices| ==> devices[i].size == Size(memsize, |devices|, i)
    ensures MbBefore(devices, k) == if k == |devices| then memsize else k * DEVICE_MB
  {
    if k > 0 {
      FullDevices(devices, k - 1, memsize);
    }
  }

  // ------------------------------------------------------------- the memory it can be given

  const MB := 0x10_0000

  /** What ram_probe reads from CMOS as memory below 4 GB, in 32-bit arithmetic, ... */
  function RamSize(cmos: seq<byte>): nat
    requires |cmos| == 0x80
  {
    var kilobytes: nat, more: nat := cmos[0x30], cmos[0x31];
    var blocks: nat, moreBlocks: nat := cmos[0x34], cmos[0x35];
    if blocks != 0 || moreBlocks != 0 then ((blocks + 256 * moreBlocks) * 65536 + 16 * MB) % U32
    else (kilobytes + 256 * more) * 1024 + MB
  }

  /** ... and as memory above 4 GB. */
  function HighMemory(cmos: seq<byte>): nat
    requires |cmos| == 0x80
  {
    var low: nat, middle: nat, high: nat := cmos[0x5b], cmos[0x5c], cmos[0x5d];
    0x1_0000 * low + 0x100_0000 * middle + 0x1_0000_0000 * high
  }

  /** A machine with 128 MB below 4 GB and 1 GB above. */
  lemma KnownMachine(cmos: seq<byte>)
    requires |cmos| == 0x80 && cmos[0x34] == 0 && cmos[0x35] == 7 && cmos[0x5b] == 0 && cmos[0x5c] == 0x40 && cmos[0x5d] == 0
    ensures RamSize(cmos) == 128 * 0x10_0000 && HighMemory(cmos) == 1024 * 0x10_0000
  {
  }

  /** One with 8 MB. */
  lemma SmallMachine(cmos: seq<byte>)
    requires |cmos| == 0x80 && cmos[0x34] == 0 && cmos[0x35] == 0 && cmos[0x30] == 0 && cmos[0x31] == 0x1c
    ensures RamSize(cmos) == 8 * 0x10_0000
  {
  }

  /** ram_probe: ramEnd is above 4 GB exactly if there is memory there. */
  method RamProbe(cmos: seq<byte>) returns (ramSize: nat, ramEnd: nat)
    requires |cmos| == 0x80
    ensures ramSize == RamSize(cmos) < U32
    ensures ramEnd == if HighMemory(cmos) == 0 then ramSize else U32 + HighMemory(cmos)
  {
    var low: nat, middle: nat, high: nat := cmos[0x30], cmos[0x31], 0;
    ramSize := (low + 256 * middle) * 1024 + 1024 * 1024;
    if cmos[0x34] != 0 || cmos[0x35] != 0 {
      low, middle := cmos[0x34], cmos[0x35];
      ramSize := ((low + 256 * middle) * 65536 + 16 * 1024 * 1024) % U32;
    }
    ramEnd := ramSize;
    if cmos[0x5b] != 0 || cmos[0x5c] != 0 || cmos[0x5d] != 0 {
      low, middle, high := cmos[0x5b], cmos[0x5c], cmos[0x5d];
      ramEnd := 0x1_0000 * low + 0x100_0000 * middle + 0x1_0000_0000 * high + U32;
    }
  }

  /** No CMOS contents make the memory larger than a quarter of 4 TB. */
  lemma MemoryBelow(cmos: seq<byte>)
    requires |cmos| == 0x80
    ensures (RamSize(cmos) + HighMemory(cmos)) / MB <= 0x10_0fff
  {
    assert RamSize(cmos) < U32;
    assert HighMemory(cmos) <= 0xff_ffff_0000;
  }

  /** ram_probe and then smbios_init's part: for all CMOS contents the devices tile the memory
      there is, in whole MB, exactly. */
  method ProbedDevices(cmos: seq<byte>) returns (devices: seq<Device>, memsize: nat)
    requires |cmos| == 0x80
    ensures memsize * MB <= RamSize(cmos) + HighMemory(cmos) < (memsize + 1) * MB
    ensures ShareOut(devices, memsize) && Tile(devices, memsize)
  {
    hide RamSize, HighMemory, ShareOut, Tile;
    var ramSize, ramEnd := RamProbe(cmos);
    memsize := if ramEnd == ramSize then ramSize / (1024 * 1024) else (ramEnd - U32 + ramSize) / (1024 * 1024);
    MemoryBelow(cmos);
    devices := MemoryDevices(memsize);
  }
}
