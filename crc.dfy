/**
  The CRC-32 that generate-icons.js computes for PNG chunks: the CRC of
  ISO 3309 required by section 5.5 of the PNG Specification (2nd ed.,
  ISO/IEC 15948): reflected polynomial 0xEDB88320, register preset to all
  ones, result complemented.
 */
module Crc {

  /** The reflected generator polynomial. */
  const Polynomial: bv32 := 0xEDB8_8320

  /** One round of the reflected shift register. */
  function Shift(c: bv32): bv32 {
    if c & 1 == 1 then Polynomial ^ (c >> 1) else c >> 1
  }

  /** `Shift` applied `n` times. */
  function Rounds(c: bv32, n: nat): bv32 {
    if n == 0 then c else Shift(Rounds(c, n - 1))
  }

  /** Entry `i` of the lookup table: `i` reduced by eight rounds. */
  function TableEntry(i: bv8): bv32 {
    Rounds(i as bv32, 8)
  }

  /** The table index for feeding byte `b` to register `reg`: the low byte of their XOR. */
  function Index(reg: bv32, b: bv8): bv8 {
    ((reg ^ b as bv32) & 0xFF) as bv8
  }

  /** The table-driven register update for one byte. */
  function Update(reg: bv32, b: bv8): bv32 {
    TableEntry(Index(reg, b)) ^ (reg >> 8)
  }

  /** The register after feeding `data` to it, byte by byte from the left. */
  function Register(reg: bv32, data: seq<bv8>): bv32
    decreases |data|
  {
    if data == [] then reg else Update(Register(reg, data[..|data| - 1]), data[|data| - 1])
  }

  /**
    The CRC-32 of `data` (section 5.5 of the PNG Specification): the
    register preset to all ones, fed the bytes, then complemented; the
    preset and the complement cancel on no bytes.
   */
  function Checksum(data: seq<bv8>): (c: bv32)
    ensures data == [] ==> c == 0
  {
    Register(0xFFFF_FFFF, data) ^ 0xFFFF_FFFF
  }

  /**
    The 256-entry lookup table, filled in index order as the array in
    crc32 is: entry `i` starts as `i` and goes through eight rounds.
   */
  method CrcTable() returns (table: seq<bv32>)
    ensures |table| == 256
    ensures forall k :: 0 <= k < 256 ==> table[k] == TableEntry(k as bv8)
  {
    table := [];
    for i := 0 to 256
      invariant |table| == i
      invariant forall k :: 0 <= k < i ==> table[k] == TableEntry(k as bv8)
    {
      var c: bv32 := (i as bv8) as bv32;
      for j := 0 to 8
        invariant c == Rounds((i as bv8) as bv32, j)
      {
        c := if c & 1 == 1 then Polynomial ^ (c >> 1) else c >> 1;
      }
      table := table + [c];
    }
  }

  /** Feeding one more byte is one more update. */
  lemma RegisterSnoc(reg: bv32, data: seq<bv8>, b: bv8)
    ensures Register(reg, data + [b]) == Update(Register(reg, data), b)
  {
    assert (data + [b])[..|data|] == data;
  }

  /** One iteration of the folding loop in `Crc32`. */
  lemma FoldStep(data: seq<bv8>, n: nat, crc: bv32, table: seq<bv32>)
    requires |table| == 256
    requires forall k :: 0 <= k < 256 ==> table[k] == TableEntry(k as bv8)
    requires n < |data|
    requires crc == Register(0xFFFF_FFFF, data[..n])
    ensures table[Index(crc, data[n]) as int] ^ (crc >> 8) == Register(0xFFFF_FFFF, data[..n + 1])
  {
    RegisterSnoc(0xFFFF_FFFF, data[..n], data[n]);
    assert data[..n] + [data[n]] == data[..n + 1];
    var i := Index(crc, data[n]);
    assert (i as int) as bv8 == i;
  }

  /** crc32: builds the table, then folds the bytes into the register and complements it. */
  method Crc32(data: seq<bv8>) returns (crc: bv32)
    ensures crc == Checksum(data)
  {
    var table := CrcTable();
    crc := 0xFFFF_FFFF;
    var n := 0;
    while n < |data|
      invariant 0 <= n <= |data|
      invariant crc == Register(0xFFFF_FFFF, data[..n])
    {
      FoldStep(data, n, crc, table);
      crc := table[Index(crc, data[n]) as int] ^ (crc >> 8);
      n := n + 1;
    }
    assert data[..n] == data;
    crc := crc ^ 0xFFFF_FFFF;
  }

  /** The table entries that the CRC of the chunk type "IEND" reads. */
  lemma EntryValues()
    ensures Rounds(0xB6, 8) == 0x2202_16B9
    ensures Rounds(0x03, 8) == 0x9909_51BA
    ensures Rounds(0x1D, 8) == 0x6306_6CD9
    ensures Rounds(0x31, 8) == 0x51DE_003A
  {
  }

  /** One concrete step of the fold, given the table entry it reads. */
  lemma StepValue(reg: bv32, b: bv8, i: bv8, entry: bv32)
    requires Index(reg, b) == i
    requires Rounds(i as bv32, 8) == entry
    ensures Update(reg, b) == entry ^ (reg >> 8)
  {
  }

  /**
    The standard check value: the CRC of the chunk type "IEND" is
    0xAE426082, the CRC every PNG file ends with.  This pins the polynomial,
    the bit order, the preset and the final complement.
   */
  lemma IendCrc()
    ensures Checksum([0x49, 0x45, 0x4E, 0x44]) == 0xAE42_6082
  {
    EntryValues();
    StepValue(0xFFFF_FFFF, 0x49, 0xB6, 0x2202_16B9);
    StepValue(0x22FD_E946, 0x45, 0x03, 0x9909_51BA);
    StepValue(0x992B_AC53, 0x4E, 0x1D, 0x6306_6CD9);
    StepValue(0x639F_4775, 0x44, 0x31, 0x51DE_003A);
    RegisterSnoc(0xFFFF_FFFF, [], 0x49);
    RegisterSnoc(0xFFFF_FFFF, [0x49], 0x45);
    RegisterSnoc(0xFFFF_FFFF, [0x49, 0x45], 0x4E);
    RegisterSnoc(0xFFFF_FFFF, [0x49, 0x45, 0x4E], 0x44);
    assert [] + [0x49 as bv8] == [0x49];
    assert [0x49 as bv8] + [0x45] == [0x49, 0x45];
    assert [0x49 as bv8, 0x45] + [0x4E] == [0x49, 0x45, 0x4E];
    assert [0x49 as bv8, 0x45, 0x4E] + [0x44] == [0x49, 0x45, 0x4E, 0x44];
  }

  /** The register update is a left fold: `a + b` continues from the register left by `a`. */
  lemma {:induction false} RegisterAppend(reg: bv32, a: seq<bv8>, b: seq<bv8>)
    ensures Register(reg, a + b) == Register(Register(reg, a), b)
    decreases |b|
  {
    if b == [] {
      assert a + b == a;
    } else {
      var b' := b[..|b| - 1];
      assert (a + b)[..|a + b| - 1] == a + b';
      RegisterAppend(reg, a, b');
    }
  }
}
