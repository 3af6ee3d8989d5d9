/** The tables of CRC-32. Everything but the generator holds for every polynomial k. */
module Crc32 {
  import opened Registers
  import opened Words

  const POLY: bv32 := 0xEDB88320

  /** CrcGenerateTable: 8 tables of 256 entries. */
  method GenerateTable(numTables: nat) returns (table: array<bv32>)
    requires numTables > 0
    ensures fresh(table) && table.Length == 256 * numTables && TablesOk(WORD, table[..], numTables, POLY)
  {
    hide Entry, Xor, Down8, Low, Down;
    table := new bv32[256 * numTables];
    WordLaws();
    var i := 0;
    while i < 256
      invariant 0 <= i <= 256 && forall j | 0 <= j < i :: table[j] == Entry(WORD, j, POLY)
    {
      table[i] := ByteEntry(i, POLY);
      i := i + 1;
    }
    while i < 256 * numTables
      invariant 256 <= i <= 256 * numTables && forall j | 0 <= j < i :: table[j] == Entry(WORD, j, POLY)
    {
      var r := table[i - 256];
      NextEntry(WORD, i, POLY);
      DownByte(r);
      table[i] := Xor(table[At(0, Low(r))], Down8(r));
      i := i + 1;
    }
  }

  /** Eight shifts without branches: r = (r >> 1) ^ (k & ~((r & 1) - 1)). */
  method ByteEntry(i: nat, k: bv32) returns (r: bv32)
    requires i < 256
    ensures r == Entry(WORD, i, k)
  {
    hide Zeros, Xor, Half, Odd, Wide;
    r := Wide(i as bv8);
    var j := 0;
    while j < 8
      invariant 0 <= j <= 8 && Zeros(WORD, r, 8 - j, k) == Zeros(WORD, Wide(i as bv8), 8, k)
    {
      ZerosStep(WORD, r, 8 - j, k);
      Branchless(r, k);
      r := (r >> 1) ^ (k & !((r & 1) - 1));
      j := j + 1;
    }
    NoBits(WORD, r, r, k);
  }
}
