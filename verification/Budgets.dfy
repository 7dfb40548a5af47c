/** The two staging budgets, kept independently by the client and by the node. */
module Budgets {

  const MAX_STAGED_SOURCE_BYTES: nat := 16777216
  const MAX_STAGED_SOURCE_ENTRIES: nat := 4096

  const U64_MAX: nat := 18446744073709551615
  const USIZE_MAX: nat := 18446744073709551615

  function SaturatingAdd(a: nat, b: nat, max: nat): nat { if a + b <= max then a + b else max }

  predicate Within(entries: nat, bytes: nat) {
    entries <= MAX_STAGED_SOURCE_ENTRIES && bytes <= MAX_STAGED_SOURCE_BYTES
  }

  /** The packer's `Budget`. Its verdicts are about exact sums: saturation only
      happens far beyond the bound. */
  class Budget {
    var bytes: nat
    var entries: nat

    constructor ()
      ensures bytes == 0 && entries == 0
    {
      bytes, entries := 0, 0;
    }

    method ChargeEntry() returns (ok: bool)
      modifies this
      ensures bytes == old(bytes) && entries == old(entries) + 1
      ensures ok <==> entries <= MAX_STAGED_SOURCE_ENTRIES
    {
      entries := entries + 1;
      ok := entries <= MAX_STAGED_SOURCE_ENTRIES;
    }

    method ChargeBytes(length: nat) returns (ok: bool)
      modifies this
      ensures entries == old(entries)
      ensures ok <==> old(bytes) + length <= MAX_STAGED_SOURCE_BYTES
      ensures ok ==> bytes == old(bytes) + length
    {
      bytes := SaturatingAdd(bytes, length, U64_MAX);
      ok := bytes <= MAX_STAGED_SOURCE_BYTES;
    }
  }

  /** The node's `StagingBudget`, which saturates both counters. */
  class StagingBudget {
    var bytes: nat
    var entries: nat

    constructor ()
      ensures bytes == 0 && entries == 0
    {
      bytes, entries := 0, 0;
    }

    method CountEntry() returns (ok: bool)
      modifies this
      ensures bytes == old(bytes)
      ensures ok <==> old(entries) + 1 <= MAX_STAGED_SOURCE_ENTRIES
      ensures ok ==> entries == old(entries) + 1
    {
      entries := SaturatingAdd(entries, 1, USIZE_MAX);
      ok := entries <= MAX_STAGED_SOURCE_ENTRIES;
    }

    method CountBytes(length: nat) returns (ok: bool)
      modifies this
      ensures entries == old(entries)
      ensures ok <==> old(bytes) + length <= MAX_STAGED_SOURCE_BYTES
      ensures ok ==> bytes == old(bytes) + length
    {
      bytes := SaturatingAdd(bytes, length, U64_MAX);
      ok := bytes <= MAX_STAGED_SOURCE_BYTES;
    }
  }
}
