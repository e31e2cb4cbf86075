/** The machine's word and its address space. */
module Words {
  const U32: nat := 0x1_0000_0000
  const KERNBASE: nat := 0x8000_0000
  const PGSIZE: nat := 4096

  function Min(a: nat, b: nat): nat {
    if a < b then a else b
  }

  function Max(a: nat, b: nat): nat {
    if a < b then b else a
  }
}
