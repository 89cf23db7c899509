/** The sizes that several parts of the system share. */
module Units {
  const PAGE_SIZE: nat := 4096
  const SECTOR_SIZE: nat := 512
  const SECTORS_PER_BIO: nat := 8

  function Min(a: nat, b: nat): nat {
    if a < b then a else b
  }
}
