/** What every part of the kernel uses: 32-bit words, the null pointer and the two results. */
module KernelBase {
  const TWO31 := 0x8000_0000
  const TWO32 := 0x1_0000_0000

  /** Pointers into tables are indices; this one is no index. */
  const NULL := -1

  const KERNEL_SUCCESS := 0
  const KERNEL_FAILURE := -1

  /** An unsigned word read as a signed one. */
  function Signed(n: nat): int
    requires n < TWO32
  {
    if n < TWO31 then n else n - TWO32
  }
}
