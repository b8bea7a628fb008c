/**
 * The address-space layout of the boot loader (bootloader/src/main.rs).
 */
module BootLayout {
  const VIRT_BASE: nat := 0xFFFF_FFFF_8000_0000
  const PHYS_BASE: nat := 0x10_0000
  const PAGE: nat := 4096
  const WINDOW: nat := 0x4000_0000
  const GRANULARITY: nat := 0x1_0000
  const WINDOW_END: nat := 0x4000_0000
}
