/**
  The picture-processing unit's state object: its memories, the cartridge's
  pattern data and mirroring mode, and the two-phase address latch that the
  CPU feeds through the address port.
 */
module Ppu {
  import opened Bytes

  /** How the four logical nametables are wired onto physical memory; fixed by the cartridge. */
  datatype Mirroring = Vertical | Horizontal | FourScreen

  /** Highest address of the 16 KiB PPU address space, used as the latch's mask. */
  const AddressMask: int := 0x3FFF

  /**
    The address latch: a 16-bit address written one byte at a time, high byte
    first, with `hiPtr` telling which half the next write goes to.
   */
  datatype AddrRegister = AddrRegister(hi: u8, lo: u8, hiPtr: bool) {
    function Get(): u16 {
      hi * 0x100 + lo
    }

    /** Writes one half, masks the result into the address space and switches halves. */
    function Update(data: u8): (r: AddrRegister)
      ensures r.hiPtr == !hiPtr
      ensures r.Get() <= AddressMask
      ensures hiPtr ==> r.Get() == (data * 0x100 + lo) % (AddressMask + 1)
      ensures !hiPtr ==> r.Get() == (hi * 0x100 + data) % (AddressMask + 1)
    {
      var written := if hiPtr then this.(hi := data) else this.(lo := data);
      var v := written.Get() % (AddressMask + 1);
      AddrRegister(v / 0x100, v % 0x100, !hiPtr)
    }
  }

  /** A latch at address 0, expecting the high byte. */
  const NewAddrRegister: AddrRegister := AddrRegister(0, 0, true)

  const VramSize: nat := 2048
  const OamSize: nat := 64 * 4
  const PaletteSize: nat := 32

  class NesPpu {
    const chrRom: seq<u8>
    const vram: array<u8>
    const oamData: array<u8>
    const paletteTable: array<u8>
    const mirroring: Mirroring
    var addr: AddrRegister

    /** The three memories have their fixed sizes and the latch holds an address in the PPU's space. */
    ghost predicate Valid()
      reads this
    {
      && vram.Length == VramSize && oamData.Length == OamSize && paletteTable.Length == PaletteSize
      && addr.Get() <= AddressMask
    }

    /** A fresh PPU: zeroed memories, the cartridge's data as given, a reset latch. */
    constructor (chrRom: seq<u8>, mirroring: Mirroring)
      ensures Valid()
      ensures fresh(vram) && fresh(oamData) && fresh(paletteTable)
      ensures forall i | 0 <= i < vram.Length :: vram[i] == 0
      ensures forall i | 0 <= i < oamData.Length :: oamData[i] == 0
      ensures forall i | 0 <= i < paletteTable.Length :: paletteTable[i] == 0
      ensures this.chrRom == chrRom && this.mirroring == mirroring
      ensures addr == NewAddrRegister
    {
      this.chrRom := chrRom;
      this.mirroring := mirroring;
      vram := new u8[VramSize](_ => 0);
      oamData := new u8[OamSize](_ => 0);
      paletteTable := new u8[PaletteSize](_ => 0);
      addr := NewAddrRegister;
    }

    /** The address port: the byte goes to the latch and nothing else changes. */
    method WriteToPpuAddr(value: u8)
      requires Valid()
      modifies this
      ensures Valid()
      ensures addr == old(addr).Update(value)
      ensures unchanged(vram, oamData, paletteTable)
    {
      addr := addr.Update(value);
    }
  }
}
