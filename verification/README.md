# An emulated handheld, verified

The repository turns Game Boy Advance ROMs into Python programs. Its generated programs run on an embedded
machine: an ARM7TDMI interpreter, byte-addressed memory with mirrors, DMA, a scanline-driven PPU, timers, BIOS calls
and a FLASH save chip. This project models that machine, and two Rust analyses that rest on its semantics, and proves
what they keep over whole runs.

The objects of the runtime are classes here, with the runtime's fields, updated in place. Each method is proved
against a function on plain values (`State()` gives the value), and the `*Laws` modules prove what those functions
mean. Integers are unbounded; every mask of the source is written out (module `Words`).

## How it is organised

- `Memory`, `MemoryLaws`, `IoLaws`: the memory object; RAM as a map from canonical addresses to bytes; the map in numbers
  and the IO area.
- `Dma`, `DmaLaws`, `StrideLaws`: channels and transfers; overlapping copies; every direction and both widths.
- `Ppu`, `PpuLaws`, `VBlankLaws`, `LineLaws`, `AffineLaws`, `Mode3`: the scanline clock, DMA in the blanks, status and
  interrupts, the affine matrix, and the bitmap seen through it.
- `Alu`, `AluLaws`, `CompareLaws`, `ChainLaws`: flags, comparisons, multi-word arithmetic (section A3.2 of the ARM
  Architecture Reference Manual, DDI 0100).
- `Processor` (functions) and `Arm7tdmi` (the object): registers, modes and instructions. `ArmLaws` (section A5.1) and
  `ThumbLaws` say what data processing does, bit by bit and in numbers; `TransferLaws` and `BlockLaws` (section A5.4) where
  LDM and STM go; `StackLaws`, `ModeLaws` (section A2.6): nested frames, banks and SWI.
- `Decoders`, `Memset`, `MemsetLaws`, `RecogniserLaws`: the Thumb decoder, recognising a three-instruction fill loop,
  what the loop does under the interpreter, and when the code emitted for it is right.
- `Timers`, `TimerLaws`, `Interrupts`, `Lz77`, `Bios`, `Sqrt`, `Flash`, `FlashLaws`, `Disassembler`, `SweepLaws`.
- `Words`, `Bits`, `Arith`, `Wrappers`, `Instructions`: shared definitions.

`dafny verify dfyconfig.toml` checks everything.

## What turned out to be false, and when it is true

- The compare of Thumb format 5 writes Z inverted and the sign of the difference to V; for each relational condition
  there is the exact set of operands for which it is right (`CompareLaws.HiCompareRightIff`).
- ARM-mode ASR by an immediate is right only for non-negative values or a distance of one or 32
  (`AluLaws.ArmAsrRightIff`). Its unmasked result makes a compare's unsigned conditions see more than a word
  (`CompareLaws.ArmCmpDecides`), and an exclusive or with it is never zero for the Z flag (`ArmLaws.LogicalLaw`).
- Thumb ADD and MOV into r15 land two bytes behind their result (`ThumbLaws.HighLaw`, `ThumbLaws.HighJumpIsOff`).
- An LDM or STM with an empty list does not even step over itself (`TransferLaws.EmptyListStalls`).
- Leaving FIQ loads no r8 to r12 (`ModeLaws.FiqVisitIff`).
- SWI entry is documented to set the I bit; it changes the mode bits only (`ModeLaws.SwiKeepsMask`). From SVC mode the link
  is not put in LR (`ModeLaws.SwiLinkIff`), so the return lands behind the SWI only if LR led there already
  (`ModeLaws.SwiReturns`). The mode comes back only if the mode field agreed with the CPSR (`ModeLaws.SwiRestoresModeIff`),
  which it does not after reset (`ModeLaws.ResetModeIsLost`).
- POP PC in a mode with a saved status always acts as an exception return (`StackLaws.PopPcEndsException`), and the mode it
  returns to then has the raised SP of the mode it left instead of its own (`StackLaws.PopPcKeepsSpIff`).
- Byte stores through mirrors of the palette, VRAM and OAM are lost (`MemoryLaws.ByteStoreLost`), and mapping moves
  0x01000000-0x01FFFFFF to another region (`MemoryLaws.MapKeepsRegion`).
- A word read is not always four successive byte reads (`MemoryLaws.WordIsFourReadsIff`). It is in RAM; across 0x0EFFFFFF the
  byte reads repeat the last byte of the image, which shows for images of more than 16 MB whose next bytes differ from it
  (`MemoryLaws.PathsDifferIff`); and mirrors of a tiny image show through in the SRAM area
  (`MemoryLaws.SliceIsFourReadsSramIff`, `MemoryLaws.TinyImageDiffers`).
- A word store to the BG2 reference point moves its lower half only (`AffineLaws.WordStoredRightIff`); a byte store to an
  affine register brings back a stale other byte (`IoLaws.AffineByteStoreIff`); and the high byte of the last one is not
  read from where it was stored (`IoLaws.AffineReadsBackIff`).
- Halfwords of the BIOS read as zero, whatever their bytes (`IoLaws.HalfOfNothing`).
- Several timer overflows in one call are folded into one (`TimerLaws.FoldedExactIff`, `TimerLaws.CascadeStepExactIff`).
- Page 1 of Mode 3 ends at texel 28672 of 38400, where VRAM ends (`Mode3.TexelPresentIff`).
- Of the sixteen FLASH sectors an erase reaches two (`FlashLaws.OnlyTwoSectors`), programming needs no command
  (`FlashLaws.PlainWritePrograms`), and in bank 0 the two halves of the window are the same bytes
  (`FlashLaws.HalvesAliasIff`).
- Neither recogniser of fill loops finds anything in decoded code, because every decoder gives STMIA a single operand
  (`Memset.DetectsNothing`, `Memset.DetectsNothingAcross`, `Memset.PipelineFindsNothing`). Nor would a decoder that gave it
  two help the first one: it looks for the 4 in the second operand of SUB, where the decoder has a register
  (`Memset.DecodedSubIff`).
- The second recogniser, which drives code generation, takes any SUB Rc, Rm, #4. Given the two-register STMIA it asks for,
  with SUB and BNE as decoded, the emitted code is right exactly when Rm is Rc (`RecogniserLaws.EmittedRightIff`).
- Even then the emitted loop differs from the loop itself when the counter is zero, is no multiple of four, or carries the
  base past 2^32 (`MemsetLaws.TerminatesIff`, `MemsetLaws.LoopIsEmittedIff`), and a loop in RAM may overwrite itself
  (`RecogniserLaws.LoopEscapes`).

## Model

| member | source | states |
|---|---|---|
| Memory.MirrorSize | crates/gbatopy-cli/assets/gba_runtime_embedded.py:647-655 | the mirror period of a ROM image is the smallest power of two that holds it |
| MemoryLaws.MirrorIsLeast | crates/gbatopy-cli/assets/gba_runtime_embedded.py:647-655 | no smaller power of two holds the image, and an image of such a size is its own mirror |
| Memory.Memory.constructor | crates/gbatopy-cli/assets/gba_runtime_embedded.py:69-113 | a fresh memory with seven separate buffers, all zero but DISPCNT, the first BIOS byte, the identity matrix and the first ROM word in IWRAM |
| IoLaws.PowerOn | crates/gbatopy-cli/assets/gba_runtime_embedded.py:69-113 | those bytes in numbers |
| IoLaws.PowerOnMatrix | crates/gbatopy-cli/assets/gba_runtime_embedded.py:83-89 | and the matrix they are read as |
| Memory.Memory.BufferForAddr | crates/gbatopy-cli/assets/gba_runtime_embedded.py:468-488 | the buffer and index an address maps to, ROM first, SRAM behind it |
| Memory.Memory.ReadU8 | crates/gbatopy-cli/assets/gba_runtime_embedded.py:402-466 | reads the mapped location and leaves the byte on the open bus; absent ROM reads SRAM or the bus |
| Memory.Memory.ReadU16 | crates/gbatopy-cli/assets/gba_runtime_embedded.py:490-498 | IO halfwords byte by byte, others as a slice, zero where there is no buffer |
| Memory.Memory.ReadU32 | crates/gbatopy-cli/assets/gba_runtime_embedded.py:520-537 | a slice of one buffer where the word fits, four byte reads elsewhere |
| Memory.Memory.WriteU8 | crates/gbatopy-cli/assets/gba_runtime_embedded.py:538-596 | stores to RAM and IO only, mapping no address from 0x04000000 to 0x07FFFFFF; IO byte stores are merged and forwarded |
| Memory.Memory.WriteU16 | crates/gbatopy-cli/assets/gba_runtime_embedded.py:598-615 | two byte stores at the mapped address; affine registers go to their own array instead |
| Memory.Memory.WriteU32 | crates/gbatopy-cli/assets/gba_runtime_embedded.py:617-639 | four byte stores, but only the low halfword in the IO area |
| Memory.Memory.HalWriteInPlace | crates/gbatopy-cli/assets/gba_runtime_embedded.py:171-199 | the register writes that land in the memory object: windows and affine parameters |
| MemoryLaws.MapIdempotent | crates/gbatopy-cli/assets/gba_runtime_embedded.py:372-400 | mapping a mapped address changes nothing |
| MemoryLaws.MapKeepsRegion | crates/gbatopy-cli/assets/gba_runtime_embedded.py:372-400 | mapping stays in the 16 MB region exactly for addresses outside 0x01000000-0x01FFFFFF |
| IoLaws.MapMeans | crates/gbatopy-cli/assets/gba_runtime_embedded.py:372-400 | the map in numbers: the size and start of every region's mirrors, and VRAM's uneven one |
| MemoryLaws.ByteStoreLost | crates/gbatopy-cli/assets/gba_runtime_embedded.py:538-596 | a byte store through a mirror of the palette, VRAM or OAM is lost; any other reaches its canonical byte |
| MemoryLaws.LastStoreWins | crates/gbatopy-cli/assets/gba_runtime_embedded.py:598-639 | after any sequence of aligned halfword and word stores to RAM, mirrors included, each byte of RAM is the last one stored at its canonical address, and ROM, BIOS and IO are untouched |
| MemoryLaws.WordLoadsReadLastStores | crates/gbatopy-cli/assets/gba_runtime_embedded.py:520-537 | an aligned word load through any mirror reads the four bytes last stored there |
| MemoryLaws.HalfLoadsReadLastStores | crates/gbatopy-cli/assets/gba_runtime_embedded.py:490-498 | the same for halfword loads |
| MemoryLaws.ByteLoadsReadLastStores | crates/gbatopy-cli/assets/gba_runtime_embedded.py:402-466 | the same for byte loads |
| MemoryLaws.SliceIsFourReadsRam | crates/gbatopy-cli/assets/gba_runtime_embedded.py:520-537 | in RAM the slice path of a word read is four successive byte reads |
| MemoryLaws.SliceIsFourReadsRomIff | crates/gbatopy-cli/assets/gba_runtime_embedded.py:520-537 | in the image the slice is four successive byte reads exactly when its bytes past 0x0EFFFFFF, if any, equal its last byte before, which those reads find on the open bus |
| MemoryLaws.SliceIsFourReadsSramIff | crates/gbatopy-cli/assets/gba_runtime_embedded.py:446-466 | in SRAM it is exactly when no mirror of the image with other bytes begins inside the word |
| MemoryLaws.WordIsFourReadsIff | crates/gbatopy-cli/assets/gba_runtime_embedded.py:520-537 | at every address a word read is four successive byte reads exactly under those conditions |
| MemoryLaws.PathsDifferIff | crates/gbatopy-cli/assets/gba_runtime_embedded.py:645-655 | with the mirror chosen on loading, some word of the image reads differently on the two paths exactly when one of the up to three bytes behind the image's first 16 MB differs from the last byte before them |
| MemoryLaws.PathsDifferOnlyThere | crates/gbatopy-cli/assets/gba_runtime_embedded.py:645-655 | for an image with a mirror of at least 32 KB the paths differ at no address outside the image |
| IoLaws.CartridgeByte | crates/gbatopy-cli/assets/gba_runtime_embedded.py:452-466 | the cartridge area byte by byte: image and mirrors, 32 KB of SRAM, the open bus |
| IoLaws.HalfInRom | crates/gbatopy-cli/assets/gba_runtime_embedded.py:490-498 | in the image a halfword read is two successive byte reads |
| IoLaws.HalfOfNothing | crates/gbatopy-cli/assets/gba_runtime_embedded.py:490-498 | halfwords of the BIOS and of no memory read as zero |
| IoLaws.IoReadsBack | crates/gbatopy-cli/assets/gba_runtime_embedded.py:598-615 | a halfword stored to the IO area is read back, except from the sound registers, which read as zero |
| IoLaws.AffineReadsBackIff | crates/gbatopy-cli/assets/gba_runtime_embedded.py:598-608 | an affine register is read back, the last one exactly when the IO byte behind it holds its high byte |
| IoLaws.AffineByteStoreIff | crates/gbatopy-cli/assets/gba_runtime_embedded.py:538-596 | a byte store to an affine register sets its byte and keeps the other of the pair exactly when the IO bytes agree with it |
| IoLaws.ChannelLatches | crates/gbatopy-cli/assets/gba_runtime_embedded.py:3764-3782 | the six halfwords stored at 0x040000B0 + 12 * id are the source, destination, count and control that switching the channel on latches |
| Dma.DMAChannel.ReadFromMemory | crates/gbatopy-cli/assets/gba_runtime_embedded.py:3764-3782 | addresses and count are latched from the IO bytes on the rising enable edge and whenever disabled |
| Dma.DMAChannel.WriteControlToMemory | crates/gbatopy-cli/assets/gba_runtime_embedded.py:3784-3787 | only the two control bytes of this channel change |
| Dma.DMA.MoveLoop | crates/gbatopy-cli/assets/gba_runtime_embedded.py:3881-3915 | n units, each read before the next is written, with the latch carried along |
| Dma.DMA.Run | crates/gbatopy-cli/assets/gba_runtime_embedded.py:3862-3941 | a whole transfer: units moved, addresses and count settled, one-shot channels disarmed in field and IO bytes, IF raised |
| Dma.DMA.FireAll | crates/gbatopy-cli/assets/gba_runtime_embedded.py:4024-4038 | channels 0 to 3 in order, each refreshed and then run if its timing matches |
| DmaLaws.OneShotIsCopy | crates/gbatopy-cli/assets/gba_runtime_embedded.py:3862-3941 | a one-shot incrementing transfer between RAM ranges is the forward unit copy between the canonical ranges |
| DmaLaws.OneShotCopies | crates/gbatopy-cli/assets/gba_runtime_embedded.py:3862-3941 | units clear of or below the source arrive unchanged; units landing k into the source repeat the first k; no other RAM byte changes |
| DmaLaws.CopyExact | crates/gbatopy-cli/assets/gba_runtime_embedded.py:3881-3915 | each unit of a copy whose destination does not start inside the source is the source unit |
| DmaLaws.CopyPeriodic | crates/gbatopy-cli/assets/gba_runtime_embedded.py:3881-3915 | destination unit i is source unit i mod k when the destination starts k units into the source |
| DmaLaws.AheadCopyExactIff | crates/gbatopy-cli/assets/gba_runtime_embedded.py:3881-3915 | an overlapping forward copy is exact if and only if the source already has period k |
| DmaLaws.OneShotDisarms | crates/gbatopy-cli/assets/gba_runtime_embedded.py:3932-3935 | afterwards the channel is off in its control field and its IO bytes, and no other channel is touched |
| DmaLaws.OneShotRunsOnce | crates/gbatopy-cli/assets/gba_runtime_embedded.py:4024-4038 | whatever sequence of triggers follows, memory stays as the single transfer left it |
| StrideLaws.TransferLaw | crates/gbatopy-cli/assets/gba_runtime_embedded.py:3850-3941 | for all sixteen pairs of directions and both widths, between clear RAM ranges: each unit arrives at dst + i*d from src + i*s, the last at a fixed destination, no other RAM byte changes; final addresses with the reloads, count, control bytes and interrupt in numbers |
| AffineLaws.AffineSignExtended | crates/gbatopy-cli/assets/gba_runtime_embedded.py:3161-3183 | each of the four matrix elements and two reference coordinates lies in its signed range and is congruent to its register modulo 2^16 or 2^28; the wrap-around flag is passed on |
| AffineLaws.HalvesStored | crates/gbatopy-cli/assets/gba_runtime_embedded.py:598-608 | either coordinate of the reference point, stored as two halfwords, is read back, its top four bits dropped |
| AffineLaws.WordStoredRightIff | crates/gbatopy-cli/assets/gba_runtime_embedded.py:617-634 | stored as one word, either is read back exactly when its register already held the upper bits that count |
| Ppu.PPU.LatchLine | crates/gbatopy-cli/assets/gba_runtime_embedded.py:2441-2475 | line 0 clears the snapshots; a visible line stores the parameters as they are before its DMA |
| Ppu.PPU.StoreStatusBytes | crates/gbatopy-cli/assets/gba_runtime_embedded.py:2490-2507 | VCOUNT and DISPSTAT bytes for the new line |
| Ppu.PPU.RaiseInterrupts | crates/gbatopy-cli/assets/gba_runtime_embedded.py:2513-2520 | VBlank, HBlank and VCount interrupts as DISPSTAT enables them |
| Ppu.PPU.StepScanline | crates/gbatopy-cli/assets/gba_runtime_embedded.py:2436-2525 | one line: snapshot, HBlank DMA on visible lines, VCOUNT, status, VBlank DMA on every VBlank line, interrupts; `PpuLaws`, `VBlankLaws` and `LineLaws` say what that amounts to |
| PpuLaws.StreamRun | crates/gbatopy-cli/assets/gba_runtime_embedded.py:2436-2525 | after any number of calls: VCOUNT, the channel, the matrix and every snapshot in terms of the DMA table alone |
| PpuLaws.LineSeesPreviousTransfer | crates/gbatopy-cli/assets/gba_runtime_embedded.py:2466-2485 | in every frame each visible line is latched with the table entry delivered on the visible line before it, the very first with the initial matrix |
| PpuLaws.TurnTransfers | crates/gbatopy-cli/assets/gba_runtime_embedded.py:2476-2487 | any 228 consecutive calls make exactly 160 transfers and advance the source by 320 bytes |
| PpuLaws.StreamingByControl | crates/gbatopy-cli/assets/gba_runtime_embedded.py:3764-3782 | the stream's channel by the bits of its control word |
| VBlankLaws.OneShotRun | crates/gbatopy-cli/assets/gba_runtime_embedded.py:2505-2513 | from any line, a one-shot VBlank channel leaves RAM alone until the first call that enters one of lines 160 to 227; from then on RAM holds what its one transfer delivered and the channel is off |
| VBlankLaws.NoneBefore160 | crates/gbatopy-cli/assets/gba_runtime_embedded.py:2490-2513 | from a visible line that first call is the one that enters line 160 |
| VBlankLaws.RepeatingRun | crates/gbatopy-cli/assets/gba_runtime_embedded.py:2505-2513 | after any number of calls a repeating VBlank channel has run once for each of lines 160 to 227 entered, its addresses moved or reloaded so many times |
| VBlankLaws.RepeatingCall | crates/gbatopy-cli/assets/gba_runtime_embedded.py:2505-2513 | each call that enters one of these lines delivers the next transfer; any other leaves RAM alone |
| VBlankLaws.TurnOfVBlank | crates/gbatopy-cli/assets/gba_runtime_embedded.py:2490-2513 | any 228 consecutive calls make 68 transfers |
| LineLaws.DispstatBits | crates/gbatopy-cli/assets/gba_runtime_embedded.py:2490-2507 | DISPSTAT bit by bit: vertical blank, horizontal blank, match, and the rest kept |
| LineLaws.CallStatus | crates/gbatopy-cli/assets/gba_runtime_embedded.py:2490-2520 | after a whole call the four status bytes are those of the line entered, and exactly the interrupts DISPSTAT asks for are requested |
| Mode3.Renderer.RenderMode3 | crates/gbatopy-cli/assets/gba_runtime_embedded.py:3185-3272 | every pixel of the frame has the colour of the two VRAM bytes of its texel, or of the first palette entry where there is none, with the layer to match |
| Mode3.Renderer.RenderLine | crates/gbatopy-cli/assets/gba_runtime_embedded.py:3229-3272 | one line, walking the texture coordinates, leaves the other lines alone |
| Mode3.TexelPresentIff | crates/gbatopy-cli/assets/gba_runtime_embedded.py:3193-3198 | page 0 holds every texel; page 1 exactly the first 28672 |
| Mode3.ColorMeans | crates/gbatopy-cli/assets/gba_runtime_embedded.py:1091-1093 | five bits each of red, green and blue, bit by bit, each widened by repeating its top three bits |
| Mode3.ShownRight | crates/gbatopy-cli/assets/gba_runtime_embedded.py:3250-3270 | a pixel's texel, its VRAM bytes or the backdrop, in numbers |
| Mode3.RefsMean | crates/gbatopy-cli/assets/gba_runtime_embedded.py:3229-3248 | a line's reference point is line 0's plus the second columns of all lines above |
| Mode3.ConstantMatrix | crates/gbatopy-cli/assets/gba_runtime_embedded.py:3229-3254 | with one matrix the texture coordinates are the affine map of the pixel |
| Mode3.IdentityShowsBitmap | crates/gbatopy-cli/assets/gba_runtime_embedded.py:3185-3272 | with the identity matrix page 0 is reproduced, each pixel in its two bytes' colour |
| Mode3.BackdropIff | crates/gbatopy-cli/assets/gba_runtime_embedded.py:3250-3270 | without wrap-around a pixel is backdrop, in the first palette entry's colour, exactly when its texel is off the bitmap |
| Mode3.WrapsAround | crates/gbatopy-cli/assets/gba_runtime_embedded.py:3250-3254 | with wrap-around a whole screen further is the same texel |
| AluLaws.EvaluatorsAgreeIff | crates/gbatopy-cli/assets/gba_runtime_embedded.py:5612-5649 | the ARM and Thumb condition evaluators agree on a code exactly when it is not 15 |
| AluLaws.CodesComplement | crates/gbatopy-cli/assets/gba_runtime_embedded.py:4342-4374 | codes 2k and 2k + 1 are complements for k up to 6 |
| AluLaws.AddCMeans | crates/gbatopy-cli/assets/gba_runtime_embedded.py:4632-4644 | result, carry and overflow of a 32-bit sum with carry, in numbers |
| AluLaws.SubCMeans | crates/gbatopy-cli/assets/gba_runtime_embedded.py:4622-4655 | result, not-borrow and overflow of a 32-bit difference with borrow, in numbers |
| AluLaws.CompareDecides | crates/gbatopy-cli/assets/gba_runtime_embedded.py:4661-4664 | the flags of a comparison decide equality, the unsigned and the signed order |
| AluLaws.AdcChainSums | crates/gbatopy-cli/assets/gba_runtime_embedded.py:5319-5324 | a chain of ADCs over n limbs is the n-limb sum with C the carry out, in both instruction sets |
| AluLaws.SbcChainSubtracts | crates/gbatopy-cli/assets/gba_runtime_embedded.py:5325-5330 | a chain of SBCs is the n-limb difference with C the not-borrow |
| AluLaws.ChainOverflow | crates/gbatopy-cli/assets/gba_runtime_embedded.py:4638-4650 | the final V of either chain is signed overflow of the whole n-limb number |
| ChainLaws.StepsAreChain | crates/gbatopy-cli/assets/gba_runtime_embedded.py:4550-4708 | executed ADC or SBC instructions, in either set, whose CPSR is left alone in between, run the chain on their operands and destinations |
| ChainLaws.AdcsSum | crates/gbatopy-cli/assets/gba_runtime_embedded.py:5319-5324 | so the destinations and the last C hold the whole sum |
| ChainLaws.SbcsSubtract | crates/gbatopy-cli/assets/gba_runtime_embedded.py:5325-5330 | and the whole difference, with C the not-borrow |
| ChainLaws.LastOverflow | crates/gbatopy-cli/assets/gba_runtime_embedded.py:4638-4650 | the last V is signed overflow of the whole numbers |
| AluLaws.ThumbAsrRight | crates/gbatopy-cli/assets/gba_runtime_embedded.py:5306-5318 | the Thumb ALU's ASR halves the two's complement value, rounding down, as often as the low byte of Rs says, for every amount, and C is the last bit shifted out |
| AluLaws.ArmAsrRightIff | crates/gbatopy-cli/assets/gba_runtime_embedded.py:4579-4606 | ARM ASR by an immediate, zero standing for 32, is right exactly for non-negative values or a distance of one or 32 |
| CompareLaws.ArmCmpDecides | crates/gbatopy-cli/assets/gba_runtime_embedded.py:4661-4664 | ARM CMP changes flags and PC only; in both evaluators equality and the signed order are decided for the low word of the second operand, the unsigned order for the whole of it, and for operands of one word all ten conditions decide their relation |
| CompareLaws.ThumbCmpDecides | crates/gbatopy-cli/assets/gba_runtime_embedded.py:5350-5358 | the same for the Thumb ALU CMP |
| CompareLaws.ThumbCmpImmediateDecides | crates/gbatopy-cli/assets/gba_runtime_embedded.py:5234-5241 | the same for Thumb CMP with an immediate |
| CompareLaws.HiCompareRightIff | crates/gbatopy-cli/assets/gba_runtime_embedded.py:5385-5416 | the high-register CMP changes flags and PC only; EQ and NE are never right, CS and CC exactly when the first operand is below, HI and LS exactly when it is not above, GE and LT exactly without signed overflow, GT and LE exactly when it is the smaller signed one |
| CompareLaws.AddImmediateIsAdd | crates/gbatopy-cli/assets/gba_runtime_embedded.py:5190-5250 | for any two words the carry by comparison and the overflow by complemented mask of the Thumb ADDs of formats 2 and 3 are those of a plain sum |
| ArmLaws.ConditionsMean | crates/gbatopy-cli/assets/gba_runtime_embedded.py:4342-4374 | both condition evaluators are the manual's table on bits 31 to 28 |
| ArmLaws.ShifterBits | crates/gbatopy-cli/assets/gba_runtime_embedded.py:4560-4606 | each bit of the second operand, and the carry, in bits of the instruction and the source register, for immediates and all four shifts |
| ArmLaws.LogicalLaw | crates/gbatopy-cli/assets/gba_runtime_embedded.py:4608-4708 | AND, EOR, TST, TEQ, ORR, MOV, BIC and MVN bit by bit from the instruction word, with N, Z, C and V; nothing else changes |
| ArmLaws.ArithmeticLaw | crates/gbatopy-cli/assets/gba_runtime_embedded.py:4608-4708 | SUB, RSB, ADD, ADC, SBC, RSC, CMP and CMN in numbers, with N, Z, C and V |
| ArmLaws.DataToPc | crates/gbatopy-cli/assets/gba_runtime_embedded.py:4690-4708 | a result for r15 is what r0 would get, rounded or selecting Thumb, with the exception return |
| ArmLaws.OperandMeans | crates/gbatopy-cli/assets/gba_runtime_embedded.py:4391-4403 | reading r15 gives the address two instructions on |
| ThumbLaws.BitwiseLaw | crates/gbatopy-cli/assets/gba_runtime_embedded.py:5264-5383 | AND, EOR, the four shifts by any amount, TST, ORR, BIC and MVN bit by bit, with all flags |
| ThumbLaws.SumLaw | crates/gbatopy-cli/assets/gba_runtime_embedded.py:5264-5383 | ADC, SBC, NEG, CMP and CMN in numbers, with all flags |
| ThumbLaws.MulLaw | crates/gbatopy-cli/assets/gba_runtime_embedded.py:5264-5383 | MUL: the product modulo 2^32, C and V kept |
| ThumbLaws.AddSubLaw | crates/gbatopy-cli/assets/gba_runtime_embedded.py:5190-5218 | format 2 in numbers |
| ThumbLaws.ImmediateLaw | crates/gbatopy-cli/assets/gba_runtime_embedded.py:5220-5262 | MOV, ADD and SUB of format 3 in numbers |
| ThumbLaws.HighLaw | crates/gbatopy-cli/assets/gba_runtime_embedded.py:5385-5416 | ADD and MOV of format 5; into r15 they land two bytes behind the result |
| ThumbLaws.ExchangeLaw | crates/gbatopy-cli/assets/gba_runtime_embedded.py:5392-5397 | BX goes to the even address and takes the T bit from bit 0, leaving the rest of the CPSR |
| ThumbLaws.BranchLaw | crates/gbatopy-cli/assets/gba_runtime_embedded.py:5651-5663 | a conditional branch by the manual's table, to the signed offset |
| ThumbLaws.Dispatch | crates/gbatopy-cli/assets/gba_runtime_embedded.py:5104-5150 | which halfwords are which format |
| Arm7tdmi.ARM7TDMI.constructor | crates/gbatopy-cli/assets/gba_runtime_embedded.py:4185-4232 | reset state; User and System share one bank object |
| Arm7tdmi.ARM7TDMI.SwitchMode | crates/gbatopy-cli/assets/gba_runtime_embedded.py:4234-4264 | saves the outgoing bank, loads the incoming one; leaving FIQ loads no r8 to r12; between modes with banks no (SP, LR) cell changes |
| Arm7tdmi.ARM7TDMI.WriteRegister | crates/gbatopy-cli/assets/gba_runtime_embedded.py:4381-4389 | masked store; an odd value in r15 selects Thumb |
| Arm7tdmi.ARM7TDMI.ReadOperand | crates/gbatopy-cli/assets/gba_runtime_embedded.py:4391-4403 | r15 reads 8 (ARM) or 4 (Thumb) ahead |
| Arm7tdmi.ARM7TDMI.ExecDataProcessing | crates/gbatopy-cli/assets/gba_runtime_embedded.py:4550-4708 | shifter, ALU, flags, PC and exception return, from the instruction word; after CMP the conditions decide as stated |
| Arm7tdmi.ARM7TDMI.ExecBlockTransfer | crates/gbatopy-cli/assets/gba_runtime_embedded.py:4844-4916 | the four addressing modes, writeback and LDM with PC, from the instruction word; `TransferLaws.BlockDone` says in numbers which word each register goes to or comes from |
| Arm7tdmi.ARM7TDMI.SwiExceptionEntry | crates/gbatopy-cli/assets/gba_runtime_embedded.py:5066-5102 | SPSR, link and mode of SVC |
| Arm7tdmi.ARM7TDMI.ExecSwiHalt | crates/gbatopy-cli/assets/gba_runtime_embedded.py:4928-5008 | the halting calls 2, 4 and 5; the mode bits are all that changes in the CPSR, and LR holds the link unless the mode was SVC before |
| Arm7tdmi.ARM7TDMI.ExecThumbAddSub | crates/gbatopy-cli/assets/gba_runtime_embedded.py:5190-5218 | format 2 |
| Arm7tdmi.ARM7TDMI.ExecThumbImm3 | crates/gbatopy-cli/assets/gba_runtime_embedded.py:5220-5262 | format 3; after CMP the conditions decide |
| Arm7tdmi.ARM7TDMI.ExecThumbAlu | crates/gbatopy-cli/assets/gba_runtime_embedded.py:5264-5383 | format 4; after CMP the conditions decide |
| Arm7tdmi.ARM7TDMI.ExecThumbHi | crates/gbatopy-cli/assets/gba_runtime_embedded.py:5385-5416 | format 5 and BX; after CMP each condition is right for exactly the operands stated |
| Arm7tdmi.ARM7TDMI.ExecThumbPushPop | crates/gbatopy-cli/assets/gba_runtime_embedded.py:5544-5587 | format 14, with the exception return of POP PC |
| Arm7tdmi.ARM7TDMI.ExecThumbLdmStm | crates/gbatopy-cli/assets/gba_runtime_embedded.py:5589-5610 | format 15, base written back unmasked, each register in the word of its rank |
| Arm7tdmi.ARM7TDMI.ExecThumbCondBranch | crates/gbatopy-cli/assets/gba_runtime_embedded.py:5651-5663 | format 16 |
| Arm7tdmi.ARM7TDMI.StepThumb | crates/gbatopy-cli/assets/gba_runtime_embedded.py:4424-4427 | fetch and dispatch of one Thumb instruction |
| TransferLaws.StmLaw | crates/gbatopy-cli/assets/gba_runtime_embedded.py:4844-4916 | by bits 24 and 23: the register of rank r goes to base - 4(n-1) + 4r, base + 4r, base - 4n + 4r or base + 4 + 4r; no other RAM byte changes; the base ends 4n up or down if it is written back |
| TransferLaws.LdmLaw | crates/gbatopy-cli/assets/gba_runtime_embedded.py:4844-4916 | LDM takes each register from the same addresses, the base written back over a loaded one; a word for r15 is rounded or selects Thumb, with the exception return |
| TransferLaws.EmptyListStalls | crates/gbatopy-cli/assets/gba_runtime_embedded.py:4862-4863 | an empty list leaves everything, the program counter included |
| TransferLaws.LowLaw | crates/gbatopy-cli/assets/gba_runtime_embedded.py:5589-5610 | Thumb STMIA and LDMIA: by rank upwards from the base, which moves past them |
| BlockLaws.StoreBlock | crates/gbatopy-cli/assets/gba_runtime_embedded.py:4875-4903 | each STM mode stores the listed registers by rank, lowest at the lowest address, in exactly n words, and moves the base past them |
| BlockLaws.LoadUndoesStore | crates/gbatopy-cli/assets/gba_runtime_embedded.py:4875-4903 | each STM mode is undone by its inverse LDM whatever changed in between outside the words and the base: listed registers and base return |
| BlockLaws.StmLdmRestores | crates/gbatopy-cli/assets/gba_runtime_embedded.py:4844-4916 | back to back the pair restores the whole state but the n words and PC |
| BlockLaws.WordsRestore | crates/gbatopy-cli/assets/gba_runtime_embedded.py:4844-4872 | the same for two instruction words that differ in the load bit and in both addressing bits |
| StackLaws.PushStores | crates/gbatopy-cli/assets/gba_runtime_embedded.py:5576-5587 | PUSH stores by rank below SP, LR last, and nothing else |
| StackLaws.PopLoads | crates/gbatopy-cli/assets/gba_runtime_embedded.py:5551-5575 | POP loads by rank, raises SP, and resumes at its last word with bit 0 selecting Thumb |
| StackLaws.NestingKeeps | crates/gbatopy-cli/assets/gba_runtime_embedded.py:5544-5587 | every well-nested run of frames restores SP and keeps the live words above it |
| StackLaws.FrameRestores | crates/gbatopy-cli/assets/gba_runtime_embedded.py:5544-5587 | a frame around any nested body restores the registers it lists and resumes at the LR it pushed |
| StackLaws.PopPcEndsException | crates/gbatopy-cli/assets/gba_runtime_embedded.py:5561-5572 | in a mode with a saved status POP PC restores it; bit 0 selects the instruction set exactly when it agrees with the saved T bit |
| StackLaws.PopPcKeepsSpIff | crates/gbatopy-cli/assets/gba_runtime_embedded.py:5561-5575 | returning to another mode, that mode has its own SP exactly when it equals the raised SP of the mode left, whose bank keeps the SP from before the POP |
| ModeLaws.BanksAreCells | crates/gbatopy-cli/assets/gba_runtime_embedded.py:4234-4264 | over every run of switches and register writes each bank is its own (SP, LR) cell, User and System sharing one, FIQ included |
| ModeLaws.ModeNumbers | crates/gbatopy-cli/assets/gba_runtime_embedded.py:4234-4264 | the seven modes by number, their banks and which have a saved status |
| ModeLaws.SwitchKeepsGeneral | crates/gbatopy-cli/assets/gba_runtime_embedded.py:4234-4264 | r0 to r12 and PC survive a switch to any mode but FIQ |
| ModeLaws.FiqVisitIff | crates/gbatopy-cli/assets/gba_runtime_embedded.py:4252-4262 | a visit to FIQ brings r8 to r12 back exactly when FIQ's own copies held the same values |
| ModeLaws.SwiEnters | crates/gbatopy-cli/assets/gba_runtime_embedded.py:5066-5102 | entry saves CPSR, link, SP and LR where the return will look for them |
| ModeLaws.SwiKeepsMask | crates/gbatopy-cli/assets/gba_runtime_embedded.py:5066-5102 | from every state entry changes the five mode bits of the CPSR only; bit 7 stays as it was |
| ModeLaws.SwiLinkIff | crates/gbatopy-cli/assets/gba_runtime_embedded.py:5088-5102 | from every state LR holds the address after the SWI exactly when the mode was not SVC or LR held it before |
| ModeLaws.SwiReturns | crates/gbatopy-cli/assets/gba_runtime_embedded.py:4694-4706 | after any handler that keeps the saved status, the link and another mode's bank, MOVS PC, LR restores CPSR, mode, SP and LR, landing after the SWI exactly when the caller was not in SVC mode or its LR led there |
| ModeLaws.SwiRoundTrip | crates/gbatopy-cli/assets/gba_runtime_embedded.py:5066-5102 | with an empty handler r0 to r14 and CPSR are restored from every mode |
| ModeLaws.SwiRestoresModeIff | crates/gbatopy-cli/assets/gba_runtime_embedded.py:4694-4706 | from every state the mode returns exactly when it agreed with the low CPSR bits before the call |
| ModeLaws.ResetModeIsLost | crates/gbatopy-cli/assets/gba_runtime_embedded.py:4185-4232 | after reset it does not: System mode comes back as mode 0 |
| Memset.DetectAcrossBlocks | crates/gbatopy-cli/src/analysis.rs:151-253 | the returned set is exactly the blocks of the matching triples, whatever order the map is visited in, and is empty on decoded instructions |
| Memset.LoopOf | crates/gbatopy-cli/src/analysis.rs:156-249 | one triple, with its early exits |
| Memset.DetectMeans | crates/gbatopy-cli/src/analysis.rs:258-331 | the first recogniser's triple, and the registers and fall-through address it takes from it |
| Decoders.ArmStoreHasOneOperand | crates/gbatopy-disasm/src/arm/mod.rs:683-749 | in ARM state an instruction named STMIA has one operand |
| Memset.ThumbStoreHasOneOperand | crates/gbatopy-disasm/src/thumb/mod.rs:364-386 | of all halfwords, those named STMIA have one operand |
| Memset.DetectsNothing | crates/gbatopy-cli/src/analysis.rs:258-331 | the first recogniser finds no loop in decoder output, whatever the code |
| Memset.DetectsNothingAcross | crates/gbatopy-cli/src/analysis.rs:151-253 | nor does the second, in any map of blocks |
| Memset.SweptIsDecoded | crates/gbatopy-disasm/src/disassembler.rs:106-275 | whatever the linear sweep records of an image is such decoder output |
| Memset.SelectedIsDecoded | crates/gbatopy-disasm/src/disassembler.rs:296-401 | so is every instruction of the selective disassembly |
| Memset.PipelineFindsNothing | crates/gbatopy-cli/src/pipeline_cmd.rs:146-148 | and so, however that is marked as data and cut into blocks, the second recogniser finds no loop in it |
| Memset.DecodedSubIff | crates/gbatopy-disasm/src/thumb/mod.rs:137-150 | of all halfwords the first recogniser's SUB test takes none, the second's exactly SUB Rd, Rs, #4 and SUB Rd, #4 |
| Memset.DecodedBranchIff | crates/gbatopy-disasm/src/thumb/mod.rs:388-425 | both take exactly a BNE whose low byte leads to the target |
| Memset.RecognisersDifferIff | crates/gbatopy-cli/src/analysis.rs:151-331 | on three blocks in a row the two differ exactly on a SUB of three or more operands with a 4 in just one of the second and third |
| Memset.AcceptsOtherCounter | crates/gbatopy-cli/src/analysis.rs:195-217 | given the two-register STMIA it asks for, the second takes a SUB that reads another register |
| Memset.RunEmitted | crates/gbatopy-cli/src/codegen/mod.rs:697-726 | the emitted function: a counted bulk fill, Rb advanced, Rc zero, flags and PC set |
| MemsetLaws.OneTurn | crates/gbatopy-cli/assets/gba_runtime_embedded.py:5190-5262 | three interpreter steps from the top, with either encoding of SUB Rc, Rc, #4, are one store, one decrement and the branch |
| MemsetLaws.EndsWithinIff | crates/gbatopy-cli/src/analysis.rs:258-331 | wherever the code lies, while its stores keep clear of it, the loop gets past its end within n turns exactly when Rc is a multiple of four that runs out in them, zero counting as 2^32 |
| MemsetLaws.TerminatesIff | crates/gbatopy-cli/src/analysis.rs:258-331 | run from the cartridge the loop gets past its end exactly when Rc is a multiple of four |
| MemsetLaws.LoopIsEmittedIff | crates/gbatopy-cli/src/codegen/mod.rs:697-726 | the loop ends in the state of the emitted code exactly when Rc is not zero and Rb + Rc stays below 2^32 |
| MemsetLaws.LoopIsFill | crates/gbatopy-cli/src/analysis.rs:258-331 | over a RAM range, code elsewhere, the loop sets each of Rc/4 words to Rs, changes no other byte, advances Rb by Rc, zeroes Rc and continues at the fall-through |
| RecogniserLaws.EmittedRightIff | crates/gbatopy-cli/src/analysis.rs:195-217 | for a triple in the cartridge that the second recogniser takes, SUB and BNE as decoded, the loop reaches the emitted code's final state from every start exactly when SUB has two operands or reads the register it writes; otherwise one start never reaches it |
| RecogniserLaws.LoopEscapes | crates/gbatopy-cli/src/analysis.rs:258-331 | a loop in RAM that overwrites its own BNE is past its end after one turn whatever the counter |
| RecogniserLaws.CartridgeFills | crates/gbatopy-cli/src/analysis.rs:258-331 | an instance: a cartridge holding just the loop's three halfwords |
| Timers.Timers.StepChannel | crates/gbatopy-cli/assets/gba_runtime_embedded.py:7162-7189 | one timer, seeing the flag its predecessor had before the call |
| Timers.Timers.Step | crates/gbatopy-cli/assets/gba_runtime_embedded.py:7151-7189 | all four timers and the interrupts of those that overflowed |
| TimerLaws.PrescalerIsExact | crates/gbatopy-cli/assets/gba_runtime_embedded.py:7177-7180 | total ticks are floor((sub + cycles) / prescaler) however the cycles are split |
| TimerLaws.TicksByControl | crates/gbatopy-cli/assets/gba_runtime_embedded.py:7162-7189 | a tick every 1, 64, 256 or 1024 cycles by the control byte |
| TimerLaws.OtherControls | crates/gbatopy-cli/assets/gba_runtime_embedded.py:7162-7189 | a disabled timer does not count, a cascading one counts its predecessor's pending overflow |
| TimerLaws.OverflowRequests | crates/gbatopy-cli/assets/gba_runtime_embedded.py:7182-7189 | a step requests exactly the interrupts of the timers that overflowed and ask for one |
| TimerLaws.FreeTimerCounts | crates/gbatopy-cli/assets/gba_runtime_embedded.py:7151-7189 | with increments of at most a period the count is initial + ticks - overflows * period |
| TimerLaws.SplittingDoesNotMatter | crates/gbatopy-cli/assets/gba_runtime_embedded.py:7151-7189 | two splittings of the same cycles leave the same count, remainder and number of overflows |
| TimerLaws.FoldedExactIff | crates/gbatopy-cli/assets/gba_runtime_embedded.py:7182-7189 | a call's folding is exact exactly when the timer does not overflow in it or the reloads it leaves out add up to a multiple of 2^16 |
| TimerLaws.FoldedExactIffNoReload | crates/gbatopy-cli/assets/gba_runtime_embedded.py:7182-7189 | so it is exact for every increment exactly when the reload value is zero |
| TimerLaws.CascadedByControl | crates/gbatopy-cli/assets/gba_runtime_embedded.py:7162-7189 | the cascade of the next three rows by its control bytes |
| TimerLaws.CascadeStepExactIff | crates/gbatopy-cli/assets/gba_runtime_embedded.py:7151-7189 | one call is exact modulo 2^64 exactly when timer 0 overflows at most once in it |
| TimerLaws.CascadeCounts | crates/gbatopy-cli/assets/gba_runtime_embedded.py:7151-7189 | over every run the four counts and pending flags advance by timer 0's ticks, losing only what leaves timer 3 |
| TimerLaws.CascadeIsA64BitCounter | crates/gbatopy-cli/assets/gba_runtime_embedded.py:7151-7189 | the same modulo 2^64 |
| Interrupts.RaiseBit | crates/gbatopy-cli/assets/gba_runtime_embedded.py:7252-7260 | firing sets its own IF bit and no other |
| Lz77.Uncompress | crates/gbatopy-cli/assets/gba_runtime_embedded.py:5883-5925 | the decoder loops, on any bytes |
| Lz77.Output | crates/gbatopy-cli/assets/gba_runtime_embedded.py:5883-5925 | never more than the declared size; nothing without a header |
| Lz77.CopyRepeats | crates/gbatopy-cli/assets/gba_runtime_embedded.py:5908-5919 | a back-reference appends its count of bytes, each the byte back + 1 places before it, overlaps included |
| Lz77.RoundTrip | crates/gbatopy-cli/assets/gba_runtime_embedded.py:5883-5925 | a serialised token list decompresses to the meaning of its tokens cut at the declared size |
| Bios.SwiLz77Uncomp | crates/gbatopy-cli/assets/gba_runtime_embedded.py:5883-5930 | decompression followed by one byte store per output byte |
| Bios.Lz77ToRam | crates/gbatopy-cli/assets/gba_runtime_embedded.py:5883-5930 | over a RAM range the tokens' meaning ends up in memory and nothing else changes |
| Sqrt.SwiSqrt | crates/gbatopy-cli/assets/gba_runtime_embedded.py:5841-5853 | terminates with r*r <= n < (r+1)*(r+1) |
| Sqrt.BiosSqrt | crates/gbatopy-cli/assets/gba_bios.py:50-65 | the same |
| Sqrt.FloorSqrtUnique | crates/gbatopy-cli/assets/gba_bios.py:50-65 | so the two agree on every input |
| Flash.FlashSave.WriteByte | crates/gbatopy-cli/assets/gba_runtime_embedded.py:8943-9011 | one write: registers and array as the protocol says |
| Flash.FlashSave.WriteAll | crates/gbatopy-cli/assets/gba_runtime_embedded.py:8939-8941 | a block write is the run of its single writes at consecutive addresses |
| Flash.FlashSave.EraseOneSector | crates/gbatopy-cli/assets/gba_runtime_embedded.py:9025-9049 | the sector of the address, if it lies inside the array |
| FlashLaws.ChipEraseNeedsSequence | crates/gbatopy-cli/assets/gba_runtime_embedded.py:8943-9011 | a chip erase happens only at the end of AA@5555, 55@2AAA, 80@5555, AA@5555, 55@2AAA, 10@5555 with only non-resetting writes between |
| FlashLaws.SectorEraseNeedsSequence | crates/gbatopy-cli/assets/gba_runtime_embedded.py:8977-8992 | the same arming for a sector erase |
| FlashLaws.SequenceErases | crates/gbatopy-cli/assets/gba_runtime_embedded.py:8943-9011 | from any state the six writes erase the chip |
| FlashLaws.AtMostOneByte | crates/gbatopy-cli/assets/gba_runtime_embedded.py:8993-9011 | a write that erases nothing changes at most one byte, to the value written |
| FlashLaws.LengthNeverChanges | crates/gbatopy-cli/assets/gba_runtime_embedded.py:8943-9053 | no run of writes changes the length of the array |
| FlashLaws.ProgramCommandWrites | crates/gbatopy-cli/assets/gba_runtime_embedded.py:8999-9011 | the program command stores its byte at the translated address and nothing else |
| FlashLaws.PlainWritePrograms | crates/gbatopy-cli/assets/gba_runtime_embedded.py:8993-9011 | an idle chip stores the byte of any data-window write |
| FlashLaws.TranslateMeans | crates/gbatopy-cli/assets/gba_runtime_embedded.py:8915-8925 | lower half of the window: the first 32 KB; upper half: the 32 KB of the bank |
| FlashLaws.HalvesAliasIff | crates/gbatopy-cli/assets/gba_runtime_embedded.py:8915-8925 | a lower and an upper address are the same byte exactly in bank 0 at the same place |
| FlashLaws.BankSwitches | crates/gbatopy-cli/assets/gba_runtime_embedded.py:8943-9011 | the bank command and a data-window write set the bank to that write's lowest bit |
| FlashLaws.OnlyTwoSectors | crates/gbatopy-cli/assets/gba_runtime_embedded.py:9025-9049 | a sector erase reaches the first or the ninth sector only |
| FlashLaws.SequenceErasesSector | crates/gbatopy-cli/assets/gba_runtime_embedded.py:8943-9011 | from any state the sector sequence fills that sector with 0xFF and changes nothing else |
| Disassembler.MarkDataRegions | crates/gbatopy-disasm/src/disassembler.rs:44-102 | marks exactly the instructions reached from a trigger through dense positions, keeps everything else, and counts them |
| Disassembler.MarkedIsDense | crates/gbatopy-disasm/src/disassembler.rs:44-102 | every marked instruction has a strict majority of unknown opcodes in its window |
| Disassembler.RatioIsMajority | crates/gbatopy-disasm/src/disassembler.rs:55-66 | the ratio test is the majority test |
| SweepLaws.TriggerMeans | crates/gbatopy-disasm/src/disassembler.rs:55-68 | a region starts where more than half of the next sixteen instructions, or of what is left, are unknown |
| SweepLaws.DenseMeans | crates/gbatopy-disasm/src/disassembler.rs:70-88 | and goes on where more than half are from eight before to sixteen on |
| SweepLaws.UnknownMeans | crates/gbatopy-disasm/src/disassembler.rs:58-62 | which opcodes count as unknown |
| SweepLaws.RawBytes | crates/gbatopy-disasm/src/disassembler.rs:106-275 | the raw code of an instruction is its bytes, little-endian |
| SweepLaws.EntersThumbMeans | crates/gbatopy-disasm/src/disassembler.rs:106-275 | when a BX met in ARM mode switches the sweep to Thumb |
| Disassembler.Disassembler.Disassemble | crates/gbatopy-disasm/src/disassembler.rs:106-275 | the instructions tile the image from its base with fewer than four bytes left over, each saying what its decoder says of the bytes at its address, BL pairs preferred, Thumb for good once entered |
| Disassembler.Disassembler.SelectiveDisassemble | crates/gbatopy-disasm/src/disassembler.rs:296-401 | one instruction for each entry of the mode map that fits into the image, in order, decoded at its rounded address |
| Disassembler.TilesCover | crates/gbatopy-disasm/src/disassembler.rs:106-275 | no gaps: the addresses between the ends are exactly those in some instruction |
| Disassembler.TilesOnce | crates/gbatopy-disasm/src/disassembler.rs:106-275 | no overlaps |

## Left out

- Memory.Memory.ReadU8: no device is attached, so reads of PPU, sound, timer, DMA, interrupt and key registers return the stored bytes.
- Memory.Memory.HalWriteInPlace: register writes are not passed on to the PPU, sound, timers, DMA channels or interrupt controller.
- Memory.Memory.constructor: a cartridge of at most 32 MB is loaded; the state without one is not modelled.
- Dma.DMA.Run: no sound FIFO destinations, and the interrupt controller is always attached; single-unit, special-timing and register-triggered transfers are not modelled.
- DmaLaws.OneShotCopies: overlapping ranges for incrementing one-shot transfers; `StrideLaws.TransferLaw` has every direction between ranges clear of each other.
- Ppu.PPU.StepScanline: no window snapshots and no poke into the generated module; DMA and interrupts are always attached.
- Mode3.Renderer.RenderLine: the branch that masks pixels by the windows is not modelled.
- Mode3.Renderer.RenderMode3: windows off and no sprites, in a class of its own beside the PPU's; the other video modes, including the text mode, are not modelled.
- Interrupts.InterruptController.Fire: sets IF only; registered handlers, IE and IME are not modelled.
- Arm7tdmi.ARM7TDMI.ExecDataProcessing: MRS and MSR, which share its encodings, are not modelled, nor are cycle counts.
- Arm7tdmi.ARM7TDMI.ExecSwiHalt: only the calls that halt enter SVC mode; the halt itself and the other BIOS calls are not modelled.
- Arm7tdmi.ARM7TDMI.StepThumb: the formats for shifts by an immediate, single loads and stores, address computation, BL and SWI report that they are not modelled.
- Timers.Timers.Step: the register interface around it (set_reload, set_control and the rest) is not modelled.
- MemsetLaws.TerminatesIff: for code in the cartridge; elsewhere `MemsetLaws.EndsWithinIff` asks that the stores keep clear of the code.
- RecogniserLaws.EmittedRightIff: about triples whose STMIA has two register operands, which no decoder gives; starts have a counter that is a nonzero multiple of four and keep the base below 2^32.
- Decoders.DecodesArm: block transfers exactly; of the other ARM formats only the names they can have.
- Lz77.Uncompress: the source bytes are given; the memory object has no `read_bytes`.
- Bios.SwiLz77Uncomp: the compressed bytes are an argument instead of a read from memory.
- Flash.FlashSave.WriteByte: no identification bytes and no save files.
- Disassembler.MostlyUnknown: the ratio is an exact real instead of a 64-bit float.
- Disassembler.Disassembler.Disassemble: the base is fixed at 0x08000000, the decoders are parameters (`Memset.SweptIsDecoded` puts in the program's own), and the condition field is dropped.
- Disassembler.Disassembler.SelectiveDisassemble: the offset of an address below 0x08000000 wraps, as in a release build; a checked build stops there. The search that fills the mode map is not modelled.
- Run-length decompression of extracted assets: the same group structure as the LZ77 loop, without its back-references.
- Huffman and EEPROM code, sound, serial, input, key handling, save states, the real-time clock: counters, host I/O or host time.
- The other data-processing, load/store and multiply instructions of ARM state, and the ARM fetch loop.
- Code generation other than the emitted fill: the translated language has no semantics in the repository.
- Sprites, blending, affine object parameters, ArcTan: floating point or host-dependent.
- Scripts, command line, benchmarks and the older duplicates of the runtime.
