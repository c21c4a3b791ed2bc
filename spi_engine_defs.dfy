// Command words of the SPI Engine (spi_engine_core.h): the instruction
// encoding the engine's command FIFO understands, and the 32-bit user
// command words a message is written in before it is compiled.

module SpiEngineDefs {

  /** The C integer types the engine descriptors use. */
  type u8 = x: int | 0 <= x < 0x100
  type u16 = x: int | 0 <= x < 0x1_0000
  type u32 = x: int | 0 <= x < 0x1_0000_0000

  /** A uint16_t held in a 32-bit word: a command FIFO entry or a user command parameter. */
  type Word16 = w: bv32 | w < 0x1_0000

  /** Return codes of the no-OS drivers. */
  const SUCCESS: int := 0
  const FAILURE: int := -1

  /** BIT(x) on a 32-bit unsigned long. */
  function Bit(x: nat): bv32
    requires x < 32
  {
    1 << x
  }

  /** GENMASK(h, l): bits l through h set. */
  function GenMask(h: nat, l: nat): bv32
    requires l <= h < 32
  {
    (0xFFFF_FFFF << l) & (0xFFFF_FFFF >> (32 - 1 - h))
  }

  // Instruction opcodes (bits 12-13 of a command word) and their arguments.
  const INST_TRANSFER: bv32 := 0x00
  const INST_ASSERT: bv32 := 0x01
  const INST_WRITE: bv32 := 0x02
  const INST_MISC: bv32 := 0x03
  const CMD_REG_CLK_DIV: bv32 := 0x00
  const CMD_REG_CONFIG: bv32 := 0x01
  const CMD_DATA_TRANSFER_LEN: bv32 := 0x02
  const MISC_SYNC: bv32 := 0x00
  const MISC_SLEEP: bv32 := 0x01
  const SYNC_TRANSFER_BEGIN: bv32 := 0x01
  const SYNC_TRANSFER_END: bv32 := 0x02

  // Selectors of the user commands, in bits 28-31 of a user command word.
  const CS_DEASSERT: bv32 := 0
  const CS_ASSERT: bv32 := 0x1000_0000
  const SLEEP_CMD: bv32 := 0x2000_0000
  const TRANSFER_R_CMD: bv32 := 0x3000_0000
  const TRANSFER_W_CMD: bv32 := 0x4000_0000
  const TRANSFER_R_W_CMD: bv32 := 0x5000_0000

  /** The mask of the selector bits, 0xF << 28. */
  const CMD_MSK: bv32 := 0xF000_0000

  /** The selectors as the header spells them with BIT and GENMASK. */
  lemma SelectorsAsDefined()
    ensures CS_ASSERT == Bit(28) && SLEEP_CMD == Bit(29) && TRANSFER_R_CMD == GenMask(29, 28)
    ensures TRANSFER_W_CMD == Bit(30) && TRANSFER_R_W_CMD == Bit(30) | Bit(28)
    ensures CMD_MSK == 0xF << 28
  {
  }

  /** How the engine splits a command word: the instruction in bits 12-13. */
  function Inst(w: bv32): bv32 { (w >> 12) & 3 }

  /** The first argument, in bits 8-9. */
  function Arg1(w: bv32): bv32 { (w >> 8) & 3 }

  /** The second argument, in bits 0-7. */
  function Arg2(w: bv32): bv32 { w & 0xFF }

  /**
   * SPI_ENGINE_CMD(inst, arg1, arg2). The instruction and the first argument
   * are masked to two bits; the second argument is OR-ed in unmasked, so the
   * engine reads back all three fields only while arg2 is below 256.
   */
  function EngineCmd(inst: bv32, arg1: bv32, arg2: bv32): (r: bv32)
    ensures arg2 < 0x100 ==> Inst(r) == inst & 3 && Arg1(r) == arg1 & 3 && Arg2(r) == arg2
    ensures arg2 < 0x100 ==> r < 0x4000
  {
    ((inst & 0x03) << 12) | ((arg1 & 0x03) << 8) | arg2
  }

  /** A second argument of 256 lands in the first argument's field. */
  lemma EngineCmdFieldsOverlap()
    ensures EngineCmd(INST_WRITE, CMD_REG_CLK_DIV, 0x100) == EngineCmd(INST_WRITE, CMD_REG_CONFIG, 0)
  {
  }

  /** A C truth value (0 or 1). */
  function Flag(b: bool): bv32 { if b then 1 else 0 }

  /** SPI_ENGINE_CMD_TRANSFER(write, read, n): clock n + 1 words, writing and/or reading. */
  function CmdTransfer(write: bool, read: bool, n: bv32): (r: bv32)
    ensures n < 0x100 ==> Inst(r) == INST_TRANSFER && Arg2(r) == n
    ensures n < 0x100 ==> ((Arg1(r) & 1 == 1) <==> write) && ((Arg1(r) & 2 == 2) <==> read)
  {
    EngineCmd(INST_TRANSFER, (Flag(read) << 1) | Flag(write), n)
  }

  /** SPI_ENGINE_CMD_ASSERT(delay, cs): drive the chip-select lines to the mask cs. */
  function CmdAssert(delay: bv32, cs: bv32): (r: bv32)
    ensures cs < 0x100 ==> Inst(r) == INST_ASSERT && Arg1(r) == delay & 3 && Arg2(r) == cs
  {
    EngineCmd(INST_ASSERT, delay, cs)
  }

  /** SPI_ENGINE_CMD_WRITE(reg, val): write a configuration register. */
  function CmdWrite(reg: bv32, val: bv32): (r: bv32)
    ensures val < 0x100 ==> Inst(r) == INST_WRITE && Arg1(r) == reg & 3 && Arg2(r) == val
  {
    EngineCmd(INST_WRITE, reg, val)
  }

  /** SPI_ENGINE_CMD_SLEEP(delay). */
  function CmdSleep(delay: bv32): (r: bv32)
    ensures delay < 0x100 ==> Inst(r) == INST_MISC && Arg1(r) == MISC_SLEEP && Arg2(r) == delay
  {
    EngineCmd(INST_MISC, MISC_SLEEP, delay)
  }

  /** SPI_ENGINE_CMD_SYNC(id). */
  function CmdSync(id: bv32): (r: bv32)
    ensures id < 0x100 ==> Inst(r) == INST_MISC && Arg1(r) == MISC_SYNC && Arg2(r) == id
  {
    EngineCmd(INST_MISC, MISC_SYNC, id)
  }

  /** The uint16_t a command word becomes when it is stored in the command FIFO. */
  function FifoEntry(w: bv32): (r: Word16)
    ensures w < 0x1_0000 ==> r == w
    ensures Inst(r) == Inst(w) && Arg1(r) == Arg1(w) && Arg2(r) == Arg2(w)
  {
    LowHalfKeepsFields(w);
    w & 0xFFFF
  }

  /** The fields the engine reads all lie in the low 16 bits. */
  lemma LowHalfKeepsFields(w: bv32)
    ensures w & 0xFFFF < 0x1_0000
    ensures Inst(w & 0xFFFF) == Inst(w) && Arg1(w & 0xFFFF) == Arg1(w) && Arg2(w & 0xFFFF) == Arg2(w)
  {
  }

  /** The selector add_user_cmd switches on: bits 28-31 of the word. */
  function Selector(cmd: bv32): (r: bv32)
    ensures r & 0x0FFF_FFFF == 0
    ensures r | (cmd & 0x0FFF_FFFF) == cmd
  {
    cmd & CMD_MSK
  }

  /**
   * The parameter add_user_cmd takes from a user command word: the bits
   * outside the selector, narrowed to uint16_t, which is the low 16 bits.
   */
  function UserParam(cmd: bv32): (r: Word16)
    ensures r == cmd & 0xFFFF
  {
    var paramMask := cmd & !CMD_MSK;
    (cmd & paramMask) & 0xFFFF
  }

  /** SLEEP(x): the sleep selector with the low 28 bits of x. */
  function Sleep(x: bv32): (r: bv32)
    ensures Selector(r) == SLEEP_CMD && r & 0x0FFF_FFFF == x & 0x0FFF_FFFF
  {
    SLEEP_CMD | (x & !CMD_MSK)
  }

  /** TRANSFER_BYTES_R(x): the read selector with the low 4 bits of x. */
  function TransferBytesR(x: bv32): (r: bv32)
    ensures Selector(r) == TRANSFER_R_CMD && r & 0x0FFF_FFFF == x & 0xF
  {
    TRANSFER_R_CMD | (x & 0xF)
  }

  /** TRANSFER_BYTES_W(x): the write selector with the low 4 bits of x. */
  function TransferBytesW(x: bv32): (r: bv32)
    ensures Selector(r) == TRANSFER_W_CMD && r & 0x0FFF_FFFF == x & 0xF
  {
    TRANSFER_W_CMD | (x & 0xF)
  }

  /** TRANSFER_BYTES_R_W(x): the read-and-write selector with the low 4 bits of x. */
  function TransferBytesRW(x: bv32): (r: bv32)
    ensures Selector(r) == TRANSFER_R_W_CMD && r & 0x0FFF_FFFF == x & 0xF
  {
    TRANSFER_R_W_CMD | (x & 0xF)
  }

  /** The low four bits of a byte, as a number. */
  lemma NibbleValue(b: bv8)
    ensures ((b as bv32) & 0xF) as int == (b as int) % 16
  {
    assert (b as bv32) & 0xF == (b & 0xF) as bv32;
    assert (b & 0xF) as int == (b as int) % 16;
  }

  /** A uint8_t and its bits. */
  lemma ByteValue(x: int)
    requires 0 <= x < 0x100
    ensures (x as bv8) as int == x
  {
    var y := x as bv16;
    assert y < 0x100;
    assert (y as bv8) as int == y as int;
  }
}
