// The SPI Engine command compiler (spi_engine_core.c): the descriptor
// arithmetic, the command FIFO a message is compiled into, and the
// interpreter of user commands.

module SpiEngineCore {
  import opened Common
  import opened SpiEngineDefs

  /**
   * The descriptor values the compiler reads: spi_desc's speed, chip select
   * and mode, and spi_desc_extra's chip-select delay, clock divider, offload
   * flags and word width.
   */
  datatype Config = EngineConfig(maxSpeedHz: u32, chipSelect: u8, mode: u32, csDelay: u8, clkDiv: u32,
                           offloadConfigured: bool, rxSupport: bool, txSupport: bool, dataWidth: u8)

  /** spi_desc_extra. The offload flags are C truth values. */
  class SpiDescExtra {
    var spiClkHz: u32
    var spiBaseaddr: u32
    var csDelay: u8
    var offloadRxSupportEn: bool
    var offloadRxDmaBaseaddr: u32
    var offloadTxSupportEn: bool
    var offloadTxDmaBaseaddr: u32
    var rxLength: u32
    var txLength: u32
    var clkDiv: u32
    var offloadConfigured: bool
    var dataWidth: u8
    var maxDataWidth: u8

    /** A fresh descriptor whose fields hold whatever malloc left there. */
    constructor()
    {
    }
  }

  /** spi_desc with the engine's extra descriptor. */
  class SpiDesc {
    var maxSpeedHz: u32
    var chipSelect: u8
    var mode: u32
    var extra: SpiDescExtra

    constructor(extra: SpiDescExtra)
      ensures this.extra == extra
    {
      this.extra := extra;
    }

    function Config(): Config
      reads this`maxSpeedHz, this`chipSelect, this`mode, this`extra
      reads extra`csDelay, extra`clkDiv, extra`offloadConfigured, extra`offloadRxSupportEn,
            extra`offloadTxSupportEn, extra`dataWidth
    {
      EngineConfig(maxSpeedHz, chipSelect, mode, extra.csDelay, extra.clkDiv,
             extra.offloadConfigured, extra.offloadRxSupportEn, extra.offloadTxSupportEn, extra.dataWidth)
    }
  }

  /** spi_eng_transfer_fifo: a length and the command array allocated with the structure. */
  class TransferFifo {
    var cmdFifoLen: nat
    const cmdFifo: array<Word16>

    /** The structure as spi_eng_transfer_message allocates it, for size entries, with the length cleared. */
    constructor(size: nat)
      ensures cmdFifoLen == 0 && cmdFifo.Length == size && fresh(cmdFifo)
    {
      cmdFifoLen := 0;
      cmdFifo := new Word16[size];
    }

    predicate Valid()
      reads this`cmdFifoLen
    {
      cmdFifoLen <= cmdFifo.Length
    }

    /** The commands queued so far. */
    function Contents(): seq<Word16>
      requires Valid()
      reads this`cmdFifoLen, cmdFifo
    {
      cmdFifo[..cmdFifoLen]
    }

    /** Whether k more commands fit. */
    predicate HasRoom(k: nat)
      reads this`cmdFifoLen
    {
      cmdFifoLen + k <= cmdFifo.Length
    }
  }

  /** spi_eng_msg: the user command words and the word buffers of one transfer. */
  class SpiMsg {
    var txBuf: array<bv32>
    var rxBuf: array<bv32>
    var spiMsgCmds: seq<bv32>
    var msgCmdLen: u8

    constructor(txBuf: array<bv32>, rxBuf: array<bv32>, spiMsgCmds: seq<bv32>, msgCmdLen: u8)
      ensures this.txBuf == txBuf && this.rxBuf == rxBuf
      ensures this.spiMsgCmds == spiMsgCmds && this.msgCmdLen == msgCmdLen
    {
      this.txBuf := txBuf;
      this.rxBuf := rxBuf;
      this.spiMsgCmds := spiMsgCmds;
      this.msgCmdLen := msgCmdLen;
    }

    /** The commands the message holds. */
    function Cmds(): seq<bv32>
      requires msgCmdLen <= |spiMsgCmds|
      reads this`spiMsgCmds, this`msgCmdLen
    {
      spiMsgCmds[..msgCmdLen]
    }
  }

  // ---------------------------------------------------------------------
  // Descriptor arithmetic
  // ---------------------------------------------------------------------

  /** spi_eng_set_transfer_length: the word width becomes the requested one, capped at the hardware's. */
  method SetTransferLength(desc: SpiDesc, dataLength: u8)
    modifies desc.extra`dataWidth
    ensures desc.extra.dataWidth <= dataLength && desc.extra.dataWidth <= desc.extra.maxDataWidth
    ensures desc.extra.dataWidth == dataLength || desc.extra.dataWidth == desc.extra.maxDataWidth
  {
    if dataLength > desc.extra.maxDataWidth {
      desc.extra.dataWidth := desc.extra.maxDataWidth;
    } else {
      desc.extra.dataWidth := dataLength;
    }
  }

  /** spi_get_word_lenght: how many whole bytes one engine word holds. */
  function WordLength(dataWidth: u8): (r: u8)
    ensures 8 * r <= dataWidth < 8 * r + 8
  {
    dataWidth / 8
  }

  /** Rounding a division up, as spi_get_words_number does it. */
  function CeilDiv(b: nat, w: nat): nat
    requires w >= 1
  {
    if b % w != 0 then b / w + 1 else b / w
  }

  /** The rounded-up quotient is the fewest multiples of w that reach b, and never exceeds b. */
  lemma CeilDivIsLeast(b: nat, w: nat)
    requires w >= 1
    ensures b <= CeilDiv(b, w) * w
    ensures CeilDiv(b, w) == 0 || (CeilDiv(b, w) - 1) * w < b
    ensures CeilDiv(b, w) <= b
  {
    var q := b / w;
    QuotientParts(b, w);
    ProductBounds(q, w);
    ProductStep(q, w);
  }

  /** Words of two bytes or more hold two or more bytes in fewer words than bytes. */
  lemma CeilDivShrinks(b: nat, w: nat)
    requires w >= 2 && b >= 2
    ensures CeilDiv(b, w) < b
  {
    var q := b / w;
    QuotientParts(b, w);
    ProductBounds(q, w);
  }

  /** Euclidean division of naturals by a positive divisor. */
  lemma QuotientParts(b: nat, w: nat)
    requires w >= 1
    ensures b == (b / w) * w + b % w && 0 <= b % w < w
  {
  }

  /** A product with a positive factor is at least the other factor, and twice it when the factor is two or more. */
  lemma ProductBounds(q: nat, w: nat)
    requires w >= 1
    ensures q <= q * w && (q >= 1 ==> w <= q * w)
    ensures w >= 2 ==> 2 * q <= q * w
  {
  }

  /** The quotient m / p counts the whole periods p in m: q * p <= m < (q + 1) * p, and it is zero exactly below one period. */
  lemma DivBrackets(m: int, p: int)
    requires 0 <= m && 0 < p
    ensures m / p * p <= m < m / p * p + p
    ensures m < p <==> m / p == 0
  {
    var q, r := m / p, m % p;
    assert m == q * p + r && 0 <= r < p;
    if q == 0 {
      assert m == r;
    } else {
      assert q >= 1;
      assert q * p >= p by { MulAtLeast(q, p); }
    }
  }

  /** A factor of at least one keeps a non-negative number at least as large. */
  lemma MulAtLeast(q: int, p: int)
    requires q >= 1 && p >= 0
    ensures q * p >= p
  {
    assert q * p == (q - 1) * p + p;
  }

  /** Neighbouring multiples of w lie w apart. */
  lemma ProductStep(q: int, w: int)
    ensures (q + 1) * w == q * w + w
    ensures (q - 1) * w == q * w - w
  {
  }

  /**
   * spi_get_words_number: the bytes divided by the word length, rounded up.
   * Words narrower than a byte would divide by zero.
   */
  function WordsNumber(dataWidth: u8, bytesNumber: u8): (r: u8)
    requires dataWidth >= 8
    ensures r == CeilDiv(bytesNumber, WordLength(dataWidth))
    ensures bytesNumber <= r * WordLength(dataWidth)
  {
    var wl := WordLength(dataWidth);
    var words := bytesNumber / wl;
    CeilDivIsLeast(bytesNumber, wl);
    if bytesNumber % wl != 0 then words + 1 else words
  }

  /** spi_get_words_number gives the fewest engine words that hold the bytes. */
  lemma WordsNumberIsLeast(dataWidth: u8, bytesNumber: u8)
    requires dataWidth >= 8
    ensures bytesNumber <= WordsNumber(dataWidth, bytesNumber) * WordLength(dataWidth)
    ensures WordsNumber(dataWidth, bytesNumber) == 0
            || (WordsNumber(dataWidth, bytesNumber) - 1) * WordLength(dataWidth) < bytesNumber
  {
    CeilDivIsLeast(bytesNumber, WordLength(dataWidth));
  }

  /**
   * spi_check_dma_config: with offload configured, a transfer fails when a
   * direction it uses (rx or tx) lacks offload support.
   */
  function CheckDmaConfig(c: Config, rx: bool, tx: bool): (ok: bool)
    ensures !ok <==> c.offloadConfigured && ((rx && !c.rxSupport) || (tx && !c.txSupport))
  {
    if c.offloadConfigured then
      if rx && !c.rxSupport then false
      else if tx && !c.txSupport then false
      else true
    else true
  }

  /** The uint32_t divisor (clk_div + 1) * 2 of spi_get_sleep_div: one SCLK period in module clocks. */
  function SleepDivisor(c: Config): u32
  {
    (2 * c.clkDiv + 2) % U32_MODULUS
  }

  /** The uint32_t tick count max_speed_hz / 1000000 * sleep_time_ns / 1000 of spi_get_sleep_div. */
  function SleepTicks(c: Config, sleepTimeNs: u32): u32
  {
    (c.maxSpeedHz / 1000000 * sleepTimeNs) % U32_MODULUS / 1000
  }

  /**
   * spi_get_sleep_div: whole SCLK periods in the sleep, less one, in uint32_t
   * arithmetic. A divisor that wraps to 0 divides by zero.
   */
  function SleepDiv(c: Config, sleepTimeNs: u32): (r: u32)
    requires SleepDivisor(c) != 0
  {
    var periods := SleepTicks(c, sleepTimeNs) / SleepDivisor(c);
    if periods == 0 then 0xFFFF_FFFF else periods - 1
  }

  /**
   * The sleep prescaler is one less than the number of whole SCLK periods in
   * the sleep, and wraps to 0xFFFFFFFF when the sleep is shorter than one.
   */
  lemma SleepDivCountsPeriods(c: Config, sleepTimeNs: u32)
    requires SleepDivisor(c) != 0
    ensures SleepTicks(c, sleepTimeNs) >= SleepDivisor(c) ==>
              (SleepDiv(c, sleepTimeNs) + 1) * SleepDivisor(c) <= SleepTicks(c, sleepTimeNs)
              < (SleepDiv(c, sleepTimeNs) + 2) * SleepDivisor(c)
    ensures SleepTicks(c, sleepTimeNs) < SleepDivisor(c) ==> SleepDiv(c, sleepTimeNs) == 0xFFFF_FFFF
  {
    var t: nat, d: nat := SleepTicks(c, sleepTimeNs), SleepDivisor(c);
    DivBrackets(t, d);
    var q := t / d;
    if t >= d {
      assert SleepDiv(c, sleepTimeNs) + 1 == q;
      ProductStep(q, d);
    }
  }

  // ---------------------------------------------------------------------
  // The commands each generator queues
  // ---------------------------------------------------------------------

  /**
   * The chip-select mask of spi_eng_gen_cs: all lines high when asserting;
   * when deasserting, the selected line low. The mask is a uint8_t, so a chip
   * select of 8 or more leaves every line high.
   */
  function CsMask(chipSelect: u8, isAssert: bool): (m: bv32)
    requires isAssert || chipSelect < 32
    ensures m <= 0xFF
    ensures isAssert || chipSelect >= 8 ==> m == 0xFF
    ensures !isAssert && chipSelect < 8 ==> m & Bit(chipSelect) == 0 && m | Bit(chipSelect) == 0xFF
  {
    if isAssert then 0xFF else (0xFF ^ Bit(chipSelect)) & 0xFF
  }

  /** The ASSERT command spi_eng_gen_cs queues. */
  function CsEntry(c: Config, isAssert: bool): (e: Word16)
    requires isAssert || c.chipSelect < 32
    ensures Inst(e) == INST_ASSERT && Arg1(e) == (c.csDelay as bv32) & 3 && Arg2(e) == CsMask(c.chipSelect, isAssert)
  {
    FifoEntry(CmdAssert(c.csDelay as bv32, CsMask(c.chipSelect, isAssert)))
  }

  /**
   * The zero-based word count of spi_eng_gen_transfer, a uint8_t: one less
   * than the words the bytes need, and 255 for zero bytes.
   */
  function TransferCount(dataWidth: u8, bytesNumber: u8): (n: u8)
    requires dataWidth >= 8
    ensures bytesNumber > 0 ==> n + 1 == WordsNumber(dataWidth, bytesNumber)
    ensures bytesNumber == 0 ==> n == 0xFF
  {
    (WordsNumber(dataWidth, bytesNumber) - 1) % 0x100
  }

  /** The TRANSFER command spi_eng_gen_transfer queues. */
  function TransferEntry(dataWidth: u8, write: bool, read: bool, bytesNumber: u8): (e: Word16)
    requires dataWidth >= 8
    ensures Inst(e) == INST_TRANSFER && Arg2(e) == TransferCount(dataWidth, bytesNumber) as bv32
    ensures ((Arg1(e) & 1 == 1) <==> write) && ((Arg1(e) & 2 == 2) <==> read)
  {
    FifoEntry(CmdTransfer(write, read, TransferCount(dataWidth, bytesNumber) as bv32))
  }

  /**
   * The SLEEP command spi_gen_sleep_ns queues. Only the low 8 bits of the
   * prescaler are the sleep argument; higher bits spill into the other fields.
   */
  function SleepEntry(c: Config, sleepTimeNs: u32): (e: Word16)
    requires SleepDivisor(c) != 0
  {
    FifoEntry(CmdSleep(SleepDiv(c, sleepTimeNs) as bv32))
  }

  // ---------------------------------------------------------------------
  // Generators appending to the command FIFO
  // ---------------------------------------------------------------------

  /** spi_eng_program_add_cmd: store cmd at index cmd_fifo_len and count it. */
  method ProgramAddCmd(xfer: TransferFifo, cmd: Word16)
    requires xfer.Valid() && xfer.HasRoom(1)
    modifies xfer`cmdFifoLen, xfer.cmdFifo
    ensures xfer.Valid() && xfer.Contents() == old(xfer.Contents()) + [cmd]
  {
    xfer.cmdFifo[xfer.cmdFifoLen] := cmd;
    xfer.cmdFifoLen := xfer.cmdFifoLen + 1;
  }

  /** spi_eng_gen_transfer: queue a transfer of the words bytesNumber bytes need. */
  method GenTransfer(extra: SpiDescExtra, xfer: TransferFifo, write: bool, read: bool, bytesNumber: u8)
    requires extra.dataWidth >= 8
    requires xfer.Valid() && xfer.HasRoom(1)
    modifies xfer`cmdFifoLen, xfer.cmdFifo
    ensures xfer.Valid() && xfer.Contents() == old(xfer.Contents()) + [TransferEntry(extra.dataWidth, write, read, bytesNumber)]
  {
    var wordsNumber := (WordsNumber(extra.dataWidth, bytesNumber) - 1) % 0x100;
    ProgramAddCmd(xfer, FifoEntry(CmdTransfer(write, read, wordsNumber as bv32)));
  }

  /** spi_eng_gen_cs: queue a chip-select change. */
  method GenCs(desc: SpiDesc, xfer: TransferFifo, isAssert: bool)
    requires isAssert || desc.chipSelect < 32
    requires xfer.Valid() && xfer.HasRoom(1)
    modifies xfer`cmdFifoLen, xfer.cmdFifo
    ensures xfer.Valid() && xfer.Contents() == old(xfer.Contents()) + [CsEntry(desc.Config(), isAssert)]
  {
    var mask: bv32 := 0xFF;
    if !isAssert {
      mask := (mask ^ Bit(desc.chipSelect)) & 0xFF;
    }
    ProgramAddCmd(xfer, FifoEntry(CmdAssert(desc.extra.csDelay as bv32, mask)));
  }

  /** spi_gen_sleep_ns: queue a sleep of sleepTimeNs nanoseconds. */
  method GenSleepNs(desc: SpiDesc, xfer: TransferFifo, sleepTimeNs: u32)
    requires SleepDivisor(desc.Config()) != 0
    requires xfer.Valid() && xfer.HasRoom(1)
    modifies xfer`cmdFifoLen, xfer.cmdFifo
    ensures xfer.Valid() && xfer.Contents() == old(xfer.Contents()) + [SleepEntry(desc.Config(), sleepTimeNs)]
  {
    var c := desc.Config();
    var sleepDiv := SleepDiv(c, sleepTimeNs);
    var e := FifoEntry(CmdSleep(sleepDiv as bv32));
    assert e == SleepEntry(c, sleepTimeNs);
    ProgramAddCmd(xfer, e);
  }

  // ---------------------------------------------------------------------
  // User commands
  // ---------------------------------------------------------------------

  /** What spi_eng_add_user_cmd makes of a user command word. */
  datatype UserCmd =
    | CsDeassertCmd
    | CsAssertCmd
    | SleepCmd(sleepTimeNs: u16)
    | TransferCmd(write: bool, read: bool, count: u16)
    | Ignored

  /** The switch of spi_eng_add_user_cmd on the selector, with the parameter it passes on. */
  function DecodeUserCmd(cmd: bv32): (u: UserCmd)
    ensures u.TransferCmd? ==> u.write || u.read
  {
    var command := Selector(cmd);
    var param: u16 := UserParam(cmd) as int;
    if command == CS_DEASSERT then CsDeassertCmd
    else if command == CS_ASSERT then CsAssertCmd
    else if command == SLEEP_CMD then SleepCmd(param)
    else if command == TRANSFER_R_CMD then TransferCmd(false, true, param)
    else if command == TRANSFER_W_CMD then TransferCmd(true, false, param)
    else if command == TRANSFER_R_W_CMD then TransferCmd(true, true, param)
    else Ignored
  }

  /** The user command macros decode to the commands they name, with the parameter bits they keep. */
  lemma DecodeUserCmdMacros(x: bv32)
    ensures DecodeUserCmd(CS_DEASSERT) == CsDeassertCmd
    ensures DecodeUserCmd(CS_ASSERT) == CsAssertCmd
    ensures DecodeUserCmd(Sleep(x)) == SleepCmd((x & 0xFFFF) as int)
    ensures DecodeUserCmd(TransferBytesR(x)) == TransferCmd(false, true, (x & 0xF) as int)
    ensures DecodeUserCmd(TransferBytesW(x)) == TransferCmd(true, false, (x & 0xF) as int)
    ensures DecodeUserCmd(TransferBytesRW(x)) == TransferCmd(true, true, (x & 0xF) as int)
  {
  }

  /** The uint32_t lengths spi_desc_extra counts the words of the next transfer in. */
  datatype Lengths = Lengths(rx: u32, tx: u32)

  /** What a user command asks of the descriptor before C's behaviour is defined. */
  predicate UserCmdDefined(c: Config, cmd: bv32)
  {
    match DecodeUserCmd(cmd)
    case CsDeassertCmd => c.chipSelect < 32
    case SleepCmd(_) => SleepDivisor(c) != 0
    case TransferCmd(_, _, _) => c.dataWidth >= 8
    case _ => true
  }

  /**
   * The command a transfer queues: one TRANSFER for the parameter narrowed to
   * the uint8_t byte count, or none when the DMA check refuses it.
   */
  function TransferEntries(c: Config, write: bool, read: bool, count: u16): seq<Word16>
    requires c.dataWidth >= 8
  {
    if CheckDmaConfig(c, read, write) then [TransferEntry(c.dataWidth, write, read, count % 0x100)] else []
  }

  /**
   * The rx/tx lengths after a transfer: the lengths of the directions it uses
   * become its parameter, or 0 when the DMA check refuses it.
   */
  function TransferLengths(c: Config, write: bool, read: bool, count: u16, l: Lengths): Lengths
  {
    var len := if CheckDmaConfig(c, read, write) then count else 0;
    Lengths(if read then len else l.rx, if write then len else l.tx)
  }

  /** The commands spi_eng_add_user_cmd queues for one user command. */
  function UserCmdEntries(c: Config, cmd: bv32): seq<Word16>
    requires UserCmdDefined(c, cmd)
  {
    match DecodeUserCmd(cmd)
    case CsDeassertCmd => [CsEntry(c, false)]
    case CsAssertCmd => [CsEntry(c, true)]
    case SleepCmd(ns) => [SleepEntry(c, ns)]
    case TransferCmd(write, read, count) => TransferEntries(c, write, read, count)
    case Ignored => []
  }

  /** The rx/tx lengths after one user command: only transfers change them. */
  function UserCmdLengths(c: Config, cmd: bv32, l: Lengths): (r: Lengths)
    ensures !DecodeUserCmd(cmd).TransferCmd? ==> r == l
  {
    match DecodeUserCmd(cmd)
    case TransferCmd(write, read, count) => TransferLengths(c, write, read, count, l)
    case _ => l
  }

  /**
   * Each recognised user command queues exactly one command, except a
   * transfer the DMA check refuses, which queues none; an unknown selector
   * queues none.
   */
  lemma UserCmdEntriesCount(c: Config, cmd: bv32)
    requires UserCmdDefined(c, cmd)
    ensures |UserCmdEntries(c, cmd)| <= 1
    ensures UserCmdEntries(c, cmd) == [] <==>
              DecodeUserCmd(cmd).Ignored?
              || (DecodeUserCmd(cmd).TransferCmd?
                  && !CheckDmaConfig(c, DecodeUserCmd(cmd).read, DecodeUserCmd(cmd).write))
  {
  }

  /**
   * The three transfer cases of spi_eng_add_user_cmd (read, write, read and
   * write): when the DMA check passes, queue the transfer and set the lengths
   * of the directions used to the parameter; otherwise set them to 0.
   */
  method UserTransfer(desc: SpiDesc, xfer: TransferFifo, write: bool, read: bool, param: u16)
    requires desc.extra.dataWidth >= 8
    requires xfer.Valid() && xfer.HasRoom(|TransferEntries(desc.Config(), write, read, param)|)
    modifies xfer`cmdFifoLen, xfer.cmdFifo, desc.extra`rxLength, desc.extra`txLength
    ensures xfer.Valid()
    ensures xfer.Contents() == old(xfer.Contents()) + TransferEntries(desc.Config(), write, read, param)
    ensures Lengths(desc.extra.rxLength, desc.extra.txLength)
            == TransferLengths(desc.Config(), write, read, param, old(Lengths(desc.extra.rxLength, desc.extra.txLength)))
  {
    if CheckDmaConfig(desc.Config(), read, write) {
      GenTransfer(desc.extra, xfer, write, read, param % 0x100);
      if write {
        desc.extra.txLength := param;
      }
      if read {
        desc.extra.rxLength := param;
      }
    } else {
      if write {
        desc.extra.txLength := 0;
      }
      if read {
        desc.extra.rxLength := 0;
      }
    }
  }

  /** spi_eng_add_user_cmd: interpret one user command word. */
  method AddUserCmd(desc: SpiDesc, xfer: TransferFifo, cmd: bv32)
    requires UserCmdDefined(desc.Config(), cmd)
    requires xfer.Valid() && xfer.HasRoom(|UserCmdEntries(desc.Config(), cmd)|)
    modifies xfer`cmdFifoLen, xfer.cmdFifo, desc.extra`rxLength, desc.extra`txLength
    ensures desc.Config() == old(desc.Config())
    ensures xfer.Valid() && xfer.Contents() == old(xfer.Contents()) + UserCmdEntries(desc.Config(), cmd)
    ensures Lengths(desc.extra.rxLength, desc.extra.txLength)
            == UserCmdLengths(desc.Config(), cmd, old(Lengths(desc.extra.rxLength, desc.extra.txLength)))
  {
    match DecodeUserCmd(cmd) {
      case CsDeassertCmd =>
        GenCs(desc, xfer, false);
      case CsAssertCmd =>
        GenCs(desc, xfer, true);
      case SleepCmd(sleepTimeNs) =>
        GenSleepNs(desc, xfer, sleepTimeNs);
      case TransferCmd(write, read, param) =>
        UserTransfer(desc, xfer, write, read, param);
      case Ignored =>
    }
  }

  // ---------------------------------------------------------------------
  // Compiling a message
  // ---------------------------------------------------------------------

  /** What every user command of a message asks of the descriptor. */
  predicate UserCmdsDefined(c: Config, cmds: seq<bv32>)
  {
    forall i :: 0 <= i < |cmds| ==> UserCmdDefined(c, cmds[i])
  }

  /** The commands the user command words queue, in message order. */
  function UserEntries(c: Config, cmds: seq<bv32>): (r: seq<Word16>)
    requires UserCmdsDefined(c, cmds)
    ensures |r| <= |cmds|
  {
    if cmds == [] then []
    else
      var last := cmds[|cmds| - 1];
      UserCmdEntriesCount(c, last);
      UserEntries(c, cmds[..|cmds| - 1]) + UserCmdEntries(c, last)
  }

  /** The rx/tx lengths after the user command words, in message order. */
  function LengthsAfter(c: Config, cmds: seq<bv32>, l: Lengths): Lengths
  {
    if cmds == [] then l
    else UserCmdLengths(c, cmds[|cmds| - 1], LengthsAfter(c, cmds[..|cmds| - 1], l))
  }

  /** The user commands of two consecutive runs of words queue one after the other. */
  lemma {:induction false} UserEntriesAppend(c: Config, a: seq<bv32>, b: seq<bv32>)
    requires UserCmdsDefined(c, a) && UserCmdsDefined(c, b)
    ensures UserCmdsDefined(c, a + b)
    ensures UserEntries(c, a + b) == UserEntries(c, a) + UserEntries(c, b)
    decreases |b|
  {
    assert UserCmdsDefined(c, a + b) by {
      forall i | 0 <= i < |a + b|
        ensures UserCmdDefined(c, (a + b)[i])
      {
        if i >= |a| {
          assert (a + b)[i] == b[i - |a|];
        }
      }
    }
    if b == [] {
      assert a + b == a;
    } else {
      var b', last := b[..|b| - 1], b[|b| - 1];
      assert (a + b)[..|a + b| - 1] == a + b';
      assert (a + b)[|a + b| - 1] == last;
      assert UserCmdsDefined(c, b');
      UserEntriesAppend(c, a, b');
      calc {
        UserEntries(c, a + b);
        UserEntries(c, a + b') + UserCmdEntries(c, last);
        UserEntries(c, a) + UserEntries(c, b') + UserCmdEntries(c, last);
        UserEntries(c, a) + UserEntries(c, b);
      }
    }
  }

  /** The commands the compiler queues before the user commands. */
  function HeaderEntries(c: Config): seq<Word16>
  {
    [FifoEntry(CmdWrite(CMD_REG_CLK_DIV, c.clkDiv as bv32)),
     FifoEntry(CmdWrite(CMD_REG_CONFIG, c.mode as bv32)),
     FifoEntry(CmdWrite(CMD_DATA_TRANSFER_LEN, c.dataWidth as bv32)),
     FifoEntry(CmdSync(SYNC_TRANSFER_BEGIN))]
  }

  /**
   * What spi_eng_compile_message queues: the clock divider, the SPI mode, the
   * word width and a begin sync, the user commands in order, an end sync.
   */
  function CompiledEntries(c: Config, cmds: seq<bv32>): seq<Word16>
    requires UserCmdsDefined(c, cmds)
  {
    HeaderEntries(c) + UserEntries(c, cmds) + [FifoEntry(CmdSync(SYNC_TRANSFER_END))]
  }

  /**
   * A compiled message opens with the register writes and the begin sync,
   * ends with the end sync, and holds between 5 and |cmds| + 5 commands.
   */
  lemma CompiledEntriesShape(c: Config, cmds: seq<bv32>)
    requires UserCmdsDefined(c, cmds)
    ensures var r := CompiledEntries(c, cmds);
            && 5 <= |r| <= |cmds| + 5
            && r[..4] == HeaderEntries(c) && r[4..|r| - 1] == UserEntries(c, cmds)
            && Inst(r[3]) == INST_MISC && Arg1(r[3]) == MISC_SYNC && Arg2(r[3]) == SYNC_TRANSFER_BEGIN
            && Inst(r[|r| - 1]) == INST_MISC && Arg1(r[|r| - 1]) == MISC_SYNC && Arg2(r[|r| - 1]) == SYNC_TRANSFER_END
  {
    var r := CompiledEntries(c, cmds);
    assert r[3] == FifoEntry(CmdSync(SYNC_TRANSFER_BEGIN));
    assert r[|r| - 1] == FifoEntry(CmdSync(SYNC_TRANSFER_END));
  }

  /**
   * The header writes the clock divider, the SPI mode and the word width to
   * the engine's registers, as long as each value fits the 8-bit argument.
   */
  lemma HeaderEntriesWriteRegisters(c: Config)
    requires c.clkDiv < 0x100 && c.mode < 0x100
    ensures var h := HeaderEntries(c);
            && Inst(h[0]) == INST_WRITE && Arg1(h[0]) == CMD_REG_CLK_DIV && Arg2(h[0]) == c.clkDiv as bv32
            && Inst(h[1]) == INST_WRITE && Arg1(h[1]) == CMD_REG_CONFIG && Arg2(h[1]) == c.mode as bv32
            && Inst(h[2]) == INST_WRITE && Arg1(h[2]) == CMD_DATA_TRANSFER_LEN && Arg2(h[2]) == c.dataWidth as bv32
  {
    WriteEntryDecodes(CMD_REG_CLK_DIV, c.clkDiv);
    WriteEntryDecodes(CMD_REG_CONFIG, c.mode);
    WriteEntryDecodes(CMD_DATA_TRANSFER_LEN, c.dataWidth);
  }

  /** A register write of a value below 256 decodes to that register and value. */
  lemma WriteEntryDecodes(reg: bv32, val: u8)
    ensures var e := FifoEntry(CmdWrite(reg, val as bv32));
            Inst(e) == INST_WRITE && Arg1(e) == reg & 3 && Arg2(e) == val as bv32
  {
    var v := val as bv32;
    assert v < 0x100;
  }

  /** The command FIFO room spi_eng_transfer_message allocates beyond the user commands. */
  const FIFO_SLACK: nat := 5

  /** The room the source allocates: msg_cmd_len + 3 entries. */
  const FIFO_SLACK_AS_WRITTEN: nat := 3

  /** With msg_cmd_len + 5 entries, every compiled message fits its command FIFO. */
  lemma CompiledFitsFifo(c: Config, cmds: seq<bv32>)
    requires UserCmdsDefined(c, cmds)
    ensures |CompiledEntries(c, cmds)| <= |cmds| + FIFO_SLACK
  {
  }

  /**
   * With msg_cmd_len + 3 entries, a message in which at most one user command
   * queues nothing (an empty one, or the four commands of spi_write_and_read)
   * is compiled past the end of its command FIFO.
   */
  lemma CompiledOverflowsFifoAsWritten(c: Config, cmds: seq<bv32>)
    requires UserCmdsDefined(c, cmds)
    requires |UserEntries(c, cmds)| + 1 >= |cmds|
    ensures |CompiledEntries(c, cmds)| > |cmds| + FIFO_SLACK_AS_WRITTEN
  {
  }

  /** The first four commands spi_eng_compile_message queues. */
  method ProgramHeader(desc: SpiDesc, xfer: TransferFifo)
    requires xfer.Valid() && xfer.HasRoom(4)
    modifies xfer`cmdFifoLen, xfer.cmdFifo
    ensures xfer.Valid() && xfer.Contents() == old(xfer.Contents()) + HeaderEntries(desc.Config())
  {
    var h := HeaderEntries(desc.Config());
    ProgramAddCmd(xfer, h[0]);
    ProgramAddCmd(xfer, h[1]);
    ProgramAddCmd(xfer, h[2]);
    ProgramAddCmd(xfer, h[3]);
  }

  /** spi_eng_compile_message: queue the header, every user command and the end sync. */
  method CompileMessage(desc: SpiDesc, msg: SpiMsg, xfer: TransferFifo)
    requires msg.msgCmdLen <= |msg.spiMsgCmds|
    requires UserCmdsDefined(desc.Config(), msg.Cmds())
    requires xfer.Valid() && xfer.HasRoom(|CompiledEntries(desc.Config(), msg.Cmds())|)
    modifies xfer`cmdFifoLen, xfer.cmdFifo, desc.extra`rxLength, desc.extra`txLength
    ensures desc.Config() == old(desc.Config())
    ensures xfer.Valid() && xfer.Contents() == old(xfer.Contents()) + CompiledEntries(desc.Config(), msg.Cmds())
    ensures Lengths(desc.extra.rxLength, desc.extra.txLength)
            == LengthsAfter(desc.Config(), msg.Cmds(), old(Lengths(desc.extra.rxLength, desc.extra.txLength)))
  {
    ghost var c := desc.Config();
    ghost var start := xfer.Contents();
    ProgramHeader(desc, xfer);
    AddUserCmds(desc, msg, xfer);
    ProgramAddCmd(xfer, FifoEntry(CmdSync(SYNC_TRANSFER_END)));
    AppendAssoc(start, HeaderEntries(c), UserEntries(c, msg.Cmds()));
    AppendAssoc(start, HeaderEntries(c) + UserEntries(c, msg.Cmds()), [FifoEntry(CmdSync(SYNC_TRANSFER_END))]);
  }

  /** The loop of spi_eng_compile_message: add each user command word in turn. */
  method AddUserCmds(desc: SpiDesc, msg: SpiMsg, xfer: TransferFifo)
    requires msg.msgCmdLen <= |msg.spiMsgCmds|
    requires UserCmdsDefined(desc.Config(), msg.Cmds())
    requires xfer.Valid() && xfer.HasRoom(|UserEntries(desc.Config(), msg.Cmds())| + 1)
    modifies xfer`cmdFifoLen, xfer.cmdFifo, desc.extra`rxLength, desc.extra`txLength
    ensures desc.Config() == old(desc.Config())
    ensures xfer.Valid() && xfer.HasRoom(1)
    ensures xfer.Contents() == old(xfer.Contents()) + UserEntries(desc.Config(), msg.Cmds())
    ensures Lengths(desc.extra.rxLength, desc.extra.txLength)
            == LengthsAfter(desc.Config(), msg.Cmds(), old(Lengths(desc.extra.rxLength, desc.extra.txLength)))
  {
    ghost var c := desc.Config();
    ghost var cmds := msg.Cmds();
    ghost var prefix := xfer.Contents();
    ghost var l0 := Lengths(desc.extra.rxLength, desc.extra.txLength);
    ghost var room := xfer.cmdFifo.Length - xfer.cmdFifoLen;
    var i := 0;
    while i < msg.msgCmdLen
      invariant 0 <= i <= |cmds|
      invariant desc.Config() == c
      invariant UserCmdsDefined(c, cmds[..i])
      invariant xfer.Valid() && xfer.Contents() == prefix + UserEntries(c, cmds[..i])
      invariant xfer.cmdFifo.Length - xfer.cmdFifoLen + |UserEntries(c, cmds[..i])| == room
      invariant Lengths(desc.extra.rxLength, desc.extra.txLength) == LengthsAfter(c, cmds[..i], l0)
    {
      var cmd := msg.spiMsgCmds[i];
      assert cmd == cmds[i];
      UserEntriesStep(c, cmds, i, l0);
      AddUserCmd(desc, xfer, cmd);
      AppendAssoc(prefix, UserEntries(c, cmds[..i]), UserCmdEntries(c, cmd));
      i := i + 1;
    }
    assert cmds[..i] == cmds;
  }

  /** One more user command word: its entries follow, and fit in what the whole message needs. */
  lemma UserEntriesStep(c: Config, cmds: seq<bv32>, i: nat, l: Lengths)
    requires i < |cmds| && UserCmdsDefined(c, cmds)
    ensures UserCmdsDefined(c, cmds[..i + 1]) && UserCmdDefined(c, cmds[i])
    ensures UserEntries(c, cmds[..i + 1]) == UserEntries(c, cmds[..i]) + UserCmdEntries(c, cmds[i])
    ensures LengthsAfter(c, cmds[..i + 1], l) == UserCmdLengths(c, cmds[i], LengthsAfter(c, cmds[..i], l))
    ensures |UserEntries(c, cmds[..i + 1])| <= |UserEntries(c, cmds)|
  {
    var p := cmds[..i + 1];
    UserEntriesPrefix(c, cmds, i + 1);
    assert p[..|p| - 1] == cmds[..i];
    assert p[|p| - 1] == cmds[i];
  }

  /** A prefix of a message is defined for the compiler and never queues more than the whole message. */
  lemma UserEntriesPrefix(c: Config, cmds: seq<bv32>, k: nat)
    requires k <= |cmds| && UserCmdsDefined(c, cmds)
    ensures UserCmdsDefined(c, cmds[..k])
    ensures |UserEntries(c, cmds[..k])| <= |UserEntries(c, cmds)|
  {
    var p, q := cmds[..k], cmds[k..];
    assert UserCmdsDefined(c, p) by {
      forall j | 0 <= j < |p|
        ensures UserCmdDefined(c, p[j])
      {
        assert p[j] == cmds[j];
      }
    }
    assert UserCmdsDefined(c, q) by {
      forall j | 0 <= j < |q|
        ensures UserCmdDefined(c, q[j])
      {
        assert q[j] == cmds[k + j];
      }
    }
    UserEntriesAppend(c, p, q);
    assert p + q == cmds;
  }

  /**
   * spi_eng_transfer_message, apart from the engine's registers: allocate a
   * command FIFO, compile the message into it, hand its commands and
   * tx_length words of tx_buf to the engine, and store rx_length words the
   * engine returns (sdi) in rx_buf. The poll for the end sync is left to the
   * engine. Returns the words written to the command and SDO FIFOs.
   */
  method TransferMessage(desc: SpiDesc, msg: SpiMsg, xferAllocated: bool, sdi: seq<bv32>)
    returns (ret: int, cmdWords: seq<Word16>, sdoWords: seq<bv32>)
    requires msg.msgCmdLen <= |msg.spiMsgCmds|
    requires UserCmdsDefined(desc.Config(), msg.Cmds())
    requires LengthsAfter(desc.Config(), msg.Cmds(), Lengths(desc.extra.rxLength, desc.extra.txLength)).tx
             <= msg.txBuf.Length
    requires LengthsAfter(desc.Config(), msg.Cmds(), Lengths(desc.extra.rxLength, desc.extra.txLength)).rx
             <= msg.rxBuf.Length
    requires LengthsAfter(desc.Config(), msg.Cmds(), Lengths(desc.extra.rxLength, desc.extra.txLength)).rx
             <= |sdi|
    modifies desc.extra`rxLength, desc.extra`txLength, msg.rxBuf
    ensures !xferAllocated ==> ret == FAILURE && unchanged(desc.extra, msg.rxBuf)
    ensures xferAllocated ==>
              var l := LengthsAfter(old(desc.Config()), old(msg.Cmds()),
                                    old(Lengths(desc.extra.rxLength, desc.extra.txLength)));
              && ret == SUCCESS
              && cmdWords == CompiledEntries(old(desc.Config()), old(msg.Cmds()))
              && Lengths(desc.extra.rxLength, desc.extra.txLength) == l
              && sdoWords == old(msg.txBuf[..l.tx])
              && msg.rxBuf[..] == sdi[..l.rx] + old(msg.rxBuf[l.rx..])
  {
    if !xferAllocated {
      return FAILURE, [], [];
    }
    ghost var c, cmds := desc.Config(), msg.Cmds();
    ghost var l := LengthsAfter(c, cmds, Lengths(desc.extra.rxLength, desc.extra.txLength));
    var xfer := new TransferFifo(msg.msgCmdLen + FIFO_SLACK);
    CompiledFitsFifo(c, cmds);
    CompileMessage(desc, msg, xfer);
    assert xfer.Contents() == CompiledEntries(c, cmds);
    assert Lengths(desc.extra.rxLength, desc.extra.txLength) == l;

    // The words the two register-write loops send, in order.
    cmdWords := xfer.cmdFifo[..xfer.cmdFifoLen];
    sdoWords := msg.txBuf[..desc.extra.txLength];

    StoreSdiWords(msg.rxBuf, sdi, desc.extra.rxLength);
    ret := SUCCESS;
  }

  /** The last loop of spi_eng_transfer_message: store n words read from the SDI FIFO in buf. */
  method StoreSdiWords(buf: array<bv32>, sdi: seq<bv32>, n: nat)
    requires n <= buf.Length && n <= |sdi|
    modifies buf
    ensures buf[..] == sdi[..n] + old(buf[n..])
  {
    var i := 0;
    while i < n
      invariant i <= n
      invariant forall k :: 0 <= k < i ==> buf[k] == sdi[k]
      invariant forall k :: i <= k < buf.Length ==> buf[k] == old(buf[k])
    {
      buf[i] := sdi[i];
      i := i + 1;
    }
    assert buf[..] == sdi[..n] + old(buf[n..]);
  }
}
