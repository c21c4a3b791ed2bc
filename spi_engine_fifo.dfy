// The FIFO-mode SPI driver on top of the SPI Engine (spi_engine_fifo.c):
// descriptor set-up, and spi_write_and_read, which packs bytes into engine
// words, runs a four-command message and unpacks the words read back.

module SpiEngineFifo {
  import opened Common
  import opened SpiEngineDefs
  import opened SpiEngineCore

  // ---------------------------------------------------------------------
  // Bytes within engine words
  // ---------------------------------------------------------------------

  /** The word widths spi_write_and_read can shift bytes into: 8 to 32 bits. */
  predicate PackableWidth(dataWidth: u8)
  {
    8 <= dataWidth <= 32
  }

  /** i / wl, the word byte i is packed into, by repeated subtraction. */
  function WordIndex(i: nat, wl: nat): nat
    requires wl >= 1
  {
    if i < wl then 0 else 1 + WordIndex(i - wl, wl)
  }

  /** i mod wl, the slot of byte i within its word. */
  function SlotIndex(i: nat, wl: nat): (s: nat)
    requires wl >= 1
    ensures s < wl
  {
    if i < wl then i else SlotIndex(i - wl, wl)
  }

  /** The word and the slot are the quotient and the remainder of C's / and %. */
  lemma {:induction false} WordIndexIsDiv(i: nat, wl: nat)
    requires 1 <= wl <= 4
    ensures WordIndex(i, wl) == i / wl && SlotIndex(i, wl) == i % wl
    ensures i == WordIndex(i, wl) * wl + SlotIndex(i, wl)
  {
    if i >= wl {
      WordIndexIsDiv(i - wl, wl);
      var q := WordIndex(i - wl, wl);
      assert (q + 1) * wl == q * wl + wl;
      DivUnique(i, wl, q + 1, SlotIndex(i - wl, wl));
    } else {
      DivUnique(i, wl, 0, i);
    }
  }

  /** A quotient and a remainder below the divisor are C's / and %, for the word lengths 1 to 4. */
  lemma DivUnique(i: nat, wl: nat, q: nat, r: nat)
    requires 1 <= wl <= 4 && r < wl && i == q * wl + r
    ensures q == i / wl && r == i % wl
  {
    if wl == 1 {
    } else if wl == 2 {
    } else if wl == 3 {
    } else {
    }
  }

  /**
   * The shift of byte i within its word, data_width - (i mod wl + 1) * 8:
   * the first byte of a word sits highest, so bytes are big-endian within
   * a word, and a width that is not a multiple of 8 leaves the low bits clear.
   */
  function Shift(dataWidth: u8, i: nat): (sh: nat)
    requires PackableWidth(dataWidth)
    ensures sh + 8 <= dataWidth && sh <= 24
  {
    dataWidth - (SlotIndex(i, WordLength(dataWidth)) + 1) * 8
  }

  /** data[i] << shift, as the OR into a tx word sees it. */
  function Place(b: bv8, sh: nat): bv32
    requires sh <= 24
  {
    (b as bv32) << (sh as bv8)
  }

  /** The uint8_t the unpacking keeps of word >> shift: the 8 bits at the shift. */
  function ByteAt(w: bv32, sh: nat): bv8
    requires sh <= 24
  {
    ((w >> (sh as bv8)) & 0xFF) as bv8
  }

  /** Reading back the slot a byte was OR-ed into gives the old slot OR-ed with the byte. */
  lemma PlaceSameSlot(w: bv32, b: bv8, sh: nat)
    requires sh <= 24
    ensures ByteAt(w | Place(b, sh), sh) == ByteAt(w, sh) | b
  {
    ShiftAmounts(sh, sh);
    SameSlotBits(w, b, sh as bv8);
  }

  /** OR-ing a byte into one slot leaves every slot at least 8 bits away untouched. */
  lemma PlaceOtherSlot(w: bv32, b: bv8, sh: nat, sh2: nat)
    requires sh <= 24 && sh2 <= 24
    requires sh + 8 <= sh2 || sh2 + 8 <= sh
    ensures ByteAt(w | Place(b, sh), sh2) == ByteAt(w, sh2)
  {
    ShiftAmounts(sh, sh2);
    OtherSlotBits(w, b, sh as bv8, sh2 as bv8);
  }

  lemma ShiftAmounts(sh: nat, sh2: nat)
    requires sh <= 24 && sh2 <= 24
    ensures (sh as bv8) <= 24 && (sh2 as bv8) <= 24
    ensures sh + 8 <= sh2 ==> (sh as bv8) + 8 <= (sh2 as bv8)
    ensures sh2 + 8 <= sh ==> (sh2 as bv8) + 8 <= (sh as bv8)
  {
  }

  lemma SameSlotBits(w: bv32, b: bv8, s: bv8)
    requires s <= 24
    ensures (((w | ((b as bv32) << s)) >> s) & 0xFF) as bv8 == (((w >> s) & 0xFF) as bv8) | b
  {
  }

  lemma OtherSlotBits(w: bv32, b: bv8, s: bv8, s2: bv8)
    requires s <= 24 && s2 <= 24
    requires s + 8 <= s2 || s2 + 8 <= s
    ensures ((w | ((b as bv32) << s)) >> s2) & 0xFF == (w >> s2) & 0xFF
  {
  }

  /** Two bytes of the same word sit in slots at least 8 bits apart. */
  lemma SlotsApart(dataWidth: u8, i: nat, k: nat)
    requires PackableWidth(dataWidth)
    requires i != k && WordIndex(i, WordLength(dataWidth)) == WordIndex(k, WordLength(dataWidth))
    ensures Shift(dataWidth, i) + 8 <= Shift(dataWidth, k) || Shift(dataWidth, k) + 8 <= Shift(dataWidth, i)
  {
    var wl := WordLength(dataWidth);
    WordIndexIsDiv(i, wl);
    WordIndexIsDiv(k, wl);
  }

  /** A byte index below words * wl lies in one of the words. */
  lemma {:induction false} WordIndexInRange(i: nat, wl: nat, words: nat)
    requires wl >= 1 && i < words * wl
    ensures WordIndex(i, wl) < words
  {
    if i >= wl {
      WordIndexInRange(i - wl, wl, words - 1);
    }
  }

  /**
   * The tx words after the packing loop of spi_write_and_read has OR-ed the
   * bytes of data, one after the other, into words that were zeroed.
   */
  function Pack(data: seq<bv8>, dataWidth: u8, words: nat): (r: seq<bv32>)
    requires PackableWidth(dataWidth) && |data| <= words * WordLength(dataWidth)
    ensures |r| == words
  {
    if data == [] then seq(words, _ => 0)
    else
      var i := |data| - 1;
      WordIndexInRange(i, WordLength(dataWidth), words);
      PackStep(Pack(data[..i], dataWidth, words), data[..i], data[i], dataWidth)
  }

  /** Byte slot i of the words r (slot i mod wl of word i / wl) holds b. */
  predicate SlotHolds(r: seq<bv32>, dataWidth: u8, i: nat, b: bv8)
    requires PackableWidth(dataWidth)
  {
    var j := WordIndex(i, WordLength(dataWidth));
    j < |r| && ByteAt(r[j], Shift(dataWidth, i)) == b
  }

  /** The tx words hold the bytes of data in their slots and zero in every slot after them. */
  predicate PackedSlots(r: seq<bv32>, data: seq<bv8>, dataWidth: u8, words: nat)
    requires PackableWidth(dataWidth)
  {
    && (forall i :: 0 <= i < |data| ==> SlotHolds(r, dataWidth, i, data[i]))
    && (forall k :: |data| <= k < words * WordLength(dataWidth) ==> SlotHolds(r, dataWidth, k, 0))
  }

  /** What one step of the packing loop makes of slot i. */
  lemma PackStepSlot(p: seq<bv32>, data: seq<bv8>, b: bv8, dataWidth: u8, words: nat, i: nat)
    requires PackableWidth(dataWidth) && |data| < words * WordLength(dataWidth) && |p| == words
    requires PackedSlots(p, data, dataWidth, words)
    requires i < words * WordLength(dataWidth)
    ensures var m, wl := |data|, WordLength(dataWidth);
            WordIndex(m, wl) < words
            && SlotHolds(PackStep(p, data, b, dataWidth), dataWidth, i,
                         if i < |data| then data[i] else if i == |data| then b else 0)
  {
    var m, wl := |data|, WordLength(dataWidth);
    WordIndexInRange(m, wl, words);
    WordIndexInRange(i, wl, words);
    var j := WordIndex(m, wl);
    if i == m {
      assert SlotHolds(p, dataWidth, m, 0);
      PlaceSameSlot(p[j], b, Shift(dataWidth, m));
    } else {
      assert SlotHolds(p, dataWidth, i, if i < m then data[i] else 0);
      if WordIndex(i, wl) == j {
        SlotsApart(dataWidth, i, m);
        PlaceOtherSlot(p[j], b, Shift(dataWidth, m), Shift(dataWidth, i));
      }
    }
  }

  /** The words after OR-ing byte b into slot |data|. */
  function PackStep(p: seq<bv32>, data: seq<bv8>, b: bv8, dataWidth: u8): seq<bv32>
    requires PackableWidth(dataWidth) && WordIndex(|data|, WordLength(dataWidth)) < |p|
  {
    var j := WordIndex(|data|, WordLength(dataWidth));
    p[j := p[j] | Place(b, Shift(dataWidth, |data|))]
  }

  /** One step of the packing loop keeps the slots: byte m lands in a zero slot, the others stay. */
  lemma PackStepPlaces(p: seq<bv32>, data: seq<bv8>, b: bv8, dataWidth: u8, words: nat)
    requires PackableWidth(dataWidth) && |data| < words * WordLength(dataWidth) && |p| == words
    requires PackedSlots(p, data, dataWidth, words)
    ensures WordIndex(|data|, WordLength(dataWidth)) < words
    ensures PackedSlots(PackStep(p, data, b, dataWidth), data + [b], dataWidth, words)
  {
    WordIndexInRange(|data|, WordLength(dataWidth), words);
    PackStepKeepsBytes(p, data, b, dataWidth, words);
    PackStepKeepsZeros(p, data, b, dataWidth, words);
  }

  lemma PackStepKeepsBytes(p: seq<bv32>, data: seq<bv8>, b: bv8, dataWidth: u8, words: nat)
    requires PackableWidth(dataWidth) && |data| < words * WordLength(dataWidth) && |p| == words
    requires PackedSlots(p, data, dataWidth, words)
    requires WordIndex(|data|, WordLength(dataWidth)) < words
    ensures var r, d := PackStep(p, data, b, dataWidth), data + [b];
            forall i :: 0 <= i < |d| ==> SlotHolds(r, dataWidth, i, d[i])
  {
    var r, d := PackStep(p, data, b, dataWidth), data + [b];
    forall i | 0 <= i < |d|
      ensures SlotHolds(r, dataWidth, i, d[i])
    {
      PackStepSlot(p, data, b, dataWidth, words, i);
    }
  }

  lemma PackStepKeepsZeros(p: seq<bv32>, data: seq<bv8>, b: bv8, dataWidth: u8, words: nat)
    requires PackableWidth(dataWidth) && |data| < words * WordLength(dataWidth) && |p| == words
    requires PackedSlots(p, data, dataWidth, words)
    requires WordIndex(|data|, WordLength(dataWidth)) < words
    ensures var r := PackStep(p, data, b, dataWidth);
            forall k :: |data| + 1 <= k < words * WordLength(dataWidth) ==> SlotHolds(r, dataWidth, k, 0)
  {
    var r := PackStep(p, data, b, dataWidth);
    forall k | |data| + 1 <= k < words * WordLength(dataWidth)
      ensures SlotHolds(r, dataWidth, k, 0)
    {
      PackStepSlot(p, data, b, dataWidth, words, k);
    }
  }

  /**
   * Every packed byte can be read back from its slot of its word, and every
   * slot no byte was packed into is still zero.
   */
  lemma {:induction false} PackPlacesBytes(data: seq<bv8>, dataWidth: u8, words: nat)
    requires PackableWidth(dataWidth) && |data| <= words * WordLength(dataWidth)
    ensures PackedSlots(Pack(data, dataWidth, words), data, dataWidth, words)
  {
    if data == [] {
      var r := Pack(data, dataWidth, words);
      forall k | 0 <= k < words * WordLength(dataWidth)
        ensures SlotHolds(r, dataWidth, k, 0)
      {
        WordIndexInRange(k, WordLength(dataWidth), words);
      }
    } else {
      var m := |data| - 1;
      assert data == data[..m] + [data[m]];
      PackPlacesBytes(data[..m], dataWidth, words);
      PackStepPlaces(Pack(data[..m], dataWidth, words), data[..m], data[m], dataWidth, words);
    }
  }

  /** The byte in slot i of the words rx. */
  function SlotByte(rx: seq<bv32>, dataWidth: u8, i: nat): bv8
    requires PackableWidth(dataWidth) && i < |rx| * WordLength(dataWidth)
  {
    WordIndexInRange(i, WordLength(dataWidth), |rx|);
    ByteAt(rx[WordIndex(i, WordLength(dataWidth))], Shift(dataWidth, i))
  }

  /**
   * data after the unpacking loop of spi_write_and_read: for 1 <= i < n,
   * data[i - 1] takes the byte in slot i of the rx words, so the first byte
   * received is dropped; data[n - 1] and the bytes after it keep their values.
   */
  function Unpacked(rx: seq<bv32>, dataWidth: u8, data: seq<bv8>, n: nat): (r: seq<bv8>)
    requires PackableWidth(dataWidth) && n <= |data| && n <= |rx| * WordLength(dataWidth)
    ensures |r| == |data|
  {
    seq(|data|, k requires 0 <= k < |data| => if k + 1 < n then SlotByte(rx, dataWidth, k + 1) else data[k])
  }

  /**
   * Read back from a loopback, the packed words unpack to the bytes shifted
   * down by one: data[0] is the dummy byte dropped, data[n - 1] is kept.
   */
  lemma PackUnpackShiftsBytes(data: seq<bv8>, dataWidth: u8, words: nat, n: nat)
    requires PackableWidth(dataWidth) && 1 <= n <= |data| && n <= words * WordLength(dataWidth)
    ensures Unpacked(Pack(data[..n], dataWidth, words), dataWidth, data, n) == data[1..n] + data[n - 1..]
  {
    var p := Pack(data[..n], dataWidth, words);
    PackPlacesBytes(data[..n], dataWidth, words);
    var r := Unpacked(p, dataWidth, data, n);
    forall k | 0 <= k < |data|
      ensures r[k] == (data[1..n] + data[n - 1..])[k]
    {
      if k + 1 < n {
        assert SlotHolds(p, dataWidth, k + 1, data[..n][k + 1]);
      }
    }
  }

  // ---------------------------------------------------------------------
  // The loops of spi_write_and_read
  // ---------------------------------------------------------------------

  /** Words of zeros, as the tx and rx buffers are cleared before packing. */
  function Zeros(words: nat): (r: seq<bv32>)
    ensures |r| == words && forall k :: 0 <= k < words ==> r[k] == 0
  {
    seq(words, _ => 0)
  }

  /** Clear both word buffers. */
  method ZeroWords(txBuf: array<bv32>, rxBuf: array<bv32>, words: u8)
    requires txBuf.Length == words && rxBuf.Length == words && txBuf != rxBuf
    modifies txBuf, rxBuf
    ensures txBuf[..] == Zeros(words) && rxBuf[..] == Zeros(words)
  {
    var i := 0;
    while i < words
      invariant i <= words
      invariant forall k :: 0 <= k < i ==> txBuf[k] == 0 && rxBuf[k] == 0
    {
      txBuf[i] := 0;
      rxBuf[i] := 0;
      i := i + 1;
    }
  }

  /** OR byte i of data into slot i of the tx words, for every i below n. */
  method PackBytes(txBuf: array<bv32>, data: array<bv8>, dataWidth: u8, n: u8)
    requires PackableWidth(dataWidth) && n <= data.Length && n <= txBuf.Length * WordLength(dataWidth)
    requires txBuf[..] == Zeros(txBuf.Length)
    modifies txBuf
    ensures txBuf[..] == Pack(data[..n], dataWidth, txBuf.Length)
  {
    var i: nat := 0;
    while i < n as nat
      invariant i <= n as nat
      invariant txBuf[..] == Pack(data[..i], dataWidth, txBuf.Length)
    {
      PackOne(txBuf, data, dataWidth, i);
      i := i + 1;
    }
  }

  /** One round of the packing loop: OR data[i] into word i / wl at its shift. */
  method PackOne(txBuf: array<bv32>, data: array<bv8>, dataWidth: u8, i: nat)
    requires PackableWidth(dataWidth) && i < data.Length && i < txBuf.Length * WordLength(dataWidth)
    requires txBuf[..] == Pack(data[..i], dataWidth, txBuf.Length)
    modifies txBuf
    ensures txBuf[..] == Pack(data[..i + 1], dataWidth, txBuf.Length)
  {
    var wl: nat := WordLength(dataWidth) as nat;
    var j, sh := i / wl, dataWidth as nat - (i % wl + 1) * 8;
    CIndices(i, dataWidth);
    PackNext(data[..i], data[i], dataWidth, txBuf.Length);
    assert data[..i + 1] == data[..i] + [data[i]];
    txBuf[j] := txBuf[j] | Place(data[i], sh);
  }

  /** Packing one more byte ORs it into its word at its shift. */
  lemma PackNext(data: seq<bv8>, b: bv8, dataWidth: u8, words: nat)
    requires PackableWidth(dataWidth) && |data| < words * WordLength(dataWidth)
    ensures var j, p := WordIndex(|data|, WordLength(dataWidth)), Pack(data, dataWidth, words);
            && j < words
            && Pack(data + [b], dataWidth, words) == p[j := p[j] | Place(b, Shift(dataWidth, |data|))]
  {
    WordIndexInRange(|data|, WordLength(dataWidth), words);
    assert (data + [b])[..|data|] == data;
  }

  /** The word and the shift of byte i, as the loops compute them with C's / and %. */
  lemma CIndices(i: nat, dataWidth: u8)
    requires PackableWidth(dataWidth)
    ensures var wl: nat := WordLength(dataWidth) as nat;
            && WordIndex(i, wl) == i / wl
            && Shift(dataWidth, i) == dataWidth as nat - (i % wl + 1) * 8
  {
    WordIndexIsDiv(i, WordLength(dataWidth) as nat);
  }

  /** For 1 <= i < n, data[i - 1] takes the byte in slot i of the rx words. */
  method UnpackBytes(rxBuf: array<bv32>, data: array<bv8>, dataWidth: u8, n: u8)
    requires PackableWidth(dataWidth) && n <= data.Length && n <= rxBuf.Length * WordLength(dataWidth)
    modifies data
    ensures data[..] == Unpacked(rxBuf[..], dataWidth, old(data[..]), n)
  {
    var wl := WordLength(dataWidth);
    ghost var rx := rxBuf[..];
    assert n <= |rx| * wl;
    var i := 1;
    while i < n
      invariant 1 <= i && (n >= 1 ==> i <= n)
      invariant forall k :: 0 <= k < data.Length ==>
                  data[k] == if k + 1 < i && k + 1 < n then SlotByte(rx, dataWidth, k + 1) else old(data[k])
    {
      WordIndexIsDiv(i, wl);
      WordIndexInRange(i, wl, rxBuf.Length);
      data[i - 1] := ByteAt(rxBuf[i / wl], dataWidth - (i % wl + 1) * 8);
      i := i + 1;
    }
    assert forall k :: 0 <= k < data.Length ==> data[k] == Unpacked(rx, dataWidth, old(data[..]), n)[k];
  }

  // ---------------------------------------------------------------------
  // Descriptor set-up
  // ---------------------------------------------------------------------

  /** spi_init_param_extra: the engine's clock, base address and offload settings. */
  datatype InitParamExtra = InitParamExtra(spiClkHz: u32, spiBaseaddr: u32,
                                           offloadRxSupportEn: bool, offloadTxSupportEn: bool,
                                           offloadTxDmaBaseaddr: u32, offloadRxDmaBaseaddr: u32)

  /** spi_init_param with the engine's extra parameters. */
  datatype InitParam = InitParam(maxSpeedHz: u32, chipSelect: u8, mode: u32, extra: InitParamExtra)

  /**
   * The uint32_t clock divider of spi_init, max_speed_hz / (2 * spi_clk_hz) - 1:
   * the doubling and the subtraction wrap modulo 2^32.
   */
  function ClkDiv(maxSpeedHz: u32, spiClkHz: u32): u32
    requires (2 * spiClkHz) % U32_MODULUS != 0
  {
    var q := maxSpeedHz / ((2 * spiClkHz) % U32_MODULUS);
    if q == 0 then 0xFFFF_FFFF else q - 1
  }

  /**
   * Without wrap-around the divider counts the whole periods of 2 * spi_clk_hz
   * in max_speed_hz, less one; below one period it wraps to 0xFFFFFFFF.
   */
  lemma ClkDivCountsPeriods(maxSpeedHz: u32, spiClkHz: u32)
    requires 1 <= spiClkHz < 0x8000_0000
    ensures var d, p := ClkDiv(maxSpeedHz, spiClkHz), 2 * spiClkHz;
            && (maxSpeedHz >= p ==> (d + 1) * p <= maxSpeedHz < (d + 2) * p)
            && (maxSpeedHz < p ==> d == 0xFFFF_FFFF)
  {
    var m: int, p: int := maxSpeedHz, 2 * spiClkHz;
    assert (2 * spiClkHz) % U32_MODULUS == p;
    DivBrackets(m, p);
    var q := m / p;
    assert (q + 1) * p == q * p + p;
  }

  /**
   * A wrapped divider makes the sleep prescaler's divisor 2 * clk_div + 2
   * wrap to zero, so a SLEEP command would divide by zero.
   */
  lemma WrappedClkDivStopsSleep(c: Config)
    requires c.clkDiv == 0xFFFF_FFFF
    ensures SleepDivisor(c) == 0
  {
  }

  /** The fields spi_init sets in spi_desc_extra. */
  predicate ExtraInitialised(extra: SpiDescExtra, param: InitParam, hwDataWidth: u32)
    requires (2 * param.extra.spiClkHz) % U32_MODULUS != 0
    reads extra
  {
    && extra.rxLength == 0 && extra.txLength == 0
    && extra.clkDiv == ClkDiv(param.maxSpeedHz, param.extra.spiClkHz)
    && extra.spiBaseaddr == param.extra.spiBaseaddr
    && extra.spiClkHz == param.extra.spiClkHz
    && extra.offloadRxSupportEn == param.extra.offloadRxSupportEn
    && extra.offloadTxSupportEn == param.extra.offloadTxSupportEn
    && extra.offloadTxDmaBaseaddr == param.extra.offloadTxDmaBaseaddr
    && extra.offloadRxDmaBaseaddr == param.extra.offloadRxDmaBaseaddr
    && extra.maxDataWidth == hwDataWidth % 0x100
    && extra.dataWidth == hwDataWidth % 0x100
  }

  /**
   * The spi_desc_extra half of spi_init: clear the transfer lengths, set the
   * clock divider, copy the engine parameters, and take the word width the
   * engine reports (hwDataWidth, narrowed to uint8_t) as both the current and
   * the largest width.
   */
  method NewDescExtra(param: InitParam, hwDataWidth: u32) returns (extra: SpiDescExtra)
    requires (2 * param.extra.spiClkHz) % U32_MODULUS != 0
    ensures fresh(extra) && ExtraInitialised(extra, param, hwDataWidth)
  {
    extra := new SpiDescExtra();
    extra.rxLength := 0;
    extra.txLength := 0;
    extra.clkDiv := ClkDiv(param.maxSpeedHz, param.extra.spiClkHz);
    extra.spiBaseaddr := param.extra.spiBaseaddr;
    extra.spiClkHz := param.extra.spiClkHz;
    extra.offloadRxSupportEn := param.extra.offloadRxSupportEn;
    extra.offloadTxSupportEn := param.extra.offloadTxSupportEn;
    extra.offloadTxDmaBaseaddr := param.extra.offloadTxDmaBaseaddr;
    extra.offloadRxDmaBaseaddr := param.extra.offloadRxDmaBaseaddr;
    extra.maxDataWidth := hwDataWidth % 0x100;
    extra.dataWidth := extra.maxDataWidth;
  }

  /**
   * spi_init: allocate both descriptors, copy the bus parameters and set up
   * the extra descriptor. A failed allocation returns FAILURE and no
   * descriptor. The reset pulse is a register write and is left to the
   * engine; the chip-select delay and the offload flag are not set.
   */
  method SpiInit(param: InitParam, descAllocated: bool, hwDataWidth: u32) returns (ret: int, desc: SpiDesc?)
    requires (2 * param.extra.spiClkHz) % U32_MODULUS != 0
    ensures !descAllocated ==> ret == FAILURE && desc == null
    ensures descAllocated ==> ret == SUCCESS && desc != null && fresh(desc) && fresh(desc.extra)
    ensures descAllocated ==>
              && desc.maxSpeedHz == param.maxSpeedHz && desc.chipSelect == param.chipSelect
              && desc.mode == param.mode
              && ExtraInitialised(desc.extra, param, hwDataWidth)
  {
    if !descAllocated {
      return FAILURE, null;
    }
    var extra := NewDescExtra(param, hwDataWidth);
    desc := new SpiDesc(extra);
    desc.maxSpeedHz := param.maxSpeedHz;
    desc.chipSelect := param.chipSelect;
    desc.mode := param.mode;
    ret := SUCCESS;
  }

  // ---------------------------------------------------------------------
  // The message of spi_write_and_read
  // ---------------------------------------------------------------------

  /** The four user commands: chip select high, low, one read-write transfer, high again. */
  function MessageCmds(words: u8): seq<bv32>
  {
    [CS_ASSERT, CS_DEASSERT, TransferBytesRW((words as bv8) as bv32), CS_ASSERT]
  }

  /** The transfer parameter is the word count's low four bits. */
  lemma MessageTransferParam(words: u8)
    ensures DecodeUserCmd(TransferBytesRW((words as bv8) as bv32)) == TransferCmd(true, true, words % 16)
  {
    var b := words as bv8;
    DecodeUserCmdMacros(b as bv32);
    NibbleValue(b);
    ByteValue(words);
  }

  /**
   * The length both directions of the message get: the low four bits of the
   * word count, or 0 when the DMA check refuses a read-write transfer.
   */
  function MessageLength(c: Config, words: u8): (len: u32)
    ensures len < 16 && (len == 0 || len == words % 16) && len <= words
  {
    if CheckDmaConfig(c, true, true) then words % 16 else 0
  }

  /**
   * The commands the message compiles to: the header, chip select high,
   * chip select low, the read-write transfer unless the DMA check refuses it,
   * chip select high, and the end sync. The transfer's byte count is the
   * word count's low four bits.
   */
  function MessageEntries(c: Config, words: u8): seq<Word16>
    requires c.chipSelect < 32 && c.dataWidth >= 8
  {
    HeaderEntries(c) + [CsEntry(c, true), CsEntry(c, false)]
    + (if CheckDmaConfig(c, true, true) then [TransferEntry(c.dataWidth, true, true, words % 16)] else [])
    + [CsEntry(c, true), FifoEntry(CmdSync(SYNC_TRANSFER_END))]
  }

  /** What each of the four user commands queues and does to the lengths. */
  lemma MessageCmdEffects(c: Config, words: u8, l: Lengths)
    requires c.chipSelect < 32 && c.dataWidth >= 8
    ensures var t := MessageCmds(words)[2];
            && UserCmdDefined(c, CS_ASSERT) && UserCmdDefined(c, CS_DEASSERT) && UserCmdDefined(c, t)
            && UserCmdEntries(c, CS_ASSERT) == [CsEntry(c, true)]
            && UserCmdEntries(c, CS_DEASSERT) == [CsEntry(c, false)]
            && UserCmdEntries(c, t)
               == (if CheckDmaConfig(c, true, true) then [TransferEntry(c.dataWidth, true, true, words % 16)] else [])
            && UserCmdLengths(c, CS_ASSERT, l) == l && UserCmdLengths(c, CS_DEASSERT, l) == l
            && UserCmdLengths(c, t, l) == Lengths(MessageLength(c, words), MessageLength(c, words))
  {
    ChipSelectCmdEffects(c, l);
    TransferCmdEffects(c, words, l);
  }

  /** The chip-select commands queue one ASSERT each and leave the lengths alone. */
  lemma ChipSelectCmdEffects(c: Config, l: Lengths)
    requires c.chipSelect < 32
    ensures UserCmdDefined(c, CS_ASSERT) && UserCmdDefined(c, CS_DEASSERT)
    ensures UserCmdEntries(c, CS_ASSERT) == [CsEntry(c, true)]
    ensures UserCmdEntries(c, CS_DEASSERT) == [CsEntry(c, false)]
    ensures UserCmdLengths(c, CS_ASSERT, l) == l && UserCmdLengths(c, CS_DEASSERT, l) == l
  {
    assert DecodeUserCmd(CS_ASSERT) == CsAssertCmd;
    assert DecodeUserCmd(CS_DEASSERT) == CsDeassertCmd;
  }

  /** The message's transfer queues one read-write TRANSFER unless refused, and sets both lengths. */
  lemma TransferCmdEffects(c: Config, words: u8, l: Lengths)
    requires c.dataWidth >= 8
    ensures var t := MessageCmds(words)[2];
            && UserCmdDefined(c, t)
            && UserCmdEntries(c, t)
               == (if CheckDmaConfig(c, true, true) then [TransferEntry(c.dataWidth, true, true, words % 16)] else [])
            && UserCmdLengths(c, t, l) == Lengths(MessageLength(c, words), MessageLength(c, words))
  {
    var t := MessageCmds(words)[2];
    assert DecodeUserCmd(t) == TransferCmd(true, true, words % 16) by {
      MessageTransferParam(words);
    }
    assert (words % 16) % 0x100 == words % 16;
  }

  /** The commands the four user commands queue, one after the other. */
  lemma MessageUserEntries(c: Config, words: u8)
    requires c.chipSelect < 32 && c.dataWidth >= 8
    ensures UserCmdsDefined(c, MessageCmds(words))
    ensures UserEntries(c, MessageCmds(words))
            == [CsEntry(c, true), CsEntry(c, false)]
               + (if CheckDmaConfig(c, true, true) then [TransferEntry(c.dataWidth, true, true, words % 16)] else [])
               + [CsEntry(c, true)]
  {
    var m4 := MessageCmds(words);
    var t := m4[2];
    MessageCmdEffects(c, words, Lengths(0, 0));
    var m1, m2, m3 := [CS_ASSERT], [CS_ASSERT, CS_DEASSERT], [CS_ASSERT, CS_DEASSERT, t];
    assert m4[..3] == m3 && m3[..2] == m2 && m2[..1] == m1 && m1[..0] == [];
    assert UserCmdsDefined(c, m4);
    assert UserEntries(c, m1) == [CsEntry(c, true)];
    assert UserEntries(c, m2) == [CsEntry(c, true), CsEntry(c, false)];
    assert UserEntries(c, m3) == UserEntries(c, m2) + UserCmdEntries(c, t);
  }

  /** The read-write transfer sets both lengths; the chip-select commands leave them alone. */
  lemma MessageLengthsAfter(c: Config, words: u8, l: Lengths)
    requires c.chipSelect < 32 && c.dataWidth >= 8
    ensures LengthsAfter(c, MessageCmds(words), l) == Lengths(MessageLength(c, words), MessageLength(c, words))
  {
    var m4 := MessageCmds(words);
    var t := m4[2];
    MessageCmdEffects(c, words, l);
    var len := Lengths(MessageLength(c, words), MessageLength(c, words));
    MessageCmdEffects(c, words, len);
    var m1, m2, m3 := [CS_ASSERT], [CS_ASSERT, CS_DEASSERT], [CS_ASSERT, CS_DEASSERT, t];
    assert m4[..3] == m3 && m3[..2] == m2 && m2[..1] == m1 && m1[..0] == [];
    assert LengthsAfter(c, m1, l) == l;
    assert LengthsAfter(c, m2, l) == l;
    assert LengthsAfter(c, m3, l) == len;
  }

  /**
   * The message spi_write_and_read builds is defined for the compiler, and
   * compiling it queues MessageEntries and sets both lengths to MessageLength.
   */
  lemma MessageCompiles(c: Config, words: u8, l: Lengths)
    requires c.chipSelect < 32 && c.dataWidth >= 8
    ensures UserCmdsDefined(c, MessageCmds(words))
    ensures CompiledEntries(c, MessageCmds(words)) == MessageEntries(c, words)
    ensures LengthsAfter(c, MessageCmds(words), l) == Lengths(MessageLength(c, words), MessageLength(c, words))
  {
    MessageUserEntries(c, words);
    MessageLengthsAfter(c, words, l);
  }

  /**
   * With the DMA check passing, the compiled message holds nine commands,
   * more than the four user commands plus the three spare entries
   * spi_eng_transfer_message allocates.
   */
  lemma MessageOverflowsFifoAsWritten(c: Config, words: u8)
    requires c.chipSelect < 32 && c.dataWidth >= 8 && CheckDmaConfig(c, true, true)
    ensures UserCmdsDefined(c, MessageCmds(words))
    ensures |CompiledEntries(c, MessageCmds(words))| == 9 > |MessageCmds(words)| + FIFO_SLACK_AS_WRITTEN
  {
    MessageCompiles(c, words, Lengths(0, 0));
  }

  /**
   * The word count reaches the compiler as a byte count and is converted
   * again: for words wider than a byte a message of 2 to 15 words clocks
   * fewer words than the rx and tx lengths it sets. Writing and reading 8
   * bytes of 32-bit words, for one, sets both lengths to 2 but clocks 1 word.
   */
  lemma MessageClocksFewerWords(c: Config, words: u8, l: Lengths)
    requires c.chipSelect < 32 && c.dataWidth >= 16 && CheckDmaConfig(c, true, true)
    requires 2 <= words < 16
    ensures UserCmdsDefined(c, MessageCmds(words))
    ensures CompiledEntries(c, MessageCmds(words)) == MessageEntries(c, words)
    ensures var e := MessageEntries(c, words)[6];
            && Inst(e) == INST_TRANSFER
            && Arg2(e) == TransferCount(c.dataWidth, words) as bv32
            && TransferCount(c.dataWidth, words) + 1 == CeilDiv(words, WordLength(c.dataWidth)) < words
            && words == LengthsAfter(c, MessageCmds(words), l).rx == LengthsAfter(c, MessageCmds(words), l).tx
  {
    MessageCompiles(c, words, l);
    CeilDivShrinks(words, WordLength(c.dataWidth));
    var e := TransferEntry(c.dataWidth, true, true, words % 16);
    assert MessageEntries(c, words)[6] == e;
  }

  /**
   * The words the rx buffer holds after the transfer: the len words read from
   * the SDI FIFO followed by the zeros it was cleared to, or only zeros when
   * the transfer failed to allocate its command FIFO.
   */
  function ReadBack(words: u8, len: nat, xferAllocated: bool, sdi: seq<bv32>): (rx: seq<bv32>)
    requires len <= words <= |sdi|
    ensures |rx| == words
  {
    if xferAllocated then sdi[..len] + Zeros(words - len) else Zeros(words)
  }

  /**
   * The message set-up of spi_write_and_read: the four commands, word buffers
   * for the word count cleared to zero, and the bytes packed into the tx
   * buffer.
   */
  method NewMessage(data: array<bv8>, bytesNumber: u8, dataWidth: u8, words: u8) returns (msg: SpiMsg)
    requires PackableWidth(dataWidth) && bytesNumber <= data.Length
    requires bytesNumber <= words * WordLength(dataWidth)
    ensures fresh(msg) && fresh(msg.txBuf) && fresh(msg.rxBuf) && msg.txBuf != msg.rxBuf
    ensures msg.msgCmdLen <= |msg.spiMsgCmds| && msg.Cmds() == MessageCmds(words)
    ensures msg.txBuf.Length == words && msg.rxBuf.Length == words
    ensures msg.txBuf[..] == Pack(data[..bytesNumber], dataWidth, words)
    ensures msg.rxBuf[..] == Zeros(words)
  {
    var txBuf := new bv32[words];
    var rxBuf := new bv32[words];
    msg := new SpiMsg(txBuf, rxBuf, MessageCmds(words), 4);
    ZeroWords(txBuf, rxBuf, words);
    PackBytes(txBuf, data, dataWidth, bytesNumber);
  }

  /**
   * spi_write_and_read: build the four-command message, pack the bytes into
   * freshly cleared word buffers, run the transfer, and unpack the words read
   * back into data, skipping the first (dummy) byte. msgAllocated is whether
   * the message structure's malloc succeeds, xferAllocated whether the
   * command FIFO's does, and sdi the words the SDI FIFO returns. The word
   * buffers' own mallocs are not checked by the source and always succeed
   * here. cmdWords and sdoWords are the words written to the command and SDO
   * FIFOs.
   */
  method WriteAndRead(desc: SpiDesc, data: array<bv8>, bytesNumber: u8,
                      msgAllocated: bool, xferAllocated: bool, sdi: seq<bv32>)
    returns (ret: int, cmdWords: seq<Word16>, sdoWords: seq<bv32>)
    requires PackableWidth(desc.extra.dataWidth) && desc.chipSelect < 32
    requires bytesNumber <= data.Length
    requires |sdi| >= WordsNumber(desc.extra.dataWidth, bytesNumber)
    modifies data, desc.extra`rxLength, desc.extra`txLength
    ensures !msgAllocated ==> ret == FAILURE && unchanged(data) && unchanged(desc.extra)
    ensures msgAllocated && !xferAllocated ==> ret == FAILURE && unchanged(desc.extra)
    ensures msgAllocated && xferAllocated ==>
              var c := old(desc.Config());
              var words := WordsNumber(c.dataWidth, bytesNumber);
              var len := MessageLength(c, words);
              && ret == SUCCESS
              && cmdWords == MessageEntries(c, words)
              && desc.extra.rxLength == len && desc.extra.txLength == len
              && sdoWords == Pack(old(data[..bytesNumber]), c.dataWidth, words)[..len]
    ensures msgAllocated ==>
              var c := old(desc.Config());
              var words := WordsNumber(c.dataWidth, bytesNumber);
              var rx := ReadBack(words, MessageLength(c, words), xferAllocated, sdi);
              && data[..] == Unpacked(rx, c.dataWidth, old(data[..]), bytesNumber)
  {
    ghost var c := desc.Config();
    var words := WordsNumber(desc.extra.dataWidth, bytesNumber);
    if !msgAllocated {
      return FAILURE, [], [];
    }
    var msg := NewMessage(data, bytesNumber, desc.extra.dataWidth, words);
    MessageCompiles(c, words, Lengths(desc.extra.rxLength, desc.extra.txLength));
    ret, cmdWords, sdoWords := TransferMessage(desc, msg, xferAllocated, sdi);
    ghost var rx := ReadBack(words, MessageLength(c, words), xferAllocated, sdi);
    assert msg.rxBuf[..] == rx;
    UnpackBytes(msg.rxBuf, data, desc.extra.dataWidth, bytesNumber);
  }
}
