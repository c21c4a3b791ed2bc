# Verified model of no-OS driver cores

This project is a Dafny model of six parts of the Analog Devices no-OS driver
library, with proofs of what their code promises:

- **AT-command WiFi driver** (`drivers/wifi/at_driver.c`, `at_driver.h`,
  `at_params.h`). It covers:
  - the command table `g_map` and its allowed operations;
  - the formatter (`build_cmd`, `at_sprintf`, escaping and `itoa`), with
    `at_sscanf` and a command-line parser as its partners;
  - the four-pattern response matcher `refresh_status`;
  - the `+IPD` header extractor `process_ipd_msg`;
  - the receive state machine `at_callback` (module message, payload and
    unvarnished modes);
  - the executor `at_run_cmd` with its special commands and unvarnished send.

  The descriptor is a class (`AtDriver.AtDesc`) whose methods update the
  result buffer, the match counters, the connection slots and the callback
  state in place. The UART is a log of the bytes transmitted plus a supplied
  sequence of incoming byte chunks.
- **SPI Engine command compiler** (`spi_engine_core.c/.h`). It covers:
  - the bit-field encoding of engine commands;
  - word counts and the sleep and clock arithmetic in `uint32_t`;
  - the generators that append to the command FIFO;
  - the decoding of user command words;
  - `spi_eng_compile_message`.
- **SPI Engine FIFO transfer** (`spi_engine_fifo.c`): `spi_init` and the
  packing of bytes into engine words and back in `spi_write_and_read`.
- **Chunked byte FIFO** (`comm_util.c`). It is a linked queue of received
  chunks (`CommUtil.ChunkFifo`), with insertion, head removal, `comm_read`
  and `comm_read_line`. Each operation is proved against a value-level
  definition over the list of chunks.
- **XML builder** (`xml.c`). Attribute and node classes hold a footprint.
  `xml_create_document` is proved against a recursive print definition over
  the tree it holds.
- **IIO attribute dispatch** (`iio/iio.c`, `tinyiiod_util.c`). It covers:
  - channel-number parsing;
  - lookups in NULL-terminated tables;
  - the 4-byte-aligned, length-prefixed packing of all attributes;
  - the interface and device registries;
  - channel masks;
  - the routing of a read or write to the callback that serves it.

C integer widths are modelled explicitly in most places where they matter (the
exceptions, such as the `int16_t` offset of `iio_read_all_attr` and the `uint8_t`
loop counters, are preconditions listed under "## Left out"):
- `uint8_t`, `uint16_t` and `uint32_t` values are subset types;
- wrap-around is written out as arithmetic modulo the width;
- bit fields are bit-vectors.

Each file is one module:

| file | module | source |
|---|---|---|
| common.dfy | Common | shared: bytes, Option, errno values, decimal digits, `uint32_t` wrap-around |
| at_defs.dfy, at_table.dfy | AtDefs, AtTable | at_driver.h, at_params.h, `g_map` |
| at_format.dfy, at_scan.dfy | AtFormat, AtScan | `at_sprintf`, `build_cmd`, `at_sscanf` |
| at_match.dfy, at_refresh.dfy | AtMatch, AtRefresh | `refresh_status`, `get_conn_id`, `process_ipd_msg` as value functions |
| at_run.dfy, at_driver.dfy | AtRun, AtDriver | the descriptor class, `at_callback` and `at_run_cmd` |
| spi_engine_defs.dfy, spi_engine_core.dfy, spi_engine_fifo.dfy | SpiEngineDefs, SpiEngineCore, SpiEngineFifo | spi_engine_core.h, spi_engine_core.c, spi_engine_fifo.c |
| comm_util.dfy | CommUtil | comm_util.c |
| xml.dfy | Xml | xml.c |
| iio.dfy, tinyiiod_util.dfy | Iio, Tinyiiod | iio.c, tinyiiod_util.c |

## Model

| member | source | states |
|---|---|---|
| AtDefs.CmdIndex | drivers/wifi/at_driver.h:29-75 | every enumerator of enum at_cmd has an index into the command list, and the list holds that command there |
| AtDefs.CmdIndexIsBijective | drivers/wifi/at_driver.h:29-75 | the twenty enumerators are numbered 0 to 19 without gaps or repeats |
| AtDefs.OpMask | drivers/wifi/at_driver.h:78-88 | a mask built by or-ing cmd_operation bits uses only the low four bits |
| AtDefs.OpMaskMembership | drivers/wifi/at_driver.h:78-88 | and-ing a table mask with one operation's bit is non-zero exactly when that operation is in the mask |
| AtTable.OpAllowedIff | drivers/wifi/at_driver.c:24-45 | the type test of at_run_cmd accepts exactly the operations listed in the command's g_map entry |
| AtTable.CmdOfToken | drivers/wifi/at_driver.c:24-45 | a token read back as a command is that command's token in g_map |
| AtTable.CommandTableConsistent | drivers/wifi/at_driver.c:24-45 | every declared length in g_map is the length of its token, and every token reads back as its own command |
| AtTable.TokensDistinct | drivers/wifi/at_driver.c:24-45 | no two commands share a token |
| AtTable.TokenCharsOfTable | drivers/wifi/at_driver.c:24-45 | every token is '+' followed by capital letters, or empty for AT_ATTENTION |
| AtFormat.Itoa | drivers/wifi/at_driver.c:873-877 | itoa writes at least one character |
| AtFormat.ItoaFitsBuffer | drivers/wifi/at_driver.c:862 | the decimal text of any int32_t and its NUL fit the 12-byte buffer |
| AtFormat.Escape | drivers/wifi/at_driver.c:883-888 | escaping adds at most one backslash per byte and drops nothing |
| AtFormat.ParseNat | drivers/wifi/at_driver.c:873-877 | reading a digit run consumes at least one byte (partner decoder of the 'd' text) |
| AtFormat.ParseDec | drivers/wifi/at_driver.c:873-877 | reading an optional '-' and digits consumes at least one byte |
| AtFormat.ParseStrBody | drivers/wifi/at_driver.c:881-889 | reading a quoted body up to the unescaped '"' consumes at least one byte |
| AtFormat.ParseArg | drivers/wifi/at_driver.c:869-897 | reading one argument consumes at least one byte |
| AtFormat.ParseNatDigits | drivers/wifi/at_driver.c:873-877 | the decimal text of n followed by a non-digit reads back as n |
| AtFormat.ParseDecDigits | drivers/wifi/at_driver.c:873-877 | the same for a digit run read as a signed number |
| AtFormat.ParseDecItoa | drivers/wifi/at_driver.c:873-877 | round trip: what itoa writes for any integer reads back as that integer |
| AtFormat.ParseStrBodyEscape | drivers/wifi/at_driver.c:881-889 | round trip: the escaped bytes and the closing quote read back as the original bytes |
| AtFormat.ParseStrBodyByte | drivers/wifi/at_driver.c:883-888 | one escaped byte in front of a readable body reads back as that byte followed by the body |
| AtFormat.ParseArgFormat | drivers/wifi/at_driver.c:869-897 | round trip: one formatted argument followed by ',' or the end reads back as that argument |
| AtFormat.ParseArgListFormat | drivers/wifi/at_driver.c:869-897 | round trip: a non-empty list of arguments joined by ',' reads back as the list |
| AtFormat.ParseArgsFormat | drivers/wifi/at_driver.c:860-900 | round trip: decoding what at_sprintf writes gives back exactly the arguments it was given |
| AtFormat.FormatArgStartsArg | drivers/wifi/at_driver.c:869-897 | an argument's text starts with '-', a digit or '"' |
| AtFormat.ParamArgs | drivers/wifi/at_driver.c:337-449 | the arguments build_cmd_param passes for each command, by multiplexing and socket type; every 'd' argument is an int32_t value |
| AtFormat.FindCmd | drivers/wifi/at_driver.c:24-45 | a command found for a line body has its token at the head of the body |
| AtFormat.TokenHasNoDelimiter | drivers/wifi/at_driver.c:24-45 | no token contains '?' or '=' |
| AtFormat.TokenFitsSame | drivers/wifi/at_driver.c:24-45 | two delimiter-free tokens that fit the same body before a suffix are equal |
| AtFormat.TokenFitsOnlyOwn | drivers/wifi/at_driver.c:24-45 | only a command's own token fits at the head of its command line |
| AtFormat.FindCmdFinds | drivers/wifi/at_driver.c:24-45 | searching the table from any index up to a command's own finds that command for its token and suffix |
| AtFormat.SuffixTextParses | drivers/wifi/at_driver.c:462-472 | round trip: the operation suffix text ("", "?", "=?", "=" and arguments) reads back as the suffix, and starts with '?' or '=' when not empty |
| AtFormat.LineFraming | drivers/wifi/at_driver.c:455-476 | a command line starts with "AT", ends with "\r\n" and holds the body between them |
| AtFormat.ParseCmdLineOfParts | drivers/wifi/at_driver.c:452-476 | a line made of a command's token and a readable suffix reads back as that command and suffix |
| AtFormat.ParseCmdLineOfCmdText | drivers/wifi/at_driver.c:452-476 | round trip: the line build_cmd writes for any command and suffix reads back as that command and suffix |
| AtScan.SpaceRun | drivers/wifi/at_driver.c:938 | strtol skips a run of white space: the byte after it, if any, is not white space |
| AtScan.Strtol | drivers/wifi/at_driver.c:938 | strtol consumes no more than the text, yields 0 when it consumes nothing, and saturates within the 32-bit long range |
| AtScan.ScanDec | drivers/wifi/at_driver.c:932-939 | the %d conversion on a copy of at most 11 bytes never moves past the end of the text |
| AtScan.ScanStep | drivers/wifi/at_driver.c:920-950 | one step consumes at least one format character, stays in the format, and assigns at most one value |
| AtScan.Sscanf | drivers/wifi/at_driver.c:909-959 | at_sscanf assigns no more values than format characters remain |
| AtScan.SscanfStep | drivers/wifi/at_driver.c:920-950 | the scan is one step's values followed by the scan from where the step leaves both positions |
| AtScan.Scan | drivers/wifi/at_driver.c:909-959 | the loop over the format assigns the values of Sscanf, in order, and reports whether it reached the end of the format without a failure |
| AtScan.IpdLength | drivers/wifi/at_driver.c:202-208 | a payload length read from a +IPD header fits the uint32_t it is stored in |
| AtScan.StrtolOfRun | drivers/wifi/at_driver.c:938 | a run of digits small enough for a long, followed by a non-digit or the end, is read whole with its decimal value |
| AtScan.StrtolOfDigits | drivers/wifi/at_driver.c:935-938 | the decimal text of an int32_t value fits the 11-byte copy and reads back as that value |
| AtScan.ScanDecDigits | drivers/wifi/at_driver.c:932-939 | %d facing the decimal text of n followed by a non-digit reads n and moves past the digits |
| AtScan.SscanfMatch | drivers/wifi/at_driver.c:924-949 | a format character equal to the text character moves both positions by one |
| AtScan.SscanfLiteral | drivers/wifi/at_driver.c:924-949 | a stretch of format equal to the text is skipped byte by byte |
| AtScan.SscanfConversion | drivers/wifi/at_driver.c:926-940 | %d facing a non-'%' assigns strtol's value and resumes after the bytes it consumed |
| AtScan.SscanfNumber | drivers/wifi/at_driver.c:926-940 | %d facing a number's decimal text assigns that number and resumes after its digits |
| AtScan.ScanLastNumber | drivers/wifi/at_driver.c:909-959 | a final %d facing a number that ends the text assigns it and completes |
| AtScan.ScanCommaNumber | drivers/wifi/at_driver.c:909-959 | a final ",%d" facing a comma and a number assigns the number and completes |
| AtScan.ScanNumberPair | drivers/wifi/at_driver.c:909-959 | a final "%d,%d" facing two numbers separated by a comma assigns both and completes |
| AtScan.ScanMultipleHeader | drivers/wifi/at_driver.c:205-206 | "+IPD,%d,%d" reads back the id and the length of a multiplexed header |
| AtScan.ScanSingleHeader | drivers/wifi/at_driver.c:207-208 | "+IPD,%d" reads back the length of a single-connection header |
| AtScan.ScanSingleWithMultiple | drivers/wifi/at_driver.c:202-208 | a single-connection header scanned with the multiplexed format puts the length in the id and never assigns the length |
| AtScan.IpdLengthOfHeader | drivers/wifi/at_driver.c:202-208 | round trip: the length process_ipd_msg reads from any header the module sends, in the matching mode, is that header's length |
| AtMatch.ResponseLengths | drivers/wifi/at_driver.c:85-89 | the four tracked responses have the declared lengths 9, 6, 11 and 8 |
| AtMatch.NextCount | drivers/wifi/at_driver.c:105-144 | a counter grows by at most one per byte |
| AtMatch.StepFrom | drivers/wifi/at_driver.c:96-145 | the loop keeps every counter below its response's length; a completed response stops the loop and clears all counters |
| AtMatch.Step | drivers/wifi/at_driver.c:96-145 | refresh_status keeps every counter a valid index into its response |
| AtMatch.NextCountTracks | drivers/wifi/at_driver.c:105-144 | if the bytes seen end with the first c bytes of a response, after one more byte they end with the first NextCount bytes |
| AtMatch.StepFromSound | drivers/wifi/at_driver.c:96-145 | from response i on, a reported match is a response the received bytes end with, and without a match every counter still describes the tail of the bytes |
| AtMatch.StepSound | drivers/wifi/at_driver.c:83-146 | soundness: a completed response is one the received bytes end with in full; otherwise every counter is the length of the response prefix the bytes end with |
| AtMatch.StepFromAdvances | drivers/wifi/at_driver.c:105-108 | from response i on, a byte that continues response p advances its counter unless a response completes, and a byte that completes p reports p or an earlier one |
| AtMatch.StepAdvances | drivers/wifi/at_driver.c:105-108 | a byte continuing a response advances its counter unless some response completes; a byte completing it always reports a completed response, it or one tested before it |
| AtMatch.OkResponseTrace | drivers/wifi/at_driver.c:83-146 | "\r\nOK\r\n" from cleared counters moves the counters step by step and reports OK on its last byte, with counters cleared |
| AtMatch.Trim | drivers/wifi/at_driver.c:110 | the completed response is cut off the end of the buffer; the length never grows and a buffer shorter than the response becomes empty |
| AtMatch.TrimAgreesWhenHeld | drivers/wifi/at_driver.c:110 | the uint32_t subtraction as written equals the corrected trim whenever the buffer holds the whole response |
| AtMatch.TrimWrapsAfterClear | drivers/wifi/at_driver.c:110 | counters survive a cleared buffer, so "OK\r\n" after "\r\n" and a clear drives result.len to 0xFFFFFFFE, beyond RESULT_BUFF_LEN, where the corrected trim gives 0 |
| AtMatch.ConnIdAsWritten | drivers/wifi/at_driver.c:58-75 | get_conn_id yields a digit's value, or 0xFFFFFFFF when no digit precedes |
| AtMatch.ClosedIndexOutOfRange | drivers/wifi/at_driver.c:122-127 | the guard "id > 4" lets id 4 and 0xFFFFFFFF through to connections[id], whose last index is 3 |
| AtMatch.ClosedSlot | drivers/wifi/at_driver.c:121-129 | the corrected slot a CLOSED line deactivates is always one the table holds, and the buffer only shrinks |
| AtMatch.ClosedSlotAgrees | drivers/wifi/at_driver.c:121-129 | the corrected slot is the code's index exactly when that index is in range, and the buffer length is the code's |
| AtMatch.IpdScan | drivers/wifi/at_driver.c:183-198 | a found header start has "+IPD," ending at or before the scan position |
| AtMatch.FindIpd | drivers/wifi/at_driver.c:183-203 | a found index is where "+IPD," starts in the buffer |
| AtMatch.IpdScanFinds | drivers/wifi/at_driver.c:183-198 | the backward scan over digits and commas, within its 13-byte budget, finds the nearest "+IPD," |
| AtMatch.IpdHeaderSplits | drivers/wifi/at_driver.c:169-170 | a module header is "+IPD," followed by digits and commas only |
| AtMatch.NoIpdEndAfter | drivers/wifi/at_driver.c:185-195 | no "+IPD," ends inside the digits and commas that follow one |
| AtMatch.FindIpdIn | drivers/wifi/at_driver.c:183-203 | a "+IPD," followed only by at most 12 digits and commas at the buffer's end is found |
| AtMatch.FindIpdAfter | drivers/wifi/at_driver.c:183-203 | the same whatever bytes precede the header |
| AtMatch.FindIpdOfHeader | drivers/wifi/at_driver.c:172-203 | process_ipd_msg finds any header the module sends whose id and length take at most 12 bytes, wherever it sits |
| AtMatch.IpdMessage | drivers/wifi/at_driver.c:172-217 | an extracted message names where "+IPD," starts and a length that fits uint32_t |
| AtMatch.IpdMessageOfHeader | drivers/wifi/at_driver.c:172-217 | every header the module sends is recognised with the length it announces |
| AtMatch.IpdScanLeavesBuffer | drivers/wifi/at_driver.c:183-186 | on ",5" the unsigned index passes 0 and reads index 0xFFFFFFFF, outside the buffer, where the corrected scan stops and finds nothing |
| AtMatch.IpdCut | drivers/wifi/at_driver.c:211 | the "\r\n" before the header and all after it are cut: two less than the header index, or nothing when the header starts the buffer |
| AtMatch.IpdCutWraps | drivers/wifi/at_driver.c:211 | as written, a header at index 0 sets result.len to 0xFFFFFFFE; for indices of 2 or more the code and the corrected cut agree |
| AtMatch.IpdLengthUnassigned | drivers/wifi/at_driver.c:199-216 | in multiplexed mode a single-connection header is found but its length is never assigned, while the function still returns SUCCESS |
| AtMatch.LowerCounters | drivers/wifi/at_driver.c:212-214 | counters of 2 or more are lowered by 2 and all stay valid indices |
| AtRefresh.Complete | drivers/wifi/at_driver.c:108-132 | a completed response shortens the buffer; ERROR, OK and SEND OK set a status and close nothing; CLOSED sets no status and closes at most one slot inside the table |
| AtRefresh.Deactivate | drivers/wifi/at_driver.c:127 | connections[id].active = false: only that slot changes, it becomes inactive and keeps its socket type |
| AtRefresh.Refresh | drivers/wifi/at_driver.c:83-146 | refresh_status keeps the counters valid, the buffer within its length and the connection table its size |
| AtRefresh.RefreshSetsStatusOnResponse | drivers/wifi/at_driver.c:105-120 | a status changes only when the buffer ends with the whole ERROR, OK or SEND OK response; the response is cut off exactly and the status is RESULT_ERROR for ERROR, RESULT_AVAILABE otherwise |
| AtRefresh.RefreshWithoutMatch | drivers/wifi/at_driver.c:138-144 | a byte completing no response changes only the counters, which keep tracking the buffer |
| AtRefresh.RefreshClosesOneSlot | drivers/wifi/at_driver.c:121-129 | a connection slot changes only on CLOSED, becomes inactive, leaves the status alone, and is slot 0 in single-connection mode |
| AtDriver.FormatArgsFrom | drivers/wifi/at_driver.c:869-897 | one turn of at_sprintf's loop: argument k, then ',' when more follow, then the rest of the arguments |
| AtDriver.EndsWithBackward | drivers/wifi/at_driver.c:189-194 | the backward compare is true exactly when the bytes ending at index i spell the pattern |
| AtDriver.DisconnectComparisonInverted | drivers/wifi/at_driver.c:535-538 | "resp.len >= result.len" accepts an empty buffer whose stale bytes spell "WIFI DISCONNECT\r\n" and rejects a buffer that holds the message and more |
| AtDriver.FirstSeen | drivers/wifi/at_driver.c:534-540 | the first check that saw the message: no earlier check saw it, and None when no check did |
| AtDriver.DisconnectWaitAsWritten | drivers/wifi/at_driver.c:533-544 | as written the wait fails exactly when the message is first seen at the last of the 11 checks, and succeeds when it is never seen |
| AtDriver.AtDesc.constructor | drivers/wifi/at_driver.c:731-751 | at_init's field setup: empty result buffer, cmd.len at CMD_BUFF_LEN, cleared counters, four inactive TCP slots, single-connection mode, waiting status, module-message state, a one-byte read submitted and the application's buffer with no data |
| AtDriver.AtDesc.CmdAppendByte | drivers/wifi/at_driver.c:845-848 | at_strcatch appends the byte to the command |
| AtDriver.AtDesc.CmdAppendPair | drivers/wifi/at_driver.c:845-848 | two at_strcatch calls append both bytes in order |
| AtDriver.AtDesc.CmdAppend | drivers/wifi/at_driver.c:838-842 | at_strcat appends the bytes to the command |
| AtDriver.AtDesc.AppendStr | drivers/wifi/at_driver.c:879-890 | an 's' argument appends '"', the escaped bytes and '"' |
| AtDriver.AtDesc.AppendArg | drivers/wifi/at_driver.c:871-893 | one argument appends itoa's digits for 'd' or the quoted string for 's' |
| AtDriver.AtDesc.Sprintf | drivers/wifi/at_driver.c:860-900 | at_sprintf appends the arguments' text joined by ',', the text ParseArgs decodes back |
| AtDriver.AtDesc.BuildCmdParam | drivers/wifi/at_driver.c:337-449 | build_cmd_param appends the arguments of ParamArgs for the command, the multiplexing flag and the socket of the connection sent on |
| AtDriver.AtDesc.AppendSuffix | drivers/wifi/at_driver.c:462-472 | the operation part appends "?" for query, "=?" for test, "=" and the parameters for a set with a parameter, nothing otherwise |
| AtDriver.AtDesc.BuildCmd | drivers/wifi/at_driver.c:452-476 | the command buffer ends up holding "AT", the token, the suffix and "\r\n", the line ParseCmdLine reads back |
| AtDriver.AtDesc.GetConnId | drivers/wifi/at_driver.c:58-75 | the id and the new buffer length are get_conn_id's as written |
| AtDriver.AtDesc.CompleteResponse | drivers/wifi/at_driver.c:108-135 | a completed response trims the buffer, sets the status or closes the slot as Complete says, and clears every counter |
| AtDriver.AtDesc.RefreshStatus | drivers/wifi/at_driver.c:83-146 | the matcher state after the call is Refresh of the state before it and the buffer |
| AtDriver.AtDesc.MatchResponse | drivers/wifi/at_driver.c:105-144 | one loop turn: a match is reported exactly when the counter reaches the response's length; otherwise only that counter changes, to NextCount |
| AtDriver.AtDesc.LowerMatchCounters | drivers/wifi/at_driver.c:212-214 | the counters become LowerCounters of the old ones |
| AtDriver.AtDesc.IpdEndsHere | drivers/wifi/at_driver.c:189-194 | the compare at a comma is true exactly when "+IPD," ends there |
| AtDriver.AtDesc.FindIpdHeader | drivers/wifi/at_driver.c:183-198 | the backward scan returns FindIpd of the buffered bytes |
| AtDriver.AtDesc.LocateIpd | drivers/wifi/at_driver.c:183-208 | the scan and at_sscanf return IpdMessage of the buffered bytes in the current mode |
| AtDriver.AtDesc.ProcessIpdMsg | drivers/wifi/at_driver.c:172-217 | on success the header and the "\r\n" before it are cut and counters of 2 or more lowered by 2; without a message nothing changes |
| AtDriver.AtDesc.ReadChar | drivers/wifi/at_driver.c:267 | the next one-byte read into read_ch is submitted |
| AtDriver.AtDesc.ReadPayload | drivers/wifi/at_driver.c:245-246 | a read of len bytes into the application's buffer is submitted |
| AtDriver.AtDesc.ModuleByte | drivers/wifi/at_driver.c:251-267 | a '>' the executor waits for releases it; otherwise the byte is appended and matched, or the status becomes OVERFLOW_ERROR when the buffer is full; the next byte is requested |
| AtDriver.AtDesc.AppendResult | drivers/wifi/at_driver.c:259-264 | the byte is appended to the result buffer and the matcher state becomes Refresh of the old one |
| AtDriver.AtDesc.StartPayload | drivers/wifi/at_driver.c:242-248 | the payload's pending count is split into what fits the application buffer, which is requested, and the rest; the state becomes READING_PAYLOAD |
| AtDriver.AtDesc.ColonByte | drivers/wifi/at_driver.c:234-250 | a ':' ending a header starts reading the payload it announces, with the header cut off; otherwise nothing changes |
| AtDriver.AtDesc.ModuleMsgByte | drivers/wifi/at_driver.c:233-268 | a ':' that ends a +IPD header in the result buffer cuts the header off, lowers the match counters and requests the payload it announces, leaving status, connections and buffer bytes alone; any other byte releases a waiting '>' prompt, sets an overflow on a full buffer, or is appended and matched against the responses |
| AtDriver.AtDesc.PayloadDone | drivers/wifi/at_driver.c:269-294 | the application is told how many bytes arrived; with nothing pending the callback returns to module messages, else the next part, at most the buffer size, is requested |
| AtDriver.AtDesc.NextPartAtStart | drivers/wifi/at_driver.c:280-292 | two parts of one payload with no buffer replacement between them: the second part is written from index 0 of the application buffer, over the first |
| AtDriver.AtDesc.UnvarnishedByte | drivers/wifi/at_driver.c:295-302 | the byte is appended to cb_response, the application is told its size, and the next byte is requested |
| AtDriver.AtDesc.ReadDone | drivers/wifi/at_driver.c:231-304 | the bytes land in read_ch or in the payload buffer, wherever the read was submitted; while module messages are read the byte has the effect ModuleMsgByte states; a payload part notifies the application and requests the rest, or, with nothing pending, goes back to one-byte module-message reads; an unvarnished byte is queued in cb_response |
| AtDriver.AtDesc.Deliver | drivers/wifi/at_driver.c:231-232 | the completed read's bytes are in read_ch or in the buffer the read was submitted for |
| AtDriver.AtDesc.Dispatch | drivers/wifi/at_driver.c:233-304 | the callback state picks the handler: module message, payload part or unvarnished byte, with the effects ReadDone states |
| AtDriver.AtDesc.UartError | drivers/wifi/at_driver.c:305-320 | an error or unknown event resubmits the one-byte read and clears cmd.len |
| AtDriver.AtDesc.Tick | drivers/wifi/at_driver.c:160 | a millisecond delivers the submitted read exactly when all its bytes have arrived; nothing is sent |
| AtDriver.AtDesc.Delay | drivers/wifi/at_driver.c:502 | mdelay lets bytes arrive but sends nothing |
| AtDriver.AtDesc.WaitForResponse | drivers/wifi/at_driver.c:152-161 | at most MODULE_TIMEOUT + 1 waits, and a wait that ends early has a status set |
| AtDriver.AtDesc.WaitSendPrompt | drivers/wifi/at_driver.c:596-597 | the busy wait ends exactly when waiting_send is cleared, and hangs only when no more bytes can arrive |
| AtDriver.AtDesc.ClearResult | drivers/wifi/at_driver.c:631 | result.len becomes 0 |
| AtDriver.AtDesc.SetCmd | drivers/wifi/at_driver.c:481-482 | the command buffer holds exactly the given text |
| AtDriver.AtDesc.WriteData | drivers/wifi/at_driver.c:599-604 | the payload goes out in place of the command, the status is waiting and cmd.len is 0 |
| AtDriver.AtDesc.WriteCmd | drivers/wifi/at_driver.c:325-333 | the status becomes waiting, the command's bytes are sent, and cmd.len ends at 0 |
| AtDriver.AtDesc.StopEcho | drivers/wifi/at_driver.c:479-493 | "ATE0\r\n" is sent, the buffer cleared, and success means the module answered OK |
| AtDriver.AtDesc.ResetModule | drivers/wifi/at_driver.c:499-507 | the reset command and "ATE0\r\n" are sent; success means OK, and is_reset stays set exactly on failure |
| AtDriver.AtDesc.SetReset | drivers/wifi/at_driver.c:500 | is_reset takes the given value |
| AtDriver.AtDesc.HandleSpecial | drivers/wifi/at_driver.c:496-516 | AT+GSLP fails and changes nothing; AT+RST is carried out as ResetModule |
| AtDriver.AtDesc.DisconnectReceived | drivers/wifi/at_driver.c:535-538 | the corrected comparison: true exactly when the buffer starts with the whole disconnect message |
| AtDriver.AtDesc.ParseResult | drivers/wifi/at_driver.c:522-557 | after AT+CWQAP, each of at most 11 checks tests the result buffer for "WIFI DISCONNECT\r\n"; the command succeeds exactly when one check sees it, fails after 11 checks that do not, and on success cb_response gains the buffered bytes of that check; for other commands the buffered bytes are appended to cb_response; the buffer is cleared either way and nothing is sent |
| AtDriver.AtDesc.AwaitDisconnect | drivers/wifi/at_driver.c:531-545 | the wait stops at the first check that sees the message, or after 11 checks; every check answers whether the result buffer holds at least the whole message and starts with it |
| AtDriver.AtDesc.RecordSuccess | drivers/wifi/at_driver.c:612-622 | AT+CIPMUX sets the connection mode from the parameter (for any operation, as written), AT+CIPSTART=... opens its slot with its protocol, AT+CIPMODE=1 switches to unvarnished reading |
| AtDriver.AtDesc.WriteCmdAwaitingPrompt | drivers/wifi/at_driver.c:591-592 | waiting_send is set and the command sent |
| AtDriver.AtDesc.Transmit | drivers/wifi/at_driver.c:591-605 | unless the prompt never comes, the wire carries the command and, for AT+CIPSEND, the data after it |
| AtDriver.AtDesc.SendPayload | drivers/wifi/at_driver.c:594-604 | once the '>' prompt arrives, the data goes on the wire in place of the command, the command length is cleared and a result is awaited; without the prompt the model hangs with no pending read it could complete |
| AtDriver.AtDesc.LeaveUnvarnished | drivers/wifi/at_driver.c:578-584 | in unvarnished mode, the callback returns to module messages |
| AtDriver.AtDesc.Conclude | drivers/wifi/at_driver.c:612-633 | after OK, success leaves the state RunSucceeded describes and nothing more is sent |
| AtDriver.AtDesc.Finish | drivers/wifi/at_driver.c:623-633 | parse_result with a parameter, else a cleared buffer; success leaves an empty buffer |
| AtDriver.AtDesc.Exchange | drivers/wifi/at_driver.c:591-608 | the wire carries the command (and data) unless the prompt never comes |
| AtDriver.AtDesc.RunBuilt | drivers/wifi/at_driver.c:591-633 | the wire carries exactly the command's bytes; a hang only on AT+CIPSEND without a prompt; success leaves the state RunSucceeded describes |
| AtDriver.AtDesc.RunCmd | drivers/wifi/at_driver.c:566-634 | a disallowed operation, or any command but AT+CIPMODE=0 in unvarnished mode, fails and changes nothing; otherwise the wire carries Transmitted; AT+GSLP fails; success leaves the state RunSucceeded describes; a completed reset clears is_reset |
| AtDriver.AtDesc.RunSpecial | drivers/wifi/at_driver.c:586-589 | build_cmd then handle_special: the wire carries the command (and "ATE0\r\n" after a reset) |
| AtDriver.AtDesc.RunRegular | drivers/wifi/at_driver.c:586-633 | build_cmd then the write and the wait, with the wire carrying Transmitted unless it hangs |
| AtDriver.AtDesc.PrepareCmd | drivers/wifi/at_driver.c:586 | the command buffer holds CommandText, and nothing else the executor reads changes |
| AtDriver.AtDesc.ReplaceBuffer | drivers/wifi/at_driver.c:642-657 | a NULL buffer fails and changes nothing; otherwise the old buffer and its length are returned and the new one installed empty |
| AtDriver.AtDesc.SetCallbackState | drivers/wifi/at_driver.c:622 | callback_state takes the given value |
| AtDriver.AtDesc.EnterSendUnvarnished | drivers/wifi/at_driver.c:659-675 | fails unchanged unless connection 0 is an active TCP link in single-connection mode; otherwise AT+CIPSEND is sent and, once '>' arrives, reading is unvarnished |
| AtDriver.AtDesc.OpenUnvarnished | drivers/wifi/at_driver.c:666-672 | the command is sent and, once '>' arrives, reading becomes unvarnished |
| AtDriver.AtDesc.SendUnvarnished | drivers/wifi/at_driver.c:677-684 | the data goes to the UART as it is |
| AtDriver.AtDesc.ReadUnvarnished | drivers/wifi/at_driver.c:686-688 | succeeds exactly when len bytes are stored, and takes the oldest len bytes |
| AtDriver.AtDesc.ExitSendUnvarnished | drivers/wifi/at_driver.c:690-697 | "+++" is sent and reading returns to module messages |
| SpiEngineDefs.SelectorsAsDefined | drivers/axi_core/spi_engine/spi_engine_core.h:110-115 | the selector constants are the header's BIT and GENMASK expressions, and the selector mask is 0xF << 28 |
| SpiEngineDefs.EngineCmd | drivers/axi_core/spi_engine/spi_engine_core.h:135-137 | SPI_ENGINE_CMD places the instruction in bits 12-13, arg1 in bits 8-9 and arg2 in bits 0-7; all three read back whenever arg2 is below 256, and the word is below 0x4000 |
| SpiEngineDefs.EngineCmdFieldsOverlap | drivers/axi_core/spi_engine/spi_engine_core.h:135-137 | arg2 is or-ed in unmasked: a clock divider of 256 produces the same word as a write of 0 to the config register |
| SpiEngineDefs.CmdTransfer | drivers/axi_core/spi_engine/spi_engine_core.h:139-141 | a transfer command carries the word count, and bit 0 of arg1 is the write flag and bit 1 the read flag |
| SpiEngineDefs.CmdAssert | drivers/axi_core/spi_engine/spi_engine_core.h:143-145 | an assert command carries the delay and the chip-select mask |
| SpiEngineDefs.CmdWrite | drivers/axi_core/spi_engine/spi_engine_core.h:147-149 | a write command carries the register and the value |
| SpiEngineDefs.CmdSleep | drivers/axi_core/spi_engine/spi_engine_core.h:151-154 | a sleep command is a MISC instruction with the SLEEP argument and the delay |
| SpiEngineDefs.CmdSync | drivers/axi_core/spi_engine/spi_engine_core.h:156-159 | a sync command is a MISC instruction with the SYNC argument and the id |
| SpiEngineDefs.FifoEntry | drivers/axi_core/spi_engine/spi_engine_core.h:252-254 | storing a command word in the uint16_t FIFO keeps a word below 0x10000 and always keeps the three fields the engine reads |
| SpiEngineDefs.Selector | drivers/axi_core/spi_engine/spi_engine_core.c:435-443 | the selector is the top four bits of the user command word, and with the parameter bits it rebuilds the word |
| SpiEngineDefs.UserParam | drivers/axi_core/spi_engine/spi_engine_core.c:436-444 | the parameter narrowed to uint16_t is the low 16 bits of the word |
| SpiEngineDefs.Sleep | drivers/axi_core/spi_engine/spi_engine_core.h:123-124 | SLEEP(x) has the sleep selector and the low 28 bits of x |
| SpiEngineDefs.TransferBytesR | drivers/axi_core/spi_engine/spi_engine_core.h:126-127 | TRANSFER_BYTES_R(x) has the read selector and the low 4 bits of x |
| SpiEngineDefs.TransferBytesW | drivers/axi_core/spi_engine/spi_engine_core.h:129-130 | TRANSFER_BYTES_W(x) has the write selector and the low 4 bits of x |
| SpiEngineDefs.TransferBytesRW | drivers/axi_core/spi_engine/spi_engine_core.h:132-133 | TRANSFER_BYTES_R_W(x) has the read-and-write selector and the low 4 bits of x |
| SpiEngineCore.SpiDesc.constructor | drivers/axi_core/spi_engine/spi_engine_core.h:236-241 | a bus descriptor is linked to its extra descriptor |
| SpiEngineCore.TransferFifo.constructor | drivers/axi_core/spi_engine/spi_engine_core.h:252-255 | a command FIFO structure holds the requested number of entries, and its length starts at 0 |
| SpiEngineCore.SpiMsg.constructor | drivers/axi_core/spi_engine/spi_engine_core.h:243-250 | a message holds its word buffers and its user command words |
| SpiEngineCore.SetTransferLength | drivers/axi_core/spi_engine/spi_engine_core.c:174-185 | the word width becomes the smaller of the requested width and the hardware width |
| SpiEngineCore.WordLength | drivers/axi_core/spi_engine/spi_engine_core.c:228-231 | the word length is the number of whole bytes in the data width (8r <= width < 8r + 8) |
| SpiEngineCore.CeilDivIsLeast | drivers/axi_core/spi_engine/spi_engine_core.c:202-214 | the rounded-up quotient is the least multiple count that covers the bytes, and it never exceeds the byte count |
| SpiEngineCore.CeilDivShrinks | drivers/axi_core/spi_engine/spi_engine_core.c:202-214 | with words of two bytes or more, two or more bytes need fewer words than bytes |
| SpiEngineCore.WordsNumber | drivers/axi_core/spi_engine/spi_engine_core.c:202-214 | the words number is the byte count divided by the word length and rounded up, and those words hold every byte |
| SpiEngineCore.WordsNumberIsLeast | drivers/axi_core/spi_engine/spi_engine_core.c:202-214 | the words number is the fewest words that hold the bytes |
| SpiEngineCore.CheckDmaConfig | drivers/axi_core/spi_engine/spi_engine_core.c:249-262 | the check fails exactly when offload is configured and a used direction (rx or tx) has no offload support |
| SpiEngineCore.SleepDivCountsPeriods | drivers/axi_core/spi_engine/spi_engine_core.c:280-300 | the sleep prescaler is the number of whole SCLK periods in the sleep minus one, and it wraps to 0xFFFFFFFF for a sleep shorter than one period |
| SpiEngineCore.CsMask | drivers/axi_core/spi_engine/spi_engine_core.c:374-389 | asserting drives every line high; deasserting clears only the selected line, and a chip select of 8 or more is lost in the uint8_t mask |
| SpiEngineCore.CsEntry | drivers/axi_core/spi_engine/spi_engine_core.c:374-389 | the chip-select command is an ASSERT with the low two bits of the delay and the mask |
| SpiEngineCore.TransferCount | drivers/axi_core/spi_engine/spi_engine_core.c:338-358 | the transfer's count field is one less than the words the bytes need, and it wraps to 255 for zero bytes |
| SpiEngineCore.TransferEntry | drivers/axi_core/spi_engine/spi_engine_core.c:338-358 | the transfer command is a TRANSFER with that count, and its write and read flags are set exactly as requested |
| SpiEngineCore.ProgramAddCmd | drivers/axi_core/spi_engine/spi_engine_core.c:315-320 | the FIFO contents become the old contents with the command appended |
| SpiEngineCore.GenTransfer | drivers/axi_core/spi_engine/spi_engine_core.c:338-358 | the FIFO gains exactly the transfer command |
| SpiEngineCore.GenCs | drivers/axi_core/spi_engine/spi_engine_core.c:374-389 | the FIFO gains exactly the chip-select command |
| SpiEngineCore.GenSleepNs | drivers/axi_core/spi_engine/spi_engine_core.c:405-415 | the FIFO gains exactly the SLEEP command for the computed prescaler |
| SpiEngineCore.DecodeUserCmd | drivers/axi_core/spi_engine/spi_engine_core.c:431-504 | every transfer a user command decodes to reads or writes |
| SpiEngineCore.DecodeUserCmdMacros | drivers/axi_core/spi_engine/spi_engine_core.h:110-133 | CS_DEASSERT, CS_ASSERT, SLEEP(x) and the three TRANSFER_BYTES macros decode to the commands they name, with the parameter bits they keep |
| SpiEngineCore.UserCmdLengths | drivers/axi_core/spi_engine/spi_engine_core.c:446-503 | only a transfer changes the rx/tx lengths |
| SpiEngineCore.UserCmdEntriesCount | drivers/axi_core/spi_engine/spi_engine_core.c:446-503 | a user command queues at most one command; it queues none exactly when its selector is unknown or it is a transfer the DMA check refuses |
| SpiEngineCore.UserTransfer | drivers/axi_core/spi_engine/spi_engine_core.c:462-499 | a transfer that passes the DMA check is queued and sets the lengths of the directions it uses; a refused one sets them to 0 and queues nothing |
| SpiEngineCore.AddUserCmd | drivers/axi_core/spi_engine/spi_engine_core.c:431-504 | the FIFO gains exactly the command's entries, the lengths change as the command says, and the configuration is unchanged |
| SpiEngineCore.UserEntries | drivers/axi_core/spi_engine/spi_engine_core.c:556-557 | a message's user commands queue at most one command each |
| SpiEngineCore.UserEntriesAppend | drivers/axi_core/spi_engine/spi_engine_core.c:556-557 | two consecutive runs of user commands compile one after the other |
| SpiEngineCore.CompiledEntriesShape | drivers/axi_core/spi_engine/spi_engine_core.c:520-564 | a compiled message starts with the three register writes and the begin sync, then holds the user commands in order, and ends with the end sync; it has between 5 and n + 5 commands |
| SpiEngineCore.HeaderEntriesWriteRegisters | drivers/axi_core/spi_engine/spi_engine_core.c:533-553 | the header writes the clock divider, the SPI mode and the word width to their registers, as long as each fits the 8-bit argument |
| SpiEngineCore.WriteEntryDecodes | drivers/axi_core/spi_engine/spi_engine_core.h:147-149 | a register write of a value below 256 decodes to that register and value |
| SpiEngineCore.CompiledFitsFifo | drivers/axi_core/spi_engine/spi_engine_core.c:591 | with msg_cmd_len + 5 entries, every compiled message fits its FIFO |
| SpiEngineCore.CompiledOverflowsFifoAsWritten | drivers/axi_core/spi_engine/spi_engine_core.c:591 | with msg_cmd_len + 3 entries, a message in which at most one user command queues nothing is compiled past the end of the FIFO |
| SpiEngineCore.ProgramHeader | drivers/axi_core/spi_engine/spi_engine_core.c:533-553 | the FIFO gains exactly the four header commands |
| SpiEngineCore.CompileMessage | drivers/axi_core/spi_engine/spi_engine_core.c:520-564 | the FIFO gains exactly the compiled message, the lengths are those the user commands leave, and the configuration is unchanged |
| SpiEngineCore.AddUserCmds | drivers/axi_core/spi_engine/spi_engine_core.c:556-557 | the loop appends every user command's entries in message order and leaves room for the end sync |
| SpiEngineCore.UserEntriesPrefix | drivers/axi_core/spi_engine/spi_engine_core.c:556-557 | a prefix of a message is valid for the compiler and never queues more commands than the whole message |
| SpiEngineCore.UserEntriesStep | drivers/axi_core/spi_engine/spi_engine_core.c:556-557 | one more user command appends its entries and updates the lengths, and the prefix never needs more room than the whole message |
| SpiEngineCore.TransferMessage | drivers/axi_core/spi_engine/spi_engine_core.c:580-628 | a failed FIFO allocation returns FAILURE and changes nothing; otherwise the engine gets the compiled message and tx_length words of tx_buf, and rx_buf starts with rx_length words read back |
| SpiEngineCore.StoreSdiWords | drivers/axi_core/spi_engine/spi_engine_core.c:619-623 | the first n words of the buffer become the words read, and the rest is unchanged |
| SpiEngineFifo.SlotIndex | drivers/axi_core/spi_engine/spi_engine_fifo.c:193-196 | the slot of a byte lies within its word |
| SpiEngineFifo.WordIndexIsDiv | drivers/axi_core/spi_engine/spi_engine_fifo.c:193-196 | the word and the slot are C's i / wl and i % wl, and they rebuild i |
| SpiEngineFifo.DivUnique | drivers/axi_core/spi_engine/spi_engine_fifo.c:193-196 | a quotient and a remainder below the divisor are C's / and % for word lengths 1 to 4 |
| SpiEngineFifo.Shift | drivers/axi_core/spi_engine/spi_engine_fifo.c:193-196 | the shift of a byte leaves all eight bits inside the data width and below bit 32 |
| SpiEngineFifo.PlaceSameSlot | drivers/axi_core/spi_engine/spi_engine_fifo.c:193-196 | reading back the slot a byte was OR-ed into gives the old slot OR-ed with the byte |
| SpiEngineFifo.PlaceOtherSlot | drivers/axi_core/spi_engine/spi_engine_fifo.c:193-196 | OR-ing a byte into one slot leaves every slot at least 8 bits away unchanged |
| SpiEngineFifo.SlotsApart | drivers/axi_core/spi_engine/spi_engine_fifo.c:193-196 | two different bytes of the same word sit in slots at least 8 bits apart |
| SpiEngineFifo.WordIndexInRange | drivers/axi_core/spi_engine/spi_engine_fifo.c:166 | a byte index below words * wl falls within the words allocated |
| SpiEngineFifo.Pack | drivers/axi_core/spi_engine/spi_engine_fifo.c:193-196 | packing yields exactly the number of words allocated |
| SpiEngineFifo.PackStepPlaces | drivers/axi_core/spi_engine/spi_engine_fifo.c:193-196 | one packing step puts the new byte into a zero slot and keeps every other slot |
| SpiEngineFifo.PackPlacesBytes | drivers/axi_core/spi_engine/spi_engine_fifo.c:184-196 | after packing, every byte can be read back from its slot, and every slot no byte was packed into is zero |
| SpiEngineFifo.Unpacked | drivers/axi_core/spi_engine/spi_engine_fifo.c:200-203 | unpacking keeps the length of data |
| SpiEngineFifo.PackUnpackShiftsBytes | drivers/axi_core/spi_engine/spi_engine_fifo.c:192-203 | on a loopback the bytes come back shifted down by one: the first byte is dropped and the last is kept |
| SpiEngineFifo.Zeros | drivers/axi_core/spi_engine/spi_engine_fifo.c:184-188 | the cleared buffer has the word count and every word is zero |
| SpiEngineFifo.ZeroWords | drivers/axi_core/spi_engine/spi_engine_fifo.c:184-188 | both word buffers become all zeros |
| SpiEngineFifo.PackBytes | drivers/axi_core/spi_engine/spi_engine_fifo.c:192-196 | the cleared tx buffer becomes the packed bytes |
| SpiEngineFifo.UnpackBytes | drivers/axi_core/spi_engine/spi_engine_fifo.c:200-203 | data becomes the unpacking of the rx words |
| SpiEngineFifo.ClkDivCountsPeriods | drivers/axi_core/spi_engine/spi_engine_fifo.c:97-99 | the clock divider is the number of whole 2 * spi_clk_hz periods in max_speed_hz minus one, and it wraps to 0xFFFFFFFF below one period |
| SpiEngineFifo.WrappedClkDivStopsSleep | drivers/axi_core/spi_engine/spi_engine_core.c:296-297 | a wrapped clock divider makes the sleep divisor wrap to zero |
| SpiEngineFifo.NewDescExtra | drivers/axi_core/spi_engine/spi_engine_fifo.c:93-127 | the extra descriptor has its lengths cleared, the computed clock divider, the copied engine parameters, and the reported width as both the current and the largest width |
| SpiEngineFifo.SpiInit | drivers/axi_core/spi_engine/spi_engine_fifo.c:74-133 | a failed allocation returns FAILURE and no descriptor; otherwise a fresh descriptor carries the bus parameters and an initialised extra descriptor |
| SpiEngineFifo.MessageTransferParam | drivers/axi_core/spi_engine/spi_engine_fifo.c:171 | the read-write transfer's parameter is the low four bits of the word count |
| SpiEngineFifo.MessageLength | drivers/axi_core/spi_engine/spi_engine_fifo.c:169-172 | both lengths become the low four bits of the word count, or 0, and never exceed the word count |
| SpiEngineFifo.MessageCmdEffects | drivers/axi_core/spi_engine/spi_engine_fifo.c:169-172 | each of the four user commands queues its one command (the transfer only when the DMA check passes) and only the transfer sets the lengths |
| SpiEngineFifo.MessageUserEntries | drivers/axi_core/spi_engine/spi_engine_fifo.c:169-172 | the four user commands queue chip select high, chip select low, the transfer, and chip select high |
| SpiEngineFifo.MessageLengthsAfter | drivers/axi_core/spi_engine/spi_engine_fifo.c:169-172 | after the message both lengths equal the message length |
| SpiEngineFifo.MessageCompiles | drivers/axi_core/spi_engine/spi_engine_fifo.c:169-198 | the message is valid for the compiler, which queues the header, the four user entries and the end sync |
| SpiEngineFifo.MessageOverflowsFifoAsWritten | drivers/axi_core/spi_engine/spi_engine_fifo.c:169-179 | with the DMA check passing, the message compiles to nine commands, more than the 4 + 3 entries allocated |
| SpiEngineFifo.MessageClocksFewerWords | drivers/axi_core/spi_engine/spi_engine_fifo.c:166-171 | the word count is converted to words a second time, so for words wider than a byte, a message of 2 to 15 words clocks fewer words than the lengths it sets |
| SpiEngineFifo.ReadBack | drivers/axi_core/spi_engine/spi_engine_fifo.c:181-198 | the rx buffer keeps the word count after the transfer |
| SpiEngineFifo.NewMessage | drivers/axi_core/spi_engine/spi_engine_fifo.c:169-196 | the message holds the four commands, fresh and distinct word buffers sized to the word count, the packed bytes in tx and zeros in rx |
| SpiEngineFifo.WriteAndRead | drivers/axi_core/spi_engine/spi_engine_fifo.c:152-210 | a failed message allocation returns FAILURE and changes nothing; otherwise the engine gets the compiled message and the packed words, both lengths are set, and data is unpacked from the words read back |
| CommUtil.FlattenAppend | projects/drivers/communication_util/comm_util.c:119-148 | the bytes of two runs of chunks are the bytes of the first followed by those of the second |
| CommUtil.FlattenOne | projects/drivers/communication_util/comm_util.c:119-148 | a queue of one chunk holds exactly that chunk's bytes |
| CommUtil.FlattenSplit | projects/drivers/communication_util/comm_util.c:245-256 | splitting the queue after k chunks splits its bytes at the same place |
| CommUtil.FlattenStep | projects/drivers/communication_util/comm_util.c:247-253 | one more chunk adds its bytes at the end |
| CommUtil.ChunksToReach | projects/drivers/communication_util/comm_util.c:245-256 | the loop takes at least k whole chunks, no more than the queue holds, and their bytes reach len |
| CommUtil.ShortOfReach | projects/drivers/communication_util/comm_util.c:245-256 | every shorter run of at least k chunks falls short of len, so the run the loop takes is the fewest that reach it |
| CommUtil.ReadConservesBytes | projects/drivers/communication_util/comm_util.c:230-268 | comm_read neither loses nor reorders bytes: the bytes taken followed by the bytes left are the queue's bytes |
| CommUtil.SplitHeadConservesBytes | projects/drivers/communication_util/comm_util.c:257-264 | taking len bytes from a longer head keeps the rest of it at the front of the queue |
| CommUtil.HeadBytes | projects/drivers/communication_util/comm_util.c:230-268 | the queue's bytes are the head's bytes followed by those of the other chunks |
| CommUtil.ReadTakesEnough | projects/drivers/communication_util/comm_util.c:241-265 | comm_read takes at least len bytes; exactly len unless the head is shorter; otherwise whole chunks, stopping at the first that reaches len |
| CommUtil.FindCrlfFrom | projects/drivers/communication_util/comm_util.c:197 | the search finds the first "\r\n" at or after i, or reports that none exists |
| CommUtil.FindCrlf | projects/drivers/communication_util/comm_util.c:197 | the search finds the first "\r\n" in the chunk, or reports that none exists |
| CommUtil.SkipLeadingCrlf | projects/drivers/communication_util/comm_util.c:198-202 | a "\r\n" at the start of the chunk is skipped, and nothing else is |
| CommUtil.ReadLineSplitsChunk | projects/drivers/communication_util/comm_util.c:185-217 | the chunk is the skipped "\r\n", the line, the "\r\n" and the kept bytes, in that order; the line is written NUL-terminated and holds no "\r\n" |
| CommUtil.ReadLineWithoutCrlf | projects/drivers/communication_util/comm_util.c:218-222 | with no further "\r\n" the chunk is dropped, the length is 0, and a NUL overwrites the first byte copied |
| CommUtil.FifoNode.constructor | projects/drivers/communication_util/comm_util.c:89-100 | a new node is empty and unlinked and has no data |
| CommUtil.ChunkFifo.Chunks | projects/drivers/communication_util/comm_util.c:105-114 | the queue has one chunk per node |
| CommUtil.ChunkFifo.constructor | projects/drivers/communication_util/comm_util.c:119-130 | a queue starts empty, with a NULL head |
| CommUtil.ChunkFifo.GetLast | projects/drivers/communication_util/comm_util.c:105-114 | get_last returns NULL for an empty queue and the last node otherwise |
| CommUtil.ChunkFifo.InsertTail | projects/drivers/communication_util/comm_util.c:119-148 | a failed node allocation returns -ENOMEM and leaves the queue as it was; a failed data allocation returns -ENOMEM and leaves an empty node at the tail; otherwise the queue gains the copied bytes and returns 0 |
| CommUtil.ChunkFifo.Append | projects/drivers/communication_util/comm_util.c:126-137 | the new node becomes the head of an empty queue, or is linked after the last node |
| CommUtil.ChunkFifo.RemoveHead | projects/drivers/communication_util/comm_util.c:153-172 | the head leaves the queue and the next node becomes the head; an empty queue stays empty |
| CommUtil.ChunkFifo.KeepHeadBytes | projects/drivers/communication_util/comm_util.c:212-216 | the head chunk keeps only the given bytes, and the other chunks are unchanged |
| CommUtil.ChunkFifo.CommReadLine | projects/drivers/communication_util/comm_util.c:185-225 | comm_read_line returns the line length and the head's id, writes the line into buf, and leaves the rest of the head chunk (or drops it) before the other chunks |
| CommUtil.ChunkFifo.CommRead | projects/drivers/communication_util/comm_util.c:230-268 | comm_read returns the byte count taken and the head's id, writes the bytes taken at the start of buf, and leaves the rest of the queue |
| CommUtil.ChunkFifo.ReadWholeChunks | projects/drivers/communication_util/comm_util.c:245-256 | the loop copies whole chunks in order and drops each until len bytes are reached |
| CommUtil.ChunkFifo.ReadRound | projects/drivers/communication_util/comm_util.c:247-256 | one round copies the next chunk after the bytes taken so far and drops it |
| CommUtil.ChunkFifo.TakeHead | projects/drivers/communication_util/comm_util.c:248-253 | the head chunk is copied into buf at the offset, and the head is dropped |
| CommUtil.ReachedAt | projects/drivers/communication_util/comm_util.c:256 | a run of chunks falls short of len exactly when it is shorter than the run comm_read takes |
| CommUtil.FlattenPrefixGrows | projects/drivers/communication_util/comm_util.c:245-256 | longer runs of chunks hold at least as many bytes |
| CommUtil.CopyLine | projects/drivers/communication_util/comm_util.c:196-222 | buf receives exactly what a line read writes, and the chunk keeps its bytes from the position after the line's "\r\n" exactly when it is kept |
| CommUtil.WriteLine | projects/drivers/communication_util/comm_util.c:206-208 | the line is copied to the start of buf and followed by a NUL |
| CommUtil.WriteEmptyLine | projects/drivers/communication_util/comm_util.c:219-220 | the chunk is copied to the start of buf and its first byte is overwritten by a NUL |
| CommUtil.PutNul | projects/drivers/communication_util/comm_util.c:208 | a NUL is written right after the line |
| CommUtil.CopyBytes | projects/drivers/communication_util/comm_util.c:207 | memcpy puts the bytes at the offset and leaves the rest of buf unchanged |
| Xml.NewDoc | projects/drivers/util/xml.c:193-202 | a new document is empty and has a buffer of two increments (2048 bytes) |
| Xml.EmitExtends | projects/drivers/util/xml.c:189-231 | printing only appends: the earlier text stays, and the buffer grows by one increment per realloc granted |
| Xml.EmitAllExtends | projects/drivers/util/xml.c:225-227 | printing the children only appends, as printing one node does |
| Xml.EmitRenders | projects/drivers/util/xml.c:189-231 | when the allocator grants one realloc per node, the print returns 0 and appends exactly the tree's text |
| Xml.EmitAllRenders | projects/drivers/util/xml.c:225-227 | when the allocator grants one realloc per node, the children's texts are appended in order |
| Xml.EmitCheckedRenders | projects/drivers/util/xml.c:225-227 | the corrected print returns 0 or -ENOMEM, and 0 only when it has appended exactly the tree's text |
| Xml.EmitAllCheckedRenders | projects/drivers/util/xml.c:225-227 | the corrected print of the children returns 0 only when all their texts are appended in order |
| Xml.EmitCheckedAgrees | projects/drivers/util/xml.c:189-231 | where the corrected print succeeds, it leaves the same document and result as the code as written |
| Xml.EmitAllCheckedAgrees | projects/drivers/util/xml.c:225-227 | where the corrected print of the children succeeds, it prints what the code as written prints |
| Xml.LongName | projects/drivers/util/xml.c:214 | a name of n letters has length n |
| Xml.ChildFailureIgnored | projects/drivers/util/xml.c:225-227 | a child whose realloc fails is dropped while its parent still returns 0 and prints its closing tag |
| Xml.NodeCanOverrunBuffer | projects/drivers/util/xml.c:205-220 | the growth check does not bound what one node prints: a 2100-letter name runs past a new 2048-byte buffer |
| Xml.UnescapedValueIsAmbiguous | projects/drivers/util/xml.c:216 | values are printed without escaping, so two different trees can print the same text |
| Xml.XmlAttribute.constructor | projects/drivers/util/xml.c:54 | a freshly allocated attribute has no name and no value |
| Xml.CreateAttribute | projects/drivers/util/xml.c:53-69 | a failed first malloc returns -ENOMEM and no attribute; a later failed malloc returns -ENOMEM and leaves the strings set so far; otherwise the attribute holds copies of the name and the value |
| Xml.DeleteAttribute | projects/drivers/util/xml.c:146-155 | both strings of the attribute are released and set to NULL |
| Xml.XmlNode.AddAttribute | projects/drivers/util/xml.c:77-93 | a failed allocation returns -ENOMEM and changes nothing; otherwise the attribute is appended at index attr_cnt, and the name and children are unchanged; a footprint that held exactly the tree still does |
| Xml.XmlNode.AddNode | projects/drivers/util/xml.c:123-139 | a failed allocation returns -ENOMEM and changes nothing; otherwise the child is appended at index children_cnt and the tree gains the child's subtree; when both footprints held exactly their trees, the joined one does |
| Xml.XmlNode.constructor | projects/drivers/util/xml.c:102-108 | a freshly allocated node has no name, no attributes and no children |
| Xml.CreateNode | projects/drivers/util/xml.c:101-115 | a failed first malloc returns -ENOMEM and no node; a failed name malloc returns -ENOMEM with no name; otherwise the node is the single element with the name, and its footprint is exactly that node |
| Xml.DeleteNode | projects/drivers/util/xml.c:162-181 | the node is cleared, and every object of the old tree, at any depth, ends cleared (a node: NULL name, no attributes, no children) or with NULL strings (an attribute) |
| Xml.DeleteParts | projects/drivers/util/xml.c:162-181 | given the node's attribute objects and its children's disjoint footprints, the body of xml_delete_node clears the node and leaves every one of those objects cleared or with NULL strings |
| Xml.DeleteAttributes | projects/drivers/util/xml.c:167-169 | every attribute of the node ends with both strings NULL |
| Xml.DeleteChildren | projects/drivers/util/xml.c:173-175 | every child of the node is cleared, and every object in any child's old footprint is cleared or has NULL strings |
| Xml.XmlDocument.constructor | projects/drivers/util/xml.c:194-201 | a new document structure is the empty 2048-byte document |
| Xml.XmlDocument.Append | projects/drivers/util/xml.c:214-228 | sprintf appends the text at index and moves index past it |
| Xml.XmlDocument.Unbuffered | projects/drivers/util/xml.c:194-199 | a document whose buffer malloc fails has no text and no buffer |
| Xml.CreateDocument | projects/drivers/util/xml.c:189-231 | a NULL document is allocated first, and a failed malloc returns -ENOMEM; the print then leaves the document and the result given by the recursive print definition |
| Xml.WriteNode | projects/drivers/util/xml.c:204-230 | printing a node into an existing document gives the document and the result of the recursive print definition |
| Xml.WriteAttributes | projects/drivers/util/xml.c:215-217 | the attributes are printed in order, each as name="value" and a space |
| Xml.WriteChildren | projects/drivers/util/xml.c:225-227 | the children are printed in order into the same document, and their results are ignored |
| Iio.TrailingDigits | iio/iio.c:86-104 | the result is the longest all-digit suffix of the name: the byte before it, if any, is not a digit |
| Iio.LastNumberOfRun | iio/iio.c:86-104 | a name ending in a digit run that follows a non-digit has that run's decimal value as its channel number |
| Iio.LastNumberAfterNonDigit | iio/iio.c:86-104 | a trailing non-digit leaves the channel number unchanged (the scan only steps past it) |
| Iio.LastNumberWithoutDigits | iio/iio.c:86-104 | a name with no digit has channel number 0, the initial ch_num |
| Iio.ChannelNumber | iio/iio.c:91-104 | the strtol scan returns the value of the last digit run of the name, saturated at 2^31 - 1 (LONG_MAX with a 32-bit long), or 0 without digits; tinyiiod_util.c:19-32 (get_channel_number) has the same body and is modelled by this method too |
| Iio.ReadRun | iio/iio.c:98 | strtol at a digit that follows a non-digit reads the whole run, stops before a non-digit or at the end, and yields the name's last number up to there, saturated at 2^31 - 1 |
| Iio.IndexOf | iio/iio.c:113-152 | the index of the first table entry equal to the name, -1 exactly when the name is absent; no earlier entry matches |
| Iio.LookupId | iio/iio.c:113-152 | -EINVAL exactly for a table whose first entry is the NULL terminator, -ENOENT exactly when a non-empty table lacks the name, otherwise the first matching index |
| Iio.GetId | iio/iio.c:113-152 | the table walk up to the NULL entry returns LookupId: the first strcmp match or the error codes above |
| Iio.Pad4 | iio/iio.c:197-198 | rounding a length that is not a multiple of 4 gives the next multiple of 4: r % 4 == 0 and n <= r < n + 4 |
| Iio.PackedSize | iio/iio.c:182-205 | the offset after packing is a multiple of 4 and at least 4 bytes per attribute |
| Iio.PackedSizeGrows | iio/iio.c:182-205 | packing a prefix of the attributes never ends past packing all of them |
| Iio.FitsPrefix | iio/iio.c:182-205 | if the writes of all attributes fit the buffer, so do the writes of any prefix |
| Iio.BswapTwice | iio/iio.c:193 | bswap_constant_32 is its own inverse on 32-bit values |
| Iio.HeaderIsBigEndian | iio/iio.c:192-193 | storing the swapped length on a little-endian core lays the length out in network byte order |
| Iio.Int16OfWrap | iio/iio.c:220-223 | a length in int16_t range survives conversion to uint32_t and truncation back to int16_t |
| Iio.HeaderRoundTrip | iio/iio.c:192-193 | loading a stored header, swapping it and truncating to int16_t gives back the attribute length |
| Iio.WriteRecord | iio/iio.c:191-200 | one attribute's writes leave the buffer length unchanged |
| Iio.PackImage | iio/iio.c:182-205 | the packed buffer has the length of the original buffer |
| Iio.WriteRecordKeeps | iio/iio.c:191-200 | an attribute's writes leave every byte below its offset unchanged |
| Iio.PackKeepsPrefix | iio/iio.c:182-205 | the bytes below the packed size of the first k attributes are final once those k are written |
| Iio.WriteRecordReads | iio/iio.c:191-200 | after one attribute's writes the buffer holds the swapped length at its offset and, for a non-negative length, the text right after it |
| Iio.RecordSurvives | iio/iio.c:182-205 | a buffer that agrees with an attribute's writes up to the record's end holds that record |
| Iio.RecordInImage | iio/iio.c:182-205 | in the packed buffer, attribute k sits at the packed size of attributes 0..k-1: its header, then its text |
| Iio.HeaderAtHolds | iio/iio.c:220-223 | a header written for a well-formed attribute decodes back to its length |
| Iio.UnpackStep | iio/iio.c:216-233 | decoding one well-formed attribute from its offset and then the rest from offset + advance gives the attribute followed by the rest |
| Iio.RecordAtHolds | iio/iio.c:220-225 | a buffer holding a well-formed attribute at an offset decodes exactly that attribute there |
| Iio.UnpackHeld | iio/iio.c:216-233 | a buffer holding attributes one after the other from an offset decodes to exactly those attributes |
| Iio.PackedRecordsHeld | iio/iio.c:182-205 | attributes that each sit at their packed offset are held one after the other, each starting where the previous one's advance ends |
| Iio.UnpackPack | iio/iio.c:182-233 | round trip: decoding the output of read_all_attr with the header lengths, as write_all_attr is meant to, gives back every well-formed attribute |
| Iio.Store | iio/iio.c:196 | the sprintf/memcpy into buf at an offset writes exactly the source bytes there and nothing else |
| Iio.StoreRecord | iio/iio.c:191-200 | one loop iteration writes the record of WriteRecord and moves the offset by the header plus the padded text |
| Iio.ReadAllAttr | iio/iio.c:182-205 | iio_read_all_attr returns the packed size, a multiple of 4, and leaves buf equal to the packed image; tinyiiod_util.c:77-99 (read_all_attr) packs the same way for attributes whose length fits int16_t |
| Iio.PointerAsLength | iio/iio.c:223 | as written, the length handed to store is the swapped address buf + j: 0 for a buffer at 0x1000 |
| Iio.WriteAllReadsPointer | iio/iio.c:223 | a packed buffer whose first header says a non-zero length is decoded as written with length 0, which disagrees with the header; tinyiiod_util.c:117 (write_all_attr) swaps the pointer in the same way |
| Iio.ChannelNames | iio/iio.c:113-128 | the names of the channel table, entry for entry |
| Iio.ChannelMask | iio/iio.c:487 | 0xFFFFFFFF >> (32 - n) is the mask of channels 0 to n - 1: 2^n - 1, with no bit at n or above |
| Iio.MaskOutside | iio/iio.c:489-490 | mask & ~ch_mask is non-zero exactly when the mask names a channel at or above num_channels |
| Iio.IioInterface.constructor | iio/iio.c:712-720 | the calloc'd interface holds the name, channel count and device given, with a zero channel mask |
| Iio.IioInterface.Open | iio/iio.c:487-492 | -ENOENT exactly when the mask has a bit at or above num_channels, leaving the interface unchanged; otherwise ch_mask becomes the full channel mask |
| Iio.NamesOf | iio/iio.c:160-171 | the names of the registered interfaces, slot for slot |
| Iio.Kept | iio/iio.c:706-708 | realloc keeps the old slots, or gives n slots when there was no table |
| Iio.FirstRegisteredWins | iio/iio.c:160-171 | after appending a name, an already present name is still found at its first slot and a new name is found at the appended slot |
| Iio.RegisteredIsFound | iio/iio.c:690-725 | after iio_register appends an interface, every registered name keeps its slot and a new name is found at the new slot |
| Iio.Registry.constructor | iio/iio.c:80 | the static registry starts NULL: no table and no interfaces |
| Iio.Registry.Names | iio/iio.c:160-171 | one name per registered interface |
| Iio.Registry.Find | iio/iio.c:160-171 | null exactly when no interface has the name; otherwise the interface in the first slot with that name |
| Iio.Registry.Register | iio/iio.c:690-725 | success exactly when every allocation succeeds (three on the first call, two later), else -ENOMEM; the table grows by one slot holding a fresh interface with the given fields |
| Iio.Registry.GetInterface | iio/iio.c:160-171 | the walk over num_interfaces slots returns Find: the first interface of that name, or NULL |
| Iio.Registry.SupporterDev | iio/iio.c:342-345 | true exactly when an interface of that name is registered |
| Iio.Registry.OpenDev | iio/iio.c:477-495 | -ENODEV exactly for an unknown device, -ENOENT exactly when the mask asks for a channel beyond num_channels, else 0 with ch_mask set to all channels; nothing changes on error |
| Iio.Registry.GetMask | iio/iio.c:513-526 | -ENODEV exactly for an unknown device, otherwise 0 and the mask of all its channels |
| Iio.ChannelRoute | iio/iio.c:244-284 | an empty attribute name reaches all channel attributes, otherwise the first attribute of that name, or -ENOENT exactly when the channel has none; the channel info carries the channel number and direction |
| Iio.Route | iio/iio.c:296-335 | -ENOENT without an iio_device; an empty channel name addresses device attributes (all for an empty attribute name, else the first match or -ENOENT); a named attribute present in the device's list is the first of that name; a channel name present in the device's channel list reaches that first channel's attribute path (all of its attributes, or the first of that name, or -ENOENT), and an unknown one gives -ENOENT |
| Iio.NegativeChannelIndexed | iio/iio.c:329-331 | as written, an unknown channel name sends the negative error code to the channel table as an index, where the corrected routing answers -ENOENT |
| Iio.RouteAgreesOnKnownChannels | iio/iio.c:296-335 | for a known channel name, or no channel name, the code as written routes like the corrected model |
| Iio.RdWrAttribute | iio/iio.c:244-335 | the method, with its id lookups and channel-number scan, reaches exactly the callback Route names |
| Tinyiiod.Head | projects/drivers/tinyiiod/tinyiiod_util.c:167-174 | map->field reads the first entry of a map, the all-zero terminator when the map is empty |
| Tinyiiod.EntryNames | projects/drivers/tinyiiod/tinyiiod_util.c:41-56 | the names of a map's entries, entry for entry |
| Tinyiiod.AttributeId | projects/drivers/tinyiiod/tinyiiod_util.c:41-56 | -EINVAL exactly for a NULL map, -ENODEV exactly when no entry has the name, otherwise the index of the first entry of that name |
| Tinyiiod.GetAttributeId | projects/drivers/tinyiiod/tinyiiod_util.c:41-56 | the walk up to the terminator returns AttributeId |
| Tinyiiod.DevicesStructSize | projects/drivers/tinyiiod/tinyiiod_util.c:227-228 | sizeof(tinyiiod_devices) is a multiple of the pointer size and covers number_of_dev, which follows the devices pointer |
| Tinyiiod.CountOutsideAllocation | projects/drivers/tinyiiod/tinyiiod_util.c:227-228 | as written the registry gets sizeof(tinyiiod_devices *) bytes, which end where number_of_dev begins, so the count is written outside the allocation; the struct's size covers it |
| Tinyiiod.TinyDevice.constructor | projects/drivers/tinyiiod/tinyiiod_util.c:235-241 | the new device holds the name, channel count and attribute map given |
| Tinyiiod.NamesOf | projects/drivers/tinyiiod/tinyiiod_util.c:58-67 | the names of the registered devices, slot for slot |
| Tinyiiod.RegisteredDeviceIsFound | projects/drivers/tinyiiod/tinyiiod_util.c:222-245 | after a device is appended, every registered name keeps its slot and a new name is found at the new slot |
| Tinyiiod.TinyDevices.constructor | projects/drivers/tinyiiod/tinyiiod_util.c:222-245 | the global registry starts NULL: no devices |
| Tinyiiod.TinyDevices.Names | projects/drivers/tinyiiod/tinyiiod_util.c:58-67 | one name per registered device |
| Tinyiiod.TinyDevices.Find | projects/drivers/tinyiiod/tinyiiod_util.c:58-67 | null exactly when no device has the name; otherwise the first device with that name |
| Tinyiiod.TinyDevices.RegisterDevice | projects/drivers/tinyiiod/tinyiiod_util.c:222-245 | always 0; number_of_dev grows by one, the table gains the fresh device with the given fields in its last slot, and the registry stays valid |
| Tinyiiod.TinyDevices.GetDevice | projects/drivers/tinyiiod/tinyiiod_util.c:58-67 | the loop over number_of_dev devices returns Find: the first device of that name, or NULL |
| Tinyiiod.NameAt | projects/drivers/tinyiiod/tinyiiod_util.c:151 | el_info->name[level] is the device, channel or attribute name for levels 0, 1 and 2 |
| Tinyiiod.Resolve | projects/drivers/tinyiiod/tinyiiod_util.c:139-220 | a NULL map gives -ENOENT at the current level; at the device level with no channel, an empty attribute name reaches all global attributes (map_in_global to read, map_out_global to write) and a named one is looked up in the global map ch_out selects, -ENOENT when absent, its exec when present; at the channel level an empty attribute name reaches the whole map_out (write) or map_in (read) with the channel's number; otherwise the name of the current level is looked up in the map: absent gives -ENOENT at that level; an entry with exec is called (when the device is registered) with the channel number parsed from the channel name; an entry without exec descends into its map_out or map_in, chosen by is_write at the channel level and by ch_out at the attribute level, and past the attribute level gives -ENOENT at level 3; any callback reached belongs to a registered device; the level only grows and never passes 3 |
| Tinyiiod.ElementInfo.constructor | projects/drivers/tinyiiod/tinyiiod_util.c:139-220 | an element_info holds the three names and the direction, at crnt_level DEVICE_EL |
| Tinyiiod.RdWrAttribute | projects/drivers/tinyiiod/tinyiiod_util.c:139-220 | the method, bumping crnt_level in place and recursing into map_in or map_out, reaches the action Resolve gives at the level Resolve gives |
| Tinyiiod.ConcatAppend | projects/drivers/tinyiiod/tinyiiod_util.c:279-284 | joining the device XML of two lists of devices is joining the two texts |
| Tinyiiod.AppendDeviceXml | projects/drivers/tinyiiod/tinyiiod_util.c:279-284 | the loop appends each registered device's XML, in registration order, after what was there |
| Tinyiiod.GetXml | projects/drivers/tinyiiod/tinyiiod_util.c:247-293 | the result is the fixed header, every device's XML in registration order, then "</context>" |
| Tinyiiod.Framed | projects/drivers/tinyiiod/tinyiiod_util.c:247-293 | text built as prefix, device XML, suffix starts with the prefix, ends with the suffix, and holds device i right after the prefix and devices before it |
| Tinyiiod.DeviceXmlInContext | projects/drivers/tinyiiod/tinyiiod_util.c:247-293 | the context XML starts with the header, ends with "</context>", and holds device i's XML after the header and the devices before it |
| Tinyiiod.Session.constructor | projects/drivers/tinyiiod/tinyiiod_util.c:349-351 | request_mask starts at 0, inside the four input channels |
| Tinyiiod.Session.OpenDev | projects/drivers/tinyiiod/tinyiiod_util.c:475-486 | -ENODEV exactly for an unsupported device, -ENOENT exactly for a supported one asked for a channel outside 0x0F, else 0 with the mask recorded as asked; an error keeps the old mask |
| Tinyiiod.Session.GetMask | projects/drivers/tinyiiod/tinyiiod_util.c:504-511 | 0 exactly for a supported device, with mask 0x0F, which covers any mask open_dev recorded; otherwise -ENODEV |

## Left out

- UART, interrupt and timer plumbing are not modelled. The UART is a stream of incoming byte chunks and a log of transmitted bytes; `mdelay` is a number of ticks.
- The busy waits on the asynchronous callback (`write_cmd`, the `>` prompt, `wait_for_response`, and `comm_read`'s wait for a chunk) are not modelled as waits. In the AT driver they become loops over the incoming chunks that end in the `Hung` outcome when the chunks run out; in comm_util they become preconditions: `comm_read_line` needs a queued chunk, and `comm_read` needs all `len` bytes already queued.
- `keep_alive` polling and the `SYS_ARCH_PROTECT` interrupt masking in comm_util.c are not modelled; the model is sequential.
- `at_init` and `at_remove` are modelled only as far as the descriptor's fields are set up (`AtDriver.AtDesc.constructor`); their allocation and cleanup chains are left out.
- The `cb_*` circular buffer behind `cb_response` is modelled as a FIFO byte sequence. Received bytes are appended to it (drivers/wifi/at_driver.c:296 and 549), and AtDriver.AtDesc.ReadUnvarnished takes the oldest ones, failing when fewer are stored, as `cb_read` does. The buffer's capacity, its overflow and a failing `cb_write` are not modelled.
- The callers' obligations that the C code does not check are preconditions: a non-NULL `param` where `at_run_cmd` dereferences it, a connection id below 4, and a command that fits the 120-byte command buffer (`at_strcat` and `at_strcatch` do not check capacity).
- Iio.ReadAllAttr requires the packed size to stay below 0x8000, because the running offset is an `int16_t`; its wrap-around is not modelled.
- CommUtil.ChunkFifo.CommReadLine: `comm_read_line` ignores its `len` argument; the model instead requires `buf` to hold what is written.
- CommUtil.FindCrlf: `strstr` runs on chunks that are not NUL-terminated; the model searches only within the chunk's `len` bytes.
- The mallocs whose results the source does not check (the `remaining` copies in comm_util.c and the word buffers in `spi_write_and_read`) always succeed in the model. Each checked malloc or realloc is a parameter saying whether it succeeds.
- `spi_eng_transfer_message`'s register reads and writes, its poll for the end sync, and spi_engine_offload.c are not modelled. The model records the words written to the command and SDO FIFOs and takes the words read from the SDI FIFO as a parameter.
- SpiEngineFifo.SpiInit: the reset pulse and the read of the engine's data width are register I/O, so the width is a parameter; `cs_delay` and `offload_configured`, which `spi_init` never sets, keep whatever value they had.
- SpiEngineCore.GenSleepNs and SpiEngineCore.SleepDivCountsPeriods require a non-zero sleep divisor, because the source divides by it.
- SpiEngineCore.WordsNumber requires a data width of at least 8, because `spi_get_words_number` divides by `data_width / 8` (drivers/axi_core/spi_engine/spi_engine_core.c:207-208); a narrower width is a division by zero in the source. SpiEngineCore.WordsNumberIsLeast, SpiEngineCore.TransferCount and SpiEngineCore.TransferEntry carry the same requirement because they use it.
- SpiEngineFifo.ClkDiv requires `2 * spi_clk_hz`, wrapped to 32 bits, to be non-zero, because `spi_init` divides `max_speed_hz` by it (drivers/axi_core/spi_engine/spi_engine_fifo.c:97-99); a zero divisor is a division by zero in the source. SpiEngineFifo.ClkDivCountsPeriods, SpiEngineFifo.NewDescExtra and SpiEngineFifo.SpiInit carry the same requirement.
- Xml.XmlDocument.Unbuffered: when the buffer `malloc` fails, `xml_create_document` returns -ENOMEM before it sets `size` and `index` (projects/drivers/util/xml.c:197-201), so both hold garbage. The model gives such a document no text and size 0.
- Xml.DeleteNode: `xml_delete_node` never frees the node structure itself. Memory release is not modelled at all, so this leak is not visible in the model.
- Xml.DeleteNode requires `Exact()`, that the ghost footprint holds the tree's own objects and nothing else; Xml.CreateNode, Xml.XmlNode.AddAttribute and Xml.XmlNode.AddNode establish and keep it for every tree built through them.
- Xml.CreateDocument and Xml.DeleteNode require fewer than 256 attributes and children per node, because their `uint8_t` loop counters would wrap and never reach a larger count.
- Iio.Registry.Register and Tinyiiod.TinyDevices.RegisterDevice require fewer than 255 registered entries; the `uint8_t` wrap of the count is not modelled.
- Iio.Registry.OpenDev and Iio.Registry.GetMask require an interface to have between 1 and 32 channels, because the mask shift is undefined in C outside that range.
- Iio.UnpackStep: the decoder moves past a header that holds a negative `int16_t` length by 4 bytes only, as read_all_attr did when it packed it. The loop of `iio_write_all_attr` (iio/iio.c:223-229) adds that negative length to its offset and then rounds up to a multiple of 4, so for such a header its stride goes backwards. That stride is not modelled.
- Xml.XmlAttribute.constructor: `malloc` leaves both string pointers of a new `xml_attribute` uninitialised. The model sets them to NULL, so after an -ENOMEM from Xml.CreateAttribute the strings not yet copied read as NULL where the C leaves garbage.
- Iio.Kept: slots that `realloc` adds without initialising them are modelled as NULL.
- Beyond what Tinyiiod.GetXml produces, the `realloc` mechanics of `get_xml` and `iio_get_xml` are left out, and so is `iio_get_xml` itself. Each device's XML is a parameter.
- `iio_close_dev`, the `iio_read`/`iio_write`/`iio_ch_*` wrappers, `iio_transfer_dev`/`read_dev`/`write_dev`, `iio_init`, `iio_remove` and `iiod_create` are thin wrappers around callbacks that are not part of this model, so they are left out.
- The show, store and exec callbacks are not modelled: the model stops at which callback or map entry a read or write reaches, with which channel information.
- Tinyiiod.RdWrAttribute returns the action a request reaches, not what the callbacks then do. The `read_all_attr` and `write_all_attr` of tinyiiod_util.c pack as those of iio.c for attributes whose length fits `int16_t` (they truncate the show result to `int16_t` and use a 0x1000-byte `local_buf`), so `Iio.ReadAllAttr` and `Iio.WriteAllReadsPointer` stand for both within that range.
- The model assumes a little-endian host for the packed length headers.
- Iio.ReadAllAttr requires that every record fits the caller's buffer; the source checks neither that buffer nor the 256-byte `local_buf`, and the show text is taken as given, so an overflow of `local_buf` is not modelled.
- Names are compared as `strcmp(a, b) == 0`; util.h, where `strequal` lives, is not part of this model.
- Tinyiiod.DevicesStructSize: pointers are taken to be 4 bytes wide.
- Iio.ReadAllAttr: the `read_all_attr` of tinyiiod_util.c stores its lengths in an `int16_t` and reads the show text into a 0x1000-byte `local_buf`; it agrees with the model only for attributes whose length fits `int16_t`, and an overflow of that buffer is not modelled either.
- AtDriver.AtDesc.Tick: a submitted read of zero bytes never completes in the model; what the UART driver does with a zero-length read is not part of this model.
- AtDriver.AtDesc.PayloadDone: each further part of a payload is read into the application buffer from index 0 (at_driver.c:287-292), where the comment at at_driver.h:161-169 says that new data is concatenated when the reported length is less than the buffer size; AtDriver.AtDesc.NextPartAtStart shows the overwrite, and a concatenating variant is not modelled. The callback's `replace_buffer` is not modelled either, so the application buffer never changes.
- AtDriver.AtDesc.AwaitDisconnect and AtDriver.AtDesc.ParseResult: run the corrected comparison and timeout test of the Findings rows at_driver.c:535 and 540-541 (AtDriver.DisconnectComparisonInverted and AtDriver.DisconnectWaitAsWritten show the code as written).
- AtDriver.AtDesc.CompleteResponse: runs the corrected code of two Findings rows, the length cut clamped at 0 (at_driver.c:110, AtMatch.Trim) and the `CLOSED` id checked against the table (at_driver.c:125-127, AtMatch.ClosedSlot), not the code as written.
- AtDriver.AtDesc.FindIpdHeader: runs the corrected backward scan that stops at index 0 (Findings row at_driver.c:183-186, AtMatch.IpdScan), not the wrapping `uint32_t` scan as written.
- AtDriver.AtDesc.LocateIpd: runs the corrected scan and rejects a header whose length `at_sscanf` did not assign (Findings rows at_driver.c:183-186 and 199-216, AtMatch.IpdMessage), where the source returns SUCCESS.
- AtDriver.AtDesc.ProcessIpdMsg: runs the corrected header search and clamps the cut at 0 (Findings rows at_driver.c:199-216 and 211, AtMatch.IpdMessage and AtMatch.IpdCut), not the code as written.
- SpiEngineCore.TransferMessage: allocates the corrected msg_cmd_len + 5 command entries (Findings row spi_engine_core.c:591, SpiEngineCore.CompiledFitsFifo), not the msg_cmd_len + 3 as written.
- SpiEngineFifo.WriteAndRead: goes through SpiEngineCore.TransferMessage, so it too uses the corrected command FIFO size of the Findings row spi_engine_core.c:591.
- Iio.RdWrAttribute: answers -ENOENT for an unknown channel name (Findings row iio.c:329-331, Iio.Route), where the source indexes the channel table with the negative error code.
- Tinyiiod.TinyDevices.RegisterDevice: allocates the whole structure (Findings row tinyiiod_util.c:227, Tinyiiod.DevicesStructSize), not `sizeof` of a pointer as written; Tinyiiod.CountOutsideAllocation shows the code as written.

## Findings

| source | as written | input that shows it | evidently intended | confidence | as-written member | corrected member |
|---|---|---|---|---|---|---|
| drivers/wifi/at_driver.c:110 | after a completed pattern, `result.len -= strlen(pattern)` uses counters that survive a cleared buffer | "\r\n" is matched, the buffer is cleared, then "OK\r\n" arrives: result.len wraps to 0xFFFFFFFE | the length drops by the pattern length, but not below 0 | not executed | AtMatch.TrimWrapsAfterClear | AtMatch.Trim |
| drivers/wifi/at_driver.c:125-127 | `get_conn_id`'s out-of-range id only prints a message, and then `connections[id]` is indexed | "CLOSED" with no digit before it gives id 0xFFFFFFFF; "4,CLOSED" gives id 4 | ids outside 0..3 leave the connections alone | not executed | AtMatch.ClosedIndexOutOfRange | AtMatch.ClosedSlot |
| drivers/wifi/at_driver.c:183-186 | `i >= 0` on a `uint32_t` is always true, so the backward scan wraps past index 0 | the buffer ",5" followed by ':': after index 0 the scan reads index 0xFFFFFFFF | the scan stops at the start of the buffer | not executed | AtMatch.IpdScanLeavesBuffer | AtMatch.IpdScan |
| drivers/wifi/at_driver.c:211 | `result.len = i - 2` with the `+` at index 0 or 1 | "+IPD,5:" at the start of the buffer: result.len becomes 0xFFFFFFFE | the cut is clamped at 0 | not executed | AtMatch.IpdCutWraps | AtMatch.IpdCut |
| drivers/wifi/at_driver.c:199-216 | `at_sscanf` can give up before it assigns the length, yet `process_ipd_msg` returns SUCCESS | in multiplexed mode, the single-connection header "+IPD,5:" is found but its length is never assigned | a header whose length was not read is rejected | not executed | AtMatch.IpdLengthUnassigned | AtMatch.IpdMessage |
| drivers/wifi/at_driver.c:535 | `resp.len >= desc->result.len` compares the lengths the wrong way round | an empty result buffer whose stale bytes spell "WIFI DISCONNECT\r\n" is accepted; "WIFI DISCONNECT\r\n\r\n" is rejected | the buffer must hold at least the whole message | not executed | AtDriver.DisconnectComparisonInverted | AtDriver.AtDesc.DisconnectReceived |
| drivers/wifi/at_driver.c:540-541 | `while (timeout--)` leaves timeout at 0xFFFFFFFF when it runs out, so `timeout == 0` does not detect the timeout | the message never arrives: the wait succeeds; it arrives at the last check: the wait fails | the command fails exactly when the message is not seen within the 11 checks | not executed | AtDriver.DisconnectWaitAsWritten | AtDriver.AtDesc.ParseResult |
| drivers/axi_core/spi_engine/spi_engine_core.c:591 | the command FIFO has msg_cmd_len + 3 entries | the four-command message of `spi_write_and_read` compiles to 9 commands | msg_cmd_len + 5 entries (header 4, end sync 1) | not executed | SpiEngineCore.CompiledOverflowsFifoAsWritten | SpiEngineCore.CompiledFitsFifo |
| iio/iio.c:223 | `bswap_constant_32((uint32_t)(buf + j))` swaps the pointer value, not the stored header | any packed buffer: the length comes from the address of the buffer | the stored big-endian header is swapped back | not executed | Iio.WriteAllReadsPointer | Iio.UnpackPack |
| iio/iio.c:329-331 | the channel id is used as an index even when the lookup returned a negative error | a channel name that is not in the device's channel list | an unknown channel yields -ENOENT | not executed | Iio.NegativeChannelIndexed | Iio.Route |
| projects/drivers/tinyiiod/tinyiiod_util.c:227 | the devices structure is allocated with `sizeof` of a pointer | any first registration: the count is written past the 4 bytes allocated | the whole structure is allocated | not executed | Tinyiiod.CountOutsideAllocation | Tinyiiod.DevicesStructSize |

Some other behaviours are surprising but are modelled as written, each with a lemma:

| behaviour | lemma |
|---|---|
| `spi_write_and_read` passes a word count where a byte count is expected, so the word count is converted to words twice | SpiEngineFifo.MessageClocksFewerWords |
| `SPI_ENGINE_CMD` leaves arg2 unmasked | SpiEngineDefs.EngineCmdFieldsOverlap |
| the clock divider of `spi_init` wraps when `max_speed_hz` is below `2 * spi_clk_hz` | SpiEngineFifo.WrappedClkDivStopsSleep |
| a failed child of `xml_create_document` is ignored | Xml.ChildFailureIgnored |
| one node can write past the end of the buffer | Xml.NodeCanOverrunBuffer |
| attribute values are not escaped | Xml.UnescapedValueIsAmbiguous |
| `multiple_conections` is overwritten after a query of AT+CIPMUX | AtDriver.AtDesc.RecordSuccess |
