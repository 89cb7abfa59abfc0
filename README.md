# USB-TMC command core, modelled in Dafny

This project models the command core of the STM32 USB-TMC firmware, `STM32/Src/usb_tmc_handler.c`. The host writes text commands over USB. The firmware answers them through a three-flag reply handshake: `pending`, "ready to reply" and "reply requested". Work that talks to the FPGA (the PL) or to its configuration flash is deferred to a single handler slot, which the main loop runs once per tick.

The model has five modules, one per file:

- `Bytes` (bytes.dfy): the byte type, the 2^32 constant, ASCII codes, `Option` and `Min`. The wrap-around modulo 2^32 is written out where the C computes in `unsigned`: in `StrUtil.ScanU`, `TmcSpec.FlashTxCommand` and `TmcSpec.PullAcceptedAsWritten`.
- `StrUtil` (str_util.dfy): the string helpers the routers call (`PREFIX_MATCHED`, `skip_through`, `scan_u`), plus a decimal encoder that round-trips with `scan_u`.
- `Commands` (commands.dfy): the command grammar.
  - One `Route*` function per C router, taking the same branches in the same order and naming the leaf it reaches as a `Cmd`.
  - `Parse` for `USB_TMC_Receive`'s top-level split.
  - `Encode` for the host's side, with the lemmas that read every command back.
- `TmcSpec` (tmc_spec.dfy): every module-level variable of the C file as one value, `Ctx`.
  - Each C function becomes a function from the old `Ctx` to the new one, except `tmc_ready_to_reply`, which is written inline.
  - Calls into the USB transport and the PL drivers are recorded in a log.
  - This module holds the properties the firmware promises.
- `TmcHandler` (tmc_handler.dfy): class `UsbTmc`, the C file as written.
  - The globals become fields; the TX buffer becomes an `array<byte>`.
  - Every C function becomes a method that updates them in place, except the one-line `tmc_ready_to_reply` (lines 43-46), which is written inline as `replyRdy := true`.
  - Each method that models a C function is proved to take `Snap()`, the fields read back as a `Ctx`, to what the matching `TmcSpec` function says.

The driver results that one call or tick depends on come in as a `Hw` value:
- the flash status byte;
- whether `pl_tx` and `pl_start_pull` succeeded;
- the pull status;
- the bytes a full-duplex transfer or a completed pull leaves in the TX buffer.

The current PL status is a parameter of `Receive`.

Command grammar as the code routes it:
- Keywords are matched exactly, byte for byte, as a prefix.
- The payload of `PL:TX` and `TEST:ECHO` is everything after the keyword, including any `#n#` the host writes.
- `PL:FLASH:WAIT#n` needs no closing `#`.
- `*IDN?` is never answered inline. It arms the IDN handler, and the reply is built on the next tick.

## Model

| member | source | states |
|---|---|---|
| StrUtil.SkipThrough | STM32/Src/usb_tmc_handler.c:161-164 | `skip_through` as its call sites use it: 0 exactly when the character is absent, otherwise the index just past its first occurrence |
| StrUtil.PrefixMatchedSplits | STM32/Src/usb_tmc_handler.c:157-158 | `PREFIX_MATCHED` holds exactly when the text is the keyword followed by the rest, the rest being what the router reads next at `pbuf + STRZ_LEN(kw)` |
| StrUtil.DigitCount | STM32/Src/usb_tmc_handler.c:161-164 | the count `scan_u` returns: every byte it covers is a digit and the byte after it, if any, is not, so the whole run of leading digits is taken |
| StrUtil.SuffixOfTail | STM32/Src/usb_tmc_handler.c:302 | text left after stepping over a prefix of text that was itself a tail is still a tail of the original |
| StrUtil.ScanU | STM32/Src/usb_tmc_handler.c:161-164 | `scan_u`: the number of leading digits (the next byte is not a digit) and their value, accumulated in a 32-bit unsigned |
| StrUtil.ScanDecimal | STM32/Src/usb_tmc_handler.c:163-164 | `scan_u` reads back exactly the digits of any 32-bit n, and its value, when a non-digit or the end follows |
| Commands.ArgBlockOfBlock | STM32/Src/usb_tmc_handler.c:161-166 | a keyword followed by `#n#` and a payload yields the argument n and exactly that payload |
| Commands.ArgBlock | STM32/Src/usb_tmc_handler.c:161-164 | the `skip_through('#')`, `scan_u`, closing-`#` chain: when it yields an argument, its value is below 2^32 and the payload is a tail of the text; `ArgBlockOfBlock` shows it yields exactly n and the payload for `#n#` text |
| Commands.DigitsThenHash | STM32/Src/usb_tmc_handler.c:163-164 | the part of that chain after the first `#`: digits then `#` give a value below 2^32 and the bytes after the `#`, which are a tail of the text |
| Commands.ArgOnly | STM32/Src/usb_tmc_handler.c:169-171 | the `skip_through('#')`, `scan_u` chain of FLASH:WAIT and PL:ACTIVE (281): when it yields a value, it is below 2^32; `ArgOnlyOfBlock` and `ArgOnlyOfDecimal` show it reads n back |
| Commands.Digits | STM32/Src/usb_tmc_handler.c:171 | `scan_u` succeeding, with at least one digit: a value below 2^32 |
| Commands.Demote | STM32/Src/usb_tmc_handler.c:151-155 | the PL-active guard of the flash router: the result is never a flash command, a flash command becomes unhandled and every other command passes unchanged |
| Commands.ArgOnlyOfBlock | STM32/Src/usb_tmc_handler.c:169-172 | a keyword followed by `#n#` yields the argument n |
| Commands.ArgOnlyOfDecimal | STM32/Src/usb_tmc_handler.c:169-172 | a keyword followed by `#n` alone also yields n: no closing `#` is required |
| Commands.ParseEncode | STM32/Src/usb_tmc_handler.c:345-365 | every command the host can write is routed back to exactly that command, through the `*`, `PL:`, `PL:FLASH:` and `TEST:` routers, except that a flash command becomes unhandled while PL is active |
| Commands.ParseFlashWrite | STM32/Src/usb_tmc_handler.c:157-160 | `FLASH:WR<data>` reaches the write leaf with exactly the bytes after `WR` |
| Commands.ParseFlash | STM32/Src/usb_tmc_handler.c:301-303 | a `PL:FLASH:` message reaches the flash sub-router with the text after `FLASH:` |
| Commands.ParsePlPull | STM32/Src/usb_tmc_handler.c:292-298 | `PL:PULL#w#<data>` is routed to the pull leaf with w words and exactly that data |
| Commands.ParsePlTransmit | STM32/Src/usb_tmc_handler.c:287-290 | `PL:TX<data>` is routed to the PL transmit leaf with exactly the bytes after `TX` |
| Commands.ParseActiveQuery | STM32/Src/usb_tmc_handler.c:276-280 | `PL:ACTIVE?` is routed to the status report |
| Commands.ParseActiveSet | STM32/Src/usb_tmc_handler.c:281-284 | `PL:ACTIVE#n#` switches the PL on exactly when n is not 0 |
| Commands.ParseFlashRead | STM32/Src/usb_tmc_handler.c:161-167 | `FLASH:RD#n#<data>` reaches the read leaf with n and the data |
| Commands.ParseFlashWait | STM32/Src/usb_tmc_handler.c:169-176 | `FLASH:WAIT#n#` reaches the wait leaf with bound n |
| Commands.FlashWaitNeedsNoClosingHash | STM32/Src/usb_tmc_handler.c:169-176 | `PL:FLASH:WAIT#n`, with no closing `#`, is routed to the wait leaf with bound n |
| Commands.ParseFlashProgram | STM32/Src/usb_tmc_handler.c:177-183 | `FLASH:PROG#n#<data>` reaches the program leaf with bound n and the page |
| Commands.ParseEcho | STM32/Src/usb_tmc_handler.c:318-323 | `:TEST:ECHO<data>` is routed to the echo leaf with exactly the bytes after `ECHO` |
| Commands.ParseIdn | STM32/Src/usb_tmc_handler.c:354-358 | `*IDN?` is routed to the IDN request |
| Commands.RoutePlRefusesFlash | STM32/Src/usb_tmc_handler.c:151-155 | with PL active, the PL router routes as with PL inactive except that flash leaves become unhandled |
| Commands.FlashRefusedWhilePlActive | STM32/Src/usb_tmc_handler.c:151-155 | with PL active, every message routes as it would with PL inactive, except that flash commands are refused, and no flash leaf is ever reached |
| Commands.UnknownCommandUnhandled | STM32/Src/usb_tmc_handler.c:340-341 | the message `:FOO:BAR`, which is neither `PL:` nor `TEST:`, reaches no leaf |
| Commands.Parse | STM32/Src/usb_tmc_handler.c:345-365 | an empty message routes nowhere; `*IDN?` is reached exactly through the leading `*` (354-357); a flash leaf is reached only while PL is inactive |
| Commands.RouteStd | STM32/Src/usb_tmc_handler.c:82-90 | a standard command is either `IDN?`, exactly when it starts with that keyword, or unhandled |
| Commands.RouteDev | STM32/Src/usb_tmc_handler.c:329-342 | a device command never reaches the IDN request, and reaches a flash leaf only while PL is inactive |
| Commands.RoutePl | STM32/Src/usb_tmc_handler.c:273-307 | a `PL:` command never reaches the IDN or echo leaves, and reaches a flash leaf only while PL is inactive |
| Commands.RouteFlash | STM32/Src/usb_tmc_handler.c:149-187 | the flash sub-router reaches only a flash leaf or nothing, and nothing at all while PL is active (151-155) |
| Commands.RouteTest | STM32/Src/usb_tmc_handler.c:318-326 | a `TEST:` command reaches the echo leaf or nothing |
| Commands.RouteFlashFromText | STM32/Src/usb_tmc_handler.c:157-183 | each flash leaf gets an argument below 2^32 and, as its data, a tail of the text |
| Commands.RoutePlFromText | STM32/Src/usb_tmc_handler.c:276-303 | each `PL:` leaf gets an argument below 2^32 and, as its data, a tail of the text |
| Commands.RouteTestFromText | STM32/Src/usb_tmc_handler.c:320-321 | the echo data is a tail of the text |
| Commands.RouteDevFromText | STM32/Src/usb_tmc_handler.c:332-338 | each device leaf gets an argument below 2^32 and, as its data, a tail of the text after `PL:` or `TEST:` |
| Commands.ParseFromText | STM32/Src/usb_tmc_handler.c:345-365 | every message routes nowhere, or to a command the host can write whose arguments are below 2^32 and whose data is the tail of the message |
| Commands.ParseCanonical | STM32/Src/usb_tmc_handler.c:345-365 | whatever a message routes to, its canonical encoding routes to the same command, so routing followed by encoding is a left inverse on every routed message |
| TmcSpec.Splice | STM32/Src/usb_tmc_handler.c:57 | memcpy into the TX buffer: the copied bytes land at the offset and every other byte is unchanged |
| TmcSpec.Transfer | STM32/Src/usb_tmc_handler.c:100 | a full-duplex transfer replaces exactly the transferred region and leaves the rest of the buffer alone |
| TmcSpec.Init | STM32/Src/usb_tmc_handler.c:29-41 | the zero-initialised globals: nothing pending, no handler, every counter 0, and the buffer invariant holds |
| TmcSpec.ScheduleReply | STM32/Src/usb_tmc_handler.c:48-53 | a reply of the given length is pending and ready; every other field is unchanged |
| TmcSpec.ScheduleReplyBuff | STM32/Src/usb_tmc_handler.c:55-59 | the data lands at the start of the buffer and becomes the pending, ready reply; the rest of the buffer and every other field is unchanged |
| TmcSpec.ScheduleHandler | STM32/Src/usb_tmc_handler.c:61-65 | the handler is armed and a transaction is pending; every other field is unchanged |
| TmcSpec.CountOverrun | STM32/Src/usb_tmc_handler.c:347-349 | `tmc_overrun` grows by one exactly when a transaction is pending; nothing else changes |
| TmcSpec.Ignore | STM32/Src/usb_tmc_handler.c:186 | `++tmc_wr_ignored`: the ignored count grows by one and nothing else changes |
| TmcSpec.StatusDigit | STM32/Src/usb_tmc_handler.c:192 | `'0' + pl_status` as a byte: for a status from 0 to 9 it is the ASCII digit whose value is that status |
| TmcSpec.Busy | STM32/Src/usb_tmc_handler.c:117 | `status & FLASH_STATUS_BUSY` is set exactly when the status byte is odd, that is its bit 0 is set |
| TmcSpec.PullFits | STM32/Src/usb_tmc_handler.c:260-261 | the intended capacity check: when it passes, the request, the alignment pad `tmc_pl_pull_handler` will choose for any buffer address, and the words fit the buffer |
| TmcSpec.PullAcceptedAsWritten | STM32/Src/usb_tmc_handler.c:259-261 | the 32-bit check as written never refuses a pull that really fits a buffer below 2^32; its false acceptances are the Finding below |
| TmcSpec.PullCheckWrapsAround | STM32/Src/usb_tmc_handler.c:259-261 | the 32-bit check accepts a 1-byte request for 1073741823 words although the region does not fit any buffer |
| TmcSpec.PullCheckAgreesWithoutWrap | STM32/Src/usb_tmc_handler.c:259-261 | where the sum does not wrap, the check as written accepts exactly what fits |
| TmcSpec.ReportStatus | STM32/Src/usb_tmc_handler.c:190-194 | `PL:ACTIVE?` replies at once with one byte, `'0' + pl_status`, and arms no handler; the log, the buffer after that byte and every field but the reply flags and length are unchanged |
| TmcSpec.PlTxCommand | STM32/Src/usb_tmc_handler.c:205-210 | the payload is staged at the start of the buffer, its length is the reply length, and the PL TX handler is armed |
| TmcSpec.PullCommand | STM32/Src/usb_tmc_handler.c:257-270 | a pull is refused, changing only the ignored counter, exactly when the request, 3 pad bytes and 4 × words bytes do not fit the buffer; otherwise the request is staged, its length and 4 × words bytes recorded, and the pull handler armed |
| TmcSpec.FlashTxCommand | STM32/Src/usb_tmc_handler.c:126-137 | a read whose 32-bit total exceeds the buffer is only counted as ignored; otherwise the data is staged, the transfer size is len + rd_len mod 2^32, and the reply is the whole transfer only for a read |
| TmcSpec.FlashProgCommand | STM32/Src/usb_tmc_handler.c:140-146 | the page is staged, and its size and the wait bound are recorded for the program handler |
| TmcSpec.EchoCommand | STM32/Src/usb_tmc_handler.c:310-315 | the reply is the payload clipped to the buffer capacity, ready at once; the log, the buffer after the reply and every field but the reply flags and length are unchanged |
| TmcSpec.Exec | STM32/Src/usb_tmc_handler.c:82-342 | every leaf keeps the buffer invariant and leaves the host-side fields alone; an unhandled command only increments `tmc_wr_ignored` |
| TmcSpec.Receive | STM32/Src/usb_tmc_handler.c:345-365 | `tmc_overrun` grows by one exactly when a transaction is pending; an empty message only counts as ignored (and as an overrun) and arms nothing |
| TmcSpec.FlashIgnoredWhilePlActive | STM32/Src/usb_tmc_handler.c:151-155 | with PL active, any flash command only counts as ignored (and as an overrun when pending): no buffer, handler or reply change |
| TmcSpec.ReceiveEncoded | STM32/Src/usb_tmc_handler.c:345-365 | receiving an encoded command runs exactly that command's leaf |
| TmcSpec.ActiveSetLeavesTransaction | STM32/Src/usb_tmc_handler.c:281-284 | `PL:ACTIVE#n#` only calls `pl_enable`: it neither sets `tmc_pending` nor arms a handler |
| TmcSpec.ActiveQueryAnswersStatus | STM32/Src/usb_tmc_handler.c:276-280 | `PL:ACTIVE?` makes a one-byte reply, the status digit, ready at once |
| TmcSpec.Reply | STM32/Src/usb_tmc_handler.c:368-380 | sends min(reply length, host maximum) with the stored tag; `tmc_rd_truncated` grows exactly when clipping happens; all three flags are cleared and the reply count grows by one; nothing else changes |
| TmcSpec.RequestResponse | STM32/Src/usb_tmc_handler.c:383-393 | with nothing pending, a zero-length reply goes out at once with the tag and `tmc_rd_empty` grows by one, and nothing else changes; otherwise tag, maximum and the request flag are recorded and nothing else changes |
| TmcSpec.Align | STM32/Src/usb_tmc_handler.c:240-242 | the pad is below 4 and makes base + offset + pad a multiple of 4 |
| TmcSpec.IdnRun | STM32/Src/usb_tmc_handler.c:68-73 | the IDN reply is the identification string, staged and ready, and the string counts as built |
| TmcSpec.FlashTxRun | STM32/Src/usb_tmc_handler.c:98-102 | the staged bytes go to the flash and the reply becomes ready with its length unchanged |
| TmcSpec.FlashWaitRun | STM32/Src/usb_tmc_handler.c:105-109 | polls the flash with the stored bound and replies with that one status byte |
| TmcSpec.FlashProgRun | STM32/Src/usb_tmc_handler.c:112-123 | always replies with exactly one byte, the status read before the operation; write-enable (0x06) and the page are sent exactly when the busy bit is clear |
| TmcSpec.PlTxRun | STM32/Src/usb_tmc_handler.c:197-202 | the staged bytes go to the PL; a failed transfer replies with length 0 |
| TmcSpec.PullDone | STM32/Src/usb_tmc_handler.c:216-223 | a failed pull is stopped and replies with length 0; a successful one keeps its length; either way the reply is ready |
| TmcSpec.PullOffset | STM32/Src/usb_tmc_handler.c:240-244 | the pull starts between 0 and 3 bytes past the staged request, on a 4-byte boundary, and request, pad and words all fit the buffer |
| TmcSpec.PullRun | STM32/Src/usb_tmc_handler.c:237-254 | the exact driver calls on each path: a failed start makes only the start call and replies ready with length 0; a failed request send then stops the pull and replies with length 0; when both succeed, the request bytes are sent, the completion handler is armed and the reply will cover request, pad and data |
| TmcSpec.PullCompleteRun | STM32/Src/usb_tmc_handler.c:226-234 | re-arms itself exactly while the pull is busy; a ready pull leaves the words in the aligned region and keeps the reply length; a failed one stops the pull and replies with length 0 |
| TmcSpec.PullLanded | STM32/Src/usb_tmc_handler.c:244 | the completed pull's words occupy the aligned region and nothing else in the state changes |
| TmcSpec.RunHandler | STM32/Src/usb_tmc_handler.c:400-403 | after any handler, the slot is empty or holds the pull completion handler, and that happens exactly after a successful pull start or a busy completion poll; no handler sends a USB reply itself |
| TmcSpec.RunPending | STM32/Src/usb_tmc_handler.c:399-403 | the slot is cleared before its handler runs, so afterwards it is empty or holds the pull completion handler, and the latter exactly after a successful pull start or a busy completion poll; the host-side fields are unchanged; the calls made only extend the log and none of them is a USB reply |
| TmcSpec.Process | STM32/Src/usb_tmc_handler.c:397-406 | a reply goes out in the tick exactly when, after the handler, it is both ready and requested; the reply count grows by exactly that; otherwise the tick changes only what the handler changed |
| TmcSpec.EchoTransaction | STM32/Src/usb_tmc_handler.c:310-315 | TEST:ECHO, a reply request and one tick deliver the payload, clipped to the buffer and to the host maximum, under the host's tag |
| TmcSpec.IdnTransaction | STM32/Src/usb_tmc_handler.c:84-86 | `*IDN?` only arms the handler; a reply request and one tick then deliver the identification string |
| TmcSpec.PullRequestAccepted | STM32/Src/usb_tmc_handler.c:257-270 | `PL:PULL#w#<data>` is accepted exactly when data, worst-case pad and 4w bytes fit; a refused pull changes neither buffer nor handler |
| TmcSpec.PullSequence | STM32/Src/usb_tmc_handler.c:237-254 | an accepted pull run over two ticks starts on a 4-byte boundary and ends ready, with the reply covering request, pad and data inside the buffer |
| TmcHandler.UsbTmc.constructor | STM32/Src/usb_tmc_handler.c:29-41 | all globals start zeroed, the slot is empty and the buffer invariant holds; the TX buffer is freshly allocated, so the caller may run every method on the new object |
| TmcHandler.UsbTmc.Stage | STM32/Src/usb_tmc_handler.c:57 | the memcpy into the TX array: afterwards the array holds exactly `TmcSpec.Splice` of its old contents |
| TmcHandler.UsbTmc.HwTransfer | STM32/Src/usb_tmc_handler.c:249 | a full-duplex transfer over the array, as `pl_flash_tx` (100, 119), `pl_tx` (199, 249) and a landed pull (244) do: afterwards the array is `TmcSpec.Transfer` of its old contents over [lo, hi) |
| TmcHandler.UsbTmc.ScheduleReply | STM32/Src/usb_tmc_handler.c:48-53 | `tmc_schedule_reply` in place, as `TmcSpec.ScheduleReply` |
| TmcHandler.UsbTmc.ScheduleReplyBuff | STM32/Src/usb_tmc_handler.c:55-59 | `tmc_schedule_reply_buff` in place, as `TmcSpec.ScheduleReplyBuff` |
| TmcHandler.UsbTmc.ScheduleHandler | STM32/Src/usb_tmc_handler.c:61-65 | `tmc_schedule_handler` in place, as `TmcSpec.ScheduleHandler` |
| TmcHandler.UsbTmc.Ignore | STM32/Src/usb_tmc_handler.c:186 | `++tmc_wr_ignored` in place, as `TmcSpec.Ignore` |
| TmcHandler.UsbTmc.Receive | STM32/Src/usb_tmc_handler.c:345-365 | `USB_TMC_Receive` in place: the fields and buffer end as `TmcSpec.Receive` says |
| TmcHandler.UsbTmc.RxStd | STM32/Src/usb_tmc_handler.c:82-90 | `tmc_rx_std_command` in place, following the standard-command route |
| TmcHandler.UsbTmc.RxDev | STM32/Src/usb_tmc_handler.c:329-342 | `tmc_rx_dev_command` in place, following the device-command route |
| TmcHandler.UsbTmc.RxPlSub | STM32/Src/usb_tmc_handler.c:273-307 | `tmc_rx_pl_sub_command` in place, following the `PL:` route |
| TmcHandler.UsbTmc.RxPlFlashSub | STM32/Src/usb_tmc_handler.c:149-187 | `tmc_rx_pl_flash_sub_command` in place, following the `PL:FLASH:` route |
| TmcHandler.UsbTmc.RxTestSub | STM32/Src/usb_tmc_handler.c:318-326 | `tmc_rx_test_sub_command` in place, following the `TEST:` route |
| TmcHandler.UsbTmc.ReportStatus | STM32/Src/usb_tmc_handler.c:190-194 | `tmc_pl_report_status` in place |
| TmcHandler.UsbTmc.PlTxRequest | STM32/Src/usb_tmc_handler.c:205-210 | `tmc_pl_tx` in place |
| TmcHandler.UsbTmc.PullRequest | STM32/Src/usb_tmc_handler.c:257-270 | `tmc_pl_pull` in place, with the exact capacity check |
| TmcHandler.UsbTmc.FlashTxRequest | STM32/Src/usb_tmc_handler.c:126-137 | `tmc_pl_flash_tx` in place, with its 32-bit sum |
| TmcHandler.UsbTmc.FlashWriteRequest | STM32/Src/usb_tmc_handler.c:157-160 | the `FLASH:WR` leaf: a transfer without read-back |
| TmcHandler.UsbTmc.FlashReadRequest | STM32/Src/usb_tmc_handler.c:161-167 | the `FLASH:RD` leaf: a transfer with n bytes read back |
| TmcHandler.UsbTmc.FlashWaitRequest | STM32/Src/usb_tmc_handler.c:169-176 | the `FLASH:WAIT` leaf: the bound is stored and the wait handler armed |
| TmcHandler.UsbTmc.FlashProgRequest | STM32/Src/usb_tmc_handler.c:140-146 | `tmc_pl_flash_prog` in place |
| TmcHandler.UsbTmc.EchoRequest | STM32/Src/usb_tmc_handler.c:310-315 | `tmc_rx_test_echo` in place, clipping to the capacity |
| TmcHandler.UsbTmc.Reply | STM32/Src/usb_tmc_handler.c:368-380 | `tmc_reply` in place |
| TmcHandler.UsbTmc.EndTransaction | STM32/Src/usb_tmc_handler.c:375-377 | the three flags `tmc_reply_rdy`, `tmc_reply_req` and `tmc_pending` are cleared and nothing else changes |
| TmcHandler.UsbTmc.RequestResponse | STM32/Src/usb_tmc_handler.c:383-393 | `USB_TMC_RequestResponse` in place |
| TmcHandler.UsbTmc.IdnHandler | STM32/Src/usb_tmc_handler.c:68-73 | `tmc_idn_handler` in place |
| TmcHandler.UsbTmc.FlashTxHandler | STM32/Src/usb_tmc_handler.c:98-102 | `tmc_pl_flash_tx_handler` in place |
| TmcHandler.UsbTmc.FlashWaitHandler | STM32/Src/usb_tmc_handler.c:105-109 | `tmc_pl_flash_wait_handler` in place |
| TmcHandler.UsbTmc.FlashProgHandler | STM32/Src/usb_tmc_handler.c:112-123 | `tmc_pl_flash_prog_handler` in place |
| TmcHandler.UsbTmc.PlTxHandler | STM32/Src/usb_tmc_handler.c:197-202 | `tmc_pl_tx_handler` in place |
| TmcHandler.UsbTmc.PullDone | STM32/Src/usb_tmc_handler.c:216-223 | `pl_pull_done` in place |
| TmcHandler.UsbTmc.PullHandler | STM32/Src/usb_tmc_handler.c:237-254 | `tmc_pl_pull_handler` in place, computing the pad from the buffer address |
| TmcHandler.UsbTmc.StartPull | STM32/Src/usb_tmc_handler.c:240-244 | the reply length becomes the aligned offset plus the data length, and the pull start at that offset is logged; nothing else changes |
| TmcHandler.UsbTmc.SendPullRequest | STM32/Src/usb_tmc_handler.c:249 | the staged request bytes are logged as sent and the transfer replaces them with what came back; nothing else changes |
| TmcHandler.UsbTmc.PullCompleteHandler | STM32/Src/usb_tmc_handler.c:226-234 | `tmc_pl_pull_complete_handler` in place |
| TmcHandler.UsbTmc.LandPull | STM32/Src/usb_tmc_handler.c:244 | the pulled words land in the aligned region `[offset, offset + data length)` and nothing else changes |
| TmcHandler.UsbTmc.RunHandler | STM32/Src/usb_tmc_handler.c:402 | `h()`: the handler taken from the slot is run |
| TmcHandler.UsbTmc.TakeHandler | STM32/Src/usb_tmc_handler.c:401 | `tmc_handler = 0`: the slot is emptied and nothing else changes |
| TmcHandler.UsbTmc.Process | STM32/Src/usb_tmc_handler.c:397-406 | `USB_TMC_Process` in place: the fields and buffer end as `TmcSpec.Process` says |

Each `TmcHandler.UsbTmc` method that models a C function ensures `Snap() == F(old(Snap()), ...)`, where F is the `TmcSpec` function named in its contract. The helper methods that model part of a C function state the part they change: `Stage` and `HwTransfer` the array, `EndTransaction`, `TakeHandler`, `StartPull`, `SendPullRequest` and `LandPull` a record update of the old state. The properties in the `TmcSpec` rows therefore hold of the in-place code. The constructor returns a fresh buffer, so callers may run these methods on a new object. The class also keeps the buffer invariant `Valid()`: the buffer has its capacity, and the reply, flash and pull lengths stay inside it.

## Left out

- `USB_TMC_init` (lines 413-417) only patches two USB device-descriptor bytes. It is transport set-up, not part of the command core.
- `tmc_ready_to_reply` (lines 43-46) has no member of its own: its one assignment `tmc_reply_rdy = true` is written inline in `TmcSpec` and in the `TmcHandler.UsbTmc` handlers that call it.
- The contents of `idn_init` (lines 18-24): hex formatting of the chip's unique ID through `u32_to_hex`, which is not part of this model. The identification string is a configuration constant of the model; only its build-once flag is kept.
- The PL and flash drivers (`pl_tx`, `pl_start_pull`, `pl_stop_pull`, `pl_get_pull_status`, `pl_enable`, `pl_flash_tx`, `pl_flash_wait`, `pl_status`) are not part of this model. Their calls are logged as events and their results are inputs.
- A full-duplex transfer is modelled as replacing exactly the transferred region with bytes supplied by the caller. A completed pull is modelled as writing the words only when the completion handler sees it finished. Writes during the DMA itself are not modelled.
- `USB_TMC_Reply` and `USB_TMC_TxDataBuffer` are transport primitives. The first is a logged event; the second is the class's buffer.
- `usb_tmc_commands.h`, `pl.h`, `pl_flash.h`, `str_util.h` and `usb_tmc.h` are not part of this model. The model therefore assumes:
  - the keyword spellings (`IDN?`, `PL`, `TEST`, `ACTIVE`, `TX`, `PULL`, `FLASH`, `WR`, `RD`, `WAIT`, `PROG`, `ECHO`);
  - `pl_inactive` is 0 and `FLASH_STATUS_BUSY` is bit 0;
  - `PREFIX_MATCHED` is an exact, case-sensitive prefix test;
  - `skip_through` and `scan_u` behave as their call sites rely on;
  - the value `scan_u` returns wraps modulo 2^32, as an `unsigned` accumulator would.
  The buffer capacity and the buffer address are model parameters, with 4 ≤ capacity < 2^32.
  The identification string is a model parameter no longer than the capacity (`ValidConfig`): the `memcpy` of `STRZ_LEN(idn_buff)` bytes at line 72 checks no length, and the sizes of `idn_buff` and of the TX buffer are not part of this model.
- The `memcpy` calls in `tmc_pl_tx`, `tmc_pl_flash_tx` (for FLASH:WR, and for FLASH:RD whenever its size check passes) and `tmc_pl_flash_prog` check no length. The model makes "the payload fits the buffer" a precondition there (`Cmd.StagesWithin`). What the C does with a longer payload, a buffer overrun, is not modelled.
- The diagnostic counters, the reply count and the stored lengths are unbounded naturals. Their 32-bit wrap-around after 2^32 events is not modelled.
- The interleaving of the interrupt-context entry points (`USB_TMC_Receive`, `USB_TMC_RequestResponse`) with `USB_TMC_Process` is not modelled. The three are sequential methods called in any order. The single-writer field discipline the firmware relies on is not modelled.
- Memory addresses are not modelled: the buffer address is a natural number used only for the alignment pad, and payloads are byte sequences.
- TmcSpec.Receive: requires `Parse(msg, pl).StagesWithin(cap)`, the payload-fits condition above; so do TmcSpec.Exec, TmcHandler.UsbTmc.Receive, TmcHandler.UsbTmc.RxDev, TmcHandler.UsbTmc.RxPlSub and TmcHandler.UsbTmc.RxPlFlashSub, because the overrun those `memcpy` calls would cause is not modelled.
- TmcSpec.PullCommand: models the capacity check as it is evidently intended, without the 32-bit overflow of `pull_len *= 4` and of the sum at line 261 (see Findings).
- TmcHandler.UsbTmc.PullRequest: models the capacity check as it is evidently intended, without the 32-bit overflow of `pull_len *= 4` and of the sum at line 261 (see Findings).

## Findings

| source | as written | input that shows it | evidently intended | confidence | as-written member | corrected member |
|---|---|---|---|---|---|---|
| STM32/Src/usb_tmc_handler.c:259-261 | `pull_len *= 4` and `len + 3 + pull_len` are computed in 32-bit `unsigned`, so the capacity check can wrap around and pass | `PL:PULL#1073741823#` followed by one payload byte: 1 + 3 + 4 × 1073741823 = 2^32 wraps to 0, which passes; the pull handler then starts a pull of 4294967292 bytes into a buffer of `USB_TMC_TX_MAX_DATA_SZ` bytes | refuse the pull unless len + 3 + 4 × words really fits in `USB_TMC_TX_MAX_DATA_SZ` | high (not executed) | TmcSpec.PullCheckWrapsAround | TmcSpec.PullCommand |
