/** The transaction context of usb_tmc_handler.c as a value, and the three entry
    points (USB_TMC_Receive, USB_TMC_RequestResponse, USB_TMC_Process) as
    functions from the old context to the new one. Class UsbTmc in module
    TmcHandler is proved to follow these functions; the lemmas below state what
    the firmware promises about them. */
module TmcSpec {
  import opened Bytes
  import opened StrUtil
  import opened Commands

  /** The single deferred-handler slot `tmc_handler`. */
  datatype Handler =
    | NoHandler       // null
    | Idn             // tmc_idn_handler
    | FlashTx         // tmc_pl_flash_tx_handler
    | FlashWait       // tmc_pl_flash_wait_handler
    | FlashProg       // tmc_pl_flash_prog_handler
    | PlTx            // tmc_pl_tx_handler
    | PlPull          // tmc_pl_pull_handler
    | PlPullComplete  // tmc_pl_pull_complete_handler

  /** pl_get_pull_status: busy, ready, or any other (failed) status. */
  datatype PullStatus = PullBusy | PullReady | PullFailed

  /** The calls the core makes into the USB transport and the PL drivers, in order. */
  datatype Event =
    | UsbReply(len: nat, tag: byte)         // USB_TMC_Reply
    | PlEnableCall(on: bool)                // pl_enable
    | PlTxCall(data: seq<byte>)             // pl_tx
    | FlashTxCall(data: seq<byte>)          // pl_flash_tx
    | FlashWaitCall(bound: nat)             // pl_flash_wait
    | StartPullCall(offset: nat, len: nat)  // pl_start_pull, at an offset into the TX buffer
    | StopPullCall                          // pl_stop_pull

  /** What the drivers answer during one main-loop tick: the flash status byte,
      whether pl_tx and pl_start_pull succeeded, the pull status, and the bytes a
      full-duplex transfer or a completed pull leaves in the TX buffer. */
  datatype Hw = Hw(flashStatus: byte, txOk: bool, startOk: bool, pullStatus: PullStatus, rx: seq<byte>)

  /** The TX buffer's capacity (USB_TMC_TX_MAX_DATA_SZ), its address, and the
      identification string idn_buff as it reads once initialised. */
  datatype Config = Config(cap: nat, base: nat, idn: seq<byte>)

  predicate ValidConfig(c: Config) {
    4 <= c.cap < U32 && |c.idn| <= c.cap
  }

  /** The module-level state of usb_tmc_handler.c; `tx` is the shared TX buffer
      and `log` the calls made so far. */
  datatype Ctx = Ctx(
    pending: bool, replyRdy: bool, replyReq: bool,
    replyLen: nat, replyMaxLen: nat, replyTag: byte, replyCnt: nat,
    handler: Handler,
    wrIgnored: nat, rdEmpty: nat, rdTruncated: nat, overrun: nat,
    flashTxSz: nat, flashWait: nat, pullDataLen: nat, pullReqLen: nat,
    idnReady: bool,
    tx: seq<byte>,
    log: seq<Event>)

  /** FLASH_STATUS_BUSY, the write-in-progress bit of the flash status register. */
  const FlashStatusBusy: bv8 := 0x01
  /** The flash write-enable opcode sent before programming. */
  const WriteEnable: byte := 0x06

  predicate Busy(status: byte)
    ensures Busy(status) <==> status as int % 2 == 1
  {
    (status as bv8) & FlashStatusBusy != 0
  }

  /** The state before any message: nothing pending, no handler, all counters 0. */
  function Init(c: Config): (t: Ctx)
    requires ValidConfig(c)
    ensures Inv(c, t) && !t.pending && !t.replyRdy && !t.replyReq && t.handler == NoHandler
    ensures t.wrIgnored == 0 && t.rdEmpty == 0 && t.rdTruncated == 0 && t.overrun == 0 && t.replyCnt == 0
    ensures !t.idnReady && t.log == []
  {
    Ctx(false, false, false, 0, 0, 0, 0, NoHandler, 0, 0, 0, 0, 0, 0, 0, 0, false,
        seq(c.cap, _ => 0), [])
  }

  /** What every reachable state satisfies: the buffer has its capacity and every
      length the handlers will use stays inside it. */
  predicate Inv(c: Config, t: Ctx) {
    |t.tx| == c.cap && t.replyLen <= c.cap && t.flashTxSz <= c.cap
    && t.pullReqLen + 3 + t.pullDataLen <= c.cap
  }

  // ---------------------------------------------------------------------------
  // Buffer primitives

  /** memcpy(buf + off, d, |d|). */
  function Splice(buf: seq<byte>, off: nat, d: seq<byte>): (r: seq<byte>)
    requires off + |d| <= |buf|
    ensures |r| == |buf| && r[off..off + |d|] == d
    ensures forall i | 0 <= i < |buf| && !(off <= i < off + |d|) :: r[i] == buf[i]
  {
    buf[..off] + d + buf[off + |d|..]
  }

  /** A hardware transfer over buf[lo..hi]: those bytes become what the hardware
      left there (rx), the rest of the buffer is untouched. */
  function Transfer(buf: seq<byte>, rx: seq<byte>, lo: nat, hi: nat): (r: seq<byte>)
    requires lo <= hi <= |buf| == |rx|
    ensures |r| == |buf| && r[lo..hi] == rx[lo..hi]
    ensures forall i | 0 <= i < |buf| && !(lo <= i < hi) :: r[i] == buf[i]
  {
    buf[..lo] + rx[lo..hi] + buf[hi..]
  }

  // ---------------------------------------------------------------------------
  // Scheduling helpers (tmc_ready_to_reply, tmc_schedule_reply, ...)

  /** tmc_schedule_reply: a reply of len bytes, pending and ready; nothing else changes. */
  function ScheduleReply(t: Ctx, len: nat): (r: Ctx)
    ensures r.pending && r.replyRdy && r.replyLen == len
    ensures r.(pending := t.pending, replyRdy := t.replyRdy, replyLen := t.replyLen) == t
  {
    t.(pending := true, replyLen := len, replyRdy := true)
  }

  /** tmc_schedule_reply_buff: d is copied to the start of the buffer and becomes
      the reply; the rest of the buffer and of the state is unchanged. */
  function ScheduleReplyBuff(t: Ctx, d: seq<byte>): (r: Ctx)
    requires |d| <= |t.tx|
    ensures r.pending && r.replyRdy && r.replyLen == |d|
    ensures |r.tx| == |t.tx| && r.tx[..|d|] == d && r.tx[|d|..] == t.tx[|d|..]
    ensures r.(pending := t.pending, replyRdy := t.replyRdy, replyLen := t.replyLen, tx := t.tx) == t
  {
    ScheduleReply(t.(tx := Splice(t.tx, 0, d)), |d|)
  }

  /** tmc_schedule_handler: h is armed and a transaction is pending; nothing else changes. */
  function ScheduleHandler(t: Ctx, h: Handler): (r: Ctx)
    ensures r.pending && r.handler == h
    ensures r.(pending := t.pending, handler := t.handler) == t
  {
    t.(pending := true, handler := h)
  }

  /** ++tmc_wr_ignored: the command is counted as not handled; nothing else changes. */
  function Ignore(t: Ctx): (r: Ctx)
    ensures r.wrIgnored == t.wrIgnored + 1 && r.(wrIgnored := t.wrIgnored) == t
  {
    t.(wrIgnored := t.wrIgnored + 1)
  }

  // ---------------------------------------------------------------------------
  // Leaf commands, run in interrupt context

  /** '0' + pl_status, as a uint8_t. */
  function StatusDigit(pl: nat): (r: byte)
    ensures pl < 10 ==> IsDigit(r) && DigitValue(r) == pl
  {
    ((B('0') as int + pl) % 256) as byte
  }

  /** The capacity check PL:PULL should make: the echoed command, the worst-case
      alignment pad and the pulled words fit the buffer. */
  predicate PullFits(len: nat, words: nat, cap: nat)
    ensures PullFits(len, words, cap) ==> forall base :: len + Align(base, len) + 4 * words <= cap
  {
    len + 3 + 4 * words <= cap
  }

  /** The capacity check of tmc_pl_pull as written, in 32-bit unsigned arithmetic. */
  predicate PullAcceptedAsWritten(len: nat, words: nat, cap: nat)
    ensures PullFits(len, words, cap) && cap < U32 ==> PullAcceptedAsWritten(len, words, cap)
  {
    (len + 3 + (words * 4) % U32) % U32 <= cap
  }

  /** The 32-bit check lets a pull through whose region is four gigabytes long:
      1 + 3 + 4 * 1073741823 wraps around to 0. */
  lemma PullCheckWrapsAround(cap: nat)
    ensures PullAcceptedAsWritten(1, 1073741823, cap)
    ensures !PullFits(1, 1073741823, cap) || cap >= U32
  {
    assert (1073741823 * 4) % U32 == U32 - 4;
  }

  /** Where nothing wraps, the exact check and the 32-bit check agree. */
  lemma PullCheckAgreesWithoutWrap(len: nat, words: nat, cap: nat)
    requires len + 3 + 4 * words < U32
    ensures PullAcceptedAsWritten(len, words, cap) <==> PullFits(len, words, cap)
  {
    assert (words * 4) % U32 == 4 * words;
    assert (len + 3 + 4 * words) % U32 == len + 3 + 4 * words;
  }

  /** The fields only the host side touches: the request flag and its tag and
      maximum length, the reply count and the host-side counters. Routing a
      command and running a handler leave them alone. */
  predicate HostSideUnchanged(t: Ctx, r: Ctx) {
    r.replyReq == t.replyReq && r.replyTag == t.replyTag && r.replyMaxLen == t.replyMaxLen
    && r.replyCnt == t.replyCnt && r.rdTruncated == t.rdTruncated && r.rdEmpty == t.rdEmpty
    && r.overrun == t.overrun
  }

  /** tmc_pl_report_status: reply at once with the one-byte status digit. */
  function ReportStatus(c: Config, t: Ctx, pl: nat): (r: Ctx)
    requires ValidConfig(c) && Inv(c, t)
    ensures Inv(c, r) && HostSideUnchanged(t, r) && r.handler == t.handler && r.wrIgnored == t.wrIgnored
    ensures r.pending && r.replyRdy && r.replyLen == 1 && r.tx[0] == StatusDigit(pl)
    ensures r.tx[r.replyLen..] == t.tx[r.replyLen..]
    ensures r.(pending := t.pending, replyRdy := t.replyRdy, replyLen := t.replyLen, tx := t.tx) == t
  {
    ScheduleReplyBuff(t, [StatusDigit(pl)])
  }

  /** tmc_pl_tx: stage the payload; its length is also the reply length. */
  function PlTxCommand(c: Config, t: Ctx, d: seq<byte>): (r: Ctx)
    requires Inv(c, t) && |d| <= c.cap
    ensures Inv(c, r) && HostSideUnchanged(t, r) && r.wrIgnored == t.wrIgnored
    ensures r.pending && r.handler == PlTx && r.tx[..|d|] == d && r.replyLen == |d|
    ensures r.replyRdy == t.replyRdy && r.log == t.log && r.tx[|d|..] == t.tx[|d|..]
  {
    ScheduleHandler(t.(tx := Splice(t.tx, 0, d), replyLen := |d|), PlTx)
  }

  /** tmc_pl_pull, with the capacity check done without wrap-around. */
  function PullCommand(c: Config, t: Ctx, d: seq<byte>, words: nat): (r: Ctx)
    requires ValidConfig(c) && Inv(c, t)
    ensures Inv(c, r) && HostSideUnchanged(t, r)
    ensures !PullFits(|d|, words, c.cap) ==> r == t.(wrIgnored := t.wrIgnored + 1)
    ensures PullFits(|d|, words, c.cap) ==>
      r.pending && r.handler == PlPull && r.tx[..|d|] == d
      && r.pullReqLen == |d| && r.pullDataLen == 4 * words && r.wrIgnored == t.wrIgnored
      && r.replyRdy == t.replyRdy && r.log == t.log && r.tx[|d|..] == t.tx[|d|..]
  {
    if !PullFits(|d|, words, c.cap) then Ignore(t)
    else ScheduleHandler(t.(tx := Splice(t.tx, 0, d), pullReqLen := |d|, pullDataLen := 4 * words), PlPull)
  }

  /** tmc_pl_flash_tx: stage d, transfer |d| + rdLen bytes (a 32-bit sum), and
      reply with the whole transfer only when a read-back was asked for. */
  function FlashTxCommand(c: Config, t: Ctx, d: seq<byte>, rdLen: nat, rdReply: bool): (r: Ctx)
    requires ValidConfig(c) && Inv(c, t)
    requires rdReply || rdLen == 0
    requires |d| <= c.cap || (rdReply && (|d| + rdLen) % U32 > c.cap)
    ensures Inv(c, r) && HostSideUnchanged(t, r)
    ensures rdReply && (|d| + rdLen) % U32 > c.cap ==> r == t.(wrIgnored := t.wrIgnored + 1)
    ensures !(rdReply && (|d| + rdLen) % U32 > c.cap) ==>
      r.pending && r.handler == FlashTx && r.tx[..|d|] == d && r.flashTxSz == (|d| + rdLen) % U32
      && r.replyLen == (if rdReply then r.flashTxSz else 0) && r.wrIgnored == t.wrIgnored
      && r.replyRdy == t.replyRdy && r.log == t.log && r.tx[|d|..] == t.tx[|d|..]
  {
    var sz := (|d| + rdLen) % U32;
    if rdReply && sz > c.cap then Ignore(t)
    else
      assert rdReply || sz == |d|;
      ScheduleHandler(t.(tx := Splice(t.tx, 0, d), flashTxSz := sz, replyLen := if rdReply then sz else 0), FlashTx)
  }

  /** tmc_pl_flash_prog: stage the page, remember its size and the wait bound. */
  function FlashProgCommand(c: Config, t: Ctx, d: seq<byte>, wait: nat): (r: Ctx)
    requires Inv(c, t) && |d| <= c.cap
    ensures Inv(c, r) && HostSideUnchanged(t, r) && r.wrIgnored == t.wrIgnored
    ensures r.pending && r.handler == FlashProg && r.tx[..|d|] == d && r.flashTxSz == |d| && r.flashWait == wait
    ensures r.replyRdy == t.replyRdy && r.log == t.log && r.tx[|d|..] == t.tx[|d|..]
  {
    ScheduleHandler(t.(tx := Splice(t.tx, 0, d), flashTxSz := |d|, flashWait := wait), FlashProg)
  }

  /** tmc_rx_test_echo: reply at once with the payload, clipped to the buffer. */
  function EchoCommand(c: Config, t: Ctx, d: seq<byte>): (r: Ctx)
    requires Inv(c, t)
    ensures Inv(c, r) && HostSideUnchanged(t, r) && r.handler == t.handler && r.wrIgnored == t.wrIgnored
    ensures r.pending && r.replyRdy && r.replyLen == Min(|d|, c.cap) && r.tx[..r.replyLen] == d[..r.replyLen]
    ensures r.tx[r.replyLen..] == t.tx[r.replyLen..]
    ensures r.(pending := t.pending, replyRdy := t.replyRdy, replyLen := t.replyLen, tx := t.tx) == t
  {
    ScheduleReplyBuff(t, if |d| > c.cap then d[..c.cap] else d)
  }

  /** What a routed command does: the leaves of the C routers. */
  function Exec(c: Config, t: Ctx, cmd: Cmd, pl: nat): (r: Ctx)
    requires ValidConfig(c) && Inv(c, t) && cmd.StagesWithin(c.cap)
    ensures Inv(c, r) && HostSideUnchanged(t, r)
    ensures cmd == Unhandled ==> r == t.(wrIgnored := t.wrIgnored + 1)
  {
    match cmd
    case IdnQuery => ScheduleHandler(t, Idn)
    case ActiveQuery => ReportStatus(c, t, pl)
    case ActiveSet(on) => t.(log := t.log + [PlEnableCall(on)])
    case PlTransmit(d) => PlTxCommand(c, t, d)
    case PlPullReq(d, w) => PullCommand(c, t, d, w)
    case FlashWrite(d) => FlashTxCommand(c, t, d, 0, false)
    case FlashRead(d, n) => FlashTxCommand(c, t, d, n, true)
    case FlashWaitReq(n) => ScheduleHandler(t.(flashWait := n), FlashWait)
    case FlashProgram(d, n) => FlashProgCommand(c, t, d, n)
    case Echo(d) => EchoCommand(c, t, d)
    case Unhandled => Ignore(t)
  }

  /** The first step of USB_TMC_Receive: a message arriving while a transaction
      is pending counts as an overrun. */
  function CountOverrun(t: Ctx): (r: Ctx)
    ensures r.overrun == t.overrun + (if t.pending then 1 else 0)
    ensures r.(overrun := t.overrun) == t
  {
    if t.pending then t.(overrun := t.overrun + 1) else t
  }

  /** USB_TMC_Receive: count an overrun when a transaction is still pending, then
      dispatch the message anyway. */
  function Receive(c: Config, t: Ctx, msg: seq<byte>, pl: nat): (r: Ctx)
    requires ValidConfig(c) && Inv(c, t) && Parse(msg, pl).StagesWithin(c.cap)
    ensures Inv(c, r)
    ensures r.overrun == t.overrun + (if t.pending then 1 else 0)
    ensures |msg| == 0 ==> r == t.(overrun := r.overrun, wrIgnored := t.wrIgnored + 1)
  {
    Exec(c, CountOverrun(t), Parse(msg, pl), pl)
  }

  /** Any PL:FLASH command while the PL is active only counts as ignored (and as
      an overrun, like any message, when a transaction is pending). */
  lemma FlashIgnoredWhilePlActive(c: Config, t: Ctx, msg: seq<byte>, pl: nat)
    requires ValidConfig(c) && Inv(c, t)
    requires pl != PlInactive && Parse(msg, PlInactive).IsFlash()
    ensures Parse(msg, pl).StagesWithin(c.cap)
    ensures Receive(c, t, msg, pl) == CountOverrun(t).(wrIgnored := t.wrIgnored + 1)
  {
    FlashRefusedWhilePlActive(msg, pl);
    assert Parse(msg, pl) == Unhandled;
  }

  /** A well-formed message is dispatched to the command it encodes; a flash
      command is refused while the PL is active. */
  lemma ReceiveEncoded(c: Config, t: Ctx, cmd: Cmd, pl: nat)
    requires ValidConfig(c) && Inv(c, t) && Encodable(cmd) && cmd.StagesWithin(c.cap)
    ensures Parse(Encode(cmd), pl) == if cmd.IsFlash() && pl != PlInactive then Unhandled else cmd
    ensures Receive(c, t, Encode(cmd), pl)
         == Exec(c, CountOverrun(t), if cmd.IsFlash() && pl != PlInactive then Unhandled else cmd, pl)
  {
    ParseEncode(cmd, pl);
  }

  /** PL:ACTIVE#n switches the PL and leaves the transaction context alone: it
      neither arms a handler nor marks a reply pending. */
  lemma ActiveSetLeavesTransaction(c: Config, t: Ctx, on: bool, pl: nat)
    requires ValidConfig(c) && Inv(c, t)
    ensures Parse(Encode(ActiveSet(on)), pl) == ActiveSet(on)
    ensures Receive(c, t, Encode(ActiveSet(on)), pl)
         == CountOverrun(t).(log := t.log + [PlEnableCall(on)])
  {
    ReceiveEncoded(c, t, ActiveSet(on), pl);
  }

  /** PL:ACTIVE? answers at once with one byte, the digit of the PL status. */
  lemma ActiveQueryAnswersStatus(c: Config, t: Ctx, pl: nat)
    requires ValidConfig(c) && Inv(c, t)
    ensures Parse(Encode(ActiveQuery), pl) == ActiveQuery
    ensures var r := Receive(c, t, Encode(ActiveQuery), pl);
      r.pending && r.replyRdy && r.replyLen == 1 && r.tx[0] == StatusDigit(pl)
      && r.handler == t.handler
  {
    ReceiveEncoded(c, t, ActiveQuery, pl);
  }

  // ---------------------------------------------------------------------------
  // Reply handshake

  /** tmc_reply: send min(replyLen, replyMaxLen) bytes with the stored tag and
      close the transaction. */
  function Reply(t: Ctx): (r: Ctx)
    ensures r.log == t.log + [UsbReply(Min(t.replyLen, t.replyMaxLen), t.replyTag)]
    ensures r.rdTruncated == t.rdTruncated + (if t.replyLen > t.replyMaxLen then 1 else 0)
    ensures !r.pending && !r.replyRdy && !r.replyReq && r.replyCnt == t.replyCnt + 1
    ensures r.(log := t.log, rdTruncated := t.rdTruncated, pending := t.pending, replyRdy := t.replyRdy,
               replyReq := t.replyReq, replyCnt := t.replyCnt) == t
  {
    var len := if t.replyLen > t.replyMaxLen then t.replyMaxLen else t.replyLen;
    var truncated := if t.replyLen > t.replyMaxLen then t.rdTruncated + 1 else t.rdTruncated;
    t.(rdTruncated := truncated, replyRdy := false, replyReq := false, pending := false,
       log := t.log + [UsbReply(len, t.replyTag)], replyCnt := t.replyCnt + 1)
  }

  /** USB_TMC_RequestResponse: with nothing pending, an empty reply goes out at
      once; otherwise the request is recorded for the main loop. */
  function RequestResponse(t: Ctx, tag: byte, maxLen: nat): (r: Ctx)
    ensures !t.pending ==>
      r.log == t.log + [UsbReply(0, tag)] && r.rdEmpty == t.rdEmpty + 1
      && r.(log := t.log, rdEmpty := t.rdEmpty) == t
    ensures t.pending ==>
      r.replyReq && r.replyTag == tag && r.replyMaxLen == maxLen && r.log == t.log
      && r.(replyReq := t.replyReq, replyTag := t.replyTag, replyMaxLen := t.replyMaxLen) == t
  {
    if !t.pending then t.(log := t.log + [UsbReply(0, tag)], rdEmpty := t.rdEmpty + 1)
    else t.(replyTag := tag, replyMaxLen := maxLen, replyReq := true)
  }

  // ---------------------------------------------------------------------------
  // Deferred handlers, run in main-loop context

  /** Padding that brings base + off up to a multiple of 4 (3 & address, then 4 - that). */
  function Align(base: nat, off: nat): (a: nat)
    ensures a < 4 && (base + off + a) % 4 == 0
  {
    var low := (base + off) % 4;
    if low != 0 then 4 - low else 0
  }

  /** The calls made after `before` extend it, and none of them is a USB reply. */
  predicate NoReplySent(before: seq<Event>, after: seq<Event>) {
    |after| >= |before| && after[..|before|] == before
    && forall e | e in after[|before|..] :: !e.UsbReply?
  }

  /** tmc_idn_handler: the reply is the identification string, whether or not it
      was built before. */
  function IdnRun(c: Config, t: Ctx): (r: Ctx)
    requires ValidConfig(c) && Inv(c, t)
    ensures Inv(c, r) && HostSideUnchanged(t, r) && r.handler == t.handler && r.idnReady
    ensures r.pending && r.replyRdy && r.replyLen == |c.idn| && r.tx[..|c.idn|] == c.idn
    ensures r.log == t.log
    ensures NoReplySent(t.log, r.log)
  {
    ScheduleReplyBuff(t.(idnReady := true), c.idn)
  }

  /** tmc_pl_flash_tx_handler. */
  function FlashTxRun(c: Config, t: Ctx, hw: Hw): (r: Ctx)
    requires Inv(c, t) && |hw.rx| == c.cap
    ensures Inv(c, r) && HostSideUnchanged(t, r) && r.handler == t.handler
    ensures r.replyRdy && r.replyLen == t.replyLen
    ensures r.log == t.log + [FlashTxCall(t.tx[..t.flashTxSz])]
    ensures NoReplySent(t.log, r.log)
  {
    t.(log := t.log + [FlashTxCall(t.tx[..t.flashTxSz])],
       tx := Transfer(t.tx, hw.rx, 0, t.flashTxSz),
       replyRdy := true)
  }

  /** tmc_pl_flash_wait_handler: reply with the one status byte. */
  function FlashWaitRun(c: Config, t: Ctx, hw: Hw): (r: Ctx)
    requires ValidConfig(c) && Inv(c, t)
    ensures Inv(c, r) && HostSideUnchanged(t, r) && r.handler == t.handler
    ensures r.pending && r.replyRdy && r.replyLen == 1 && r.tx[0] == hw.flashStatus
    ensures r.log == t.log + [FlashWaitCall(t.flashWait)]
    ensures NoReplySent(t.log, r.log)
  {
    ScheduleReply(t.(log := t.log + [FlashWaitCall(t.flashWait)], tx := t.tx[0 := hw.flashStatus]), 1)
  }

  /** tmc_pl_flash_prog_handler: reply with the status read before the operation;
      write-enable and program only when the flash was not busy. */
  function FlashProgRun(c: Config, t: Ctx, hw: Hw): (r: Ctx)
    requires ValidConfig(c) && Inv(c, t) && |hw.rx| == c.cap
    ensures Inv(c, r) && HostSideUnchanged(t, r) && r.handler == t.handler
    ensures r.pending && r.replyRdy && r.replyLen == 1 && r.tx[0] == hw.flashStatus
    ensures Busy(hw.flashStatus) ==> r.log == t.log + [FlashWaitCall(t.flashWait)]
    ensures !Busy(hw.flashStatus) ==>
      r.log == t.log + [FlashWaitCall(t.flashWait), FlashTxCall([WriteEnable]), FlashTxCall(t.tx[..t.flashTxSz])]
    ensures NoReplySent(t.log, r.log)
  {
    var polled := t.(log := t.log + [FlashWaitCall(t.flashWait)]);
    var written :=
      if Busy(hw.flashStatus) then polled
      else polled.(log := polled.log + [FlashTxCall([WriteEnable]), FlashTxCall(t.tx[..t.flashTxSz])],
                   tx := Transfer(t.tx, hw.rx, 0, t.flashTxSz));
    ScheduleReply(written.(tx := written.tx[0 := hw.flashStatus]), 1)
  }

  /** tmc_pl_tx_handler: send the staged bytes; a failed transfer replies with nothing. */
  function PlTxRun(c: Config, t: Ctx, hw: Hw): (r: Ctx)
    requires Inv(c, t) && |hw.rx| == c.cap
    ensures Inv(c, r) && HostSideUnchanged(t, r) && r.handler == t.handler
    ensures r.replyRdy && r.replyLen == (if hw.txOk then t.replyLen else 0)
    ensures r.log == t.log + [PlTxCall(t.tx[..t.replyLen])]
    ensures NoReplySent(t.log, r.log)
  {
    var sent := t.(log := t.log + [PlTxCall(t.tx[..t.replyLen])], tx := Transfer(t.tx, hw.rx, 0, t.replyLen));
    sent.(replyLen := if hw.txOk then t.replyLen else 0, replyRdy := true)
  }

  /** pl_pull_done. */
  function PullDone(t: Ctx, success: bool): (r: Ctx)
    ensures HostSideUnchanged(t, r) && r.handler == t.handler && r.tx == t.tx
    ensures r.replyRdy && r.replyLen == (if success then t.replyLen else 0)
    ensures r.log == t.log + (if success then [] else [StopPullCall])
    ensures NoReplySent(t.log, r.log)
  {
    var stopped := if success then t else t.(log := t.log + [StopPullCall], replyLen := 0);
    stopped.(replyRdy := true)
  }

  /** Where the pulled words land in the TX buffer: past the echoed request, on
      a 4-byte boundary, with the whole region inside the buffer. */
  function PullOffset(c: Config, t: Ctx): (off: nat)
    requires Inv(c, t)
    ensures t.pullReqLen <= off <= t.pullReqLen + 3 && (c.base + off) % 4 == 0
    ensures off + t.pullDataLen <= c.cap
  {
    t.pullReqLen + Align(c.base, t.pullReqLen)
  }

  /** tmc_pl_pull_handler: start the pull into the aligned region, then send the
      request; the completion handler takes over once both succeed. */
  function PullRun(c: Config, t: Ctx, hw: Hw): (r: Ctx)
    requires Inv(c, t) && |hw.rx| == c.cap
    ensures Inv(c, r)
    ensures |r.log| > |t.log| && r.log[|t.log|] == StartPullCall(PullOffset(c, t), t.pullDataLen)
    ensures HostSideUnchanged(t, r) && r.handler == (if hw.startOk && hw.txOk then PlPullComplete else t.handler)
    ensures r.replyLen == (if hw.startOk && hw.txOk then PullOffset(c, t) + t.pullDataLen else 0)
    ensures r.replyRdy == (t.replyRdy || !(hw.startOk && hw.txOk))
    ensures !hw.startOk ==> r.log == t.log + [StartPullCall(PullOffset(c, t), t.pullDataLen)]
    ensures hw.startOk && !hw.txOk ==>
      r.log == t.log + [StartPullCall(PullOffset(c, t), t.pullDataLen), PlTxCall(t.tx[..t.pullReqLen]), StopPullCall]
    ensures hw.startOk && hw.txOk ==>
      r.log == t.log + [StartPullCall(PullOffset(c, t), t.pullDataLen), PlTxCall(t.tx[..t.pullReqLen])] && r.pending
    ensures NoReplySent(t.log, r.log)
  {
    var off := PullOffset(c, t);
    var started := t.(replyLen := off + t.pullDataLen, log := t.log + [StartPullCall(off, t.pullDataLen)]);
    if !hw.startOk then started.(replyLen := 0, replyRdy := true)
    else
      var sent := started.(log := started.log + [PlTxCall(t.tx[..t.pullReqLen])],
                           tx := Transfer(t.tx, hw.rx, 0, t.pullReqLen));
      if !hw.txOk then PullDone(sent, false) else ScheduleHandler(sent, PlPullComplete)
  }

  /** The words of a completed pull, in the aligned region past the request. */
  function PullLanded(c: Config, t: Ctx, hw: Hw): (r: Ctx)
    requires Inv(c, t) && |hw.rx| == c.cap
    ensures Inv(c, r) && r.(tx := t.tx) == t
    ensures var off := PullOffset(c, t);
      r.tx[off..off + t.pullDataLen] == hw.rx[off..off + t.pullDataLen]
  {
    var off := PullOffset(c, t);
    t.(tx := Transfer(t.tx, hw.rx, off, off + t.pullDataLen))
  }

  /** tmc_pl_pull_complete_handler: re-arm while busy; a completed pull leaves
      the pulled words in the buffer. */
  function PullCompleteRun(c: Config, t: Ctx, hw: Hw): (r: Ctx)
    requires Inv(c, t) && |hw.rx| == c.cap
    ensures Inv(c, r)
    ensures HostSideUnchanged(t, r) && r.handler == (if hw.pullStatus == PullBusy then PlPullComplete else t.handler)
    ensures |r.tx| == c.cap
    ensures hw.pullStatus == PullReady ==>
      var off := PullOffset(c, t);
      r.replyRdy && r.replyLen == t.replyLen && r.tx[off..off + t.pullDataLen] == hw.rx[off..off + t.pullDataLen]
    ensures hw.pullStatus == PullFailed ==> r.replyRdy && r.replyLen == 0 && r.log == t.log + [StopPullCall]
    ensures hw.pullStatus != PullFailed ==> r.log == t.log
    ensures NoReplySent(t.log, r.log)
  {
    match hw.pullStatus
    case PullBusy => ScheduleHandler(t, PlPullComplete)
    case PullReady => PullDone(PullLanded(c, t, hw), true)
    case PullFailed => PullDone(t, false)
  }

  /** Calling the handler h once the slot has been cleared. */
  function RunHandler(c: Config, t: Ctx, h: Handler, hw: Hw): (r: Ctx)
    requires ValidConfig(c) && Inv(c, t) && |hw.rx| == c.cap && t.handler == NoHandler
    ensures Inv(c, r) && HostSideUnchanged(t, r)
    ensures r.handler == NoHandler || r.handler == PlPullComplete
    ensures r.handler == PlPullComplete <==>
      (h == PlPull && hw.startOk && hw.txOk) || (h == PlPullComplete && hw.pullStatus == PullBusy)
    ensures NoReplySent(t.log, r.log)
  {
    match h
    case NoHandler => t
    case Idn => IdnRun(c, t)
    case FlashTx => FlashTxRun(c, t, hw)
    case FlashWait => FlashWaitRun(c, t, hw)
    case FlashProg => FlashProgRun(c, t, hw)
    case PlTx => PlTxRun(c, t, hw)
    case PlPull => PullRun(c, t, hw)
    case PlPullComplete => PullCompleteRun(c, t, hw)
  }

  /** The first half of USB_TMC_Process: take the slot, clear it, run what it
      held. Only the pull sequence leaves a handler armed afterwards, and only
      the completion handler; no handler sends a USB reply itself. */
  function RunPending(c: Config, t: Ctx, hw: Hw): (r: Ctx)
    requires ValidConfig(c) && Inv(c, t) && |hw.rx| == c.cap
    ensures Inv(c, r)
    ensures r.handler == NoHandler || r.handler == PlPullComplete
    ensures r.handler == PlPullComplete <==>
      (t.handler == PlPull && hw.startOk && hw.txOk) || (t.handler == PlPullComplete && hw.pullStatus == PullBusy)
    ensures HostSideUnchanged(t, r)
    ensures NoReplySent(t.log, r.log)
  {
    if t.handler == NoHandler then t
    else RunHandler(c, t.(handler := NoHandler), t.handler, hw)
  }

  /** USB_TMC_Process: a reply goes out in this tick exactly when, after the
      handler, the reply is both ready and requested. */
  function Process(c: Config, t: Ctx, hw: Hw): (r: Ctx)
    requires ValidConfig(c) && Inv(c, t) && |hw.rx| == c.cap
    ensures Inv(c, r)
    ensures var t1 := RunPending(c, t, hw);
      r.replyCnt == t.replyCnt + (if t1.replyRdy && t1.replyReq then 1 else 0)
      && (t1.replyRdy && t1.replyReq ==>
            (!r.pending && !r.replyRdy && !r.replyReq
             && r.log == t1.log + [UsbReply(Min(t1.replyLen, t1.replyMaxLen), t1.replyTag)]))
      && (!(t1.replyRdy && t1.replyReq) ==> r == t1)
  {
    var t1 := RunPending(c, t, hw);
    if t1.replyRdy && t1.replyReq then Reply(t1) else t1
  }

  // ---------------------------------------------------------------------------
  // Whole transactions

  /** TEST:ECHO, then a reply request, then one main-loop tick: the host gets the
      payload back, clipped to the buffer and to its own maximum, under its tag. */
  lemma EchoTransaction(c: Config, t: Ctx, d: seq<byte>, pl: nat, tag: byte, maxLen: nat, hw: Hw)
    requires ValidConfig(c) && Inv(c, t) && |hw.rx| == c.cap && t.handler == NoHandler
    ensures Parse(Encode(Echo(d)), pl) == Echo(d)
    ensures var t3 := Process(c, RequestResponse(Receive(c, t, Encode(Echo(d)), pl), tag, maxLen), hw);
      var n := Min(|d|, c.cap);
      t3.log == t.log + [UsbReply(Min(n, maxLen), tag)] && t3.tx[..n] == d[..n]
      && !t3.pending && t3.handler == NoHandler && t3.replyCnt == t.replyCnt + 1
  {
    ReceiveEncoded(c, t, Echo(d), pl);
  }

  /** *IDN?, then a reply request, then one main-loop tick: the handler builds
      the reply and the same tick sends the identification string. */
  lemma IdnTransaction(c: Config, t: Ctx, pl: nat, tag: byte, maxLen: nat, hw: Hw)
    requires ValidConfig(c) && Inv(c, t) && |hw.rx| == c.cap && t.handler == NoHandler
    ensures Parse(Encode(IdnQuery), pl) == IdnQuery
    ensures var t1 := Receive(c, t, Encode(IdnQuery), pl);
      t1.pending && t1.handler == Idn && t1.replyRdy == t.replyRdy && t1.replyLen == t.replyLen
    ensures var t3 := Process(c, RequestResponse(Receive(c, t, Encode(IdnQuery), pl), tag, maxLen), hw);
      t3.log == t.log + [UsbReply(Min(|c.idn|, maxLen), tag)] && t3.tx[..|c.idn|] == c.idn
      && t3.idnReady && !t3.pending && t3.handler == NoHandler && t3.replyCnt == t.replyCnt + 1
  {
    ReceiveEncoded(c, t, IdnQuery, pl);
  }

  /** PL:PULL#n# is accepted exactly when the request, the worst-case pad and the
      n words fit the buffer; a refused pull only counts as ignored. */
  lemma PullRequestAccepted(c: Config, t: Ctx, d: seq<byte>, words: nat, pl: nat)
    requires ValidConfig(c) && Inv(c, t) && words < U32
    ensures Parse(Encode(PlPullReq(d, words)), pl) == PlPullReq(d, words)
    ensures var r := Receive(c, t, Encode(PlPullReq(d, words)), pl);
      r.wrIgnored == t.wrIgnored + (if PullFits(|d|, words, c.cap) then 0 else 1)
      && (PullFits(|d|, words, c.cap) ==>
            r.handler == PlPull && r.pullReqLen == |d| && r.pullDataLen == 4 * words && r.tx[..|d|] == d)
      && (!PullFits(|d|, words, c.cap) ==> r.handler == t.handler && r.tx == t.tx)
  {
    ReceiveEncoded(c, t, PlPullReq(d, words), pl);
  }

  /** An accepted pull, run to completion: the pull starts on a 4-byte boundary
      past the echoed request, and the reply covers request, pad and data, all
      inside the buffer. */
  lemma PullSequence(c: Config, t: Ctx, hw1: Hw, hw2: Hw)
    requires ValidConfig(c) && Inv(c, t) && |hw1.rx| == c.cap && |hw2.rx| == c.cap
    requires t.handler == PlPull && hw1.startOk && hw1.txOk && hw2.pullStatus == PullReady
    ensures var t1 := Process(c, t, hw1);
      t1.handler == PlPullComplete
      && t1.log[|t.log|] == StartPullCall(PullOffset(c, t), t.pullDataLen)
      && (c.base + PullOffset(c, t)) % 4 == 0
    ensures var t2 := RunPending(c, Process(c, t, hw1), hw2);
      t2.replyRdy && t2.replyLen == PullOffset(c, t) + t.pullDataLen && t2.replyLen <= c.cap
      && t2.handler == NoHandler
  {
    var t0 := RunPending(c, t, hw1);
    assert t0.handler == PlPullComplete;
  }
}
