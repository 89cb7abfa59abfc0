/** usb_tmc_handler.c as it is written: the module-level globals become the
    fields of one object, the shared TX buffer an array, and every C function a
    method that updates them in place. Each method is proved to take the state
    (read back through Snap) to what the matching function of TmcSpec says. */
module TmcHandler {
  import opened Bytes
  import opened StrUtil
  import opened Commands
  import opened TmcSpec

  class UsbTmc {
    /** USB_TMC_TX_MAX_DATA_SZ, the buffer address and idn_buff. */
    const cfg: Config
    /** USB_TMC_TxDataBuffer(). */
    const buf: array<byte>

    var pending: bool       // tmc_pending
    var replyRdy: bool      // tmc_reply_rdy
    var replyReq: bool      // tmc_reply_req
    var replyLen: nat       // tmc_reply_len
    var replyMaxLen: nat    // tmc_reply_max_len
    var replyTag: byte      // tmc_reply_tag
    var replyCnt: nat       // tmc_reply_cnt
    var handler: Handler    // tmc_handler
    var wrIgnored: nat      // tmc_wr_ignored
    var rdEmpty: nat        // tmc_rd_empty
    var rdTruncated: nat    // tmc_rd_truncated
    var overrun: nat        // tmc_overrun
    var flashTxSz: nat      // tmc_pl_flash_tx_sz
    var flashWait: nat      // tmc_pl_flash_wait
    var pullDataLen: nat    // tmc_pull_data_len
    var pullReqLen: nat     // tmc_pull_req_len
    var idnReady: bool      // idn_ptr != NULL
    /** The calls made into the USB transport and the PL drivers so far. */
    ghost var log: seq<Event>

    ghost function Snap(): Ctx
      reads this, buf
    {
      Ctx(pending, replyRdy, replyReq, replyLen, replyMaxLen, replyTag, replyCnt, handler,
          wrIgnored, rdEmpty, rdTruncated, overrun, flashTxSz, flashWait, pullDataLen, pullReqLen,
          idnReady, buf[..], log)
    }

    ghost predicate Valid()
      reads this, buf
    {
      ValidConfig(cfg) && Inv(cfg, Snap())
    }

    constructor(c: Config)
      requires ValidConfig(c)
      ensures cfg == c && Valid() && Snap() == Init(c)
      ensures fresh(buf)
    {
      cfg := c;
      buf := new byte[c.cap](_ => 0);
      pending, replyRdy, replyReq := false, false, false;
      replyLen, replyMaxLen, replyTag, replyCnt := 0, 0, 0, 0;
      handler := NoHandler;
      wrIgnored, rdEmpty, rdTruncated, overrun := 0, 0, 0, 0;
      flashTxSz, flashWait, pullDataLen, pullReqLen := 0, 0, 0, 0;
      idnReady := false;
      log := [];
      new;
      assert buf[..] == seq(c.cap, _ => 0 as byte);
    }

    // -------------------------------------------------------------------------
    // Buffer and scheduling helpers

    /** memcpy(USB_TMC_TxDataBuffer(), d, |d|). */
    method Stage(d: seq<byte>)
      requires |d| <= buf.Length
      modifies buf
      ensures buf[..] == Splice(old(buf[..]), 0, d)
    {
      forall i | 0 <= i < |d| {
        buf[i] := d[i];
      }
      assert forall i | 0 <= i < buf.Length :: buf[..][i] == Splice(old(buf[..]), 0, d)[i];
    }

    /** The hardware's full-duplex transfer over buf[lo..hi]. */
    method HwTransfer(rx: seq<byte>, lo: nat, hi: nat)
      requires lo <= hi <= buf.Length == |rx|
      modifies buf
      ensures buf[..] == Transfer(old(buf[..]), rx, lo, hi)
    {
      forall i | lo <= i < hi {
        buf[i] := rx[i];
      }
      assert forall i | 0 <= i < buf.Length :: buf[..][i] == Transfer(old(buf[..]), rx, lo, hi)[i];
    }

    /** tmc_schedule_reply. */
    method ScheduleReply(len: nat)
      modifies this
      ensures Snap() == TmcSpec.ScheduleReply(old(Snap()), len)
    {
      pending := true;
      replyLen := len;
      replyRdy := true;
    }

    /** tmc_schedule_reply_buff. */
    method ScheduleReplyBuff(d: seq<byte>)
      requires |d| <= buf.Length
      modifies this, buf
      ensures Snap() == TmcSpec.ScheduleReplyBuff(old(Snap()), d)
    {
      Stage(d);
      ScheduleReply(|d|);
    }

    /** tmc_schedule_handler. */
    method ScheduleHandler(h: Handler)
      modifies this
      ensures Snap() == TmcSpec.ScheduleHandler(old(Snap()), h)
    {
      pending := true;
      handler := h;
    }

    /** ++tmc_wr_ignored: the command is not handled. */
    method Ignore()
      modifies this
      ensures Snap() == TmcSpec.Ignore(old(Snap()))
    {
      wrIgnored := wrIgnored + 1;
    }

    // -------------------------------------------------------------------------
    // Command handlers (interrupt context)

    /** tmc_pl_report_status. */
    method ReportStatus(pl: nat)
      requires Valid()
      modifies this, buf
      ensures Valid() && Snap() == TmcSpec.ReportStatus(cfg, old(Snap()), pl)
    {
      var resp := StatusDigit(pl);
      ScheduleReplyBuff([resp]);
    }

    /** tmc_pl_tx. */
    method PlTxRequest(d: seq<byte>)
      requires Valid() && |d| <= cfg.cap
      modifies this, buf
      ensures Valid() && Snap() == PlTxCommand(cfg, old(Snap()), d)
    {
      Stage(d);
      replyLen := |d|;
      ScheduleHandler(PlTx);
    }

    /** tmc_pl_pull, with the capacity check made without wrap-around. */
    method PullRequest(d: seq<byte>, words: nat)
      requires Valid()
      modifies this, buf
      ensures Valid() && Snap() == PullCommand(cfg, old(Snap()), d, words)
    {
      var pullLen := 4 * words;
      if |d| + 3 + pullLen > cfg.cap {
        wrIgnored := wrIgnored + 1;
        return;
      }
      Stage(d);
      pullReqLen := |d|;
      pullDataLen := pullLen;
      ScheduleHandler(PlPull);
    }

    /** tmc_pl_flash_tx. */
    method FlashTxRequest(d: seq<byte>, rdLen: nat, rdReply: bool)
      requires Valid() && (rdReply || rdLen == 0)
      requires |d| <= cfg.cap || (rdReply && (|d| + rdLen) % U32 > cfg.cap)
      modifies this, buf
      ensures Valid() && Snap() == FlashTxCommand(cfg, old(Snap()), d, rdLen, rdReply)
    {
      if rdReply && (|d| + rdLen) % U32 > cfg.cap {
        wrIgnored := wrIgnored + 1;
        return;
      }
      Stage(d);
      flashTxSz := (|d| + rdLen) % U32;
      replyLen := if rdReply then flashTxSz else 0;
      ScheduleHandler(FlashTx);
    }

    /** The FLASH:WR call of tmc_pl_flash_tx: no read-back. */
    method FlashWriteRequest(d: seq<byte>)
      requires Valid() && |d| <= cfg.cap
      modifies this, buf
      ensures Valid() && Snap() == Exec(cfg, old(Snap()), FlashWrite(d), PlInactive)
    {
      FlashTxRequest(d, 0, false);
    }

    /** The FLASH:RD call of tmc_pl_flash_tx: read back n bytes after d. */
    method FlashReadRequest(d: seq<byte>, n: nat)
      requires Valid() && FlashRead(d, n).StagesWithin(cfg.cap)
      modifies this, buf
      ensures Valid() && Snap() == Exec(cfg, old(Snap()), FlashRead(d, n), PlInactive)
    {
      FlashTxRequest(d, n, true);
    }

    /** tmc_pl_flash_prog. */
    method FlashProgRequest(d: seq<byte>, wait: nat)
      requires Valid() && |d| <= cfg.cap
      modifies this, buf
      ensures Valid() && Snap() == Exec(cfg, old(Snap()), FlashProgram(d, wait), PlInactive)
    {
      Stage(d);
      flashTxSz := |d|;
      flashWait := wait;
      ScheduleHandler(FlashProg);
    }

    /** The FLASH:WAIT leaf of tmc_rx_pl_flash_sub_command, written inline there. */
    method FlashWaitRequest(wait: nat)
      requires Valid()
      modifies this
      ensures Valid() && Snap() == Exec(cfg, old(Snap()), FlashWaitReq(wait), PlInactive)
    {
      flashWait := wait;
      ScheduleHandler(FlashWait);
    }

    /** tmc_rx_test_echo. */
    method EchoRequest(d: seq<byte>)
      requires Valid()
      modifies this, buf
      ensures Valid() && Snap() == EchoCommand(cfg, old(Snap()), d)
    {
      var len := |d|;
      if len > cfg.cap {
        len := cfg.cap;
      }
      assert d[..|d|] == d;
      ScheduleReplyBuff(d[..len]);
    }

    // -------------------------------------------------------------------------
    // Routers

    /** tmc_rx_std_command. */
    method RxStd(p: seq<byte>)
      requires Valid()
      modifies this, buf
      ensures Valid() && Snap() == Exec(cfg, old(Snap()), RouteStd(p), 0)
    {
      if PrefixMatched(CmdIdn, p) {
        ScheduleHandler(Idn);
        return;
      }
      wrIgnored := wrIgnored + 1;
    }

    /** tmc_rx_pl_flash_sub_command. */
    method RxPlFlashSub(p: seq<byte>, pl: nat)
      requires Valid() && RouteFlash(p, pl).StagesWithin(cfg.cap)
      modifies this, buf
      ensures Valid() && Snap() == Exec(cfg, old(Snap()), RouteFlash(p, pl), pl)
    {
      if pl != PlInactive {
        Ignore();
        return;
      }
      if PrefixMatched(CmdWr, p) {
        FlashWriteRequest(p[|CmdWr|..]);
        return;
      }
      var block := ArgBlock(p);
      if PrefixMatched(CmdRd, p) && block.Some? {
        FlashReadRequest(block.value.payload, block.value.value);
        return;
      }
      var arg := ArgOnly(p);
      if PrefixMatched(CmdWait, p) && arg.Some? {
        FlashWaitRequest(arg.value);
        return;
      }
      if PrefixMatched(CmdProg, p) && block.Some? {
        FlashProgRequest(block.value.payload, block.value.value);
        return;
      }
      Ignore();
    }

    /** tmc_rx_pl_sub_command. */
    method RxPlSub(p: seq<byte>, pl: nat)
      requires Valid() && RoutePl(p, pl).StagesWithin(cfg.cap)
      modifies this, buf
      ensures Valid() && Snap() == Exec(cfg, old(Snap()), RoutePl(p, pl), pl)
    {
      var arg := ArgOnly(p);
      if PrefixMatched(CmdActive, p) {
        if |p| > |CmdActive| && p[|CmdActive|] == Question {
          ReportStatus(pl);
          return;
        }
        if arg.Some? {
          log := log + [PlEnableCall(arg.value != 0)];
          return;
        }
      }
      if PrefixMatched(CmdTx, p) {
        PlTxRequest(p[|CmdTx|..]);
        return;
      }
      var block := ArgBlock(p);
      if PrefixMatched(CmdPull, p) && block.Some? {
        assert RoutePl(p, pl) == PlPullReq(block.value.payload, block.value.value);
        PullRequest(block.value.payload, block.value.value);
        return;
      }
      var colon := SkipThrough(Colon, p);
      if PrefixMatched(CmdFlash, p) && colon != 0 {
        assert RoutePl(p, pl) == RouteFlash(p[colon..], pl);
        RxPlFlashSub(p[colon..], pl);
        return;
      }
      Ignore();
    }

    /** tmc_rx_test_sub_command. */
    method RxTestSub(p: seq<byte>)
      requires Valid()
      modifies this, buf
      ensures Valid() && Snap() == Exec(cfg, old(Snap()), RouteTest(p), 0)
    {
      if PrefixMatched(CmdEcho, p) {
        EchoRequest(p[|CmdEcho|..]);
        return;
      }
      wrIgnored := wrIgnored + 1;
    }

    /** tmc_rx_dev_command. */
    method RxDev(p: seq<byte>, pl: nat)
      requires Valid() && RouteDev(p, pl).StagesWithin(cfg.cap)
      modifies this, buf
      ensures Valid() && Snap() == Exec(cfg, old(Snap()), RouteDev(p, pl), pl)
    {
      var skip := SkipThrough(Colon, p);
      if PrefixMatched(CmdPl, p) && skip != 0 {
        RxPlSub(p[skip..], pl);
        return;
      }
      if PrefixMatched(CmdTest, p) && skip != 0 {
        RxTestSub(p[skip..]);
        return;
      }
      wrIgnored := wrIgnored + 1;
    }

    /** USB_TMC_Receive: a message from the host, with the PL status it meets. */
    method Receive(msg: seq<byte>, pl: nat)
      requires Valid() && Parse(msg, pl).StagesWithin(cfg.cap)
      modifies this, buf
      ensures Valid() && Snap() == TmcSpec.Receive(cfg, old(Snap()), msg, pl)
    {
      if pending {
        overrun := overrun + 1;
      }
      ghost var counted := Snap();
      assert counted == CountOverrun(old(Snap()));
      if |msg| == 0 {
        wrIgnored := wrIgnored + 1;
        return;
      }
      if msg[0] == Star {
        assert Parse(msg, pl) == RouteStd(msg[1..]);
        RxStd(msg[1..]);
        return;
      }
      var p := msg;
      if msg[0] == Colon {
        p := msg[1..];
      }
      assert Parse(msg, pl) == RouteDev(p, pl);
      RxDev(p, pl);
    }

    // -------------------------------------------------------------------------
    // Reply handshake (interrupt and main-loop context)

    /** tmc_reply. */
    method Reply()
      modifies this
      ensures Snap() == TmcSpec.Reply(old(Snap()))
    {
      var len := replyLen;
      if len > replyMaxLen {
        len := replyMaxLen;
        rdTruncated := rdTruncated + 1;
      }
      EndTransaction();
      log := log + [UsbReply(len, replyTag)];
      replyCnt := replyCnt + 1;
    }

    /** The three assignments of tmc_reply that close the transaction. */
    method EndTransaction()
      modifies this
      ensures Snap() == old(Snap()).(replyRdy := false, replyReq := false, pending := false)
    {
      replyRdy := false;
      replyReq := false;
      pending := false;
    }

    /** USB_TMC_RequestResponse: the host asks for a reply of at most maxLen bytes. */
    method RequestResponse(tag: byte, maxLen: nat)
      requires Valid()
      modifies this
      ensures Valid() && Snap() == TmcSpec.RequestResponse(old(Snap()), tag, maxLen)
    {
      if !pending {
        log := log + [UsbReply(0, tag)];
        rdEmpty := rdEmpty + 1;
        return;
      }
      replyTag := tag;
      replyMaxLen := maxLen;
      replyReq := true;
    }

    // -------------------------------------------------------------------------
    // Deferred handlers (main-loop context)

    /** tmc_idn_handler; building the string on first use is idn_init. */
    method IdnHandler()
      requires Valid()
      modifies this, buf
      ensures Valid() && Snap() == IdnRun(cfg, old(Snap()))
    {
      if !idnReady {
        idnReady := true;
      }
      ScheduleReplyBuff(cfg.idn);
    }

    /** tmc_pl_flash_tx_handler. */
    method FlashTxHandler(hw: Hw)
      requires Valid() && |hw.rx| == cfg.cap
      modifies this, buf
      ensures Valid() && Snap() == FlashTxRun(cfg, old(Snap()), hw)
    {
      log := log + [FlashTxCall(buf[..flashTxSz])];
      HwTransfer(hw.rx, 0, flashTxSz);
      replyRdy := true;
    }

    /** tmc_pl_flash_wait_handler. */
    method FlashWaitHandler(hw: Hw)
      requires Valid()
      modifies this, buf
      ensures Valid() && Snap() == FlashWaitRun(cfg, old(Snap()), hw)
    {
      log := log + [FlashWaitCall(flashWait)];
      buf[0] := hw.flashStatus;
      ScheduleReply(1);
    }

    /** tmc_pl_flash_prog_handler. */
    method FlashProgHandler(hw: Hw)
      requires Valid() && |hw.rx| == cfg.cap
      modifies this, buf
      ensures Valid() && Snap() == FlashProgRun(cfg, old(Snap()), hw)
    {
      var status := hw.flashStatus;
      log := log + [FlashWaitCall(flashWait)];
      if !Busy(status) {
        log := log + [FlashTxCall([WriteEnable]), FlashTxCall(buf[..flashTxSz])];
        HwTransfer(hw.rx, 0, flashTxSz);
      }
      buf[0] := status;
      ScheduleReply(1);
    }

    /** tmc_pl_tx_handler. */
    method PlTxHandler(hw: Hw)
      requires Valid() && |hw.rx| == cfg.cap
      modifies this, buf
      ensures Valid() && Snap() == PlTxRun(cfg, old(Snap()), hw)
    {
      log := log + [PlTxCall(buf[..replyLen])];
      HwTransfer(hw.rx, 0, replyLen);
      if !hw.txOk {
        replyLen := 0;
      }
      replyRdy := true;
    }

    /** pl_pull_done. */
    method PullDone(success: bool)
      modifies this
      ensures Snap() == TmcSpec.PullDone(old(Snap()), success)
    {
      if !success {
        log := log + [StopPullCall];
        replyLen := 0;
      }
      replyRdy := true;
    }

    /** tmc_pl_pull_handler. */
    method PullHandler(hw: Hw)
      requires Valid() && |hw.rx| == cfg.cap
      modifies this, buf
      ensures Valid() && Snap() == PullRun(cfg, old(Snap()), hw)
    {
      StartPull();
      if !hw.startOk {
        replyLen, replyRdy := 0, true;
        return;
      }
      SendPullRequest(hw.rx);
      if !hw.txOk {
        PullDone(false);
        return;
      }
      ScheduleHandler(PlPullComplete);
    }

    /** Starts the pull into the word-aligned region that follows the staged
        request; the reply covers the request, the padding and the words. */
    method StartPull()
      requires Valid()
      modifies this
      ensures Valid()
      ensures Snap() == old(Snap()).(replyLen := PullOffset(cfg, old(Snap())) + pullDataLen,
                                     log := old(log) + [StartPullCall(PullOffset(cfg, old(Snap())), pullDataLen)])
    {
      var off := pullReqLen + Align(cfg.base, pullReqLen);
      replyLen := off + pullDataLen;
      log := log + [StartPullCall(off, pullDataLen)];
    }

    /** Sends the staged request over the full-duplex link. */
    method SendPullRequest(rx: seq<byte>)
      requires Valid() && |rx| == cfg.cap
      modifies this, buf
      ensures Valid()
      ensures Snap() == old(Snap()).(log := old(log) + [PlTxCall(old(buf[..pullReqLen]))],
                                     tx := Transfer(old(buf[..]), rx, 0, pullReqLen))
    {
      log := log + [PlTxCall(buf[..pullReqLen])];
      HwTransfer(rx, 0, pullReqLen);
    }

    /** tmc_pl_pull_complete_handler; a completed pull has left the words in
        the aligned region. */
    method PullCompleteHandler(hw: Hw)
      requires Valid() && |hw.rx| == cfg.cap
      modifies this, buf
      ensures Valid() && Snap() == PullCompleteRun(cfg, old(Snap()), hw)
    {
      var sta := hw.pullStatus;
      if sta == PullBusy {
        ScheduleHandler(PlPullComplete);
        return;
      }
      if sta == PullReady {
        LandPull(hw.rx);
      }
      PullDone(sta == PullReady);
    }

    /** The words a completed pull has written into the aligned region. */
    method LandPull(rx: seq<byte>)
      requires Valid() && |rx| == cfg.cap
      modifies buf
      ensures Valid()
      ensures Snap() == old(Snap()).(tx := Transfer(old(buf[..]), rx, PullOffset(cfg, old(Snap())),
                                                             PullOffset(cfg, old(Snap())) + pullDataLen))
    {
      var off := pullReqLen + Align(cfg.base, pullReqLen);
      HwTransfer(rx, off, off + pullDataLen);
    }

    /** Calling the handler h taken from the slot: `h()` in USB_TMC_Process. */
    method RunHandler(h: Handler, hw: Hw)
      requires Valid() && |hw.rx| == cfg.cap && handler == NoHandler
      modifies this, buf
      ensures Valid() && Snap() == TmcSpec.RunHandler(cfg, old(Snap()), h, hw)
    {
      match h {
        case NoHandler =>
        case Idn => IdnHandler();
        case FlashTx => FlashTxHandler(hw);
        case FlashWait => FlashWaitHandler(hw);
        case FlashProg => FlashProgHandler(hw);
        case PlTx => PlTxHandler(hw);
        case PlPull => PullHandler(hw);
        case PlPullComplete => PullCompleteHandler(hw);
      }
    }

    /** `tmc_handler = NULL` before the handler taken from the slot runs. */
    method TakeHandler()
      requires Valid()
      modifies this
      ensures Valid() && Snap() == old(Snap()).(handler := NoHandler)
    {
      handler := NoHandler;
    }

    /** USB_TMC_Process: one main-loop tick, with what the drivers answer in it. */
    method Process(hw: Hw)
      requires Valid() && |hw.rx| == cfg.cap
      modifies this, buf
      ensures Valid() && Snap() == TmcSpec.Process(cfg, old(Snap()), hw)
    {
      var h := handler;
      if h != NoHandler {
        TakeHandler();
        RunHandler(h, hw);
      }
      assert Snap() == RunPending(cfg, old(Snap()), hw);
      if replyRdy && replyReq {
        Reply();
      }
    }
  }
}
