/** The prefix-routing command grammar of usb_tmc_handler.c.

    Each C router (tmc_rx_std_command, tmc_rx_dev_command, tmc_rx_pl_sub_command,
    tmc_rx_pl_flash_sub_command, tmc_rx_test_sub_command) is modelled here by a
    function that takes the same branches, in the same order, and names the leaf
    it reaches as a `Cmd`; what each leaf does to the device state is `Exec` in
    module TmcSpec. `Encode` writes a command in the grammar, and
    `ParseEncode` proves that routing reads every command back. */
module Commands {
  import opened Bytes
  import opened StrUtil

  const Star: byte := B('*')
  const Colon: byte := B(':')
  const Hash: byte := B('#')
  const Question: byte := B('?')

  // Keyword spellings (usb_tmc_commands.h is not part of this model).
  const CmdIdn: seq<byte> := [B('I'), B('D'), B('N'), B('?')]
  const CmdPl: seq<byte> := [B('P'), B('L')]
  const CmdTest: seq<byte> := [B('T'), B('E'), B('S'), B('T')]
  const CmdActive: seq<byte> := [B('A'), B('C'), B('T'), B('I'), B('V'), B('E')]
  const CmdTx: seq<byte> := [B('T'), B('X')]
  const CmdPull: seq<byte> := [B('P'), B('U'), B('L'), B('L')]
  const CmdFlash: seq<byte> := [B('F'), B('L'), B('A'), B('S'), B('H')]
  const CmdWr: seq<byte> := [B('W'), B('R')]
  const CmdRd: seq<byte> := [B('R'), B('D')]
  const CmdWait: seq<byte> := [B('W'), B('A'), B('I'), B('T')]
  const CmdProg: seq<byte> := [B('P'), B('R'), B('O'), B('G')]
  const CmdEcho: seq<byte> := [B('E'), B('C'), B('H'), B('O')]

  /** pl_status value meaning that the PL (FPGA) does not drive the flash bus. */
  const PlInactive: nat := 0

  /** The leaf a message is routed to, with the arguments the leaf receives. */
  datatype Cmd =
    | IdnQuery                                   // *IDN?
    | ActiveQuery                                // PL:ACTIVE?
    | ActiveSet(on: bool)                        // PL:ACTIVE#n
    | PlTransmit(data: seq<byte>)                // PL:TX<data>
    | PlPullReq(data: seq<byte>, words: nat)     // PL:PULL#n#<data>
    | FlashWrite(data: seq<byte>)                // PL:FLASH:WR<data>
    | FlashRead(data: seq<byte>, rdLen: nat)     // PL:FLASH:RD#n#<data>
    | FlashWaitReq(bound: nat)                   // PL:FLASH:WAIT#n
    | FlashProgram(data: seq<byte>, bound: nat)  // PL:FLASH:PROG#n#<data>
    | Echo(data: seq<byte>)                      // TEST:ECHO<data>
    | Unhandled                                  // anything else: ++tmc_wr_ignored
  {
    predicate IsFlash() {
      FlashWrite? || FlashRead? || FlashWaitReq? || FlashProgram?
    }

    /** The bytes the leaf receives as its data, if it takes any. */
    function Payload(): seq<byte> {
      match this
      case PlTransmit(d) => d
      case PlPullReq(d, _) => d
      case FlashWrite(d) => d
      case FlashRead(d, _) => d
      case FlashProgram(d, _) => d
      case Echo(d) => d
      case _ => []
    }

    /** The leaves that memcpy their payload into the TX buffer without a
        capacity check of their own need it to fit: PL:TX, FLASH:WR and
        FLASH:PROG always, FLASH:RD whenever its (32-bit) size check passes. */
    predicate StagesWithin(cap: nat) {
      match this
      case PlTransmit(d) => |d| <= cap
      case FlashWrite(d) => |d| <= cap
      case FlashRead(d, n) => |d| <= cap || (|d| + n) % U32 > cap
      case FlashProgram(d, _) => |d| <= cap
      case _ => true
    }
  }

  /** The command a message routes to when PL is active: flash commands are refused. */
  function Demote(cmd: Cmd): (r: Cmd)
    ensures !r.IsFlash() && (r == cmd || r == Unhandled)
    ensures !cmd.IsFlash() ==> r == cmd
  {
    if cmd.IsFlash() then Unhandled else cmd
  }

  /** A numeric argument and the payload that follows it. */
  datatype Arg = Arg(value: nat, payload: seq<byte>)

  /** `#<digits>#` after the first `#` of p: the value, and the bytes after the closing `#`. */
  function ArgBlock(p: seq<byte>): (r: Option<Arg>)
    ensures r.Some? ==> r.value.value < U32 && IsSuffix(r.value.payload, p)
  {
    var skip := SkipThrough(Hash, p);
    if skip == 0 then None else DigitsThenHash(p[skip..])
  }

  /** `<digits>#` at the start of q: the value, and the bytes after the `#`. */
  function DigitsThenHash(q: seq<byte>): (r: Option<Arg>)
    ensures r.Some? ==> r.value.value < U32 && IsSuffix(r.value.payload, q)
  {
    var sc := ScanU(q);
    if sc.count != 0 && |q| > sc.count && q[sc.count] == Hash
    then Some(Arg(sc.value, q[sc.count + 1..]))
    else None
  }

  /** `#<digits>` after the first `#` of p, without a closing `#`: the value. */
  function ArgOnly(p: seq<byte>): (r: Option<nat>)
    ensures r.Some? ==> r.value < U32
  {
    var skip := SkipThrough(Hash, p);
    if skip == 0 then None else Digits(p[skip..])
  }

  /** `<digits>` at the start of q: their value. */
  function Digits(q: seq<byte>): (r: Option<nat>)
    ensures r.Some? ==> r.value < U32
  {
    var sc := ScanU(q);
    if sc.count != 0 then Some(sc.value) else None
  }

  /** tmc_rx_std_command: the text after `*`. */
  function RouteStd(p: seq<byte>): (cmd: Cmd)
    ensures cmd == IdnQuery || cmd == Unhandled
    ensures cmd == IdnQuery <==> PrefixMatched(CmdIdn, p)
  {
    if PrefixMatched(CmdIdn, p) then IdnQuery else Unhandled
  }

  /** tmc_rx_pl_flash_sub_command: the text after `PL:FLASH:`. */
  function RouteFlash(p: seq<byte>, plStatus: nat): (cmd: Cmd)
    ensures cmd.IsFlash() || cmd == Unhandled
    ensures plStatus != PlInactive ==> cmd == Unhandled
  {
    if plStatus != PlInactive then Unhandled
    else if PrefixMatched(CmdWr, p) then FlashWrite(p[|CmdWr|..])
    else if PrefixMatched(CmdRd, p) && ArgBlock(p).Some? then
      FlashRead(ArgBlock(p).value.payload, ArgBlock(p).value.value)
    else if PrefixMatched(CmdWait, p) && ArgOnly(p).Some? then FlashWaitReq(ArgOnly(p).value)
    else if PrefixMatched(CmdProg, p) && ArgBlock(p).Some? then
      FlashProgram(ArgBlock(p).value.payload, ArgBlock(p).value.value)
    else Unhandled
  }

  /** tmc_rx_pl_sub_command: the text after `PL:`. */
  function RoutePl(p: seq<byte>, plStatus: nat): (cmd: Cmd)
    ensures !cmd.IdnQuery? && !cmd.Echo?
    ensures cmd.IsFlash() ==> plStatus == PlInactive
  {
    if PrefixMatched(CmdActive, p) && |p| > |CmdActive| && p[|CmdActive|] == Question then ActiveQuery
    else if PrefixMatched(CmdActive, p) && ArgOnly(p).Some? then ActiveSet(ArgOnly(p).value != 0)
    else if PrefixMatched(CmdTx, p) then PlTransmit(p[|CmdTx|..])
    else if PrefixMatched(CmdPull, p) && ArgBlock(p).Some? then
      PlPullReq(ArgBlock(p).value.payload, ArgBlock(p).value.value)
    else if PrefixMatched(CmdFlash, p) && SkipThrough(Colon, p) != 0 then
      RouteFlash(p[SkipThrough(Colon, p)..], plStatus)
    else Unhandled
  }

  /** tmc_rx_test_sub_command: the text after `TEST:`. */
  function RouteTest(p: seq<byte>): (cmd: Cmd)
    ensures cmd.Echo? || cmd == Unhandled
  {
    if PrefixMatched(CmdEcho, p) then Echo(p[|CmdEcho|..]) else Unhandled
  }

  /** tmc_rx_dev_command: a device command, its leading `:` already stripped. */
  function RouteDev(p: seq<byte>, plStatus: nat): (cmd: Cmd)
    ensures !cmd.IdnQuery?
    ensures cmd.IsFlash() ==> plStatus == PlInactive
  {
    if PrefixMatched(CmdPl, p) && SkipThrough(Colon, p) != 0 then
      RoutePl(p[SkipThrough(Colon, p)..], plStatus)
    else if PrefixMatched(CmdTest, p) && SkipThrough(Colon, p) != 0 then
      RouteTest(p[SkipThrough(Colon, p)..])
    else Unhandled
  }

  /** USB_TMC_Receive's dispatch: `*` selects a standard command; otherwise an
      optional leading `:` is dropped and the rest is a device command. */
  function Parse(msg: seq<byte>, plStatus: nat): (cmd: Cmd)
    ensures |msg| == 0 ==> cmd == Unhandled
    ensures cmd == IdnQuery <==> |msg| > 0 && msg[0] == Star && PrefixMatched(CmdIdn, msg[1..])
    ensures cmd.IsFlash() ==> plStatus == PlInactive
  {
    if |msg| == 0 then Unhandled
    else if msg[0] == Star then RouteStd(msg[1..])
    else RouteDev(if msg[0] == Colon then msg[1..] else msg, plStatus)
  }

  /** What a router yields for the text p: nothing, or a command the host can
      write whose payload is the tail of p. */
  predicate FromText(cmd: Cmd, p: seq<byte>) {
    cmd != Unhandled ==> Encodable(cmd) && IsSuffix(cmd.Payload(), p)
  }

  lemma RouteFlashFromText(p: seq<byte>, pl: nat)
    ensures FromText(RouteFlash(p, pl), p)
  {
    if pl == PlInactive && PrefixMatched(CmdWr, p) {
      assert p[|p| - |p[|CmdWr|..]|..] == p[|CmdWr|..];
    }
  }

  lemma RoutePlFromText(p: seq<byte>, pl: nat)
    ensures FromText(RoutePl(p, pl), p)
  {
    var k := SkipThrough(Colon, p);
    if PrefixMatched(CmdActive, p) && |p| > |CmdActive| && p[|CmdActive|] == Question {
    } else if PrefixMatched(CmdActive, p) && ArgOnly(p).Some? {
    } else if PrefixMatched(CmdTx, p) {
      assert p[|p| - |p[|CmdTx|..]|..] == p[|CmdTx|..];
    } else if PrefixMatched(CmdPull, p) && ArgBlock(p).Some? {
    } else if PrefixMatched(CmdFlash, p) && k != 0 {
      var cmd := RouteFlash(p[k..], pl);
      RouteFlashFromText(p[k..], pl);
      if cmd != Unhandled {
        SuffixOfTail(cmd.Payload(), p, k);
      }
    }
  }

  lemma RouteTestFromText(p: seq<byte>)
    ensures FromText(RouteTest(p), p)
  {
    if PrefixMatched(CmdEcho, p) {
      assert p[|p| - |p[|CmdEcho|..]|..] == p[|CmdEcho|..];
    }
  }

  lemma RouteDevFromText(p: seq<byte>, pl: nat)
    ensures FromText(RouteDev(p, pl), p)
  {
    var k := SkipThrough(Colon, p);
    var cmd := RouteDev(p, pl);
    if PrefixMatched(CmdPl, p) && k != 0 {
      RoutePlFromText(p[k..], pl);
    } else if PrefixMatched(CmdTest, p) && k != 0 {
      RouteTestFromText(p[k..]);
    }
    if cmd != Unhandled {
      SuffixOfTail(cmd.Payload(), p, k);
    }
  }

  /** Every message routes to nothing, or to a command the host can write whose
      payload is the tail of the message. */
  lemma ParseFromText(msg: seq<byte>, pl: nat)
    ensures FromText(Parse(msg, pl), msg)
  {
    if |msg| > 0 && msg[0] != Star {
      var p := if msg[0] == Colon then msg[1..] else msg;
      RouteDevFromText(p, pl);
      if Parse(msg, pl) != Unhandled && msg[0] == Colon {
        SuffixOfTail(Parse(msg, pl).Payload(), msg, 1);
      }
    }
  }

  // ---------------------------------------------------------------------------
  // Writing commands, and reading them back

  predicate Encodable(cmd: Cmd) {
    match cmd
    case PlPullReq(_, w) => w < U32
    case FlashRead(_, n) => n < U32
    case FlashWaitReq(n) => n < U32
    case FlashProgram(_, n) => n < U32
    case Unhandled => false
    case _ => true
  }

  function Block(n: nat): seq<byte> {
    [Hash] + Decimal(n) + [Hash]
  }

  const PlPrefix: seq<byte> := [Colon] + CmdPl + [Colon]
  const FlashPrefix: seq<byte> := PlPrefix + CmdFlash + [Colon]

  /** The message a host sends for a command. */
  function Encode(cmd: Cmd): seq<byte>
    requires Encodable(cmd)
  {
    match cmd
    case IdnQuery => [Star] + CmdIdn
    case ActiveQuery => PlPrefix + CmdActive + [Question]
    case ActiveSet(on) => PlPrefix + CmdActive + [Hash, if on then B('1') else B('0'), Hash]
    case PlTransmit(d) => PlPrefix + CmdTx + d
    case PlPullReq(d, w) => PlPrefix + CmdPull + Block(w) + d
    case FlashWrite(d) => FlashPrefix + CmdWr + d
    case FlashRead(d, n) => FlashPrefix + CmdRd + Block(n) + d
    case FlashWaitReq(n) => FlashPrefix + CmdWait + Block(n)
    case FlashProgram(d, n) => FlashPrefix + CmdProg + Block(n) + d
    case Echo(d) => [Colon] + CmdTest + [Colon] + CmdEcho + d
  }

  lemma PrefixOfConcat(kw: seq<byte>, rest: seq<byte>)
    ensures PrefixMatched(kw, kw + rest) && (kw + rest)[|kw|..] == rest
  {
    assert (kw + rest)[..|kw|] == kw;
  }

  /** Two keywords that differ at position i never prefix the same text. */
  lemma NotPrefix(kw: seq<byte>, other: seq<byte>, rest: seq<byte>, i: nat)
    requires i < |kw| && i < |other| && kw[i] != other[i]
    ensures !PrefixMatched(kw, other + rest)
  {
    assert (other + rest)[i] == other[i];
  }

  /** Text that one keyword prefixes is not prefixed by a keyword differing at i. */
  lemma Exclusive(kw: seq<byte>, other: seq<byte>, s: seq<byte>, i: nat)
    requires PrefixMatched(other, s) && i < |kw| && i < |other| && kw[i] != other[i]
    ensures !PrefixMatched(kw, s)
  {
    assert s[i] == s[..|other|][i];
  }

  /** No keyword contains the separator that ends it or its argument. */
  lemma SeparatorsNotInKeywords()
    ensures Colon !in CmdPl && Colon !in CmdTest && Colon !in CmdFlash
    ensures Hash !in CmdActive && Hash !in CmdPull && Hash !in CmdRd && Hash !in CmdWait && Hash !in CmdProg
  {
  }

  /** Stepping past the first separator after a keyword. */
  lemma SkipKeyword(kw: seq<byte>, sep: byte, rest: seq<byte>)
    requires sep !in kw
    ensures SkipThrough(sep, kw + [sep] + rest) == |kw| + 1
    ensures (kw + [sep] + rest)[|kw| + 1..] == rest
    ensures PrefixMatched(kw, kw + [sep] + rest)
  {
    SkipThroughFirst(sep, kw, rest);
    PrefixOfConcat(kw, [sep] + rest);
    assert kw + [sep] + rest == kw + ([sep] + rest);
  }

  /** A keyword followed by `#n#` and a payload has the argument block (n, payload). */
  lemma ArgBlockOfBlock(kw: seq<byte>, n: nat, d: seq<byte>)
    requires Hash !in kw && n < U32
    ensures ArgBlock(kw + Block(n) + d) == Some(Arg(n, d))
    ensures PrefixMatched(kw, kw + Block(n) + d)
  {
    var tail := Decimal(n) + ([Hash] + d);
    assert kw + Block(n) + d == kw + [Hash] + tail;
    SkipKeyword(kw, Hash, tail);
    DigitsThenHashOfDecimal(n, d);
  }

  /** The digits of n, `#` and a payload read back as (n, payload). */
  lemma DigitsThenHashOfDecimal(n: nat, d: seq<byte>)
    requires n < U32
    ensures DigitsThenHash(Decimal(n) + ([Hash] + d)) == Some(Arg(n, d))
  {
    var dec := Decimal(n);
    var q := dec + ([Hash] + d);
    ScanDecimal(n, [Hash] + d);
    assert q[|dec|] == Hash;
    assert q[|dec| + 1..] == d;
  }

  /** A keyword followed by `#n#` has the argument n. */
  lemma ArgOnlyOfBlock(kw: seq<byte>, n: nat)
    requires Hash !in kw && n < U32
    ensures ArgOnly(kw + Block(n)) == Some(n)
    ensures PrefixMatched(kw, kw + Block(n))
  {
    assert kw + Block(n) == kw + [Hash] + (Decimal(n) + [Hash]);
    SkipKeyword(kw, Hash, Decimal(n) + [Hash]);
    DigitsOfDecimal(n);
  }

  /** A keyword followed by `#n` and nothing else has the argument n. */
  lemma ArgOnlyOfDecimal(kw: seq<byte>, n: nat)
    requires Hash !in kw && n < U32
    ensures ArgOnly(kw + [Hash] + Decimal(n)) == Some(n)
    ensures PrefixMatched(kw, kw + [Hash] + Decimal(n))
  {
    assert kw + [Hash] + Decimal(n) == kw + [Hash] + Decimal(n) + [];
    SkipKeyword(kw, Hash, Decimal(n));
    assert Digits(Decimal(n)) == Some(n) by {
      ScanDecimal(n, []);
      assert Decimal(n) + [] == Decimal(n);
    }
  }

  lemma DigitsOfDecimal(n: nat)
    requires n < U32
    ensures Digits(Decimal(n) + [Hash]) == Some(n)
  {
    ScanDecimal(n, [Hash]);
  }

  /** Routing a `PL:` command reaches RoutePl with the text after `PL:`. */
  lemma ParsePl(rest: seq<byte>, pl: nat)
    ensures Parse(PlPrefix + rest, pl) == RoutePl(rest, pl)
  {
    var m := PlPrefix + rest;
    assert m[1..] == CmdPl + [Colon] + rest;
    SeparatorsNotInKeywords();
    SkipKeyword(CmdPl, Colon, rest);
  }

  /** Routing a `PL:FLASH:` command reaches RouteFlash with the text after it. */
  lemma ParseFlash(rest: seq<byte>, pl: nat)
    ensures Parse(FlashPrefix + rest, pl) == RouteFlash(rest, pl)
  {
    var p := CmdFlash + [Colon] + rest;
    assert FlashPrefix + rest == PlPrefix + p;
    ParsePl(p, pl);
    SeparatorsNotInKeywords();
    SkipKeyword(CmdFlash, Colon, rest);
    Exclusive(CmdActive, CmdFlash, p, 0);
    Exclusive(CmdTx, CmdFlash, p, 0);
    Exclusive(CmdPull, CmdFlash, p, 0);
    RoutePlFlash(p, pl);
  }

  lemma RoutePlFlash(p: seq<byte>, pl: nat)
    requires !PrefixMatched(CmdActive, p) && !PrefixMatched(CmdTx, p) && !PrefixMatched(CmdPull, p)
    requires PrefixMatched(CmdFlash, p) && SkipThrough(Colon, p) != 0
    ensures RoutePl(p, pl) == RouteFlash(p[SkipThrough(Colon, p)..], pl)
  {
  }

  lemma RouteFlashRead(p: seq<byte>, n: nat, d: seq<byte>)
    requires PrefixMatched(CmdRd, p) && ArgBlock(p) == Some(Arg(n, d))
    ensures RouteFlash(p, PlInactive) == FlashRead(d, n)
  {
    Exclusive(CmdWr, CmdRd, p, 0);
  }

  lemma RouteFlashWait(p: seq<byte>, n: nat)
    requires PrefixMatched(CmdWait, p) && ArgOnly(p) == Some(n)
    ensures RouteFlash(p, PlInactive) == FlashWaitReq(n)
  {
    Exclusive(CmdWr, CmdWait, p, 1);
    Exclusive(CmdRd, CmdWait, p, 0);
  }

  lemma RouteFlashProgram(p: seq<byte>, n: nat, d: seq<byte>)
    requires PrefixMatched(CmdProg, p) && ArgBlock(p) == Some(Arg(n, d))
    ensures RouteFlash(p, PlInactive) == FlashProgram(d, n)
  {
    Exclusive(CmdWr, CmdProg, p, 0);
    Exclusive(CmdRd, CmdProg, p, 0);
    Exclusive(CmdWait, CmdProg, p, 0);
  }

  lemma ParseActiveQuery(pl: nat)
    ensures Parse(PlPrefix + CmdActive + [Question], pl) == ActiveQuery
  {
    assert PlPrefix + CmdActive + [Question] == PlPrefix + (CmdActive + [Question]);
    ParsePl(CmdActive + [Question], pl);
    PrefixOfConcat(CmdActive, [Question]);
  }

  lemma ParseActiveSet(n: nat, pl: nat)
    requires n < U32
    ensures Parse(PlPrefix + CmdActive + Block(n), pl) == ActiveSet(n != 0)
  {
    var p := CmdActive + Block(n);
    assert PlPrefix + CmdActive + Block(n) == PlPrefix + p;
    ParsePl(p, pl);
    SeparatorsNotInKeywords();
    ArgOnlyOfBlock(CmdActive, n);
    assert p[|CmdActive|] == Hash;
    RoutePlActiveSet(p, n, pl);
  }

  lemma RoutePlActiveSet(p: seq<byte>, n: nat, pl: nat)
    requires PrefixMatched(CmdActive, p) && |p| > |CmdActive| && p[|CmdActive|] == Hash
    requires ArgOnly(p) == Some(n)
    ensures RoutePl(p, pl) == ActiveSet(n != 0)
  {
  }

  lemma ParsePlTransmit(d: seq<byte>, pl: nat)
    ensures Parse(PlPrefix + CmdTx + d, pl) == PlTransmit(d)
  {
    assert PlPrefix + CmdTx + d == PlPrefix + (CmdTx + d);
    ParsePl(CmdTx + d, pl);
    PrefixOfConcat(CmdTx, d);
    Exclusive(CmdActive, CmdTx, CmdTx + d, 0);
  }

  lemma RoutePlPull(p: seq<byte>, pl: nat)
    requires !PrefixMatched(CmdActive, p) && !PrefixMatched(CmdTx, p)
    requires PrefixMatched(CmdPull, p) && ArgBlock(p).Some?
    ensures RoutePl(p, pl) == PlPullReq(ArgBlock(p).value.payload, ArgBlock(p).value.value)
  {
  }

  lemma PullKeyword(d: seq<byte>, w: nat)
    requires w < U32
    ensures !PrefixMatched(CmdActive, CmdPull + Block(w) + d)
    ensures !PrefixMatched(CmdTx, CmdPull + Block(w) + d)
    ensures PrefixMatched(CmdPull, CmdPull + Block(w) + d)
    ensures ArgBlock(CmdPull + Block(w) + d) == Some(Arg(w, d))
  {
    SeparatorsNotInKeywords();
    ArgBlockOfBlock(CmdPull, w, d);
    Exclusive(CmdActive, CmdPull, CmdPull + Block(w) + d, 0);
    Exclusive(CmdTx, CmdPull, CmdPull + Block(w) + d, 0);
  }

  lemma ParsePlPull(d: seq<byte>, w: nat, pl: nat)
    requires w < U32
    ensures Parse(PlPrefix + CmdPull + Block(w) + d, pl) == PlPullReq(d, w)
  {
    var p := CmdPull + Block(w) + d;
    assert PlPrefix + CmdPull + Block(w) + d == PlPrefix + p;
    ParsePl(p, pl);
    PullKeyword(d, w);
    RoutePlPull(p, pl);
  }

  lemma ParseFlashWrite(d: seq<byte>, pl: nat)
    ensures Parse(FlashPrefix + CmdWr + d, pl) == RouteFlash(CmdWr + d, pl)
    ensures RouteFlash(CmdWr + d, PlInactive) == FlashWrite(d)
  {
    assert FlashPrefix + CmdWr + d == FlashPrefix + (CmdWr + d);
    ParseFlash(CmdWr + d, pl);
    PrefixOfConcat(CmdWr, d);
  }

  lemma ParseFlashRead(d: seq<byte>, n: nat, pl: nat)
    requires n < U32
    ensures Parse(FlashPrefix + CmdRd + Block(n) + d, pl) == RouteFlash(CmdRd + Block(n) + d, pl)
    ensures RouteFlash(CmdRd + Block(n) + d, PlInactive) == FlashRead(d, n)
  {
    ParseFlashKeyword(CmdRd, Block(n), d, pl);
    SeparatorsNotInKeywords();
    ArgBlockOfBlock(CmdRd, n, d);
    RouteFlashRead(CmdRd + Block(n) + d, n, d);
  }

  lemma ParseFlashWait(n: nat, pl: nat)
    requires n < U32
    ensures Parse(FlashPrefix + CmdWait + Block(n), pl) == RouteFlash(CmdWait + Block(n), pl)
    ensures RouteFlash(CmdWait + Block(n), PlInactive) == FlashWaitReq(n)
  {
    var p := CmdWait + Block(n);
    assert Parse(FlashPrefix + CmdWait + Block(n), pl) == RouteFlash(p, pl) by {
      assert FlashPrefix + CmdWait + Block(n) == FlashPrefix + p;
      ParseFlash(p, pl);
    }
    SeparatorsNotInKeywords();
    ArgOnlyOfBlock(CmdWait, n);
    RouteFlashWait(p, n);
  }

  /** PL:FLASH:WAIT#n is routed without a closing `#` after the digits. */
  lemma FlashWaitNeedsNoClosingHash(n: nat)
    requires n < U32
    ensures Parse(FlashPrefix + CmdWait + [Hash] + Decimal(n), PlInactive) == FlashWaitReq(n)
  {
    ParseFlashKeyword(CmdWait, [Hash], Decimal(n), PlInactive);
    SeparatorsNotInKeywords();
    ArgOnlyOfDecimal(CmdWait, n);
    RouteFlashWait(CmdWait + [Hash] + Decimal(n), n);
  }

  /** A `PL:FLASH:` message written as keyword, argument and rest. */
  lemma ParseFlashKeyword(kw: seq<byte>, arg: seq<byte>, rest: seq<byte>, pl: nat)
    ensures Parse(FlashPrefix + kw + arg + rest, pl) == RouteFlash(kw + arg + rest, pl)
  {
    assert FlashPrefix + kw + arg + rest == FlashPrefix + (kw + arg + rest);
    ParseFlash(kw + arg + rest, pl);
  }

  lemma ParseFlashProgram(d: seq<byte>, n: nat, pl: nat)
    requires n < U32
    ensures Parse(FlashPrefix + CmdProg + Block(n) + d, pl) == RouteFlash(CmdProg + Block(n) + d, pl)
    ensures RouteFlash(CmdProg + Block(n) + d, PlInactive) == FlashProgram(d, n)
  {
    ParseFlashKeyword(CmdProg, Block(n), d, pl);
    SeparatorsNotInKeywords();
    ArgBlockOfBlock(CmdProg, n, d);
    RouteFlashProgram(CmdProg + Block(n) + d, n, d);
  }

  lemma ParseEcho(d: seq<byte>, pl: nat)
    ensures Parse([Colon] + CmdTest + [Colon] + CmdEcho + d, pl) == Echo(d)
  {
    var p := CmdTest + [Colon] + (CmdEcho + d);
    assert ([Colon] + CmdTest + [Colon] + CmdEcho + d)[1..] == p;
    SeparatorsNotInKeywords();
    SkipKeyword(CmdTest, Colon, CmdEcho + d);
    Exclusive(CmdPl, CmdTest, p, 0);
    PrefixOfConcat(CmdEcho, d);
  }

  lemma ParseIdn(pl: nat)
    ensures Parse([Star] + CmdIdn, pl) == IdnQuery
  {
    assert ([Star] + CmdIdn)[1..] == CmdIdn + [];
    PrefixOfConcat(CmdIdn, []);
  }

  lemma ParseEncodeFlash(cmd: Cmd, pl: nat)
    requires Encodable(cmd) && cmd.IsFlash()
    ensures Parse(Encode(cmd), pl) == if pl != PlInactive then Unhandled else cmd
  {
    match cmd
    case FlashWrite(d) => ParseFlashWrite(d, pl);
    case FlashRead(d, n) => ParseFlashRead(d, n, pl);
    case FlashWaitReq(n) => ParseFlashWait(n, pl);
    case FlashProgram(d, n) => ParseFlashProgram(d, n, pl);
  }

  lemma ParseEncodePl(cmd: Cmd, pl: nat)
    requires Encodable(cmd) && (cmd.ActiveQuery? || cmd.ActiveSet? || cmd.PlTransmit? || cmd.PlPullReq?)
    ensures Parse(Encode(cmd), pl) == cmd
  {
    match cmd
    case ActiveQuery => ParseActiveQuery(pl);
    case ActiveSet(on) =>
      var n := if on then 1 else 0;
      assert Block(n) == [Hash, if on then B('1') else B('0'), Hash];
      ParseActiveSet(n, pl);
    case PlTransmit(d) => ParsePlTransmit(d, pl);
    case PlPullReq(d, w) => ParsePlPull(d, w, pl);
  }

  /** Every command reads back from its encoding; PL:FLASH commands only while
      PL is inactive, and are refused otherwise. */
  lemma ParseEncode(cmd: Cmd, pl: nat)
    requires Encodable(cmd)
    ensures Parse(Encode(cmd), pl) == if cmd.IsFlash() && pl != PlInactive then Unhandled else cmd
  {
    if cmd.IsFlash() {
      ParseEncodeFlash(cmd, pl);
    } else if cmd.IdnQuery? {
      ParseIdn(pl);
    } else if cmd.Echo? {
      ParseEcho(cmd.data, pl);
    } else {
      ParseEncodePl(cmd, pl);
    }
  }

  /** Whatever a message routes to, the host could have written it in the
      canonical form `Encode`, which routes to the same command. */
  lemma ParseCanonical(msg: seq<byte>, pl: nat)
    requires Parse(msg, pl) != Unhandled
    ensures Encodable(Parse(msg, pl)) && Parse(Encode(Parse(msg, pl)), pl) == Parse(msg, pl)
  {
    ParseFromText(msg, pl);
    ParseEncode(Parse(msg, pl), pl);
  }

  lemma RoutePlRefusesFlash(p: seq<byte>, pl: nat)
    requires pl != PlInactive
    ensures RoutePl(p, pl) == Demote(RoutePl(p, PlInactive))
  {
  }

  lemma RouteDevRefusesFlash(p: seq<byte>, pl: nat)
    requires pl != PlInactive
    ensures RouteDev(p, pl) == Demote(RouteDev(p, PlInactive))
  {
    if PrefixMatched(CmdPl, p) && SkipThrough(Colon, p) != 0 {
      RoutePlRefusesFlash(p[SkipThrough(Colon, p)..], pl);
    }
  }

  /** While PL is active, every message routes as it would with PL inactive,
      except that PL:FLASH commands are refused. */
  lemma FlashRefusedWhilePlActive(msg: seq<byte>, pl: nat)
    requires pl != PlInactive
    ensures Parse(msg, pl) == Demote(Parse(msg, PlInactive))
    ensures !Parse(msg, pl).IsFlash()
  {
    if |msg| > 0 && msg[0] != Star {
      RouteDevRefusesFlash(if msg[0] == Colon then msg[1..] else msg, pl);
    }
  }

  /** An unknown device command is not routed anywhere. */
  lemma UnknownCommandUnhandled(pl: nat)
    ensures Parse([Colon, B('F'), B('O'), B('O'), Colon, B('B'), B('A'), B('R')], pl) == Unhandled
  {
    var p := [B('F'), B('O'), B('O'), Colon, B('B'), B('A'), B('R')];
    NotPrefix(CmdPl, p, [], 0);
    NotPrefix(CmdTest, p, [], 0);
    assert p + [] == p;
  }
}
