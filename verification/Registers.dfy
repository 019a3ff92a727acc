/** Laws of the register file and of the CC/CSTS state machine. */
module Registers {
  import opened Bytes
  import opened Queues
  import opened ControllerState

  // ---------------------------------------------------------------- the register file

  // Two reads side by side are the wider read.
  lemma AdjacentReads(r: Regs, offset: nat, a: nat, b: nat)
    requires offset + a + b <= REG_FILE_SIZE
    ensures RegRead(r, offset, a + b) == RegRead(r, offset, a) + RegRead(r, offset + a, b)
  {
    PeekSplit(RegFile(r), offset, a + b, a);
  }

  // Each writable register reads back as the little-endian bytes of its value.
  lemma AdminQueueReads(r: Regs)
    ensures RegRead(r, REG_ASQ, 8) == WrLe(8, r.asq)
    ensures RegRead(r, REG_ACQ, 8) == WrLe(8, r.acq)
    ensures RegRead(r, REG_AQA, 4) == WrLe(4, r.aqa)
  {
    var f := Poke(Zeros(REG_FILE_SIZE), REG_CAP, WrLe(8, r.cap));
    f := Poke(Poke(Poke(f, REG_VS, WrLe(4, r.vs)), REG_INTMS, WrLe(4, r.intms)), REG_INTMC, WrLe(4, r.intmc));
    f := Poke(Poke(f, REG_CC, WrLe(4, r.cc as int)), REG_CSTS, WrLe(4, r.csts as int));
    var g := Poke(f, REG_AQA, WrLe(4, r.aqa));
    var h := Poke(g, REG_ASQ, WrLe(8, r.asq));
    assert RegFile(r) == Poke(h, REG_ACQ, WrLe(8, r.acq));
    PeekWritten(f, REG_AQA, WrLe(4, r.aqa));
    PeekPast(g, REG_ASQ, WrLe(8, r.asq), REG_AQA, 4);
    PeekPast(h, REG_ACQ, WrLe(8, r.acq), REG_AQA, 4);
    PeekWritten(g, REG_ASQ, WrLe(8, r.asq));
    PeekPast(h, REG_ACQ, WrLe(8, r.acq), REG_ASQ, 8);
    PeekWritten(h, REG_ACQ, WrLe(8, r.acq));
  }

  // So do the capability, version, interrupt-mask, configuration and status registers.
  lemma LowRegisterReads(r: Regs)
    ensures RegRead(r, REG_CAP, 8) == WrLe(8, r.cap) && RegRead(r, REG_VS, 4) == WrLe(4, r.vs)
    ensures RegRead(r, REG_INTMS, 4) == WrLe(4, r.intms) && RegRead(r, REG_INTMC, 4) == WrLe(4, r.intmc)
    ensures RegRead(r, REG_CC, 4) == WrLe(4, r.cc as int) && RegRead(r, REG_CSTS, 4) == WrLe(4, r.csts as int)
  {
  }

  lemma AdminQueueBytes(r: Regs, data: seq<byte>)
    requires |data| == 8
    ensures r.asq == RdLe(data) ==> RegRead(r, REG_ASQ, 8) == data
    ensures r.acq == RdLe(data) ==> RegRead(r, REG_ACQ, 8) == data
  {
    ReadThenWrite(data);
    AdminQueueReads(r);
  }

  lemma AdminQueueWrite(c: Ctrl, reg: nat, v: u64)
    requires |c.sq| == |c.cq| == MAX_QUEUES && reg in {REG_ASQ, REG_ACQ}
    ensures RegWrite(c, reg, v, 8) == c.(r := if reg == REG_ASQ then c.r.(asq := v) else c.r.(acq := v))
  {
  }

  // What is written to ASQ or ACQ with one 8-byte access is what an 8-byte read returns.
  lemma AdminQueueReadBack(c: Ctrl, reg: nat, data: seq<byte>)
    requires |c.sq| == |c.cq| == MAX_QUEUES && reg in {REG_ASQ, REG_ACQ} && |data| == 8
    ensures RdLe(data) < TWO64
    ensures RegRead(RegWrite(c, reg, RdLe(data), 8).r, reg, 8) == data
  {
    Pow256Widths();
    AdminQueueWrite(c, reg, RdLe(data));
    AdminQueueBytes(RegWrite(c, reg, RdLe(data), 8).r, data);
  }

  lemma WordBytes(r: Regs, data: seq<byte>)
    requires |data| == 4
    ensures r.intms == RdLe(data) ==> RegRead(r, REG_INTMS, 4) == data
    ensures r.intmc == RdLe(data) ==> RegRead(r, REG_INTMC, 4) == data
    ensures r.aqa == RdLe(data) ==> RegRead(r, REG_AQA, 4) == data
    ensures r.cc as int == RdLe(data) ==> RegRead(r, REG_CC, 4) == data
  {
    ReadThenWrite(data);
    LowRegisterReads(r);
    AdminQueueReads(r);
  }

  lemma WordWrite(c: Ctrl, reg: nat, v: u32)
    requires |c.sq| == |c.cq| == MAX_QUEUES && reg in {REG_INTMS, REG_INTMC, REG_AQA}
    ensures RegWrite(c, reg, v, 4).r == if reg == REG_INTMS then c.r.(intms := v)
                                        else if reg == REG_INTMC then c.r.(intmc := v) else c.r.(aqa := v)
  {
  }

  lemma CcWrite(c: Ctrl, v: u32)
    requires |c.sq| == |c.cq| == MAX_QUEUES
    ensures RegWrite(c, REG_CC, v, 4).r.cc as int == v
  {
    assert RegWrite(c, REG_CC, v, 4) == WriteCc(c, (v % TWO32) as bv32);
    assert WriteCc(c, (v % TWO32) as bv32).r.cc == (v % TWO32) as bv32;
  }

  // So is what is written to a 4-byte register.
  lemma WordReadBack(c: Ctrl, reg: nat, data: seq<byte>)
    requires |c.sq| == |c.cq| == MAX_QUEUES && reg in {REG_INTMS, REG_INTMC, REG_CC, REG_AQA} && |data| == 4
    ensures RdLe(data) < TWO32
    ensures RegRead(RegWrite(c, reg, RdLe(data), 4).r, reg, 4) == data
  {
    Pow256Widths();
    if reg == REG_CC {
      CcWrite(c, RdLe(data));
    } else {
      WordWrite(c, reg, RdLe(data));
    }
    WordBytes(RegWrite(c, reg, RdLe(data), 4).r, data);
  }

  lemma LowThenHigh(reg: u64, x: u32, y: u32)
    ensures SetHigh(SetLow(reg, x), y) == x + TWO32 * y
  {
    DivModUnique(reg / TWO32 * TWO32 + x, TWO32, reg / TWO32, x);
  }

  lemma HighThenLow(reg: u64, x: u32, y: u32)
    ensures SetLow(SetHigh(reg, y), x) == x + TWO32 * y
  {
    DivModUnique(reg % TWO32 + y * TWO32, TWO32, y, reg % TWO32);
  }

  // Two 4-byte writes, in either order, are one 8-byte write.
  lemma HalvesMakeWhole(reg: u64, lo: seq<byte>, hi: seq<byte>)
    requires |lo| == |hi| == 4
    ensures RdLe(lo + hi) == SetHigh(SetLow(reg, RdLe(lo)), RdLe(hi))
    ensures RdLe(lo + hi) == SetLow(SetHigh(reg, RdLe(hi)), RdLe(lo))
  {
    Pow256Widths();
    ReadConcat(lo, hi);
    LowThenHigh(reg, RdLe(lo), RdLe(hi));
    HighThenLow(reg, RdLe(lo), RdLe(hi));
  }

  lemma AdminQueueHalves(c: Ctrl, reg: nat, lo: seq<byte>, hi: seq<byte>)
    requires CtrlOk(c) && reg in {REG_ASQ, REG_ACQ} && |lo| == |hi| == 4
    ensures RdLe(lo) < TWO64 && RdLe(hi) < TWO64 && RdLe(lo + hi) < TWO64
    ensures RegWrite(RegWrite(c, reg, RdLe(lo), 4), reg + 4, RdLe(hi), 4) == RegWrite(c, reg, RdLe(lo + hi), 8)
    ensures RegWrite(RegWrite(c, reg + 4, RdLe(hi), 4), reg, RdLe(lo), 4) == RegWrite(c, reg, RdLe(lo + hi), 8)
  {
    Pow256Widths();
    HalvesMakeWhole(c.r.asq, lo, hi);
    HalvesMakeWhole(c.r.acq, lo, hi);
  }

  // ---------------------------------------------------------------- CC and CSTS

  ghost predicate AnyEnabled(c: Ctrl)
    requires |c.sq| == |c.cq| == MAX_QUEUES
  {
    exists q :: 0 <= q < MAX_QUEUES && (c.sq[q].enabled || c.cq[q].enabled)
  }

  // RDY mirrors EN; SHST is normal or complete; complete means a shutdown is requested and every queue is down;
  // an enabled queue means EN; the admin queues go up and down together, and complete to each other.
  ghost predicate CstsOk(c: Ctrl)
    requires |c.sq| == |c.cq| == MAX_QUEUES
  {
    match c
    case Ctrl(r, sq, cq, _) =>
      && (r.csts == 0 || r.csts == 1 || r.csts == 8 || r.csts == 9)
      && (r.csts & CSTS_RDY != 0 <==> Enabled(r.cc))
      && (r.csts & CSTS_SHST_MASK == CSTS_SHST_COMPLETE ==> ShuttingDown(r.cc) && !AnyEnabled(c))
      && (AnyEnabled(c) ==> Enabled(r.cc))
      && sq[0].enabled == cq[0].enabled && (sq[0].enabled ==> sq[0].cqid == 0)
  }

  lemma NewCstsOk(maxKeys: nat)
    ensures CstsOk(NewCtrl(maxKeys))
  {
  }

  lemma DownIsDown(c: Ctrl)
    requires |c.sq| == |c.cq| == MAX_QUEUES
    ensures !AnyEnabled(QueuesDown(c)) && !AnyEnabled(Disable(c))
  {
  }

  lemma CstsBits(x: bv32)
    requires x == 0 || x == 1 || x == 8 || x == 9
    ensures ClearStatus(x) == 0
    ensures ShutdownNormal(x) == x & CSTS_RDY == (if x == 1 || x == 9 then 1 else 0)
    ensures ShutdownComplete(x) == if x == 1 || x == 9 then 9 else 8
    ensures x & CSTS_SHST_MASK == if x == 8 || x == 9 then CSTS_SHST_COMPLETE else 0
  {
  }

  // What holds between the two halves of a CC write, while CSTS still reflects the old shutdown request.
  ghost predicate BetweenEdges(d: Ctrl, was: bv32)
    requires |d.sq| == |d.cq| == MAX_QUEUES
  {
    match d
    case Ctrl(r, sq, cq, _) =>
      && (r.csts == 0 || r.csts == 1 || r.csts == 8 || r.csts == 9)
      && (r.csts & CSTS_RDY != 0 <==> Enabled(r.cc))
      && (r.csts & CSTS_SHST_MASK == CSTS_SHST_COMPLETE ==> ShuttingDown(was) && !AnyEnabled(d))
      && (AnyEnabled(d) ==> Enabled(r.cc))
      && sq[0].enabled == cq[0].enabled && (sq[0].enabled ==> sq[0].cqid == 0)
  }

  lemma EnableEdgeCsts(c: Ctrl, v: bv32)
    requires |c.sq| == |c.cq| == MAX_QUEUES && CstsOk(c)
    ensures var d := EnableEdge(c.(r := c.r.(cc := v)), c.r.cc, v);
            BetweenEdges(d, c.r.cc) && d.r.cc == v
  {
    CstsBits(c.r.csts);
    var w := c.(r := c.r.(cc := v));
    DownIsDown(w);
    assert AnyEnabled(w) == AnyEnabled(c);
  }

  lemma ShutdownEdgeCsts(d: Ctrl, was: bv32)
    requires |d.sq| == |d.cq| == MAX_QUEUES && BetweenEdges(d, was)
    ensures CstsOk(ShutdownEdge(d, was, d.r.cc))
  {
    CstsBits(d.r.csts);
    DownIsDown(d);
    var e := ShutdownEdge(d, was, d.r.cc);
    if ShuttingDown(d.r.cc) && !ShuttingDown(was) {
      assert !AnyEnabled(e) by { assert e.sq == QueuesDown(d).sq && e.cq == QueuesDown(d).cq; }
    } else {
      assert AnyEnabled(e) == AnyEnabled(d) by { assert e.sq == d.sq && e.cq == d.cq; }
    }
  }

  lemma WriteCcCsts(c: Ctrl, v: bv32)
    requires |c.sq| == |c.cq| == MAX_QUEUES && CstsOk(c)
    ensures CstsOk(WriteCc(c, v))
  {
    EnableEdgeCsts(c, v);
    ShutdownEdgeCsts(EnableEdge(c.(r := c.r.(cc := v)), c.r.cc, v), c.r.cc);
  }

  // ---------------------------------------------------------------- writes that change nothing but CC

  function CcWrites(c: Ctrl, vs: seq<bv32>): Ctrl
    requires |c.sq| == |c.cq| == MAX_QUEUES
    decreases |vs|
  {
    if vs == [] then c
    else
      var d := WriteCc(c, vs[0]);
      assert |d.sq| == |d.cq| == MAX_QUEUES;
      CcWrites(d, vs[1..])
  }

  // Read-modify-write polling of CC that keeps EN, and keeps SHN zero or keeps it nonzero, is invisible except in CC.
  lemma {:induction false} PreservedShnStutters(c: Ctrl, vs: seq<bv32>)
    requires |c.sq| == |c.cq| == MAX_QUEUES && vs != []
    requires forall i :: 0 <= i < |vs| ==>
      Enabled(vs[i]) == Enabled(c.r.cc) && ShuttingDown(vs[i]) == ShuttingDown(c.r.cc)
    ensures CcWrites(c, vs) == c.(r := c.r.(cc := vs[|vs| - 1]))
    decreases |vs|
  {
    var d := WriteCc(c, vs[0]);
    assert d == c.(r := c.r.(cc := vs[0]));
    if |vs| > 1 {
      PreservedShnStutters(d, vs[1..]);
    }
  }

  // A single write leaves the queues and CSTS alone exactly when it changes neither EN nor whether SHN is zero,
  // for a controller whose queues and status would show the difference.
  lemma VisibleWrite(c: Ctrl, v: bv32)
    requires |c.sq| == |c.cq| == MAX_QUEUES && CstsOk(c)
    ensures WriteCc(c, v) == c.(r := c.r.(cc := v))
      <==> Enabled(v) == Enabled(c.r.cc)
           && (ShuttingDown(v) == ShuttingDown(c.r.cc)
               || (ShuttingDown(c.r.cc) && c.r.csts & CSTS_SHST_MASK == 0))
  {
    CstsBits(c.r.csts);
    var d := EnableEdge(c.(r := c.r.(cc := v)), c.r.cc, v);
    EnableEdgeCsts(c, v);
    CstsBits(d.r.csts);
  }

  lemma EnableTable(c: Ctrl)
    requires |c.sq| == |c.cq| == MAX_QUEUES
    ensures var d := Enable(c);
            && d.r == c.r.(csts := 0x1) && d.ns == c.ns
            && d.sq == c.sq[0 := Sq(c.r.asq, c.r.aqa % 4096 + 1, 0, 0, 0, 0, true)]
            && d.cq == c.cq[0 := Cq(c.r.acq, c.r.aqa / 65536 % 4096 + 1, 0, 0, 0, 1, 0, true)]
  {
  }

  lemma EnableEdgeTable(c: Ctrl, was: bv32, v: bv32)
    requires |c.sq| == |c.cq| == MAX_QUEUES
    ensures var (d, en, wasEn) := (EnableEdge(c, was, v), v & 0x1 != 0, was & 0x1 != 0);
            && d.r == c.r.(csts := if en == wasEn then c.r.csts else if en then 0x1 else ClearStatus(c.r.csts))
            && d.ns == c.ns && (en == wasEn ==> d == c)
            && (en && !wasEn ==> d.sq == c.sq[0 := Sq(c.r.asq, c.r.aqa % 4096 + 1, 0, 0, 0, 0, true)])
            && (en && !wasEn ==> d.cq == c.cq[0 := Cq(c.r.acq, c.r.aqa / 65536 % 4096 + 1, 0, 0, 0, 1, 0, true)])
            && (!en && wasEn ==> !AnyEnabled(d))
  {
    if Enabled(v) && !Enabled(was) {
      EnableTable(c);
    } else if !Enabled(v) && Enabled(was) {
      DownIsDown(c);
    }
  }

  lemma ShutdownEdgeTable(c: Ctrl, was: bv32, v: bv32)
    requires |c.sq| == |c.cq| == MAX_QUEUES
    ensures var (d, shn, wasShn) := (ShutdownEdge(c, was, v), v & 0xc000 != 0, was & 0xc000 != 0);
            && d.r == c.r.(csts := if shn == wasShn then c.r.csts
                                   else if shn then ShutdownComplete(c.r.csts) else ShutdownNormal(c.r.csts))
            && d.ns == c.ns
            && if shn && !wasShn then !AnyEnabled(d) else d.sq == c.sq && d.cq == c.cq
  {
    if ShuttingDown(v) && !ShuttingDown(was) {
      DownIsDown(c);
      StaysDown(QueuesDown(c), ShutdownEdge(c, was, v));
    }
  }

  // What a CC write does to CSTS: RDY is the new EN; SHST becomes complete when SHN rises, and normal when SHN falls or
  // EN changes.
  lemma CcTable(c: Ctrl, v: bv32)
    requires |c.sq| == |c.cq| == MAX_QUEUES && CstsOk(c)
    ensures var (en, wasEn) := (v & 0x1 != 0, c.r.cc & 0x1 != 0);
            var (shn, wasShn) := (v & 0xc000 != 0, c.r.cc & 0xc000 != 0);
            var rdy: bv32 := if en then 0x1 else 0x0;
            var shst: bv32 :=
              if shn && !wasShn then 0x8 else if (!shn && wasShn) || en != wasEn then 0x0 else c.r.csts & 0xc;
            WriteCc(c, v).r == c.r.(cc := v, csts := rdy | shst)
  {
    var w := c.(r := c.r.(cc := v));
    EnableEdgeTable(w, c.r.cc, v);
    ShutdownEdgeTable(EnableEdge(w, c.r.cc, v), c.r.cc, v);
    CstsNext(c.r.csts, c.r.cc & 0x1 != 0, v & 0x1 != 0, c.r.cc & 0xc000 != 0, v & 0xc000 != 0);
  }

  lemma CstsNext(x: bv32, wasEn: bool, en: bool, wasShn: bool, shn: bool)
    requires (x == 0 || x == 1 || x == 8 || x == 9) && (x & 0x1 != 0 <==> wasEn)
    ensures var y: bv32 := if en == wasEn then x else if en then 0x1 else ClearStatus(x);
            var z: bv32 := if shn == wasShn then y else if shn then ShutdownComplete(y) else ShutdownNormal(y);
            var rdy: bv32 := if en then 0x1 else 0x0;
            var shst: bv32 := if shn && !wasShn then 0x8 else if (!shn && wasShn) || en != wasEn then 0x0 else x & 0xc;
            z == rdy | shst
  {
  }

  // What it does to the queues: a rising SHN or a falling EN takes all of them down; a rising EN brings up the admin
  // pair alone, on the addresses in ASQ and ACQ; anything else leaves them.
  lemma CcQueues(c: Ctrl, v: bv32)
    requires |c.sq| == |c.cq| == MAX_QUEUES && CstsOk(c)
    ensures var (en, wasEn) := (v & 0x1 != 0, c.r.cc & 0x1 != 0);
            var (shn, wasShn) := (v & 0xc000 != 0, c.r.cc & 0xc000 != 0);
            var d := WriteCc(c, v);
            if (shn && !wasShn) || (!en && wasEn) then !AnyEnabled(d)
            else if en && !wasEn then
              && d.sq[0] == Sq(c.r.asq, c.r.aqa % 4096 + 1, 0, 0, 0, 0, true)
              && d.cq[0] == Cq(c.r.acq, c.r.aqa / 65536 % 4096 + 1, 0, 0, 0, 1, 0, true)
              && forall q :: 0 < q < MAX_QUEUES ==> !d.sq[q].enabled && !d.cq[q].enabled
            else d.sq == c.sq && d.cq == c.cq
  {
    var w := c.(r := c.r.(cc := v));
    var d := EnableEdge(w, c.r.cc, v);
    EnableEdgeTable(w, c.r.cc, v);
    ShutdownEdgeTable(d, c.r.cc, v);
    assert AnyEnabled(WriteCc(c, v)) ==> !(v & 0xc000 != 0 && c.r.cc & 0xc000 == 0);
    NoneBefore(c);
    if v & 0x1 == 0 && c.r.cc & 0x1 != 0 {
      StaysDown(d, WriteCc(c, v));
    }
  }

  lemma NoneBefore(c: Ctrl)
    requires |c.sq| == |c.cq| == MAX_QUEUES && CstsOk(c)
    ensures c.r.cc & 0x1 == 0 ==> forall q :: 0 <= q < MAX_QUEUES ==> !c.sq[q].enabled && !c.cq[q].enabled
  {
    if c.r.cc & 0x1 == 0 {
      assert !AnyEnabled(c);
    }
  }

  lemma StaysDown(c: Ctrl, d: Ctrl)
    requires |c.sq| == |c.cq| == |d.sq| == |d.cq| == MAX_QUEUES && !AnyEnabled(c)
    requires !AnyEnabled(d) || (d.sq == c.sq && d.cq == c.cq)
    ensures !AnyEnabled(d)
  {
  }

  // Clearing SHN while EN stays set clears SHST but leaves every queue down.
  lemma ShutdownCleared(c: Ctrl, v: bv32)
    requires |c.sq| == |c.cq| == MAX_QUEUES && CstsOk(c)
    requires c.r.csts & CSTS_SHST_MASK == CSTS_SHST_COMPLETE && Enabled(c.r.cc) && Enabled(v) && !ShuttingDown(v)
    ensures WriteCc(c, v).r.csts == CSTS_RDY && !AnyEnabled(WriteCc(c, v))
  {
    CstsBits(c.r.csts);
    assert WriteCc(c, v).sq == c.sq && WriteCc(c, v).cq == c.cq;
  }

  // Dropping EN and raising it again without a shutdown request recovers any reachable state: ready, no shutdown
  // status, a fresh admin pair on the addresses in ASQ and ACQ, and every other queue down.
  lemma EnableCycle(c: Ctrl, off: bv32, on: bv32)
    requires |c.sq| == |c.cq| == MAX_QUEUES && CstsOk(c)
    requires !Enabled(off) && Enabled(on) && !ShuttingDown(on)
    ensures var d := WriteCc(WriteCc(c, off), on);
            && d.r == c.r.(cc := on, csts := CSTS_RDY)
            && d.sq[0] == Sq(c.r.asq, c.r.aqa % 4096 + 1, 0, 0, 0, 0, true)
            && d.cq[0] == Cq(c.r.acq, c.r.aqa / 65536 % 4096 + 1, 0, 0, 0, 1, 0, true)
            && forall q :: 0 < q < MAX_QUEUES ==> !d.sq[q].enabled && !d.cq[q].enabled
  {
    var w := WriteCc(c, off);
    WriteCcCsts(c, off);
    OffKeeps(c, off);
    CcTable(w, on);
    CcQueues(w, on);
    CstsNext(w.r.csts, false, true, w.r.cc & 0xc000 != 0, false);
  }

  // Clearing EN keeps every register but CC and CSTS.
  lemma OffKeeps(c: Ctrl, off: bv32)
    requires |c.sq| == |c.cq| == MAX_QUEUES && CstsOk(c) && !Enabled(off)
    ensures WriteCc(c, off).r == c.r.(cc := off, csts := WriteCc(c, off).r.csts)
  {
    CcTable(c, off);
  }
}
