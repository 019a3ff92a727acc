/** BAR0 as the host sees it: what it writes it reads back, and what it writes is what the device acts on. */
module BarLaws {
  import opened Bytes
  import opened NvmeSpec
  import opened GuestMemory
  import opened Queues
  import opened ControllerState
  import opened Registers
  import opened Runs
  import opened Wire

  // ---------------------------------------------------------------- reading

  // Every register is at its offset.
  lemma BarRegisters(c: Ctrl)
    ensures BarRead(c, 0x00, 8) == WrLe(8, c.r.cap) && BarRead(c, 0x08, 4) == WrLe(4, c.r.vs)
    ensures BarRead(c, 0x0c, 4) == WrLe(4, c.r.intms) && BarRead(c, 0x10, 4) == WrLe(4, c.r.intmc)
    ensures BarRead(c, 0x14, 4) == WrLe(4, c.r.cc as int) && BarRead(c, 0x1c, 4) == WrLe(4, c.r.csts as int)
    ensures BarRead(c, 0x24, 4) == WrLe(4, c.r.aqa)
    ensures BarRead(c, 0x28, 8) == WrLe(8, c.r.asq) && BarRead(c, 0x30, 8) == WrLe(8, c.r.acq)
  {
    LowRegisterReads(c.r);
    AdminQueueReads(c.r);
  }

  // A read inside the register file is a slice of it; everything else reads as zeros.
  lemma BarSlices(c: Ctrl, offset: nat, count: nat)
    ensures offset + count <= 0x40 ==> BarRead(c, offset, count) == BarRead(c, 0, 0x40)[offset..offset + count]
    ensures offset + count > 0x40 ==> BarRead(c, offset, count) == Zeros(count)
  {
  }

  // Bytes of the register file that belong to no register are zero.
  lemma BarReserved(c: Ctrl, x: nat)
    requires 0x18 <= x < 0x1c || 0x20 <= x < 0x24 || 0x38 <= x < 0x40
    ensures BarRead(c, x, 1) == [0]
  {
  }

  // ---------------------------------------------------------------- writing, then reading

  // The registers a host writes in one piece.
  predicate Writable(offset: nat, n: nat) {
    || ((offset == 0x0c || offset == 0x10 || offset == 0x14 || offset == 0x24) && n == 4)
    || ((offset == 0x28 || offset == 0x30) && n == 8)
  }

  // What is written is read back, at the same offset.
  lemma BarReadBack(env: Env, s: Sys, offset: nat, data: seq<byte>)
    requires CtrlOk(s.c) && Writable(offset, |data|)
    ensures WriteAllowed(s.c, offset, data)
    ensures BarRead(BarWrite(env, s, offset, data).0.c, offset, |data|) == data
  {
    PowBound(|data|);
    if |data| == 8 {
      AdminQueueReadBack(s.c, offset, data);
    } else {
      WordReadBack(s.c, offset, data);
    }
  }

  // A write to a register changes no other register, except that a write to CC may change CSTS; it serves no command
  // and leaves the namespace and guest memory alone.
  lemma BarWriteAlone(env: Env, s: Sys, offset: nat, data: seq<byte>)
    requires CtrlOk(s.c) && Writable(offset, |data|)
    ensures WriteAllowed(s.c, offset, data)
    ensures var (s', log) := BarWrite(env, s, offset, data);
            var (r, r') := (s.c.r, s'.c.r);
            && log == [] && s'.mem == s.mem && s'.now == s.now && s'.c.ns == s.c.ns
            && r'.cap == r.cap && r'.vs == r.vs
            && (offset != 0x0c ==> r'.intms == r.intms) && (offset != 0x10 ==> r'.intmc == r.intmc)
            && (offset != 0x14 ==> r'.cc == r.cc && r'.csts == r.csts && s'.c.sq == s.c.sq && s'.c.cq == s.c.cq)
            && (offset != 0x24 ==> r'.aqa == r.aqa)
            && (offset != 0x28 ==> r'.asq == r.asq) && (offset != 0x30 ==> r'.acq == r.acq)
  {
    PowBound(|data|);
    RegWriteKeeps(s.c, offset, RdLe(data), |data|);
    WriteCcKeeps(s.c, (RdLe(data) % TWO32) as bv32);
  }

  // The two halves of ASQ and ACQ, in either order, then read whole.
  lemma BarHalves(env: Env, s: Sys, offset: nat, lo: seq<byte>, hi: seq<byte>)
    requires CtrlOk(s.c) && (offset == 0x28 || offset == 0x30) && |lo| == |hi| == 4
    ensures var a := BarWrite(env, s, offset, lo).0;
            CtrlOk(a.c) && BarRead(BarWrite(env, a, offset + 4, hi).0.c, offset, 8) == lo + hi
    ensures var b := BarWrite(env, s, offset + 4, hi).0;
            CtrlOk(b.c) && BarRead(BarWrite(env, b, offset, lo).0.c, offset, 8) == lo + hi
  {
    PowBound(4);
    PowBound(8);
    AdminQueueHalves(s.c, offset, lo, hi);
    AdminQueueReadBack(s.c, offset, lo + hi);
    RegWriteKeeps(s.c, offset, RdLe(lo), 4);
    RegWriteKeeps(s.c, offset + 4, RdLe(hi), 4);
  }

  // CAP, VS, CSTS and the bytes between registers cannot be written.
  lemma BarIgnores(env: Env, s: Sys, offset: nat, data: seq<byte>)
    requires CtrlOk(s.c) && |data| <= 8 && offset < 0x1000
    requires offset !in {0x0c, 0x10, 0x14, 0x24, 0x28, 0x2c, 0x30, 0x34}
    ensures WriteAllowed(s.c, offset, data) && BarWrite(env, s, offset, data) == (s, [])
  {
  }

  lemma {:induction false} ZeroNumber(n: nat)
    ensures RdLe(Zeros(n)) == 0 && WrLe(n, 0) == Zeros(n)
  {
    if n > 0 {
      ZeroNumber(n - 1);
      assert Zeros(n)[1..] == Zeros(n - 1);
    }
  }

  lemma LowPart(word: seq<byte>, high: seq<byte>)
    requires |word| == 4
    ensures RdLe(word + high) % TWO32 == RdLe(word)
  {
    Pow256Widths();
    ReadConcat(word, high);
    DivModUnique(RdLe(word + high), TWO32, RdLe(high), RdLe(word));
  }

  lemma Padded(data: seq<byte>, k: nat)
    ensures RdLe(data + Zeros(k)) == RdLe(data)
  {
    ReadConcat(data, Zeros(k));
    ZeroNumber(k);
  }

  // The low four bytes of a number.
  lemma LowFour(data: seq<byte>, word: seq<byte>)
    requires word == if |data| < 4 then data + Zeros(4 - |data|) else data[..4]
    ensures |word| == 4 && RdLe(word) == RdLe(data) % TWO32
  {
    if |data| < 4 {
      Padded(data, 4 - |data|);
      LowPart(word, []);
      assert word + [] == word;
    } else {
      LowPart(word, data[4..]);
      assert data == word + data[4..];
    }
  }

  // A write of any width acts as a write of its low four bytes, filled up with zeros; only ASQ and ACQ take eight.
  lemma BarWidths(env: Env, s: Sys, offset: nat, data: seq<byte>, word: seq<byte>)
    requires CtrlOk(s.c) && |data| <= 8 && offset < 0x1000
    requires !(|data| == 8 && (offset == 0x28 || offset == 0x30))
    requires word == if |data| < 4 then data + Zeros(4 - |data|) else data[..4]
    ensures WriteAllowed(s.c, offset, data) && WriteAllowed(s.c, offset, word)
    ensures BarWrite(env, s, offset, data) == BarWrite(env, s, offset, word)
  {
    LowFour(data, word);
    PowBound(|data|);
    PowBound(4);
    SameWrite(s.c, offset, RdLe(data), RdLe(word), |data|, 4);
  }

  lemma SameWrite(c: Ctrl, offset: nat, v: u64, w: u64, m: nat, n: nat)
    requires |c.sq| == |c.cq| == MAX_QUEUES && w % TWO32 == v % TWO32
    requires (m == 8 || n == 8) ==> offset != REG_ASQ && offset != REG_ACQ
    ensures RegWrite(c, offset, v, m) == RegWrite(c, offset, w, n)
  {
  }

  // ---------------------------------------------------------------- power-on and reset

  // Between VS and the end of the register file everything reads as zero.
  ghost predicate Cleared(c: Ctrl) { forall x :: 0x0c <= x < 0x40 ==> BarRead(c, x, 1) == [0] }

  lemma ZeroRegisters(c: Ctrl)
    requires c.r == Regs(c.r.cap, c.r.vs, 0, 0, 0, 0, 0, 0, 0)
    ensures Cleared(c)
  {
    ZeroNumber(4);
    ZeroNumber(8);
  }

  // At power-on, and after a device reset, every register but CAP and VS is clear and every queue is down.
  lemma ResetReads(c: Ctrl)
    requires |c.sq| == |c.cq| == MAX_QUEUES
    ensures Cleared(ResetCtrl(c)) && BarRead(ResetCtrl(c), 0, 0x0c) == BarRead(c, 0, 0x0c)
    ensures !AnyEnabled(ResetCtrl(c)) && ResetCtrl(c).ns == c.ns
  {
    ZeroRegisters(ResetCtrl(c));
    DownIsDown(c);
    StaysDown(Disable(c), ResetCtrl(c));
  }

  lemma PowerOnReads(maxKeys: nat, mem: seq<byte>)
    ensures Cleared(PowerOn(maxKeys, mem).c) && !AnyEnabled(PowerOn(maxKeys, mem).c)
  {
    ZeroRegisters(PowerOn(maxKeys, mem).c);
  }

  // ---------------------------------------------------------------- enabling

  // The admin pair is fresh, with its rings at the given addresses and of the given sizes: the next admin fetch and the
  // next admin completion use their first slots.
  ghost predicate AdminPair(c: Ctrl, sqAt: nat, sqSize: nat, cqAt: nat, cqSize: nat)
    requires |c.sq| == |c.cq| == MAX_QUEUES
  {
    match c
    case Ctrl(_, sqs, cqs, _) =>
      var (sq, cq) := (sqs[0], cqs[0]);
      && sq.enabled && SqeAddr(sq) == sqAt && sq.size == sqSize
      && cq.enabled && CqeAddr(cq) == cqAt && cq.size == cqSize
      && sq.head == sq.tail == cq.head == cq.tail == 0 && sq.cqid == 0 && cq.phase == 1
  }

  // The admin queues are where ASQ and ACQ, as the host reads them, say, and as long as AQA says.
  ghost predicate AdminQueuesFollow(before: Ctrl, after: Ctrl)
    requires |after.sq| == |after.cq| == MAX_QUEUES
  {
    AdminPair(after, RdLe(BarRead(before, 0x28, 8)), RdLe(BarRead(before, 0x24, 2)) % 4096 + 1,
              RdLe(BarRead(before, 0x30, 8)), RdLe(BarRead(before, 0x26, 2)) % 4096 + 1)
  }

  lemma FirstSlots(dma: u64, n: nat)
    ensures (dma + 0 * n) % TWO64 == dma
  {
  }

  lemma FollowsFrom(before: Ctrl, after: Ctrl)
    requires |after.sq| == |after.cq| == MAX_QUEUES
    requires after.sq[0] == Sq(before.r.asq, before.r.aqa % 4096 + 1, 0, 0, 0, 0, true)
    requires after.cq[0] == Cq(before.r.acq, before.r.aqa / 65536 % 4096 + 1, 0, 0, 0, 1, 0, true)
    ensures AdminQueuesFollow(before, after)
  {
    QueueRegisters(before);
    LowTwelve(before.r.aqa);
    FirstSlots(before.r.asq, SQE_SIZE);
    FirstSlots(before.r.acq, CQE_SIZE);
  }

  lemma EnableFollows(c: Ctrl, d: Ctrl, v: bv32)
    requires |c.sq| == |c.cq| == MAX_QUEUES && CstsOk(c) && c.r.cc & 0x1 == 0 && v & 0x1 != 0 && v & 0xc000 == 0
    requires d == WriteCc(c, v)
    ensures |d.sq| == |d.cq| == MAX_QUEUES && AdminQueuesFollow(c, d)
  {
    CcQueues(c, v);
    FollowsFrom(c, d);
  }

  // A write to CC that sets EN, and asks for no shutdown, on a disabled controller.
  lemma EnableByBar(env: Env, s: Sys, cc: seq<byte>, w: u32, v: bv32)
    requires CtrlOk(s.c) && CstsOk(s.c) && |cc| == 4 && s.c.r.cc & 0x1 == 0
    requires RdLe(cc) == w && v == w as bv32 && v & 0x1 != 0 && v & 0xc000 == 0
    ensures WriteAllowed(s.c, 0x14, cc)
    ensures var c := BarWrite(env, s, 0x14, cc).0.c;
            |c.sq| == |c.cq| == MAX_QUEUES && AdminQueuesFollow(s.c, c)
  {
    CcByBar(env, s, cc, w, v);
    EnableFollows(s.c, BarWrite(env, s, 0x14, cc).0.c, v);
  }

  lemma CcByBar(env: Env, s: Sys, cc: seq<byte>, w: u32, v: bv32)
    requires CtrlOk(s.c) && |cc| == 4 && RdLe(cc) == w && v == w as bv32
    ensures WriteAllowed(s.c, 0x14, cc) && BarWrite(env, s, 0x14, cc).0.c == WriteCc(s.c, v)
  {
    BarWriteRegister(env, s, 0x14, cc, w);
    CcWord(s.c, w, v);
  }

  lemma BarWriteRegister(env: Env, s: Sys, offset: nat, data: seq<byte>, v: u64)
    requires CtrlOk(s.c) && offset < 0x1000 && |data| <= 8 && v == RdLe(data)
    ensures WriteAllowed(s.c, offset, data)
    ensures BarWrite(env, s, offset, data) == (s.(c := RegWrite(s.c, offset, v, |data|)), [])
  {
  }

  lemma CcWord(c: Ctrl, w: u32, v: bv32)
    requires |c.sq| == |c.cq| == MAX_QUEUES && v == w as bv32
    ensures RegWrite(c, 0x14, w, 4) == WriteCc(c, v)
  {
    SmallWord(w);
  }

  lemma SmallWord(w: u32)
    ensures w % TWO32 == w
  {
  }

  // ASQ, ACQ and the two halves of AQA, as numbers.
  lemma QueueRegisters(c: Ctrl)
    ensures RdLe(BarRead(c, 0x28, 8)) == c.r.asq && RdLe(BarRead(c, 0x30, 8)) == c.r.acq
    ensures RdLe(BarRead(c, 0x24, 2)) == c.r.aqa % 0x1_0000 && RdLe(BarRead(c, 0x26, 2)) == c.r.aqa / 0x1_0000
  {
    BarRegisters(c);
    Number(8, c.r.asq);
    Number(8, c.r.acq);
    Number(4, c.r.aqa);
    AdjacentReads(c.r, 0x24, 2, 2);
    TwoHalves(BarRead(c, 0x24, 2), BarRead(c, 0x26, 2));
  }

  // What a write of v to AQA, ASQ or ACQ makes of the registers.
  function WithQueue(r: Regs, offset: nat, v: u64): Regs
    requires v < TWO32 || offset != 0x24
  {
    if offset == 0x24 then r.(aqa := v) else if offset == 0x28 then r.(asq := v) else r.(acq := v)
  }

  lemma QueueWrite(c: Ctrl, offset: nat, v: u64, n: nat)
    requires CtrlOk(c) && CstsOk(c)
    requires (offset == 0x24 && n == 4 && v < TWO32) || ((offset == 0x28 || offset == 0x30) && n == 8)
    ensures var d := RegWrite(c, offset, v, n);
            CtrlOk(d) && CstsOk(d) && d.r == WithQueue(c.r, offset, v)
  {
    RegWriteCsts(c, offset, v, n);
    if offset == 0x24 {
      WordWrite(c, offset, v);
    } else {
      AdminQueueWrite(c, offset, v);
    }
  }

  lemma QueueRegisterWrite(env: Env, s: Sys, offset: nat, data: seq<byte>, v: u64)
    requires CtrlOk(s.c) && CstsOk(s.c) && RdLe(data) == v
    requires (offset == 0x24 && |data| == 4 && v < TWO32) || ((offset == 0x28 || offset == 0x30) && |data| == 8)
    ensures WriteAllowed(s.c, offset, data)
    ensures var c := BarWrite(env, s, offset, data).0.c;
            CtrlOk(c) && CstsOk(c) && c.r == WithQueue(s.c.r, offset, v)
  {
    BarWriteRegister(env, s, offset, data, v);
    QueueWrite(s.c, offset, v, |data|);
  }

  // A host brings a disabled controller up: the admin queues are at the addresses it wrote to ASQ and ACQ, with the
  // sizes it wrote to AQA.
  lemma HostEnables(env: Env, s: Sys, aqa: seq<byte>, asq: seq<byte>, acq: seq<byte>, cc: seq<byte>, w: u32, v: bv32)
    requires CtrlOk(s.c) && CstsOk(s.c) && s.c.r.cc & 0x1 == 0
    requires |aqa| == |cc| == 4 && |asq| == |acq| == 8
    requires RdLe(cc) == w && v == w as bv32 && v & 0x1 != 0 && v & 0xc000 == 0
    ensures var es := [Write(0x24, aqa), Write(0x28, asq), Write(0x30, acq), Write(0x14, cc)];
            && HostObeys(env, s, es)
            && var c := Run(env, s, es).0.c;
               && |c.sq| == |c.cq| == MAX_QUEUES
               && AdminPair(c, RdLe(asq), RdLe(aqa[..2]) % 4096 + 1, RdLe(acq), RdLe(aqa[2..]) % 4096 + 1)
  {
    Pow256Widths();
    QueueRegisterWrite(env, s, 0x24, aqa, RdLe(aqa));
    var s1 := BarWrite(env, s, 0x24, aqa).0;
    QueueRegisterWrite(env, s1, 0x28, asq, RdLe(asq));
    var s2 := BarWrite(env, s1, 0x28, asq).0;
    QueueRegisterWrite(env, s2, 0x30, acq, RdLe(acq));
    var s3 := BarWrite(env, s2, 0x30, acq).0;
    EnableByBar(env, s3, cc, w, v);
    WordParts(aqa);
    QueueRegisters(s3.c);
    FourWrites(env, s, s1, s2, s3, aqa, asq, acq, cc);
  }

  lemma FourWrites(env: Env, s: Sys, s1: Sys, s2: Sys, s3: Sys, aqa: seq<byte>, asq: seq<byte>, acq: seq<byte>,
                   cc: seq<byte>)
    requires CtrlOk(s.c) && WriteAllowed(s.c, 0x24, aqa) && s1 == BarWrite(env, s, 0x24, aqa).0
    requires CtrlOk(s1.c) && WriteAllowed(s1.c, 0x28, asq) && s2 == BarWrite(env, s1, 0x28, asq).0
    requires CtrlOk(s2.c) && WriteAllowed(s2.c, 0x30, acq) && s3 == BarWrite(env, s2, 0x30, acq).0
    requires CtrlOk(s3.c) && WriteAllowed(s3.c, 0x14, cc)
    ensures var es := [Write(0x24, aqa), Write(0x28, asq), Write(0x30, acq), Write(0x14, cc)];
            HostObeys(env, s, es) && Run(env, s, es).0 == BarWrite(env, s3, 0x14, cc).0
  {
    var a, b, c, d := Write(0x24, aqa), Write(0x28, asq), Write(0x30, acq), Write(0x14, cc);
    RunCons(env, s, a, [b, c, d]);
    RunCons(env, s1, b, [c, d]);
    RunCons(env, s2, c, [d]);
    RunCons(env, s3, d, []);
    assert [d] + [] == [d] && [c] + [d] == [c, d] && [b] + [c, d] == [b, c, d] && [a] + [b, c, d] == [a, b, c, d];
  }

  // ---------------------------------------------------------------- doorbells

  // The value of a doorbell written with 2 or 4 bytes is the number written.
  lemma DoorbellBytes(v: u16)
    ensures DoorbellValue(WrLe(4, v)) == v && DoorbellValue(WrLe(2, v)) == v
  {
    Number(4, v);
    Number(2, v);
    SmallMods(v);
  }

  lemma HeadDoorbellAt(q: nat)
    requires q < MAX_QUEUES
    ensures DoorbellIsCq(0x1004 + 8 * q) && DoorbellQid(0x1004 + 8 * q) == q
  {
  }

  // The head doorbell of completion queue q, at offset 0x1004 + 8q, records the host's head and does nothing else.
  lemma HeadDoorbell(env: Env, s: Sys, q: nat, v: u16)
    requires CtrlOk(s.c) && q < MAX_QUEUES
    ensures var (offset, data) := (0x1004 + 8 * q, WrLe(4, v));
            && WriteAllowed(s.c, offset, data)
            && BarWrite(env, s, offset, data) == (s.(c := s.c.(cq := s.c.cq[q := s.c.cq[q].(head := v)])), [])
  {
    DoorbellBytes(v);
    HeadDoorbellAt(q);
  }

  // Doorbells of queues the device does not have, in the rest of the 16 KiB of BAR0, do nothing.
  lemma OtherDoorbells(env: Env, s: Sys, offset: nat, data: seq<byte>)
    requires CtrlOk(s.c) && |data| <= 8 && 0x1200 <= offset < 0x4000
    ensures WriteAllowed(s.c, offset, data) && BarWrite(env, s, offset, data) == (s, [])
  {
  }

  // ---------------------------------------------------------------- over runs

  lemma EnableBit(x: bv32, v: u32)
    requires v == x as int
    ensures x & 0x1 != 0 <==> v % 2 == 1
  {
    SameBits(x);
    LowBit(v);
  }

  lemma SameBits(x: bv32)
    ensures x as int as bv32 == x
  {
  }

  lemma LowBit(v: u32)
    ensures v as bv32 & 0x1 != 0 <==> v % 2 == 1
  {
  }

  // CC and CSTS as the host reads them, when the CC/CSTS invariant holds.
  lemma StatusReads(c: Ctrl)
    requires |c.sq| == |c.cq| == MAX_QUEUES && CstsOk(c)
    ensures var (cc, csts) := (RdLe(BarRead(c, 0x14, 4)), RdLe(BarRead(c, 0x1c, 4)));
            csts % 2 == cc % 2 && (csts == cc % 2 || csts == cc % 2 + 8)
  {
    BarRegisters(c);
    ReadStatus(c.r, c.r.cc as int, c.r.csts as int);
    EnableBit(c.r.cc, c.r.cc as int);
  }

  lemma ConstantReads(c: Ctrl)
    requires c.r.cap == CAP_VALUE && c.r.vs == VS_VALUE
    ensures BarRead(c, 0x00, 8) == [0xff, 0x03, 0x01, 0x0f, 0x20, 0x08, 0x00, 0x00]
    ensures BarRead(c, 0x08, 4) == [0x00, 0x00, 0x02, 0x00]
  {
    BarRegisters(c);
    CapDigits();
    VsDigits();
  }

  // What a read of BAR0 shows the host.
  function Shown(env: Env, s: Sys, offset: nat, count: nat): seq<byte>
    requires CtrlOk(s.c)
  {
    Step(env, s, Read(offset, count)).1.value
  }

  // After any run from power-on the host reads a CSTS whose RDY is the EN it reads in CC, whose SHST is normal or
  // complete, and with no other bit set; and the constants in CAP and VS.
  lemma RunReads(env: Env, maxKeys: nat, mem: seq<byte>, es: seq<Event>)
    requires maxKeys <= INT_MAX
    requires CtrlOk(PowerOn(maxKeys, mem).c) && HostObeys(env, PowerOn(maxKeys, mem), es)
    ensures var s := Run(env, PowerOn(maxKeys, mem), es).0;
            && CtrlOk(s.c)
            && var (cc, csts) := (RdLe(Shown(env, s, 0x14, 4)), RdLe(Shown(env, s, 0x1c, 4)));
            && csts % 2 == cc % 2 && (csts == cc % 2 || csts == cc % 2 + 8)
            && Shown(env, s, 0x00, 8) == [0xff, 0x03, 0x01, 0x0f, 0x20, 0x08, 0x00, 0x00]
            && Shown(env, s, 0x08, 4) == [0x00, 0x00, 0x02, 0x00]
  {
    PowerOnOk(maxKeys, mem);
    RunInvariant(env, PowerOn(maxKeys, mem), es);
    var c := Run(env, PowerOn(maxKeys, mem), es).0.c;
    StatusReads(c);
    ConstantReads(c);
  }

  lemma ReadStatus(r: Regs, cc: u32, csts: u32)
    requires r.csts == 0 || r.csts == 1 || r.csts == 8 || r.csts == 9
    requires cc == r.cc as int && csts == r.csts as int
    ensures RdLe(WrLe(4, cc)) == cc
    ensures RdLe(WrLe(4, csts))
         == (if r.csts & CSTS_RDY != 0 then 1 else 0) + (if r.csts == 8 || r.csts == 9 then 8 else 0)
  {
    Number(4, cc);
    Number(4, csts);
    StatusAsInt(r.csts);
  }

  lemma StatusAsInt(x: bv32)
    requires x == 0 || x == 1 || x == 8 || x == 9
    ensures x as int == (if x & CSTS_RDY != 0 then 1 else 0) + (if x == 8 || x == 9 then 8 else 0)
  {
    assert x == 0 ==> x as int == 0;
    assert x == 1 ==> x as int == 1;
    assert x == 8 ==> x as int == 8;
    assert x == 9 ==> x as int == 9;
  }
}
