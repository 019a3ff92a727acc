/** The key-value commands, outcome by outcome, in the bytes of their entry and the status codes on the wire. */
module KvLaws {
  import opened Bytes
  import opened NvmeSpec
  import opened GuestMemory
  import opened KvCells
  import opened KvSlots
  import opened KvMap
  import opened KvList
  import opened ControllerState

  // The raw fields of a key-value entry.
  function RawLength(e: Sqe): nat { e[44] }
  function RawSize(e: Sqe): nat { RdLe(e[40..44]) }

  function RawKey(e: Sqe): Key
    requires RawLength(e) <= 16
  {
    (e[8..16] + e[56..64])[..RawLength(e)]
  }

  // Bits 0 and 1 of the option byte.
  predicate MustExist(e: Sqe) { (e[45] as bv8) & 1 != 0 }
  predicate MustNotExist(e: Sqe) { (e[45] as bv8) & 2 != 0 }

  lemma OptionBits(ro: byte)
    ensures (ro as bv8) & 1 != 0 <==> ro % 2 == 1
    ensures (ro as bv8) & 2 != 0 <==> ro / 2 % 2 == 1
  {
  }

  lemma RawFields(e: Sqe)
    ensures var cmd := KvOf(e);
            && cmd.opcode == e[0] && cmd.kl == RawLength(e) && cmd.hbs == RawSize(e)
            && (cmd.KeyTooLong() <==> RawLength(e) > 16) && (RawLength(e) <= 16 ==> cmd.Key() == RawKey(e))
            && (cmd.OnlyIfPresent() <==> MustExist(e)) && (cmd.OnlyIfAbsent() <==> MustNotExist(e))
  {
    OptionBits(e[45]);
  }

  // The status a finished transfer gives.
  function Moved(ok: bool): u16 { if ok then 0x0000 else 0x0002 }

  // ---------------------------------------------------------------- Store

  // Sizes are refused before anything else, the key's first.
  lemma StoreSizes(ns: Ns, e: Sqe, x: Inbound, env: Env, t: nat)
    requires NsOk(ns) && DeliveredOk(KvOf(e), x) && e[0] == 0x01
    ensures RawLength(e) > 16 ==> KvExec(ns, KvOf(e), x, env, t) == (ns, Done(0x0186))
    ensures RawLength(e) <= 16 && RawSize(e) > 4096 ==> KvExec(ns, KvOf(e), x, env, t) == (ns, Done(0x0185))
  {
    RawFields(e);
  }

  // Overwriting is refused by the second option bit, and otherwise takes the delivered bytes.
  lemma StorePresent(ns: Ns, e: Sqe, x: Inbound, env: Env, t: nat)
    requires NsOk(ns) && DeliveredOk(KvOf(e), x) && e[0] == 0x01
    requires RawLength(e) <= 16 && RawSize(e) <= 4096 && RawKey(e) in Abs(ns).m
    ensures var ((ns', r), k) := (KvExec(ns, KvOf(e), x, env, t), RawKey(e));
            if MustNotExist(e) then ns' == ns && r == Done(0x0189)
            else
              && NsOk(ns') && r == Done(Moved(x.ok))
              && Abs(ns').m == Abs(ns).m[k := x.data + Abs(ns).m[k][|x.data|..]]
              && Abs(ns').layout == Abs(ns).layout && Abs(ns').ednek == Abs(ns).ednek
  {
    RawFields(e);
    KvRefines(ns, KvOf(e), x, env, t);
  }

  // An insert in raw numbers.
  lemma Inserted(ns: Ns, cmd: KvCmd, x: Inbound)
    requires NsOk(ns) && cmd.Valid() && DeliveredOk(cmd, x) && !cmd.KeyTooLong() && cmd.hbs <= MAX_VAL
    requires cmd.Key() !in Abs(ns).m && Live(ns) < ns.maxKeys
    ensures var ns' := Insert(ns, cmd, x);
            && NsOk(ns') && ns'.nuse == ns.nuse + 4112 && Abs(ns').ednek == Abs(ns).ednek
            && |ns'.slots| == (if Live(ns) == |ns.slots| then 2 * |ns.slots| else |ns.slots|)
            && |x.data| <= 4096 && Abs(ns').m == Abs(ns).m[cmd.Key() := x.data + Zeros(4096 - |x.data|)]
  {
    InsertRefines(ns, cmd, x);
    RoomRefines(ns);
    ChargeExact(ns);
    Overlaid(x.data);
  }

  // Inserting is refused by the first option bit.
  lemma StoreMustExist(ns: Ns, e: Sqe, x: Inbound, env: Env, t: nat)
    requires NsOk(ns) && DeliveredOk(KvOf(e), x) && e[0] == 0x01
    requires RawLength(e) <= 16 && RawSize(e) <= 4096 && RawKey(e) !in Abs(ns).m && MustExist(e)
    ensures KvExec(ns, KvOf(e), x, env, t) == (ns, Done(0x0187))
  {
    RawFields(e);
  }

  // It is also refused by a full namespace, and by a growth that fails.
  lemma StoreNoRoom(ns: Ns, e: Sqe, x: Inbound, env: Env, t: nat)
    requires NsOk(ns) && DeliveredOk(KvOf(e), x) && e[0] == 0x01
    requires RawLength(e) <= 16 && RawSize(e) <= 4096 && RawKey(e) !in Abs(ns).m && !MustExist(e)
    requires |Abs(ns).m| >= ns.maxKeys || (|Abs(ns).m| == |ns.slots| && !env.heap(t, 0))
    ensures KvExec(ns, KvOf(e), x, env, t) == (ns, Done(0x0181))
  {
    RawFields(e);
    StoreTests(ns, RawKey(e));
  }

  // Otherwise the key takes the delivered bytes over zeros, and is charged.
  lemma StoreAbsent(ns: Ns, e: Sqe, x: Inbound, env: Env, t: nat)
    requires NsOk(ns) && DeliveredOk(KvOf(e), x) && e[0] == 0x01
    requires RawLength(e) <= 16 && RawSize(e) <= 4096 && RawKey(e) !in Abs(ns).m
    requires !MustExist(e) && |Abs(ns).m| < ns.maxKeys && (|Abs(ns).m| < |ns.slots| || env.heap(t, 0))
    ensures var ((ns', r), k) := (KvExec(ns, KvOf(e), x, env, t), RawKey(e));
            && NsOk(ns') && r == Done(Moved(x.ok)) && ns'.nuse == ns.nuse + 4112
            && |x.data| <= 4096 && Abs(ns').m == Abs(ns).m[k := x.data + Zeros(4096 - |x.data|)]
            && |ns'.slots| == (if |Abs(ns).m| == |ns.slots| then 2 * |ns.slots| else |ns.slots|)
            && Abs(ns').ednek == Abs(ns).ednek
  {
    RawFields(e);
    StoreTests(ns, RawKey(e));
    StoreOutcome(ns, KvOf(e), x, env.heap(t, 0));
    Inserted(ns, KvOf(e), x);
  }

  lemma Overlaid(d: seq<byte>)
    requires |d| <= MAX_VAL
    ensures Overlay(Zeros(MAX_VAL), d) == d + Zeros(4096 - |d|)
  {
  }

  // ---------------------------------------------------------------- the other commands

  // Retrieve sends the value's first bytes, as many as the host has room for.
  lemma RetrieveLaw(ns: Ns, e: Sqe, x: Inbound, env: Env, t: nat)
    requires NsOk(ns) && DeliveredOk(KvOf(e), x) && e[0] == 0x02
    ensures RawLength(e) > 16 ==> KvExec(ns, KvOf(e), x, env, t) == (ns, Done(0x0002))
    ensures RawLength(e) <= 16 && RawKey(e) !in Abs(ns).m ==> KvExec(ns, KvOf(e), x, env, t) == (ns, Done(0x0187))
    ensures RawLength(e) <= 16 && RawKey(e) in Abs(ns).m ==>
              var v := Abs(ns).m[RawKey(e)];
              && |v| == 4096
              && KvExec(ns, KvOf(e), x, env, t) == (ns, Send(if RawSize(e) < 4096 then v[..RawSize(e)] else v))
  {
    RawFields(e);
    KvRefines(ns, KvOf(e), x, env, t);
    ReadsRefine(ns, KvOf(e), x, env, t);
    if RawLength(e) <= 16 && RawKey(e) in Abs(ns).m {
      var v := Abs(ns).m[RawKey(e)];
      assert v[..4096] == v;
    }
  }

  // Exist tells whether the key is there.
  lemma ExistLaw(ns: Ns, e: Sqe, x: Inbound, env: Env, t: nat)
    requires NsOk(ns) && DeliveredOk(KvOf(e), x) && e[0] == 0x14
    ensures KvExec(ns, KvOf(e), x, env, t)
         == (ns, Done(if RawLength(e) > 16 then 0x0002 else if RawKey(e) in Abs(ns).m then 0x0000 else 0x0187))
  {
    RawFields(e);
    ReadsRefine(ns, KvOf(e), x, env, t);
  }

  // Delete removes the key and its charge; of an absent key, bit 0 of EDNEK decides the status.
  lemma DeleteLaw(ns: Ns, e: Sqe, x: Inbound, env: Env, t: nat)
    requires NsOk(ns) && DeliveredOk(KvOf(e), x) && e[0] == 0x10
    ensures RawLength(e) > 16 ==> KvExec(ns, KvOf(e), x, env, t) == (ns, Done(0x0002))
    ensures RawLength(e) <= 16 && RawKey(e) !in Abs(ns).m ==>
              KvExec(ns, KvOf(e), x, env, t) == (ns, Done(if ns.ednek % 2 == 1 then 0x0187 else 0x0000))
    ensures RawLength(e) <= 16 && RawKey(e) in Abs(ns).m ==>
              var (ns', r) := KvExec(ns, KvOf(e), x, env, t);
              && NsOk(ns') && r == Done(0x0000) && ns.nuse >= 4112 && ns'.nuse == ns.nuse - 4112
              && Abs(ns').m == Abs(ns).m - {RawKey(e)} && |ns'.slots| == |ns.slots| && ns'.ednek == ns.ednek
  {
    RawFields(e);
    if RawLength(e) <= 16 {
      DeleteRefines(ns, KvOf(e));
    }
  }

  // List sends the header and one record per key of the page. It allocates the header, every record, and one more when
  // it stops at a record that does not fit, and fails when one of these allocations does.
  lemma ListLaw(ns: Ns, e: Sqe, x: Inbound, env: Env, t: nat)
    requires NsOk(ns) && DeliveredOk(KvOf(e), x) && e[0] == 0x06
    ensures RawLength(e) > 16 ==> KvExec(ns, KvOf(e), x, env, t) == (ns, Done(0x0002))
    ensures RawLength(e) <= 16 ==>
              var c := FromKey(Cells(ns.slots), RawKey(e));
              var page := PageOf(Cells(ns.slots), RawKey(e), RawSize(e));
              var n := 1 + |page| + if |page| < |HeldKeys(c)| then 1 else 0;
              KvExec(ns, KvOf(e), x, env, t)
                == (ns, if forall k :: 0 <= k < n ==> env.heap(t, k) then Send(Listing(page)) else Done(0x0181))
  {
    RawFields(e);
    if RawLength(e) <= 16 {
      TakenPrefix(FromKey(Cells(ns.slots), RawKey(e)), 4, RawSize(e));
    }
  }

  // ---------------------------------------------------------------- from the reply to guest memory

  // A payload goes out through the PRPs of the entry, and the transfer decides the status.
  lemma ReplyEnds(env: Env, t: nat, mem: seq<byte>, e: Sqe, r: Reply)
    ensures var (p1, p2) := (RdLe(e[24..32]), RdLe(e[32..40]));
            match r
            case Done(s) => FinalStatus(r, env, t, |mem|, KvOf(e)) == s && FinalMem(r, env, t, mem, KvOf(e)) == mem
            case Send(p) =>
              && FinalStatus(r, env, t, |mem|, KvOf(e)) == Moved(PrpOk(env, t + 1, p1, p2, |p|, |mem|))
              && FinalMem(r, env, t, mem, KvOf(e)) == PrpWrite(env, t + 1, mem, p1, p2, p)
  {
  }

  // A Retrieve that succeeds leaves the first bytes of the value in the host's buffer, if its two ranges are apart; one
  // that fails leaves memory alone, and it fails exactly when the transfer is refused.
  lemma RetrieveArrives(env: Env, t: nat, c: Ctrl, mem: seq<byte>, e: Sqe, n: nat)
    requires CtrlOk(c) && e[0] == 0x02 && RawLength(e) <= 16 && RawKey(e) in Abs(c.ns).m
    requires n == if RawSize(e) < 4096 then RawSize(e) else 4096
    requires forall x ::
      !(InRange(x, Prp1(e), FirstPart(Prp1(e), n)) && InRange(x, Prp2(e), n - FirstPart(Prp1(e), n)))
    ensures var (o, v) := (IoExec(env, t, c, mem, e), Abs(c.ns).m[RawKey(e)]);
            && |v| == 4096 && o.c == c && o.cdw0 == 0 && |o.mem| == |mem|
            && if PrpOk(env, t + 1, Prp1(e), Prp2(e), n, |mem|) then
                 && o.status == 0 && PrpFits(Prp1(e), Prp2(e), n, |mem|)
                 && PrpPeek(o.mem, Prp1(e), Prp2(e), n) == v[..n]
               else o.status == 2 && o.mem == mem
  {
    var x, v := Delivered(env, t, mem, e), Abs(c.ns).m[RawKey(e)];
    RetrieveLaw(c.ns, e, x, env, t);
    assert v[..4096] == v;
    ReplyEnds(env, t, mem, e, Send(v[..n]));
    if PrpOk(env, t + 1, Prp1(e), Prp2(e), n, |mem|) {
      PrpExact(env, t + 1, mem, Prp1(e), Prp2(e), v[..n]);
      PeekPoke(mem, Prp1(e), Prp2(e), v[..n]);
    }
  }

  // Every other opcode is refused for good.
  lemma UnknownOpcode(ns: Ns, e: Sqe, x: Inbound, env: Env, t: nat)
    requires NsOk(ns) && DeliveredOk(KvOf(e), x)
    requires e[0] != 0x01 && e[0] != 0x02 && e[0] != 0x06 && e[0] != 0x10 && e[0] != 0x14
    ensures KvExec(ns, KvOf(e), x, env, t) == (ns, Done(0x4001))
  {
  }

  // What a record and a header look like byte by byte.
  lemma RecordBytes(k: Key)
    requires |k| <= 16
    ensures var (r, n) := (Record(k), |k|);
            && |r| == 2 + n + (2 + n) % 4 && r[0] == n && r[1] == 0 && r[2..2 + n] == k
            && forall i :: 2 + n <= i < |r| ==> r[i] == 0
  {
    assert WrLe(2, |k|) == [|k| % 256] + WrLe(1, |k| / 256);
  }

  lemma TwoDigits(n: nat)
    ensures n % 0x1_0000 % 256 == n % 256 && n % 0x1_0000 / 256 % 256 == n / 256 % 256
  {
    var h, m := n / 0x1_0000, n % 0x1_0000;
    assert n == 256 * (256 * h + m / 256) + m % 256;
    DivModUnique(n, 256, 256 * h + m / 256, m % 256);
    DivModUnique(256 * h + m / 256, 256, h, m / 256);
  }

  lemma HeaderBytes(ks: seq<Key>)
    ensures var p := Listing(ks);
            && |p| >= 4 && p[0] == |ks| % 256 && p[1] == |ks| / 256 % 256 && p[2] == 0 && p[3] == 0
            && p[4..] == Records(ks)
  {
    HeaderDigits(|ks|);
    ListingParts(ks);
  }

  lemma HeaderDigits(n: nat)
    ensures Header(n) == [n % 256, n / 256 % 256, 0, 0]
  {
    var m := n % TWO16;
    assert WrLe(2, m) == [m % 256] + WrLe(1, m / 256) && WrLe(1, m / 256) == [m / 256 % 256] + WrLe(0, m / 256 / 256);
    TwoDigits(n);
  }
}
