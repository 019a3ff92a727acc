/** The slot array of the key-value namespace as a value, and what each handler makes of it. */
module KvSlots {
  import opened Bytes
  import opened NvmeSpec
  import opened GuestMemory
  import opened KvCells

  const INITIAL_SLOTS := 16

  datatype Slot = Slot(key: seq<byte>, kl: nat, val: seq<byte>, used: bool)

  function Blank(): Slot { Slot(Zeros(MAX_KEY), 0, Zeros(MAX_VAL), false) }

  function Blanks(n: nat): (s: seq<Slot>)
    ensures |s| == n && forall i :: 0 <= i < n ==> s[i] == Blank()
  {
    seq(n, i => Blank())
  }

  // pairs, NUSE, max_num_keys and EDNEK. Sizes are uint64/uint32; the invariant shows they never wrap.
  datatype Ns = Ns(slots: seq<Slot>, nuse: nat, maxKeys: nat, ednek: u32)

  // Each handler ends with a status, or hands a payload to the host transfer, whose outcome is the status.
  datatype Reply = Done(status: u16) | Send(payload: seq<byte>)

  function Payload(r: Reply): Option<seq<byte>> {
    match r
    case Done(_) => None
    case Send(p) => Some(p)
  }

  function NewNs(maxKeys: nat): Ns { Ns(Blanks(INITIAL_SLOTS), 0, maxKeys, 0) }

  // NSZE as advertised.
  function Nsze(ns: Ns): nat { ns.maxKeys * FOOTPRINT }

  // A slot that is not in use is all zero.
  ghost predicate SlotOk(s: Slot) {
    && |s.key| == MAX_KEY && s.kl <= MAX_KEY && |s.val| == MAX_VAL
    && (!s.used ==> s == Blank())
  }

  ghost predicate SlotsOk(slots: seq<Slot>) {
    forall i :: 0 <= i < |slots| ==> SlotOk(slots[i])
  }

  ghost predicate Shape(ns: Ns) { |ns.slots| >= INITIAL_SLOTS && SlotsOk(ns.slots) }

  function KeyOf(s: Slot): (k: seq<byte>)
    requires SlotOk(s)
  {
    s.key[..s.kl]
  }

  // kv_key_match: compares the lengths and then the two halves of the key.
  predicate KeyMatch(cmd: KvCmd, s: Slot)
    requires SlotOk(s) && cmd.Valid()
  {
    && s.used
    && cmd.kl == s.kl
    && cmd.lo[..Min(cmd.kl, 8)] == s.key[..Min(cmd.kl, 8)]
    && (cmd.kl > 8 ==> cmd.hi[..Min(cmd.kl - 8, 8)] == s.key[8..8 + Min(cmd.kl - 8, 8)])
  }

  lemma KeyMatchMeaning(cmd: KvCmd, s: Slot)
    requires SlotOk(s) && cmd.Valid() && !cmd.KeyTooLong()
    ensures KeyMatch(cmd, s) <==> s.used && KeyOf(s) == cmd.Key()
  {
    var n := cmd.kl;
    if s.used && n == s.kl {
      if n <= 8 {
        assert cmd.Key() == cmd.lo[..n];
      } else {
        assert cmd.Key() == cmd.lo + cmd.hi[..n - 8];
        assert KeyOf(s) == s.key[..8] + s.key[8..n];
        assert cmd.lo[..8] == cmd.lo;
        if KeyOf(s) == cmd.Key() {
          assert s.key[..8] == KeyOf(s)[..8] == cmd.Key()[..8] == cmd.lo;
          assert s.key[8..n] == KeyOf(s)[8..] == cmd.Key()[8..] == cmd.hi[..n - 8];
        }
      }
    } else if s.used {
      assert |KeyOf(s)| == s.kl && |cmd.Key()| == n;
    }
  }

  // kv_key_store: bytes of the key field past the key's length are left as they were.
  function KeyStore(s: Slot, cmd: KvCmd): Slot
    requires SlotOk(s) && cmd.Valid() && !cmd.KeyTooLong()
  {
    var a := Min(cmd.kl, 8);
    var b := if cmd.kl > 8 then Min(cmd.kl - 8, 8) else 0;
    var k := cmd.lo[..a] + s.key[a..];
    var k' := if b > 0 then k[..8] + cmd.hi[..b] + k[8 + b..] else k;
    s.(key := k', kl := Min(cmd.kl, 16), used := true)
  }

  lemma KeyStoreMeaning(s: Slot, cmd: KvCmd)
    requires SlotOk(s) && cmd.Valid() && !cmd.KeyTooLong()
    ensures SlotOk(KeyStore(s, cmd)) && KeyOf(KeyStore(s, cmd)) == cmd.Key()
    ensures KeyStore(s, cmd).val == s.val
  {
    var n := cmd.kl;
    if n > 8 {
      assert cmd.Key() == cmd.lo + cmd.hi[..n - 8];
      assert cmd.lo[..8] == cmd.lo;
    } else {
      assert cmd.Key() == cmd.lo[..n];
    }
  }

  function CellOf(s: Slot): Cell
    requires SlotOk(s)
  {
    if s.used then Held(KeyOf(s), s.val) else Free
  }

  function Cells(slots: seq<Slot>): (c: seq<Cell>)
    requires SlotsOk(slots)
    ensures |c| == |slots|
    ensures forall i :: 0 <= i < |slots| ==> c[i] == CellOf(slots[i])
  {
    seq(|slots|, i requires 0 <= i < |slots| => CellOf(slots[i]))
  }

  lemma CellsUpdate(slots: seq<Slot>, i: nat, s: Slot)
    requires SlotsOk(slots) && i < |slots| && SlotOk(s)
    ensures SlotsOk(slots[i := s]) && Cells(slots[i := s]) == Cells(slots)[i := CellOf(s)]
  {
  }

  lemma CellsConcat(a: seq<Slot>, b: seq<Slot>)
    requires SlotsOk(a) && SlotsOk(b)
    ensures SlotsOk(a + b) && Cells(a + b) == Cells(a) + Cells(b)
  {
  }

  // The bytes an h2c transfer delivered, laid over the start of the value.
  function Overlay(val: seq<byte>, d: seq<byte>): (r: seq<byte>)
    requires |d| <= |val|
    ensures |r| == |val|
  {
    d + val[|d|..]
  }

  function DmaStatus(ok: bool): u16 { if ok then SUCCESS else INVALID_FIELD }

  function Add64(a: nat, b: nat): nat { (a + b) % TWO64 }
  function Sub64(a: nat, b: nat): nat { (a - b) % TWO64 }

  ghost predicate DeliveredOk(cmd: KvCmd, x: Inbound) { |x.data| <= cmd.hbs }

  function StoreNs(ns: Ns, cmd: KvCmd, x: Inbound, grows: bool): (r: (Ns, Reply))
    requires Shape(ns) && cmd.Valid() && DeliveredOk(cmd, x)
  {
    if cmd.KeyTooLong() then (ns, Done(INVALID_KEY_SIZE))
    else if cmd.hbs > MAX_VAL then (ns, Done(INVALID_VAL_SIZE))
    else
      var i := Find(Cells(ns.slots), cmd.Key());
      if i < |ns.slots| then
        if cmd.OnlyIfAbsent() then (ns, Done(KEY_EXISTS))
        else (ns.(slots := ns.slots[i := Fill(ns.slots[i], x)]), Done(DmaStatus(x.ok)))
      else if cmd.OnlyIfPresent() then (ns, Done(KEY_NOT_EXISTS))
      else if ns.nuse / FOOTPRINT >= ns.maxKeys then (ns, Done(CAP_EXCEEDED))
      else
        var f := FirstFree(Cells(ns.slots));
        if f == |ns.slots| && !grows then (ns, Done(CAP_EXCEEDED))
        else (Insert(ns, cmd, x), Done(DmaStatus(x.ok)))
  }

  function Fill(s: Slot, x: Inbound): Slot
    requires |x.data| <= |s.val|
  {
    s.(val := Overlay(s.val, x.data))
  }

  // The slot array an insert works on: doubled when every slot is in use.
  function Room(slots: seq<Slot>): (r: seq<Slot>)
    requires SlotsOk(slots)
    ensures SlotsOk(r) && slots <= r
  {
    if FirstFree(Cells(slots)) < |slots| then slots else slots + Blanks(|slots|)
  }

  function Insert(ns: Ns, cmd: KvCmd, x: Inbound): Ns
    requires Shape(ns) && cmd.Valid() && !cmd.KeyTooLong() && DeliveredOk(cmd, x) && cmd.hbs <= MAX_VAL
  {
    var f := FirstFree(Cells(ns.slots));
    var r := Room(ns.slots);
    ns.(slots := r[f := Fill(KeyStore(r[f], cmd), x)], nuse := Add64(ns.nuse, FOOTPRINT))
  }

  function RetrieveNs(ns: Ns, cmd: KvCmd): Reply
    requires SlotsOk(ns.slots) && cmd.Valid()
  {
    if cmd.KeyTooLong() then Done(INVALID_FIELD)
    else
      var i := Find(Cells(ns.slots), cmd.Key());
      if i < |ns.slots| then Send(ns.slots[i].val[..Min(cmd.hbs, MAX_VAL)]) else Done(KEY_NOT_EXISTS)
  }

  function DeleteNs(ns: Ns, cmd: KvCmd): (Ns, Reply)
    requires SlotsOk(ns.slots) && cmd.Valid()
  {
    if cmd.KeyTooLong() then (ns, Done(INVALID_FIELD))
    else
      var i := Find(Cells(ns.slots), cmd.Key());
      if i < |ns.slots| then
        (ns.(slots := ns.slots[i := Blank()], nuse := Sub64(ns.nuse, FOOTPRINT)), Done(SUCCESS))
      else (ns, Done(if ns.ednek % 2 == 1 then KEY_NOT_EXISTS else SUCCESS))
  }

  function ExistNs(ns: Ns, cmd: KvCmd): Reply
    requires SlotsOk(ns.slots) && cmd.Valid()
  {
    if cmd.KeyTooLong() then Done(INVALID_FIELD)
    else Done(if Find(Cells(ns.slots), cmd.Key()) < |ns.slots| then SUCCESS else KEY_NOT_EXISTS)
  }

  // ---------------------------------------------------------------- List

  // Bytes of a record: a 2-byte length, the key, and (2 + kl) % 4 bytes of padding.
  function Stride(kl: nat): nat { (2 + kl) + (2 + kl) % 4 }

  function Record(k: Key): (r: seq<byte>)
    ensures |r| == Stride(|k|)
  {
    WrLe(2, |k|) + k + Zeros((2 + |k|) % 4)
  }

  // Header: the number of records modulo 2^16, in the first two of four bytes.
  function Header(n: nat): (h: seq<byte>)
    ensures |h| == 4
  {
    WrLe(2, n % TWO16) + Zeros(2)
  }

  // The keys the scan takes from the front while each next record still fits in hbs.
  function Taken(c: seq<Cell>, size: nat, hbs: nat): (ks: seq<Key>)
    ensures |ks| <= |c|
  {
    if c == [] then []
    else if c[0] == Free then Taken(c[1..], size, hbs)
    else if size + Stride(|c[0].key|) > hbs then []
    else
      [c[0].key] + Taken(c[1..], size + Stride(|c[0].key|), hbs)
  }

  // Whether the scan stops at a record that does not fit (it has grown its buffer once more by then).
  predicate StopsFull(c: seq<Cell>, size: nat, hbs: nat) {
    if c == [] then false
    else if c[0] == Free then StopsFull(c[1..], size, hbs)
    else if size + Stride(|c[0].key|) > hbs then true
    else StopsFull(c[1..], size + Stride(|c[0].key|), hbs)
  }

  function Records(ks: seq<Key>): seq<byte>
  {
    if ks == [] then [] else Record(ks[0]) + Records(ks[1..])
  }

  function Listing(ks: seq<Key>): seq<byte>
  {
    Header(|ks|) + Records(ks)
  }

  // One allocation for the header and one for every record tried.
  predicate HeapOk(env: Env, t: nat, n: nat) {
    forall k :: 0 <= k < n ==> env.heap(t, k)
  }

  function Tries(c: seq<Cell>, hbs: nat): nat {
    1 + |Taken(c, 4, hbs)| + if StopsFull(c, 4, hbs) then 1 else 0
  }

  // Where a List that names key k starts: at k, or at the first slot when k is absent.
  function FromKey(c: seq<Cell>, k: Key): seq<Cell> {
    c[if Find(c, k) < |c| then Find(c, k) else 0..]
  }

  function PageOf(c: seq<Cell>, k: Key, hbs: nat): seq<Key> { Taken(FromKey(c, k), 4, hbs) }

  function ListReply(c: seq<Cell>, k: Key, hbs: nat, env: Env, t: nat): Reply {
    if HeapOk(env, t, Tries(FromKey(c, k), hbs)) then Send(Listing(PageOf(c, k, hbs))) else Done(CAP_EXCEEDED)
  }

  function ListNs(ns: Ns, cmd: KvCmd, env: Env, t: nat): Reply
    requires SlotsOk(ns.slots) && cmd.Valid()
  {
    if cmd.KeyTooLong() then Done(INVALID_FIELD) else ListReply(Cells(ns.slots), cmd.Key(), cmd.hbs, env, t)
  }

  // ---------------------------------------------------------------- dispatch

  function KvExec(ns: Ns, cmd: KvCmd, x: Inbound, env: Env, t: nat): (Ns, Reply)
    requires Shape(ns) && cmd.Valid() && DeliveredOk(cmd, x)
  {
    if cmd.opcode == KV_STORE then StoreNs(ns, cmd, x, env.heap(t, 0))
    else if cmd.opcode == KV_RETRIEVE then (ns, RetrieveNs(ns, cmd))
    else if cmd.opcode == KV_DELETE then DeleteNs(ns, cmd)
    else if cmd.opcode == KV_EXIST then (ns, ExistNs(ns, cmd))
    else if cmd.opcode == KV_LIST then (ns, ListNs(ns, cmd, env, t))
    else (ns, Done(INVALID_OPCODE + DNR))
  }

  // Status codes the handlers return leave the top bit free.
  lemma ReplySmall(ns: Ns, cmd: KvCmd, x: Inbound, env: Env, t: nat, size: nat)
    requires Shape(ns) && cmd.Valid() && DeliveredOk(cmd, x)
    ensures FinalStatus(KvExec(ns, cmd, x, env, t).1, env, t, size, cmd) < 0x8000
  {
  }

  // How a handler ends: a payload goes out through the command's PRPs, and the transfer decides the status.
  function FinalStatus(r: Reply, env: Env, t: nat, size: nat, cmd: KvCmd): u16 {
    match r
    case Done(s) => s
    case Send(p) => DmaStatus(PrpOk(env, t + 1, cmd.prp1, cmd.prp2, |p|, size))
  }

  function FinalMem(r: Reply, env: Env, t: nat, mem: seq<byte>, cmd: KvCmd): (m: seq<byte>)
    ensures |m| == |mem|
  {
    match r
    case Done(_) => mem
    case Send(p) => PrpWrite(env, t + 1, mem, cmd.prp1, cmd.prp2, p)
  }
}
