/** The slot array refines a map from keys to 4096-byte values with a layout of its keys, and the space accounting. */
module KvMap {
  import opened Bytes
  import opened NvmeSpec
  import opened GuestMemory
  import opened KvCells
  import opened KvSlots

  // The abstract namespace: the pairs, where List finds their keys, and EDNEK.
  datatype Kv = Kv(m: map<Key, Value>, layout: seq<Cell>, ednek: u32)

  ghost predicate FullValues(s: Kv) { s.layout != [] && forall k :: k in s.m ==> |s.m[k]| == MAX_VAL }

  type FullKv = s: Kv | FullValues(s) witness Kv(map[], [Free], 0)

  function ApplyStore(s: Kv, cap: nat, cmd: KvCmd, x: Inbound, grows: bool): (r: (Kv, Reply))
    requires cmd.Valid() && DeliveredOk(cmd, x) && FullValues(s)
    ensures FullValues(r.0)
  {
    var k := cmd.Key();
    if cmd.KeyTooLong() then (s, Done(INVALID_KEY_SIZE))
    else if cmd.hbs > MAX_VAL then (s, Done(INVALID_VAL_SIZE))
    else if k in s.m then
      if cmd.OnlyIfAbsent() then (s, Done(KEY_EXISTS))
      else (s.(m := s.m[k := Overlay(s.m[k], x.data)]), Done(DmaStatus(x.ok)))
    else if cmd.OnlyIfPresent() then (s, Done(KEY_NOT_EXISTS))
    else if |s.m| >= cap || (|s.m| == |s.layout| && !grows) then (s, Done(CAP_EXCEEDED))
    else
      (s.(m := s.m[k := Overlay(Zeros(MAX_VAL), x.data)], layout := Placed(s.layout, k)), Done(DmaStatus(x.ok)))
  }

  // One command on the abstract namespace: what it becomes, and the reply.
  function Apply(s: Kv, cap: nat, cmd: KvCmd, x: Inbound, env: Env, t: nat): (r: (Kv, Reply))
    requires cmd.Valid() && DeliveredOk(cmd, x) && FullValues(s)
    ensures FullValues(r.0)
  {
    var k := cmd.Key();
    if cmd.opcode == KV_STORE then ApplyStore(s, cap, cmd, x, env.heap(t, 0))
    else if cmd.opcode !in {KV_RETRIEVE, KV_DELETE, KV_EXIST, KV_LIST} then (s, Done(INVALID_OPCODE + DNR))
    else if cmd.KeyTooLong() then (s, Done(INVALID_FIELD))
    else if cmd.opcode == KV_LIST then (s, ListReply(s.layout, k, cmd.hbs, env, t))
    else if cmd.opcode == KV_DELETE then
      (s.(m := s.m - {k}, layout := Vacated(s.layout, k)),
       Done(if k !in s.m && s.ednek % 2 == 1 then KEY_NOT_EXISTS else SUCCESS))
    else if k !in s.m then (s, Done(KEY_NOT_EXISTS))
    else (s, if cmd.opcode == KV_RETRIEVE then Send(s.m[k][..Min(cmd.hbs, MAX_VAL)]) else Done(SUCCESS))
  }

  // ---------------------------------------------------------------- the abstraction

  // Slot arrays only ever have 16, 32, 64, ... entries.
  ghost predicate Doubled(n: nat) {
    n == INITIAL_SLOTS || (n > INITIAL_SLOTS && n % 2 == 0 && Doubled(n / 2))
  }

  ghost function Live(ns: Ns): nat
    requires Shape(ns)
  {
    Count(Cells(ns.slots))
  }

  // What every reachable namespace satisfies.
  ghost predicate NsOk(ns: Ns) {
    match ns
    case Ns(slots, nuse, maxKeys, _) =>
      && Shape(ns)
      && Unique(Cells(slots))
      && maxKeys <= INT_MAX
      && Live(ns) <= maxKeys
      && nuse == FOOTPRINT * Live(ns)
      && Doubled(|slots|)
      && (|slots| <= INITIAL_SLOTS || |slots| <= 2 * (maxKeys - 1))
  }

  ghost function Abs(ns: Ns): (s: Kv)
    requires NsOk(ns)
    ensures FullValues(s)
  {
    Kv(MapOf(Cells(ns.slots)), Layout(Cells(ns.slots)), ns.ednek)
  }

  // ---------------------------------------------------------------- the refinement

  lemma NewNsOk(maxKeys: nat)
    requires maxKeys <= INT_MAX
    ensures NsOk(NewNs(maxKeys)) && Abs(NewNs(maxKeys)) == Kv(map[], Frees(16), 0)
    ensures NewNs(maxKeys).nuse == 0 && NewNs(maxKeys).maxKeys == maxKeys && |NewNs(maxKeys).slots| == 16
  {
    var c := Cells(NewNs(maxKeys).slots);
    CountFree(c);
    forall k ensures Find(c, k) == |c| {
      FindUnique(c, k, |c|);
    }
    MapIs(c, map[]);
  }

  // NUSE counts live keys exactly, so the capacity test compares the number of keys with the cap.
  lemma CapacityTest(ns: Ns)
    requires NsOk(ns)
    ensures ns.nuse / FOOTPRINT == |Abs(ns).m| == Live(ns)
    ensures ns.nuse <= Nsze(ns) && Nsze(ns) + FOOTPRINT < TWO64
  {
    MapCount(Cells(ns.slots));
  }

  lemma OverwriteRefines(ns: Ns, k: Key, x: Inbound)
    requires NsOk(ns) && k in Abs(ns).m && |x.data| <= MAX_VAL
    ensures var i := Find(Cells(ns.slots), k);
            var ns' := ns.(slots := ns.slots[i := Fill(ns.slots[i], x)]);
            NsOk(ns') && Abs(ns') == Abs(ns).(m := Abs(ns).m[k := Overlay(Abs(ns).m[k], x.data)])
  {
    var i := Find(Cells(ns.slots), k);
    SetMap(Cells(ns.slots), k, Overlay(ns.slots[i].val, x.data));
    CellsUpdate(ns.slots, i, Fill(ns.slots[i], x));
    LayoutUpdate(Cells(ns.slots), i, CellOf(Fill(ns.slots[i], x)));
  }

  lemma RoomRefines(ns: Ns)
    requires NsOk(ns) && Live(ns) < ns.maxKeys
    ensures var r, c := Room(ns.slots), Cells(ns.slots);
            && |r| == (if Live(ns) == |ns.slots| then 2 * |ns.slots| else |ns.slots|)
            && Doubled(|r|) && (|r| <= INITIAL_SLOTS || |r| <= 2 * (ns.maxKeys - 1))
            && FirstFree(c) < |r| && r[FirstFree(c)] == Blank()
            && Unique(Cells(r)) && MapOf(Cells(r)) == MapOf(c) && Count(Cells(r)) == Count(c)
            && (forall k :: Find(c, k) == |c| ==> Find(Cells(r), k) == |r|)
            && Layout(Cells(r)) == if Live(ns) == |ns.slots| then Layout(c) + Frees(|c|) else Layout(c)
  {
    var c := Cells(ns.slots);
    FullMeans(c);
    if FirstFree(c) == |c| {
      CellsConcat(ns.slots, Blanks(|c|));
      GrowMap(c, Cells(Blanks(|c|)));
      LayoutConcat(c, Cells(Blanks(|c|)));
      assert Layout(Cells(Blanks(|c|))) == Frees(|c|);
      assert (2 * |c|) / 2 == |c|;
    }
  }

  lemma InsertRefines(ns: Ns, cmd: KvCmd, x: Inbound)
    requires NsOk(ns) && cmd.Valid() && DeliveredOk(cmd, x) && !cmd.KeyTooLong() && cmd.hbs <= MAX_VAL
    requires cmd.Key() !in Abs(ns).m && Live(ns) < ns.maxKeys
    ensures var ns' := Insert(ns, cmd, x);
            && NsOk(ns')
            && Abs(ns') == Kv(Abs(ns).m[cmd.Key() := Overlay(Zeros(MAX_VAL), x.data)],
                              Placed(Abs(ns).layout, cmd.Key()), ns.ednek)
  {
    var r, f := Room(ns.slots), FirstFree(Cells(ns.slots));
    var s := Fill(KeyStore(r[f], cmd), x);
    RoomRefines(ns);
    FilledSlot(cmd, x);
    CellsUpdate(r, f, s);
    PutMap(Cells(r), f, cmd.Key(), s.val);
    LayoutKeys(Cells(ns.slots));
    FullMeans(Cells(ns.slots));
    LayoutUpdate(Cells(r), f, CellOf(s));
    ChargeExact(ns);
  }

  lemma FilledSlot(cmd: KvCmd, x: Inbound)
    requires cmd.Valid() && DeliveredOk(cmd, x) && !cmd.KeyTooLong() && cmd.hbs <= MAX_VAL
    ensures var s := Fill(KeyStore(Blank(), cmd), x);
            SlotOk(s) && CellOf(s) == Held(cmd.Key(), Overlay(Zeros(MAX_VAL), x.data))
  {
    KeyStoreMeaning(Blank(), cmd);
  }

  // Neither direction of the usage counter wraps.
  lemma ChargeExact(ns: Ns)
    requires NsOk(ns)
    ensures Add64(ns.nuse, FOOTPRINT) == FOOTPRINT * (Live(ns) + 1)
    ensures Live(ns) > 0 ==> ns.nuse >= FOOTPRINT && Sub64(ns.nuse, FOOTPRINT) == FOOTPRINT * (Live(ns) - 1)
  {
  }

  // The three tests of an insert, on the slots and on the map.
  lemma StoreTests(ns: Ns, k: Key)
    requires NsOk(ns)
    ensures Find(Cells(ns.slots), k) < |ns.slots| <==> k in Abs(ns).m
    ensures ns.nuse / FOOTPRINT >= ns.maxKeys <==> |Abs(ns).m| >= ns.maxKeys
    ensures FirstFree(Cells(ns.slots)) == |ns.slots| <==> |Abs(ns).m| == |ns.slots|
    ensures |Abs(ns).m| == Live(ns)
  {
    CapacityTest(ns);
    FullMeans(Cells(ns.slots));
  }

  ghost predicate StoreAgrees(ns: Ns, cmd: KvCmd, x: Inbound, grows: bool)
    requires NsOk(ns) && cmd.Valid() && DeliveredOk(cmd, x)
  {
    var (ns', r) := StoreNs(ns, cmd, x, grows);
    var (s', a) := ApplyStore(Abs(ns), ns.maxKeys, cmd, x, grows);
    NsOk(ns') && Abs(ns') == s' && ns'.maxKeys == ns.maxKeys && r == a
  }

  lemma StoreHit(ns: Ns, cmd: KvCmd, x: Inbound, grows: bool)
    requires NsOk(ns) && cmd.Valid() && DeliveredOk(cmd, x) && cmd.Key() in Abs(ns).m
    ensures StoreAgrees(ns, cmd, x, grows)
  {
    if cmd.hbs <= MAX_VAL {
      OverwriteRefines(ns, cmd.Key(), x);
    }
  }

  lemma StoreMiss(ns: Ns, cmd: KvCmd, x: Inbound, grows: bool)
    requires NsOk(ns) && cmd.Valid() && DeliveredOk(cmd, x) && cmd.Key() !in Abs(ns).m
    ensures StoreAgrees(ns, cmd, x, grows)
  {
    StoreTests(ns, cmd.Key());
    if cmd.KeyTooLong() || cmd.hbs > MAX_VAL || cmd.OnlyIfPresent() {
      return;
    }
    if |Abs(ns).m| >= ns.maxKeys || (|Abs(ns).m| == |ns.slots| && !grows) {
      return;
    }
    assert StoreNs(ns, cmd, x, grows) == (Insert(ns, cmd, x), Done(DmaStatus(x.ok)));
    InsertRefines(ns, cmd, x);
  }

  lemma StoreRefines(ns: Ns, cmd: KvCmd, x: Inbound, grows: bool)
    requires NsOk(ns) && cmd.Valid() && DeliveredOk(cmd, x)
    ensures StoreAgrees(ns, cmd, x, grows)
  {
    if cmd.Key() in Abs(ns).m {
      StoreHit(ns, cmd, x, grows);
    } else {
      StoreMiss(ns, cmd, x, grows);
    }
  }

  // Delete never underflows NUSE, and leaves the slot blank for the next insert.
  lemma DeleteRefines(ns: Ns, cmd: KvCmd)
    requires NsOk(ns) && cmd.Valid() && !cmd.KeyTooLong()
    ensures var (ns', r) := DeleteNs(ns, cmd);
            && NsOk(ns')
            && Abs(ns') == Abs(ns).(m := Abs(ns).m - {cmd.Key()}, layout := Vacated(Abs(ns).layout, cmd.Key()))
            && (cmd.Key() in Abs(ns).m ==> ns.nuse >= FOOTPRINT && ns'.nuse == ns.nuse - FOOTPRINT)
            && (cmd.Key() !in Abs(ns).m ==> ns' == ns)
            && ns'.maxKeys == ns.maxKeys
  {
    var k := cmd.Key();
    if k in Abs(ns).m {
      DeleteHit(ns, k);
    } else {
      LayoutFind(Cells(ns.slots));
      assert Abs(ns).m - {k} == Abs(ns).m;
    }
  }

  lemma DeleteHit(ns: Ns, k: Key)
    requires NsOk(ns) && k in Abs(ns).m
    ensures var ns' := ns.(slots := ns.slots[Find(Cells(ns.slots), k) := Blank()], nuse := Sub64(ns.nuse, FOOTPRINT));
            && NsOk(ns') && Abs(ns') == Abs(ns).(m := Abs(ns).m - {k}, layout := Vacated(Abs(ns).layout, k))
            && ns.nuse >= FOOTPRINT && ns'.nuse == ns.nuse - FOOTPRINT
  {
    var c := Cells(ns.slots);
    ClearMap(c, k);
    CellsUpdate(ns.slots, Find(c, k), Blank());
    LayoutFind(c);
    LayoutUpdate(c, Find(c, k), Free);
    ChargeExact(ns);
  }

  // What a scan takes depends on the keys alone.
  lemma {:induction false} TakenSame(c: seq<Cell>, d: seq<Cell>, size: nat, hbs: nat)
    requires SameKeys(c, d)
    ensures Taken(c, size, hbs) == Taken(d, size, hbs) && StopsFull(c, size, hbs) == StopsFull(d, size, hbs)
  {
    if c != [] {
      assert SameKeys(c[1..], d[1..]);
      TakenSame(c[1..], d[1..], if c[0].Held? then size + Stride(|c[0].key|) else size, hbs);
    }
  }

  lemma ListRefines(ns: Ns, k: Key, hbs: nat, env: Env, t: nat)
    requires NsOk(ns)
    ensures PageOf(Cells(ns.slots), k, hbs) == PageOf(Abs(ns).layout, k, hbs)
    ensures ListReply(Cells(ns.slots), k, hbs, env, t) == ListReply(Abs(ns).layout, k, hbs, env, t)
  {
    var c := Cells(ns.slots);
    LayoutFind(c);
    LayoutKeys(c);
    assert SameKeys(FromKey(c, k), FromKey(Layout(c), k));
    TakenSame(FromKey(c, k), FromKey(Layout(c), k), 4, hbs);
  }

  // Retrieve, Exist and List leave the namespace alone and answer from the map and the layout.
  lemma ReadsRefine(ns: Ns, cmd: KvCmd, x: Inbound, env: Env, t: nat)
    requires NsOk(ns) && cmd.Valid() && DeliveredOk(cmd, x)
    requires cmd.opcode in {KV_RETRIEVE, KV_EXIST, KV_LIST}
    ensures KvExec(ns, cmd, x, env, t).0 == ns && Apply(Abs(ns), ns.maxKeys, cmd, x, env, t).0 == Abs(ns)
    ensures KvExec(ns, cmd, x, env, t).1 == Apply(Abs(ns), ns.maxKeys, cmd, x, env, t).1
  {
    ListRefines(ns, cmd.Key(), cmd.hbs, env, t);
  }

  // The slot array refines the map: every command keeps the invariant, changes the map as Apply says, and
  // gives the reply Apply gives.
  lemma KvRefines(ns: Ns, cmd: KvCmd, x: Inbound, env: Env, t: nat)
    requires NsOk(ns) && cmd.Valid() && DeliveredOk(cmd, x)
    ensures var (ns', r) := KvExec(ns, cmd, x, env, t);
            NsOk(ns') && ns'.maxKeys == ns.maxKeys && (Abs(ns'), r) == Apply(Abs(ns), ns.maxKeys, cmd, x, env, t)
  {
    if cmd.opcode == KV_STORE {
      StoreRefines(ns, cmd, x, env.heap(t, 0));
    } else if cmd.opcode == KV_DELETE {
      if !cmd.KeyTooLong() {
        DeleteRefines(ns, cmd);
      }
    } else if cmd.opcode in {KV_RETRIEVE, KV_EXIST, KV_LIST} {
      ReadsRefine(ns, cmd, x, env, t);
    }
  }

  // A full-page Retrieve of a present key sends its whole value.
  lemma RetrieveValue(ns: Ns, get: KvCmd, v: Value)
    requires NsOk(ns) && get.Valid() && !get.KeyTooLong() && get.hbs >= MAX_VAL
    requires get.Key() in Abs(ns).m && Abs(ns).m[get.Key()] == v
    ensures RetrieveNs(ns, get) == Send(v)
  {
    assert v[..MAX_VAL] == v;
  }

  // A new key reads back as the delivered bytes followed by zeros, whatever key used its slot before.
  lemma InsertThenRetrieve(ns: Ns, put: KvCmd, x: Inbound, get: KvCmd, env: Env, t: nat)
    requires NsOk(ns) && put.Valid() && get.Valid() && DeliveredOk(put, x)
    requires put.opcode == KV_STORE && get.opcode == KV_RETRIEVE
    requires get.kl == put.kl && get.Key() == put.Key() && get.hbs >= MAX_VAL
    requires put.Key() !in Abs(ns).m
    requires x.ok && KvExec(ns, put, x, env, t).1 == Done(SUCCESS)
    ensures RetrieveNs(KvExec(ns, put, x, env, t).0, get) == Send(x.data + Zeros(MAX_VAL - |x.data|))
  {
    KvRefines(ns, put, x, env, t);
    var v := Overlay(Zeros(MAX_VAL), x.data);
    assert v == x.data + Zeros(MAX_VAL - |x.data|);
    RetrieveValue(KvExec(ns, put, x, env, t).0, get, v);
  }

  // An overwrite keeps the old tail: the value is the delivered bytes followed by the rest of the old value.
  lemma OverwriteThenRetrieve(ns: Ns, put: KvCmd, x: Inbound, get: KvCmd, env: Env, t: nat)
    requires NsOk(ns) && put.Valid() && get.Valid() && DeliveredOk(put, x)
    requires put.opcode == KV_STORE && get.opcode == KV_RETRIEVE
    requires get.kl == put.kl && get.Key() == put.Key() && get.hbs >= MAX_VAL
    requires put.Key() in Abs(ns).m && !put.KeyTooLong() && put.hbs <= MAX_VAL && !put.OnlyIfAbsent()
    ensures RetrieveNs(KvExec(ns, put, x, env, t).0, get) == Send(x.data + Abs(ns).m[put.Key()][|x.data|..])
  {
    KvRefines(ns, put, x, env, t);
    RetrieveValue(KvExec(ns, put, x, env, t).0, get, Overlay(Abs(ns).m[put.Key()], x.data));
  }

  // ---------------------------------------------------------------- stores that fail

  // Whether a Store of key k reaches its insert.
  ghost predicate Inserts(ns: Ns, cmd: KvCmd, grows: bool)
    requires NsOk(ns) && cmd.Valid()
  {
    && !cmd.KeyTooLong() && cmd.hbs <= MAX_VAL && cmd.Key() !in Abs(ns).m && !cmd.OnlyIfPresent()
    && |Abs(ns).m| < ns.maxKeys && (|Abs(ns).m| < |ns.slots| || grows)
  }

  lemma StoreOutcome(ns: Ns, cmd: KvCmd, x: Inbound, grows: bool)
    requires NsOk(ns) && cmd.Valid() && DeliveredOk(cmd, x) && cmd.Key() !in Abs(ns).m
    ensures Inserts(ns, cmd, grows) ==> StoreNs(ns, cmd, x, grows) == (Insert(ns, cmd, x), Done(DmaStatus(x.ok)))
    ensures !Inserts(ns, cmd, grows) ==> StoreNs(ns, cmd, x, grows).0 == ns
  {
    StoreTests(ns, cmd.Key());
  }

  lemma FailedOverwrite(ns: Ns, cmd: KvCmd, x: Inbound, grows: bool)
    requires NsOk(ns) && cmd.Valid() && DeliveredOk(cmd, x) && (!x.ok ==> x.data == [])
    requires cmd.Key() in Abs(ns).m && StoreNs(ns, cmd, x, grows).1 != Done(SUCCESS)
    ensures StoreNs(ns, cmd, x, grows).0 == ns
  {
    var i := Find(Cells(ns.slots), cmd.Key());
    if !x.ok {
      assert [] + ns.slots[i].val[0..] == ns.slots[i].val;
      assert Fill(ns.slots[i], x) == ns.slots[i];
    }
  }

  // A Store that does not succeed can still change the namespace: exactly when its transfer is what failed and the key
  // was new and could be inserted. (A transfer that fails delivers nothing.)
  lemma FailedStoreChanges(ns: Ns, cmd: KvCmd, x: Inbound, grows: bool)
    requires NsOk(ns) && cmd.Valid() && DeliveredOk(cmd, x) && (!x.ok ==> x.data == [])
    requires StoreNs(ns, cmd, x, grows).1 != Done(SUCCESS)
    ensures StoreNs(ns, cmd, x, grows).0 != ns <==> !x.ok && Inserts(ns, cmd, grows)
  {
    if cmd.Key() in Abs(ns).m {
      FailedOverwrite(ns, cmd, x, grows);
    } else {
      StoreOutcome(ns, cmd, x, grows);
      ChargeExact(ns);
    }
  }

  // For instance: one byte for the key [0] of an empty namespace, whose transfer fails. The reply is an error, and the
  // key is there and charged.
  lemma FailedStoreKeepsKey()
    ensures var (ns, cmd) := (NewNs(1), KvCmd(KV_STORE, 0, 0, 1, 1, 0, Zeros(8), Zeros(8)));
            var (ns', r) := StoreNs(ns, cmd, Inbound(false, []), false);
            && NsOk(ns) && r == Done(INVALID_FIELD) && NsOk(ns')
            && Abs(ns').m.Keys == {[0]} && ns'.nuse == FOOTPRINT
  {
    var ns, cmd := NewNs(1), KvCmd(KV_STORE, 0, 0, 1, 1, 0, Zeros(8), Zeros(8));
    NewNsOk(1);
    assert cmd.Key() == [0];
    StoreOutcome(ns, cmd, Inbound(false, []), false);
    FirstKey(ns, cmd, Inbound(false, []));
  }

  lemma FirstKey(ns: Ns, cmd: KvCmd, x: Inbound)
    requires NsOk(ns) && Abs(ns).m == map[] && ns.maxKeys > 0
    requires cmd.Valid() && DeliveredOk(cmd, x) && !cmd.KeyTooLong() && cmd.hbs <= MAX_VAL
    ensures var ns' := Insert(ns, cmd, x);
            NsOk(ns') && Abs(ns').m.Keys == {cmd.Key()} && ns'.nuse == FOOTPRINT
  {
    CapacityTest(ns);
    InsertRefines(ns, cmd, x);
    CapacityTest(Insert(ns, cmd, x));
    assert |map[cmd.Key() := Overlay(Zeros(MAX_VAL), x.data)]| == 1;
  }
}
