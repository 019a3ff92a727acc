/** The namespace object: a growable array of slots, scanned linearly and updated in place. */
module KvNamespaces {
  import opened Bytes
  import opened NvmeSpec
  import opened GuestMemory
  import opened KvCells
  import opened KvSlots
  import opened KvMap

  // (int)i for a size_t i.
  function IntCast(i: nat): int {
    var r := i % TWO32;
    if r <= INT_MAX then r else r - TWO32
  }

  class KvNamespace {
    var pairs: array<Slot>
    var nuse: nat
    var ednek: u32
    const maxKeys: nat

    ghost function Value(): Ns
      reads this, pairs
    {
      Ns(pairs[..], nuse, maxKeys, ednek)
    }

    ghost predicate Valid()
      reads this, pairs
    {
      NsOk(Value())
    }

    constructor (maxNumKeys: nat)
      requires maxNumKeys <= INT_MAX
      ensures Valid() && fresh(pairs) && Value() == NewNs(maxNumKeys)
    {
      pairs := new Slot[INITIAL_SLOTS](i => Blank());
      nuse, ednek, maxKeys := 0, 0, maxNumKeys;
      new;
      assert pairs[..] == Blanks(INITIAL_SLOTS);
      NewNsOk(maxNumKeys);
    }

    // The scan shared by retrieve, delete, exist and list: the slot holding the command's key, if any.
    method Scan(cmd: KvCmd) returns (i: nat)
      requires Valid() && cmd.Valid() && !cmd.KeyTooLong()
      ensures i == Find(Cells(pairs[..]), cmd.Key())
      ensures i <= pairs.Length
    {
      i := 0;
      while i < pairs.Length && !KeyMatch(cmd, pairs[i])
        invariant i <= pairs.Length
        invariant forall j :: 0 <= j < i ==> !KeyMatch(cmd, pairs[j])
      {
        i := i + 1;
      }
      ScanMeaning(cmd, pairs[..], i);
    }

    // The scan of a store, which also remembers the first free slot; -1 when there is none.
    method Search(cmd: KvCmd) returns (i: nat, fstEmpty: int)
      requires Valid() && cmd.Valid() && !cmd.KeyTooLong()
      ensures i == Find(Cells(pairs[..]), cmd.Key())
      ensures fstEmpty < pairs.Length
      ensures i == pairs.Length ==>
        FirstFree(Cells(pairs[..])) == if fstEmpty < 0 then pairs.Length else fstEmpty
    {
      fstEmpty, i := -1, 0;
      while i < pairs.Length && !KeyMatch(cmd, pairs[i])
        invariant i <= pairs.Length
        invariant forall j :: 0 <= j < i ==> !KeyMatch(cmd, pairs[j])
        invariant fstEmpty == -1 ==> forall j :: 0 <= j < i ==> pairs[j].used
        invariant fstEmpty != -1 ==>
          0 <= fstEmpty < i && !pairs[fstEmpty].used && forall j :: 0 <= j < fstEmpty ==> pairs[j].used
      {
        if fstEmpty < 0 && !pairs[i].used {
          IndexExact(Value(), i);
          fstEmpty := IntCast(i);
        }
        i := i + 1;
      }
      ScanMeaning(cmd, pairs[..], i);
      if i == pairs.Length {
        FreeMeaning(pairs[..], if fstEmpty < 0 then i else fstEmpty);
      }
    }

    method Store(cmd: KvCmd, dma: Bus, t: nat) returns (status: u16)
      requires Valid() && cmd.Valid()
      modifies this, pairs, dma`mem
      ensures Valid() && (pairs == old(pairs) || fresh(pairs))
      ensures dma.mem == old(dma.mem)
      ensures (Value(), Done(status))
           == StoreNs(old(Value()), cmd, PrpRead(dma.env, t + 1, old(dma.mem), cmd.prp1, cmd.prp2, cmd.hbs),
                      dma.env.heap(t, 0))
    {
      ghost var x := PrpRead(dma.env, t + 1, dma.mem, cmd.prp1, cmd.prp2, cmd.hbs);
      StoreRefines(Value(), cmd, x, dma.env.heap(t, 0));
      if cmd.kl > MAX_KEY {
        status := INVALID_KEY_SIZE;
      } else if cmd.hbs > MAX_VAL {
        status := INVALID_VAL_SIZE;
      } else {
        status := StoreSized(cmd, dma, t);
      }
    }

    // A store whose key and value sizes are acceptable.
    method StoreSized(cmd: KvCmd, dma: Bus, t: nat) returns (status: u16)
      requires Valid() && cmd.Valid() && !cmd.KeyTooLong() && cmd.hbs <= MAX_VAL
      modifies this, pairs, dma`mem
      ensures pairs == old(pairs) || fresh(pairs)
      ensures dma.mem == old(dma.mem)
      ensures (Value(), Done(status))
           == StoreNs(old(Value()), cmd, PrpRead(dma.env, t + 1, old(dma.mem), cmd.prp1, cmd.prp2, cmd.hbs),
                      dma.env.heap(t, 0))
    {
      var i, fstEmpty := Search(cmd);
      if i < pairs.Length {
        if cmd.OnlyIfAbsent() {
          status := KEY_EXISTS;
        } else {
          status := Receive(i, cmd, dma, t);
        }
      } else if cmd.OnlyIfPresent() {
        status := KEY_NOT_EXISTS;
      } else if nuse / FOOTPRINT >= maxKeys || (fstEmpty < 0 && !dma.env.heap(t, 0)) {
        status := CAP_EXCEEDED;
      } else {
        IndexExact(Value(), FirstFree(Cells(pairs[..])));
        status := InsertAt(fstEmpty, cmd, dma, t);
      }
    }

    // The insert of a new key: grow if no slot is free, write the key, charge the space, then fetch the value.
    method InsertAt(firstFree: int, cmd: KvCmd, dma: Bus, t: nat) returns (status: u16)
      requires Shape(Value()) && cmd.Valid() && !cmd.KeyTooLong() && cmd.hbs <= MAX_VAL
      requires firstFree < pairs.Length
      requires FirstFree(Cells(pairs[..])) == if firstFree < 0 then pairs.Length else firstFree
      requires IntCast(FirstFree(Cells(pairs[..]))) == FirstFree(Cells(pairs[..]))
      modifies this, pairs, dma`mem
      ensures pairs == old(pairs) || fresh(pairs)
      ensures dma.mem == old(dma.mem)
      ensures var x := PrpRead(dma.env, t + 1, old(dma.mem), cmd.prp1, cmd.prp2, cmd.hbs);
              Value() == Insert(old(Value()), cmd, x) && status == DmaStatus(x.ok)
    {
      ghost var was := pairs[..];
      var fstEmpty := firstFree;
      if fstEmpty < 0 {
        fstEmpty := IntCast(pairs.Length);
        Grow();
      }
      assert pairs[..] == Room(was);
      assert SlotOk(pairs[fstEmpty]) by { assert SlotsOk(Room(was)); }
      pairs[fstEmpty] := KeyStore(pairs[fstEmpty], cmd);
      nuse := Add64(nuse, FOOTPRINT);
      status := Receive(fstEmpty, cmd, dma, t);
    }

    // realloc to twice the size, with the new half zeroed.
    method Grow()
      modifies this`pairs
      ensures fresh(pairs) && pairs[..] == old(pairs[..]) + Blanks(|old(pairs[..])|)
    {
      var n := pairs.Length;
      ghost var was := pairs[..];
      var grown := new Slot[n * 2](i => Blank());
      for i := 0 to n
        invariant pairs[..] == was && fresh(grown) && grown.Length == 2 * n
        invariant forall j :: 0 <= j < 2 * n ==> grown[j] == if j < i then was[j] else Blank()
      {
        grown[i] := pairs[i];
      }
      pairs := grown;
      assert pairs[..] == was + Blanks(n);
    }

    // h2c into the value of slot i.
    method Receive(i: nat, cmd: KvCmd, dma: Bus, t: nat) returns (status: u16)
      requires i < pairs.Length && |pairs[i].val| == MAX_VAL && cmd.hbs <= MAX_VAL
      modifies pairs, dma`mem
      ensures dma.mem == old(dma.mem)
      ensures var x := PrpRead(dma.env, t + 1, dma.mem, cmd.prp1, cmd.prp2, cmd.hbs);
              status == DmaStatus(x.ok) && pairs[..] == old(pairs[..])[i := Fill(old(pairs[i]), x)]
    {
      var ok, data := dma.PrpXfer(t + 1, cmd.prp1, cmd.prp2, Zeros(cmd.hbs), cmd.hbs, false);
      pairs[i] := pairs[i].(val := Overlay(pairs[i].val, data));
      return if ok then SUCCESS else INVALID_FIELD;
    }

    method Retrieve(cmd: KvCmd, dma: Bus, t: nat) returns (status: u16)
      requires Valid() && cmd.Valid()
      modifies dma`mem
      ensures var r := RetrieveNs(Value(), cmd);
              && status == FinalStatus(r, dma.env, t, |old(dma.mem)|, cmd)
              && dma.mem == FinalMem(r, dma.env, t, old(dma.mem), cmd)
    {
      if cmd.kl > MAX_KEY {
        return INVALID_FIELD;
      }
      var i := Scan(cmd);
      if i < pairs.Length {
        var len := Min(cmd.hbs, MAX_VAL);
        var ok, _ := dma.PrpXfer(t + 1, cmd.prp1, cmd.prp2, pairs[i].val[..len], len, true);
        return if ok then SUCCESS else INVALID_FIELD;
      }
      return KEY_NOT_EXISTS;
    }

    method Delete(cmd: KvCmd) returns (status: u16)
      requires Valid() && cmd.Valid()
      modifies this, pairs
      ensures Valid() && pairs == old(pairs)
      ensures (Value(), Done(status)) == DeleteNs(old(Value()), cmd)
    {
      if cmd.kl > MAX_KEY {
        return INVALID_FIELD;
      }
      DeleteRefines(Value(), cmd);
      var i := Scan(cmd);
      if i < pairs.Length {
        pairs[i] := Blank();
        nuse := Sub64(nuse, FOOTPRINT);
        return SUCCESS;
      }
      return if ednek % 2 == 1 then KEY_NOT_EXISTS else SUCCESS;
    }

    method Exist(cmd: KvCmd) returns (status: u16)
      requires Valid() && cmd.Valid()
      ensures Done(status) == ExistNs(Value(), cmd)
    {
      if cmd.kl > MAX_KEY {
        return INVALID_FIELD;
      }
      var i := Scan(cmd);
      return if i < pairs.Length then SUCCESS else KEY_NOT_EXISTS;
    }

    // The scan of a list, growing the buffer record by record; None when an allocation fails.
    method BuildListing(hbs: nat, first: nat, env: Env, t: nat) returns (r: Option<seq<byte>>)
      requires SlotsOk(pairs[..]) && first <= pairs.Length
      ensures var from := Cells(pairs[..])[first..];
              r == if HeapOk(env, t, Tries(from, hbs)) then Some(Listing(Taken(from, 4, hbs))) else None
    {
      if !env.heap(t, 0) {
        return None;
      }
      var rds, i := Zeros(4), first;
      ghost var rest := Cells(pairs[..])[first..];
      ghost var goal, full := Taken(rest, 4, hbs), StopsFull(rest, 4, hbs);
      ghost var ks: seq<Key> := [];
      assert rds == Listing([]);
      assert ks + goal == goal;
      var allocs := 1;
      while i < pairs.Length
        invariant first <= i <= pairs.Length
        invariant rest == Cells(pairs[..])[i..]
        invariant allocs == 1 + |ks| && HeapOk(env, t, allocs)
        invariant rds == Listing(ks)
        invariant Progress(goal, full, hbs, ks, rest, |rds|)
      {
        var p := pairs[i];
        assert rest[0] == CellOf(p);
        if p.used {
          if !env.heap(t, allocs) {
            HeapFails(env, t, goal, full, hbs, ks, rest, |rds|);
            return None;
          }
          HeapMore(env, t, allocs);
          allocs := allocs + 1;
          if |rds| + Stride(p.kl) > hbs {
            break;
          }
          var key := p.key[..p.kl];
          ListingStep(ks, key);
          ghost var size := |rds|;
          rds := BumpCount(rds) + Record(key);
          TakeOne(goal, full, hbs, ks, rest, size, key, |rds|);
          ks := ks + [key];
        } else {
          SkipFree(goal, full, hbs, ks, rest, |rds|);
        }
        rest := rest[1..];
        i := i + 1;
      }
      ScanEnds(goal, full, hbs, ks, rest, |rds|);
      return Some(rds);
    }

    method List(cmd: KvCmd, dma: Bus, t: nat) returns (status: u16)
      requires Valid() && cmd.Valid()
      modifies dma`mem
      ensures var r := ListNs(Value(), cmd, dma.env, t);
              && status == FinalStatus(r, dma.env, t, |old(dma.mem)|, cmd)
              && dma.mem == FinalMem(r, dma.env, t, old(dma.mem), cmd)
    {
      if cmd.kl > MAX_KEY {
        return INVALID_FIELD;
      }
      var i := Scan(cmd);
      var rds := BuildListing(cmd.hbs, if i < pairs.Length then i else 0, dma.env, t);
      if rds.None? {
        return CAP_EXCEEDED;
      }
      var ok, _ := dma.PrpXfer(t + 1, cmd.prp1, cmd.prp2, rds.value, |rds.value|, true);
      return if ok then SUCCESS else INVALID_FIELD;
    }
  }

  // The keys taken so far and what the rest of the scan still adds make up the goal.
  ghost predicate Progress(goal: seq<Key>, full: bool, hbs: nat, ks: seq<Key>, rest: seq<Cell>, size: nat) {
    goal == ks + Taken(rest, size, hbs) && full == StopsFull(rest, size, hbs)
  }

  // *nrk = *nrk + 1 on the first two bytes of the buffer.
  function BumpCount(rds: seq<byte>): seq<byte>
    requires |rds| >= 4
  {
    WrLe(2, (RdLe(rds[..2]) + 1) % TWO16) + rds[2..]
  }

  lemma ScanMeaning(cmd: KvCmd, slots: seq<Slot>, i: nat)
    requires SlotsOk(slots) && cmd.Valid() && !cmd.KeyTooLong() && i <= |slots|
    requires i < |slots| ==> KeyMatch(cmd, slots[i])
    requires forall j :: 0 <= j < i ==> !KeyMatch(cmd, slots[j])
    ensures Find(Cells(slots), cmd.Key()) == i
  {
    forall j | 0 <= j < |slots|
      ensures KeyMatch(cmd, slots[j]) <==> Cells(slots)[j].Held? && Cells(slots)[j].key == cmd.Key()
    {
      KeyMatchMeaning(cmd, slots[j]);
    }
    FindUnique(Cells(slots), cmd.Key(), i);
  }

  lemma FreeMeaning(slots: seq<Slot>, i: nat)
    requires SlotsOk(slots) && i <= |slots| && (i < |slots| ==> !slots[i].used)
    requires forall j :: 0 <= j < i ==> slots[j].used
    ensures FirstFree(Cells(slots)) == i
  {
    FreeUnique(Cells(slots), i);
  }

  // An index with only used slots before it is at most the number of live keys, so the cast to int is exact.
  lemma IndexExact(ns: Ns, i: nat)
    requires NsOk(ns) && i <= |ns.slots| && forall j :: 0 <= j < i ==> ns.slots[j].used
    ensures IntCast(i) == i && i <= Live(ns)
  {
    FreeIndexBound(Cells(ns.slots), i);
  }

  lemma {:induction false} RecordsAppend(ks: seq<Key>, k: Key)
    ensures Records(ks + [k]) == Records(ks) + Record(k)
  {
    if ks == [] {
      assert [k][1..] == [];
      assert ks + [k] == [k];
    } else {
      RecordsAppend(ks[1..], k);
      assert (ks + [k])[1..] == ks[1..] + [k];
      Assoc(Record(ks[0]), Records(ks[1..]), Record(k));
    }
  }

  // Appending a record and bumping the count is the listing of one more key.
  lemma ListingStep(ks: seq<Key>, k: Key)
    ensures BumpCount(Listing(ks)) + Record(k) == Listing(ks + [k])
    ensures |Listing(ks + [k])| == |Listing(ks)| + Stride(|k|)
  {
    RecordsAppend(ks, k);
    BumpHeader(|ks|, Records(ks));
    Assoc(Header(|ks| + 1), Records(ks), Record(k));
  }

  lemma BumpHeader(n: nat, rest: seq<byte>)
    ensures BumpCount(Header(n) + rest) == Header(n + 1) + rest
  {
    var l := Header(n) + rest;
    assert l[..2] == WrLe(2, n % TWO16);
    Pow256Widths();
    LeExact(2, n % TWO16);
    assert (n % TWO16 + 1) % TWO16 == (n + 1) % TWO16;
    assert l[2..] == Zeros(2) + rest;
  }

  // Taking the record at the front of the rest.
  lemma TakeOne(goal: seq<Key>, full: bool, hbs: nat, ks: seq<Key>, rest: seq<Cell>, size: nat, k: Key, size': nat)
    requires Progress(goal, full, hbs, ks, rest, size)
    requires rest != [] && rest[0].Held? && rest[0].key == k && size' == size + Stride(|k|) <= hbs
    ensures Progress(goal, full, hbs, ks + [k], rest[1..], size')
  {
    var more := Taken(rest[1..], size', hbs);
    assert ks + ([k] + more) == (ks + [k]) + more;
  }

  lemma SkipFree(goal: seq<Key>, full: bool, hbs: nat, ks: seq<Key>, rest: seq<Cell>, size: nat)
    requires Progress(goal, full, hbs, ks, rest, size)
    requires rest != [] && rest[0] == Free
    ensures Progress(goal, full, hbs, ks, rest[1..], size)
  {
  }

  lemma ScanEnds(goal: seq<Key>, full: bool, hbs: nat, ks: seq<Key>, rest: seq<Cell>, size: nat)
    requires Progress(goal, full, hbs, ks, rest, size)
    requires rest == [] || (rest[0].Held? && size + Stride(|rest[0].key|) > hbs)
    ensures goal == ks && full == (rest != [])
  {
    assert Taken(rest, size, hbs) == [];
  }

  lemma HeapMore(env: Env, t: nat, n: nat)
    requires HeapOk(env, t, n) && env.heap(t, n)
    ensures HeapOk(env, t, n + 1)
  {
  }

  // A failed allocation at the record just reached is one that the whole listing needs.
  lemma HeapFails(env: Env, t: nat, goal: seq<Key>, full: bool, hbs: nat, ks: seq<Key>, rest: seq<Cell>, size: nat)
    requires rest != [] && rest[0].Held? && !env.heap(t, 1 + |ks|)
    requires Progress(goal, full, hbs, ks, rest, size)
    ensures !HeapOk(env, t, 1 + |goal| + if full then 1 else 0)
  {
    assert |goal| > |ks| || full;
  }
}
