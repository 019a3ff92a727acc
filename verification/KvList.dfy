/** The List payload: what a page holds, how it is read back, and how pages are chained into a full enumeration. */
module KvList {
  import opened Bytes
  import opened NvmeSpec
  import opened GuestMemory
  import opened KvCells
  import opened KvSlots
  import opened KvMap

  // Keys of the held cells, in slot order.
  ghost function HeldKeys(c: seq<Cell>): (ks: seq<Key>)
    ensures |ks| <= |c|
  {
    if c == [] then []
    else if c[0] == Free then HeldKeys(c[1..])
    else [c[0].key] + HeldKeys(c[1..])
  }

  ghost function Size(ks: seq<Key>): nat {
    if ks == [] then 0 else Stride(|ks[0]|) + Size(ks[1..])
  }

  // The device's padding is a rounding up to 4 for even lengths only; a record always ends on an even offset.
  lemma StrideMeaning(kl: nat)
    ensures Stride(kl) % 2 == 0 && Stride(kl) >= 4
    ensures kl % 2 == 0 <==> Stride(kl) == RoundUp4(2 + kl)
    ensures kl % 2 == 0 ==> Stride(kl) % 4 == 0
    ensures kl <= MAX_KEY ==> Stride(kl) <= 20
  {
    var q, r := (2 + kl) / 4, (2 + kl) % 4;
    assert 2 + kl == 4 * q + r && Stride(kl) == 4 * q + 2 * r;
    DivModUnique(Stride(kl), 2, 2 * q + r, 0);
    DivModUnique(kl, 2, 2 * q - 1 + r / 2, r % 2);
    DivModUnique(2 + kl + 3, 4, if r == 0 then q else q + 1, if r == 0 then 3 else r - 1);
    if r == 0 {
      DivModUnique(Stride(kl), 4, q, 0);
    } else if r == 2 {
      DivModUnique(Stride(kl), 4, q + 1, 0);
    }
  }

  function RoundUp4(n: nat): nat { (n + 3) / 4 * 4 }

  lemma SumMod(a: nat, b: nat, d: nat)
    requires d > 0 && a % d == 0 && b % d == 0
    ensures (a + b) % d == 0
  {
    DivModUnique(a + b, d, a / d + b / d, 0);
  }

  lemma {:induction false} SizeConcat(a: seq<Key>, b: seq<Key>)
    ensures Size(a + b) == Size(a) + Size(b)
  {
    if a == [] {
      assert a + b == b;
    } else {
      SizeConcat(a[1..], b);
      assert (a + b)[1..] == a[1..] + b;
    }
  }

  lemma SizePrefix(ks: seq<Key>, m: nat, n: nat)
    requires m <= n <= |ks|
    ensures Size(ks[..n]) == Size(ks[..m]) + Size(ks[m..n])
  {
    assert ks[..n] == ks[..m] + ks[m..n];
    SizeConcat(ks[..m], ks[m..n]);
  }

  lemma {:induction false} SizeBounds(ks: seq<Key>)
    ensures Size(ks) % 2 == 0 && Size(ks) >= 4 * |ks|
  {
    if ks != [] {
      SizeBounds(ks[1..]);
      StrideMeaning(|ks[0]|);
      SumMod(Stride(|ks[0]|), Size(ks[1..]), 2);
    }
  }

  // ---------------------------------------------------------------- what one page holds

  // A page is the longest run of held keys whose records fit after the 4-byte header.
  lemma {:induction false} TakenPrefix(c: seq<Cell>, size: nat, hbs: nat)
    ensures var ks, n := HeldKeys(c), |Taken(c, size, hbs)|;
            && n <= |ks| && Taken(c, size, hbs) == ks[..n]
            && (n > 0 ==> size + Size(ks[..n]) <= hbs)
            && (n < |ks| ==> size + Size(ks[..n]) + Stride(|ks[n]|) > hbs)
            && (StopsFull(c, size, hbs) <==> n < |ks|)
  {
    if c != [] {
      if c[0] == Free {
        TakenPrefix(c[1..], size, hbs);
      } else {
        var s := size + Stride(|c[0].key|);
        TakenPrefix(c[1..], s, hbs);
        var ks, rest, m := HeldKeys(c), HeldKeys(c[1..]), |Taken(c[1..], s, hbs)|;
        if s <= hbs {
          assert ks[..m + 1] == [c[0].key] + rest[..m];
          assert ks[..m + 1][1..] == rest[..m];
        }
      }
    }
  }

  lemma TakenLongest(c: seq<Cell>, hbs: nat, m: nat)
    requires m <= |HeldKeys(c)| && 4 + Size(HeldKeys(c)[..m]) <= hbs
    ensures m <= |Taken(c, 4, hbs)|
  {
    var ks, n := HeldKeys(c), |Taken(c, 4, hbs)|;
    TakenPrefix(c, 4, hbs);
    if n < m {
      SizePrefix(ks, n, m);
    }
  }

  lemma {:induction false} ListingLength(ks: seq<Key>)
    ensures |Records(ks)| == Size(ks) && |Listing(ks)| == 4 + Size(ks)
  {
    if ks != [] {
      ListingLength(ks[1..]);
    }
  }

  // ---------------------------------------------------------------- reading a page back

  // A reader of n records; it steps by the device's stride, or by lengths rounded up to 4.
  function Parse(b: seq<byte>, n: nat, aligned: bool): Option<seq<Key>>
    decreases n
  {
    if n == 0 then Some([])
    else if |b| < 2 then None
    else
      var kl := RdLe(b[..2]);
      var step := if aligned then RoundUp4(2 + kl) else Stride(kl);
      if |b| < 2 + kl || |b| < step then None
      else
        match Parse(b[step..], n - 1, aligned)
        case None => None
        case Some(ks) => Some([b[2..2 + kl]] + ks)
  }

  function Decode(p: seq<byte>): Option<seq<Key>> {
    if |p| < 4 then None else Parse(p[4..], RdLe(p[..2]), false)
  }

  ghost predicate Short(ks: seq<Key>) { forall i :: 0 <= i < |ks| ==> |ks[i]| <= MAX_KEY }

  ghost predicate EvenLengths(ks: seq<Key>) { forall i :: 0 <= i < |ks| ==> |ks[i]| % 2 == 0 }

  lemma RecordRead(k: Key, more: seq<byte>)
    requires |k| <= MAX_KEY
    ensures var b := Record(k) + more;
            RdLe(b[..2]) == |k| && b[2..2 + |k|] == k && b[Stride(|k|)..] == more
  {
    var b := Record(k) + more;
    assert b[..2] == WrLe(2, |k|);
    Pow256Widths();
    WriteThenRead(2, |k|);
  }

  // Reading one record more; the rounding reader needs an even length.
  lemma ParseOne(k: Key, more: seq<byte>, n: nat, aligned: bool, rest: seq<Key>)
    requires |k| <= MAX_KEY && (aligned ==> |k| % 2 == 0) && Parse(more, n, aligned) == Some(rest)
    ensures Parse(Record(k) + more, n + 1, aligned) == Some([k] + rest)
  {
    RecordRead(k, more);
    StrideMeaning(|k|);
  }

  // Reading the first n records of a page gives its first n keys.
  lemma {:induction false} ParseRecords(ks: seq<Key>, n: nat)
    requires Short(ks) && n <= |ks|
    ensures Parse(Records(ks), n, false) == Some(ks[..n])
  {
    if n > 0 {
      ParseRecords(ks[1..], n - 1);
      ParseOne(ks[0], Records(ks[1..]), n - 1, false, ks[1..][..n - 1]);
      assert [ks[0]] + ks[1..][..n - 1] == ks[..n];
    }
  }

  lemma ListingParts(ks: seq<Key>)
    ensures |Listing(ks)| >= 4
    ensures RdLe(Listing(ks)[..2]) == |ks| % TWO16 && Listing(ks)[4..] == Records(ks)
  {
    assert Listing(ks)[..2] == WrLe(2, |ks| % TWO16);
    Pow256Widths();
    LeExact(2, |ks| % TWO16);
  }

  // The round trip, with the 16-bit record count: exact when it does not wrap, a proper prefix when it does.
  lemma DecodeListing(ks: seq<Key>)
    requires Short(ks)
    ensures Decode(Listing(ks)) == Some(ks[..|ks| % TWO16])
    ensures Decode(Listing(ks)) == Some(ks) <==> |ks| < TWO16
  {
    ListingParts(ks);
    ParseRecords(ks, |ks| % TWO16);
    assert |ks[..|ks| % TWO16]| == |ks| % TWO16;
    assert |ks| < TWO16 ==> ks[..|ks| % TWO16] == ks;
  }

  // A reader that rounds lengths up to 4 recovers a page whose keys all have even length.
  lemma {:induction false} ParseAligned(ks: seq<Key>)
    requires Short(ks) && EvenLengths(ks)
    ensures Parse(Records(ks), |ks|, true) == Some(ks)
  {
    if ks != [] {
      ParseAligned(ks[1..]);
      ParseOne(ks[0], Records(ks[1..]), |ks| - 1, true, ks[1..]);
      assert ks == [ks[0]] + ks[1..];
    }
  }

  // Where the i-th record starts, for the device and for a round-up-to-4 reader.
  ghost function OffsetOf(ks: seq<Key>, i: nat): nat
    requires i <= |ks|
  {
    if i == 0 then 4 else OffsetOf(ks, i - 1) + Stride(|ks[i - 1]|)
  }

  ghost function AlignedOffsetOf(ks: seq<Key>, i: nat): nat
    requires i <= |ks|
  {
    if i == 0 then 4 else AlignedOffsetOf(ks, i - 1) + RoundUp4(2 + |ks[i - 1]|)
  }

  lemma {:induction false} OffsetsEven(ks: seq<Key>, i: nat)
    requires i <= |ks|
    ensures OffsetOf(ks, i) % 2 == 0
    ensures EvenLengths(ks) ==> OffsetOf(ks, i) % 4 == 0
  {
    if i > 0 {
      OffsetsEven(ks, i - 1);
      StrideMeaning(|ks[i - 1]|);
      SumMod(OffsetOf(ks, i - 1), Stride(|ks[i - 1]|), 2);
      if EvenLengths(ks) {
        SumMod(OffsetOf(ks, i - 1), Stride(|ks[i - 1]|), 4);
      }
    }
  }

  // The two readers find every record at the same offset exactly when every key but the last has even length.
  lemma {:induction false} OffsetsAgree(ks: seq<Key>, n: nat)
    requires 0 < n <= |ks|
    ensures (forall i :: 0 <= i < n ==> OffsetOf(ks, i) == AlignedOffsetOf(ks, i)) <==> EvenLengths(ks[..n - 1])
  {
    if n > 1 {
      OffsetsAgree(ks, n - 1);
      assert ks[..n - 1][..n - 2] == ks[..n - 2];
      assert OffsetOf(ks, n - 1) == OffsetOf(ks, n - 2) + Stride(|ks[n - 2]|);
      assert AlignedOffsetOf(ks, n - 1) == AlignedOffsetOf(ks, n - 2) + RoundUp4(2 + |ks[n - 2]|);
      StrideMeaning(|ks[n - 2]|);
      assert ks[..n - 1] == ks[..n - 2] + [ks[n - 2]];
    }
  }

  // ---------------------------------------------------------------- chaining pages

  // The device's answer to List decodes to that page.
  lemma ListAnswersPage(ns: Ns, cmd: KvCmd, env: Env, t: nat)
    requires NsOk(ns) && cmd.Valid() && !cmd.KeyTooLong() && ListNs(ns, cmd, env, t).Send?
    ensures var page, p := PageOf(Cells(ns.slots), cmd.Key(), cmd.hbs), ListNs(ns, cmd, env, t).payload;
            && p == Listing(page) && Short(page)
            && |p| <= Max(4, cmd.hbs)
            && (Decode(p) == Some(page) <==> |page| < TWO16)
  {
    var from := FromKey(Cells(ns.slots), cmd.Key());
    var page := Taken(from, 4, cmd.hbs);
    TakenPrefix(from, 4, cmd.hbs);
    HeldShort(from);
    ListingLength(page);
    DecodeListing(page);
    assert page == [] ==> Size(page) == 0;
  }

  lemma {:induction false} HeldShort(c: seq<Cell>)
    requires forall i :: 0 <= i < |c| && c[i].Held? ==> |c[i].key| <= MAX_KEY
    ensures Short(HeldKeys(c))
  {
    if c != [] {
      HeldShort(c[1..]);
    }
  }

  // A List that succeeds end to end fits in two pages: at most 2047 records, so its count never wraps.
  lemma SuccessfulListCount(ns: Ns, cmd: KvCmd, env: Env, t: nat, u: nat, size: nat)
    requires NsOk(ns) && cmd.Valid() && !cmd.KeyTooLong() && ListNs(ns, cmd, env, t).Send?
    requires PrpOk(env, u, cmd.prp1, cmd.prp2, |ListNs(ns, cmd, env, t).payload|, size)
    ensures var page, p := PageOf(Cells(ns.slots), cmd.Key(), cmd.hbs), ListNs(ns, cmd, env, t).payload;
            |page| <= 2047 && RdLe(p[..2]) == |page| && Decode(p) == Some(page)
  {
    var page, p := PageOf(Cells(ns.slots), cmd.Key(), cmd.hbs), ListNs(ns, cmd, env, t).payload;
    ListAnswersPage(ns, cmd, env, t);
    PrpLimit(env, u, cmd.prp1, cmd.prp2, |p|, size);
    ShortListing(page);
  }

  lemma ShortListing(page: seq<Key>)
    requires |Listing(page)| <= 2 * PAGE_SIZE
    ensures |page| <= 2047 && RdLe(Listing(page)[..2]) == |page|
  {
    ListingLength(page);
    SizeBounds(page);
    ListingParts(page);
  }

  // Each held key appears once in HeldKeys, and nothing else does.
  lemma {:induction false} HeldKeysOnce(c: seq<Cell>)
    requires Unique(c)
    ensures forall k :: k in HeldKeys(c) <==> Find(c, k) < |c|
    ensures forall i, j :: 0 <= i < j < |HeldKeys(c)| ==> HeldKeys(c)[i] != HeldKeys(c)[j]
  {
    if c != [] {
      assert forall j :: 0 < j < |c| ==> c[j] == c[1..][j - 1];
      HeldKeysOnce(c[1..]);
      if c[0].Held? {
        assert Find(c[1..], c[0].key) == |c[1..]|;
      }
    }
  }

  lemma SuffixUnique(c: seq<Cell>, i: nat)
    requires Unique(c) && i <= |c|
    ensures Unique(c[i..])
    ensures forall k :: Find(c[i..], k) < |c[i..]| ==> Find(c, k) < |c|
  {
    var d := c[i..];
    assert forall j :: 0 <= j < |d| ==> d[j] == c[i + j];
    forall k | Find(d, k) < |d| ensures Find(c, k) < |c| {
      assert c[i + Find(d, k)].key == k;
    }
  }

  // What a List lists: a run of stored keys, each once, from the named key on (all of them, in slot order, when it is
  // absent), cut only where the next record would not fit.
  lemma PageMeaning(ns: Ns, k: Key, hbs: nat)
    requires NsOk(ns)
    ensures var (page, all) := (PageOf(Cells(ns.slots), k, hbs), HeldKeys(FromKey(Cells(ns.slots), k)));
            && page <= all && (page != [] ==> 4 + Size(page) <= hbs)
            && (|page| < |all| ==> 4 + Size(page) + Stride(|all[|page|]|) > hbs)
            && (forall q :: q in all ==> q in Abs(ns).m)
            && (forall i, j :: 0 <= i < j < |all| ==> all[i] != all[j])
            && (k in Abs(ns).m ==> all != [] && all[0] == k)
            && (k !in Abs(ns).m ==> forall q :: q in Abs(ns).m ==> q in all)
  {
    var c := Cells(ns.slots);
    var i := if Find(c, k) < |c| then Find(c, k) else 0;
    TakenPrefix(c[i..], 4, hbs);
    SuffixUnique(c, i);
    HeldKeysOnce(c[i..]);
    if k in Abs(ns).m {
      assert c[i..][0] == c[i];
    } else {
      assert c[0..] == c;
    }
  }

  // Restarting at a listed key resumes exactly there.
  lemma {:induction false} Locate(c: seq<Cell>, i: nat, j: nat)
    requires Unique(c) && i <= |c| && j < |HeldKeys(c[i..])|
    ensures var k := HeldKeys(c[i..])[j];
            && i <= Find(c, k) < |c|
            && (j > 0 ==> i < Find(c, k))
            && HeldKeys(c[Find(c, k)..]) == HeldKeys(c[i..])[j..]
    decreases |c| - i
  {
    assert c[i..][1..] == c[i + 1..];
    if c[i] == Free {
      Locate(c, i + 1, j);
    } else if j > 0 {
      Locate(c, i + 1, j - 1);
    } else {
      FindHeld(c, i);
    }
  }

  // The keys a host learns after a page that ended at `cursor`: it lists again from there, drops the repeated
  // first key, and stops when a page brings nothing new.
  ghost function Resume(c: seq<Cell>, cursor: Key, hbs: nat): seq<Key>
    requires Unique(c) && Find(c, cursor) < |c|
    decreases |c| - Find(c, cursor)
  {
    var page := PageOf(c, cursor, hbs);
    if |page| <= 1 then []
    else
      TakenPrefix(c[Find(c, cursor)..], 4, hbs);
      Locate(c, Find(c, cursor), |page| - 1);
      page[1..] + Resume(c, page[|page| - 1], hbs)
  }

  ghost function ListAll(c: seq<Cell>, absent: Key, hbs: nat): seq<Key>
    requires Unique(c) && Find(c, absent) == |c|
  {
    var page := PageOf(c, absent, hbs);
    if page == [] then []
    else
      TakenPrefix(c[0..], 4, hbs);
      Locate(c, 0, |page| - 1);
      page + Resume(c, page[|page| - 1], hbs)
  }

  // Every two neighbouring records fit in one page.
  ghost predicate PairsFit(ks: seq<Key>, hbs: nat) {
    forall i :: 0 <= i < |ks| - 1 ==> 4 + Stride(|ks[i]|) + Stride(|ks[i + 1]|) <= hbs
  }

  lemma {:induction false} PairsInPage(ks: seq<Key>, n: nat, hbs: nat)
    requires n <= |ks| && 4 + Size(ks[..n]) <= hbs
    ensures PairsFit(ks[..n], hbs)
  {
    var p := ks[..n];
    forall i | 0 <= i < n - 1 ensures 4 + Stride(|p[i]|) + Stride(|p[i + 1]|) <= hbs {
      SizePrefix(p, i, n);
      assert p[..n] == p;
      assert p[i..n][0] == p[i] && p[i..n][1..][0] == p[i + 1];
    }
  }

  lemma PairsSplit(ks: seq<Key>, n: nat, hbs: nat)
    requires 0 < n <= |ks| && PairsFit(ks[..n], hbs)
    ensures PairsFit(ks, hbs) <==> PairsFit(ks[n - 1..], hbs)
  {
    if PairsFit(ks[n - 1..], hbs) {
      forall i | 0 <= i < |ks| - 1 ensures 4 + Stride(|ks[i]|) + Stride(|ks[i + 1]|) <= hbs {
        if i < n - 1 {
          assert ks[..n][i] == ks[i] && ks[..n][i + 1] == ks[i + 1];
        } else {
          var d := ks[n - 1..];
          assert d[i - (n - 1)] == ks[i] && d[i - (n - 1) + 1] == ks[i + 1];
        }
      }
    }
  }

  // One turn of the chain, from a page with something new to its last key.
  lemma ResumeTurn(c: seq<Cell>, cursor: Key, hbs: nat, page: seq<Key>, last: Key)
    requires Unique(c) && Find(c, cursor) < |c|
    requires page == PageOf(c, cursor, hbs) && |page| > 1 && last == page[|page| - 1]
    ensures Find(c, cursor) < Find(c, last) < |c|
    ensures |page| <= |HeldKeys(c[Find(c, cursor)..])|
    ensures HeldKeys(c[Find(c, last)..]) == HeldKeys(c[Find(c, cursor)..])[|page| - 1..]
    ensures Resume(c, cursor, hbs) == page[1..] + Resume(c, last, hbs)
  {
    TakenPrefix(c[Find(c, cursor)..], 4, hbs);
    Locate(c, Find(c, cursor), |page| - 1);
  }

  lemma CursorFirst(c: seq<Cell>, cursor: Key)
    requires Unique(c) && Find(c, cursor) < |c|
    ensures HeldKeys(c[Find(c, cursor)..]) != [] && HeldKeys(c[Find(c, cursor)..])[0] == cursor
  {
    assert c[Find(c, cursor)..][0] == c[Find(c, cursor)];
  }

  // From a cursor on, the host learns every later key exactly when all neighbouring pairs from there on fit.
  lemma {:induction false} ResumeComplete(c: seq<Cell>, cursor: Key, hbs: nat, ks: seq<Key>)
    requires Unique(c) && Find(c, cursor) < |c| && ks == HeldKeys(c[Find(c, cursor)..])
    ensures ks != [] && (Resume(c, cursor, hbs) == ks[1..] <==> PairsFit(ks, hbs))
    decreases |c| - Find(c, cursor)
  {
    var page := PageOf(c, cursor, hbs);
    CursorFirst(c, cursor);
    TakenPrefix(c[Find(c, cursor)..], 4, hbs);
    if |page| <= 1 {
      if |ks| > 1 {
        PairStuck(ks, |page|, hbs);
      }
    } else {
      var last := page[|page| - 1];
      ResumeTurn(c, cursor, hbs, page, last);
      ResumeComplete(c, last, hbs, ks[|page| - 1..]);
      Chain(ks, |page|, hbs, Resume(c, last, hbs));
    }
  }

  // A page that holds at most its own cursor, although another key follows.
  lemma PairStuck(ks: seq<Key>, n: nat, hbs: nat)
    requires n <= 1 && n < |ks| && 4 + Size(ks[..n]) + Stride(|ks[n]|) > hbs && |ks| > 1
    ensures !PairsFit(ks, hbs)
  {
    var first: seq<Key> := ks[..n];
    if n == 1 {
      assert |first[1..]| == 0;
    }
    assert 4 + Stride(|ks[0]|) + Stride(|ks[0 + 1]|) > hbs;
  }

  // A page of n keys followed by r is complete exactly when r completes what follows the page's last key.
  lemma Chain(ks: seq<Key>, n: nat, hbs: nat, r: seq<Key>)
    requires 0 < n <= |ks| && 4 + Size(ks[..n]) <= hbs
    requires r == ks[n - 1..][1..] <==> PairsFit(ks[n - 1..], hbs)
    ensures ks[..n] + r == ks <==> PairsFit(ks, hbs)
    ensures ks[..n][1..] + r == ks[1..] <==> PairsFit(ks, hbs)
  {
    PairsInPage(ks, n, hbs);
    PairsSplit(ks, n, hbs);
    assert ks[n - 1..][1..] == ks[n..];
    assert ks[1..] == ks[..n][1..] + ks[n..];
    assert ks == ks[..n] + ks[n..];
    Cancel(ks[..n][1..], r, ks[n..]);
    Cancel(ks[..n], r, ks[n..]);
  }

  lemma Cancel(a: seq<Key>, x: seq<Key>, y: seq<Key>)
    ensures a + x == a + y <==> x == y
  {
    if a + x == a + y {
      assert x == (a + x)[|a|..] == (a + y)[|a|..] == y;
    }
  }

  // Pagination is complete exactly when the first record fits and every two neighbouring records fit in a page.
  lemma ListAllComplete(c: seq<Cell>, absent: Key, hbs: nat)
    requires Unique(c) && Find(c, absent) == |c|
    ensures var ks := HeldKeys(c);
            ListAll(c, absent, hbs) == ks
            <==> (ks != [] ==> 4 + Stride(|ks[0]|) <= hbs) && PairsFit(ks, hbs)
  {
    var ks, page := HeldKeys(c), PageOf(c, absent, hbs);
    var n := |page|;
    assert c[0..] == c;
    TakenPrefix(c, 4, hbs);
    if n > 0 {
      Locate(c, 0, n - 1);
      ResumeComplete(c, page[n - 1], hbs, ks[n - 1..]);
      Chain(ks, n, hbs, Resume(c, page[n - 1], hbs));
      assert ks[..n][0] == ks[0];
    }
  }

  // 44 bytes hold two of the longest records, so chaining pages of that size or more misses no key.
  lemma ChainComplete(ns: Ns, absent: Key, hbs: nat)
    requires NsOk(ns) && absent !in Abs(ns).m && hbs >= 44
    ensures var ks := HeldKeys(Cells(ns.slots));
            (ks != [] ==> 4 + Stride(|ks[0]|) <= hbs) && PairsFit(ks, hbs)
  {
    HeldShort(Cells(ns.slots));
    forall n: nat ensures n <= MAX_KEY ==> Stride(n) <= 20 {
      StrideMeaning(n);
    }
  }

  // The keys in slot order are the keys of the map, each once.
  lemma HeldKeysMeaning(ns: Ns)
    requires NsOk(ns)
    ensures var ks := HeldKeys(Cells(ns.slots));
            && |ks| == |Abs(ns).m| && (forall k :: k in ks <==> k in Abs(ns).m)
            && forall i, j :: 0 <= i < j < |ks| ==> ks[i] != ks[j]
  {
    HeldKeysOnce(Cells(ns.slots));
    HeldCount(Cells(ns.slots));
    MapCount(Cells(ns.slots));
  }

  lemma {:induction false} HeldCount(c: seq<Cell>)
    ensures |HeldKeys(c)| == Count(c)
  {
    if c != [] {
      HeldCount(c[1..]);
    }
  }
}
