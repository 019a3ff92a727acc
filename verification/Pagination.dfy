/** The host's List loop against the device: commands, transfers and decoding, and when it enumerates every key. */
module Pagination {
  import opened Bytes
  import opened NvmeSpec
  import opened GuestMemory
  import opened KvCells
  import opened KvSlots
  import opened KvMap
  import opened KvList

  // The buffer every List of the loop names.
  datatype Buffer = Buffer(prp1: nat, prp2: nat, len: u32)

  // A List command that names key k.
  function ListCmd(k: Key, b: Buffer): (c: KvCmd)
    requires |k| <= MAX_KEY
    ensures c.Valid() && !c.KeyTooLong() && c.Key() == k
  {
    var f := k + Zeros(MAX_KEY - |k|);
    assert (f[..8] + f[8..])[..|k|] == k;
    KvCmd(KV_LIST, b.prp1, b.prp2, b.len, |k|, 0, f[..8], f[8..])
  }

  // What one List at tick t brings the host, from a device whose slots stand for c: the decoded page, or nothing when
  // the command fails.
  function ListOnce(c: seq<Cell>, env: Env, t: nat, size: nat, b: Buffer, k: Key): Option<seq<Key>>
    requires |k| <= MAX_KEY
  {
    var r := ListReply(c, k, b.len, env, t);
    if r.Send? && FinalStatus(r, env, t, size, ListCmd(k, b)) == SUCCESS then Decode(r.payload) else None
  }

  lemma ListOnceIsList(ns: Ns, env: Env, t: nat, b: Buffer, k: Key)
    requires NsOk(ns) && |k| <= MAX_KEY
    ensures ListNs(ns, ListCmd(k, b), env, t) == ListReply(Cells(ns.slots), k, b.len, env, t)
  {
  }

  // Cells with distinct keys of acceptable length.
  ghost predicate Listable(c: seq<Cell>) {
    Unique(c) && forall i :: 0 <= i < |c| && c[i].Held? ==> |c[i].key| <= MAX_KEY
  }

  function LastOf(page: seq<Key>): Key
    requires page != []
  {
    page[|page| - 1]
  }

  // A page that fits in what two PRP entries can describe.
  predicate Sendable(page: seq<Key>, prp1: nat) { prp1 % PAGE_SIZE + |Listing(page)| <= 2 * PAGE_SIZE }

  // Allocations succeed, and so do transfers of up to the buffer's size that need no third page.
  ghost predicate Willing(env: Env, size: nat, b: Buffer) {
    && (forall t: nat, k: nat :: env.heap(t, k))
    && forall t: nat, n: nat :: n <= Max(4, b.len) && b.prp1 % PAGE_SIZE + n <= 2 * PAGE_SIZE ==>
         PrpOk(env, t, b.prp1, b.prp2, n, size)
  }

  // A service that translates the buffer's pages is willing.
  lemma TranslatesWilling(env: Env, size: nat, b: Buffer)
    requires Translates(env, size) && forall t: nat, k: nat :: env.heap(t, k)
    requires b.prp1 - b.prp1 % PAGE_SIZE + PAGE_SIZE <= size && b.prp2 + PAGE_SIZE <= size
    ensures Willing(env, size, b)
  {
    forall t: nat, n: nat | n <= Max(4, b.len) && b.prp1 % PAGE_SIZE + n <= 2 * PAGE_SIZE
      ensures PrpOk(env, t, b.prp1, b.prp2, n, size)
    {
      TranslatesAll(env, t, b.prp1, b.prp2, n, size);
    }
  }

  // A List that succeeds brings exactly its page, and only a page that can be sent; on a willing environment every such
  // page comes.
  lemma ListOnceIs(c: seq<Cell>, env: Env, t: nat, size: nat, b: Buffer, k: Key)
    requires Listable(c) && |k| <= MAX_KEY
    ensures var (page, r) := (PageOf(c, k, b.len), ListOnce(c, env, t, size, b, k));
            && (r == None || r == Some(page))
            && (r == Some(page) ==> Sendable(page, b.prp1))
            && (Willing(env, size, b) && Sendable(page, b.prp1) ==> r == Some(page))
  {
    var page := PageOf(c, k, b.len);
    PageShort(c, k, b.len);
    PrpLimit(env, t + 1, b.prp1, b.prp2, |Listing(page)|, size);
    if Sendable(page, b.prp1) {
      ShortListing(page);
      HeldShort(FromKey(c, k));
      TakenPrefix(FromKey(c, k), 4, b.len);
      DecodeListing(page);
    }
  }

  // No page is longer than the buffer, or than its header.
  lemma PageShort(c: seq<Cell>, k: Key, hbs: nat)
    ensures |Listing(PageOf(c, k, hbs))| <= Max(4, hbs)
  {
    TakenPrefix(FromKey(c, k), 4, hbs);
    ListingLength(PageOf(c, k, hbs));
    assert PageOf(c, k, hbs) == [] ==> Size(PageOf(c, k, hbs)) == 0;
  }

  // ---------------------------------------------------------------- the loop

  // The last key of a page is stored, and comes after the key the page was asked from.
  lemma PageEnds(c: seq<Cell>, k: Key, hbs: nat)
    requires Listable(c) && PageOf(c, k, hbs) != []
    ensures var page := PageOf(c, k, hbs);
            var last := LastOf(page);
            && |last| <= MAX_KEY && Find(c, last) < |c|
            && (Find(c, k) < |c| && |page| > 1 ==> Find(c, k) < Find(c, last))
  {
    var page := PageOf(c, k, hbs);
    var i := if Find(c, k) < |c| then Find(c, k) else 0;
    TakenPrefix(c[i..], 4, hbs);
    Locate(c, i, |page| - 1);
  }

  lemma NextCursor(c: seq<Cell>, env: Env, t: nat, size: nat, b: Buffer, k: Key)
    requires Listable(c) && |k| <= MAX_KEY
    ensures var r := ListOnce(c, env, t, size, b, k);
            r.Some? && r.value != [] ==>
              var last := LastOf(r.value);
              && |last| <= MAX_KEY && Find(c, last) < |c|
              && (Find(c, k) < |c| && |r.value| > 1 ==> Find(c, k) < Find(c, last))
  {
    ListOnceIs(c, env, t, size, b, k);
    if PageOf(c, k, b.len) != [] {
      PageEnds(c, k, b.len);
    }
  }

  // The loop after a page that ended at `cursor`: list again from there, drop the repeated first key, stop when a page
  // brings nothing new, give up when a List fails.
  ghost function HostResume(c: seq<Cell>, env: Env, t: nat, size: nat, b: Buffer, cursor: Key): Option<seq<Key>>
    requires Listable(c) && |cursor| <= MAX_KEY && Find(c, cursor) < |c|
    decreases |c| - Find(c, cursor)
  {
    var got := ListOnce(c, env, t, size, b, cursor);
    if got == None then None
    else if |got.value| <= 1 then Some([])
    else
      var last := LastOf(got.value);
      NextCursor(c, env, t, size, b, cursor);
      After(got.value[1..], HostResume(c, env, t + 4, size, b, last))
  }

  // The whole loop, from a key that is not there.
  ghost function HostListAll(c: seq<Cell>, env: Env, t: nat, size: nat, b: Buffer, absent: Key): Option<seq<Key>>
    requires Listable(c) && |absent| <= MAX_KEY && Find(c, absent) == |c|
  {
    var got := ListOnce(c, env, t, size, b, absent);
    if got == None || got.value == [] then got
    else
      NextCursor(c, env, t, size, b, absent);
      After(got.value, HostResume(c, env, t + 4, size, b, LastOf(got.value)))
  }

  function After(page: seq<Key>, rest: Option<seq<Key>>): Option<seq<Key>> {
    match rest
    case None => None
    case Some(ks) => Some(page + ks)
  }

  // ---------------------------------------------------------------- when it is complete

  // The pages the loop asks for, one after the other.
  ghost function PagesFrom(c: seq<Cell>, cursor: Key, hbs: nat): seq<seq<Key>>
    requires Unique(c) && Find(c, cursor) < |c|
    decreases |c| - Find(c, cursor)
  {
    var page := PageOf(c, cursor, hbs);
    if |page| <= 1 then [page]
    else
      TakenPrefix(c[Find(c, cursor)..], 4, hbs);
      Locate(c, Find(c, cursor), |page| - 1);
      [page] + PagesFrom(c, LastOf(page), hbs)
  }

  ghost function AllPages(c: seq<Cell>, absent: Key, hbs: nat): seq<seq<Key>>
    requires Unique(c) && Find(c, absent) == |c|
  {
    var page := PageOf(c, absent, hbs);
    if page == [] then [page]
    else
      TakenPrefix(c[0..], 4, hbs);
      Locate(c, 0, |page| - 1);
      [page] + PagesFrom(c, LastOf(page), hbs)
  }

  ghost predicate AllSendable(pages: seq<seq<Key>>, prp1: nat) {
    forall i :: 0 <= i < |pages| ==> Sendable(pages[i], prp1)
  }

  lemma SendableCons(page: seq<Key>, rest: seq<seq<Key>>, prp1: nat)
    ensures AllSendable([page] + rest, prp1) <==> Sendable(page, prp1) && AllSendable(rest, prp1)
  {
    assert ([page] + rest)[0] == page;
    assert forall i :: 0 <= i < |rest| ==> ([page] + rest)[i + 1] == rest[i];
  }

  // What the loop gives when its pages can be sent, and when one cannot.
  ghost function IfSendable(pages: seq<seq<Key>>, prp1: nat, ks: seq<Key>): Option<seq<Key>> {
    if AllSendable(pages, prp1) then Some(ks) else None
  }

  lemma IfSendableCons(page: seq<Key>, pages: seq<seq<Key>>, prp1: nat, ks: seq<Key>, keep: seq<Key>)
    requires Sendable(page, prp1)
    ensures After(keep, IfSendable(pages, prp1, ks)) == IfSendable([page] + pages, prp1, keep + ks)
  {
    SendableCons(page, pages, prp1);
  }

  lemma OneOrNone(page: seq<Key>, pages: seq<seq<Key>>, prp1: nat)
    ensures !Sendable(page, prp1) ==> !AllSendable([page] + pages, prp1)
    ensures AllSendable([page], prp1) <==> Sendable(page, prp1)
  {
    SendableCons(page, pages, prp1);
    assert [page][0] == page;
  }

  // One turn of the loop, when its List brings a page with something new.
  lemma TurnOf(c: seq<Cell>, env: Env, t: nat, size: nat, b: Buffer, cursor: Key, page: seq<Key>, last: Key)
    requires Listable(c) && |cursor| <= MAX_KEY && Find(c, cursor) < |c|
    requires ListOnce(c, env, t, size, b, cursor) == Some(page) && |page| > 1 && last == LastOf(page)
    ensures |last| <= MAX_KEY && Find(c, last) < |c|
    ensures HostResume(c, env, t, size, b, cursor) == After(page[1..], HostResume(c, env, t + 4, size, b, last))
  {
    NextCursor(c, env, t, size, b, cursor);
  }

  lemma TurnOfPages(c: seq<Cell>, hbs: nat, cursor: Key, page: seq<Key>, last: Key)
    requires Listable(c) && Find(c, cursor) < |c|
    requires page == PageOf(c, cursor, hbs) && |page| > 1 && last == LastOf(page)
    ensures |last| <= MAX_KEY && Find(c, cursor) < Find(c, last) < |c|
    ensures PagesFrom(c, cursor, hbs) == [page] + PagesFrom(c, last, hbs)
    ensures Resume(c, cursor, hbs) == page[1..] + Resume(c, last, hbs)
  {
    PageEnds(c, cursor, hbs);
    ResumeTurn(c, cursor, hbs, page, last);
  }

  // The loop gives what chaining the pages gives, unless one of them cannot be sent.
  lemma {:induction false} HostResumeIs(c: seq<Cell>, env: Env, t: nat, size: nat, b: Buffer, cursor: Key,
                                        pages: seq<seq<Key>>, ks: seq<Key>)
    requires Listable(c) && |cursor| <= MAX_KEY && Find(c, cursor) < |c| && Willing(env, size, b)
    requires pages == PagesFrom(c, cursor, b.len) && ks == Resume(c, cursor, b.len)
    ensures HostResume(c, env, t, size, b, cursor) == IfSendable(pages, b.prp1, ks)
    decreases |c| - Find(c, cursor)
  {
    var page := PageOf(c, cursor, b.len);
    ListOnceIs(c, env, t, size, b, cursor);
    if !Sendable(page, b.prp1) || |page| <= 1 {
      FirstPage(c, b.len, cursor);
      OneOrNone(page, pages[1..], b.prp1);
    } else {
      var last := LastOf(page);
      TurnOfPages(c, b.len, cursor, page, last);
      TurnOf(c, env, t, size, b, cursor, page, last);
      HostResumeIs(c, env, t + 4, size, b, last, PagesFrom(c, last, b.len), Resume(c, last, b.len));
      IfSendableCons(page, PagesFrom(c, last, b.len), b.prp1, Resume(c, last, b.len), page[1..]);
    }
  }

  lemma FirstPage(c: seq<Cell>, hbs: nat, cursor: Key)
    requires Listable(c) && Find(c, cursor) < |c|
    ensures var (page, pages) := (PageOf(c, cursor, hbs), PagesFrom(c, cursor, hbs));
            pages != [] && pages == [page] + pages[1..] && (|page| <= 1 ==> pages == [page])
  {
  }

  lemma HostListIs(c: seq<Cell>, env: Env, t: nat, size: nat, b: Buffer, absent: Key)
    requires Listable(c) && |absent| <= MAX_KEY && Find(c, absent) == |c| && Willing(env, size, b)
    ensures HostListAll(c, env, t, size, b, absent)
         == IfSendable(AllPages(c, absent, b.len), b.prp1, ListAll(c, absent, b.len))
  {
    var page := PageOf(c, absent, b.len);
    ListOnceIs(c, env, t, size, b, absent);
    if page == [] {
      OneOrNone(page, [], b.prp1);
    } else {
      var last := LastOf(page);
      PageEnds(c, absent, b.len);
      var pages, ks := PagesFrom(c, last, b.len), Resume(c, last, b.len);
      HostResumeIs(c, env, t + 4, size, b, last, pages, ks);
      FirstOfAll(c, b.len, absent, page, last);
      HostListFrom(c, env, t, size, b, absent, page, last, pages, ks);
    }
  }

  lemma FirstOfAll(c: seq<Cell>, hbs: nat, absent: Key, page: seq<Key>, last: Key)
    requires Listable(c) && Find(c, absent) == |c|
    requires page == PageOf(c, absent, hbs) && page != [] && last == LastOf(page)
    requires Find(c, last) < |c|
    ensures AllPages(c, absent, hbs) == [page] + PagesFrom(c, last, hbs)
    ensures ListAll(c, absent, hbs) == page + Resume(c, last, hbs)
  {
  }

  lemma FirstTurn(c: seq<Cell>, env: Env, t: nat, size: nat, b: Buffer, absent: Key, page: seq<Key>, last: Key)
    requires Listable(c) && |absent| <= MAX_KEY && Find(c, absent) == |c|
    requires page != [] && last == LastOf(page) && |last| <= MAX_KEY && Find(c, last) < |c|
    ensures ListOnce(c, env, t, size, b, absent) == Some(page) ==>
              HostListAll(c, env, t, size, b, absent) == After(page, HostResume(c, env, t + 4, size, b, last))
    ensures ListOnce(c, env, t, size, b, absent) == None ==> HostListAll(c, env, t, size, b, absent) == None
  {
  }

  lemma HostListFrom(c: seq<Cell>, env: Env, t: nat, size: nat, b: Buffer, absent: Key, page: seq<Key>, last: Key,
                     pages: seq<seq<Key>>, ks: seq<Key>)
    requires Listable(c) && |absent| <= MAX_KEY && Find(c, absent) == |c|
    requires page != [] && last == LastOf(page) && |last| <= MAX_KEY && Find(c, last) < |c|
    requires ListOnce(c, env, t, size, b, absent) == if Sendable(page, b.prp1) then Some(page) else None
    requires HostResume(c, env, t + 4, size, b, last) == IfSendable(pages, b.prp1, ks)
    ensures HostListAll(c, env, t, size, b, absent) == IfSendable([page] + pages, b.prp1, page + ks)
  {
    FirstTurn(c, env, t, size, b, absent, page, last);
    if Sendable(page, b.prp1) {
      IfSendableCons(page, pages, b.prp1, ks, page);
    } else {
      OneOrNone(page, pages, b.prp1);
    }
  }

  // The loop enumerates every stored key, in slot order, exactly when the first record fits in the buffer, every two
  // neighbouring records do, and no page needs a third memory page.
  lemma HostListComplete(c: seq<Cell>, env: Env, t: nat, size: nat, b: Buffer, absent: Key)
    requires Listable(c) && |absent| <= MAX_KEY && Find(c, absent) == |c| && Willing(env, size, b)
    ensures var ks := HeldKeys(c);
            HostListAll(c, env, t, size, b, absent) == Some(ks)
            <==> && (ks != [] ==> 4 + Stride(|ks[0]|) <= b.len) && PairsFit(ks, b.len)
                 && AllSendable(AllPages(c, absent, b.len), b.prp1)
  {
    HostListIs(c, env, t, size, b, absent);
    ListAllComplete(c, absent, b.len);
  }

  // A buffer that needs no third page can take every page.
  lemma {:induction false} PagesShort(c: seq<Cell>, cursor: Key, hbs: nat, prp1: nat)
    requires Unique(c) && Find(c, cursor) < |c| && prp1 % PAGE_SIZE + Max(4, hbs) <= 2 * PAGE_SIZE
    ensures AllSendable(PagesFrom(c, cursor, hbs), prp1)
    decreases |c| - Find(c, cursor)
  {
    var page := PageOf(c, cursor, hbs);
    PageShort(c, cursor, hbs);
    TakenPrefix(c[Find(c, cursor)..], 4, hbs);
    if |page| > 1 {
      Locate(c, Find(c, cursor), |page| - 1);
      PagesShort(c, LastOf(page), hbs, prp1);
      SendableCons(page, PagesFrom(c, LastOf(page), hbs), prp1);
    }
  }

  lemma AllPagesShort(c: seq<Cell>, absent: Key, hbs: nat, prp1: nat)
    requires Unique(c) && Find(c, absent) == |c| && prp1 % PAGE_SIZE + Max(4, hbs) <= 2 * PAGE_SIZE
    ensures AllSendable(AllPages(c, absent, hbs), prp1)
  {
    var page := PageOf(c, absent, hbs);
    PageShort(c, absent, hbs);
    if page != [] {
      TakenPrefix(c[0..], 4, hbs);
      Locate(c, 0, |page| - 1);
      PagesShort(c, LastOf(page), hbs, prp1);
      SendableCons(page, PagesFrom(c, LastOf(page), hbs), prp1);
    }
  }

  lemma NsListable(ns: Ns)
    requires NsOk(ns)
    ensures Listable(Cells(ns.slots))
  {
  }

  // A buffer of 44 bytes or more that needs no third page enumerates every stored key exactly once, in slot order.
  lemma PaginationComplete(ns: Ns, env: Env, t: nat, size: nat, b: Buffer, absent: Key)
    requires NsOk(ns) && |absent| <= MAX_KEY && absent !in Abs(ns).m && Willing(env, size, b)
    requires b.len >= 44 && b.prp1 % PAGE_SIZE + b.len <= 2 * PAGE_SIZE
    ensures var c := Cells(ns.slots);
            Listable(c) && HostListAll(c, env, t, size, b, absent) == Some(HeldKeys(c))
    ensures var ks := HeldKeys(Cells(ns.slots));
            && |ks| == |Abs(ns).m| && (forall k :: k in ks <==> k in Abs(ns).m)
            && forall i, j :: 0 <= i < j < |ks| ==> ks[i] != ks[j]
  {
    NsListable(ns);
    AllPagesShort(Cells(ns.slots), absent, b.len, b.prp1);
    ChainComplete(ns, absent, b.len);
    HostListComplete(Cells(ns.slots), env, t, size, b, absent);
    HeldKeysMeaning(ns);
  }

  // ---------------------------------------------------------------- when it fails

  // A buffer that has room for all keys gets them in the first page.
  lemma WholePage(c: seq<Cell>, absent: Key, hbs: nat)
    requires Find(c, absent) == |c| && 4 + Size(HeldKeys(c)) <= hbs
    ensures PageOf(c, absent, hbs) == HeldKeys(c)
  {
    var ks := HeldKeys(c);
    assert c[0..] == c && ks[..|ks|] == ks;
    TakenPrefix(c, 4, hbs);
    TakenLongest(c, hbs, |ks|);
  }

  // A buffer large enough for all keys, whose listing needs a third page: the first List fails, and every further one
  // from the start.
  lemma LongListingFails(c: seq<Cell>, env: Env, t: nat, size: nat, b: Buffer, absent: Key)
    requires Listable(c) && |absent| <= MAX_KEY && Find(c, absent) == |c|
    requires 4 + Size(HeldKeys(c)) <= b.len && b.prp1 % PAGE_SIZE + 4 + Size(HeldKeys(c)) > 2 * PAGE_SIZE
    ensures HostListAll(c, env, t, size, b, absent) == None
  {
    WholePage(c, absent, b.len);
    ListingLength(HeldKeys(c));
    ListOnceIs(c, env, t, size, b, absent);
    assert !Sendable(HeldKeys(c), b.prp1);
  }

  // 512 keys of 16 bytes.
  function Crowd(): Ns {
    Ns(seq(512, i requires 0 <= i < 512 => Slot(WrLe(MAX_KEY, i), MAX_KEY, Zeros(MAX_VAL), true)),
       FOOTPRINT * 512, 512, 0)
  }

  function CrowdCell(i: nat): Cell { Held(WrLe(MAX_KEY, i), Zeros(MAX_VAL)) }

  lemma CrowdCells()
    ensures SlotsOk(Crowd().slots) && |Cells(Crowd().slots)| == 512
    ensures forall i :: 0 <= i < 512 ==> Cells(Crowd().slots)[i] == CrowdCell(i)
  {
  }

  lemma CrowdUnique()
    ensures forall i, j :: 0 <= i < j < 512 ==> CrowdCell(i).key != CrowdCell(j).key
  {
    forall i, j | 0 <= i < j < 512 ensures CrowdCell(i).key != CrowdCell(j).key {
      Small(i);
      Small(j);
      LeExact(MAX_KEY, i);
      LeExact(MAX_KEY, j);
    }
  }

  lemma CrowdDoubled()
    ensures Doubled(512)
  {
    assert Doubled(16) && Doubled(32) && Doubled(64) && Doubled(128) && Doubled(256);
  }

  // All cells are held, under distinct keys of 16 bytes.
  lemma CrowdList(c: seq<Cell>)
    requires |c| == 512 && forall i :: 0 <= i < 512 ==> c[i] == CrowdCell(i)
    ensures Listable(c) && Count(c) == 512 && Find(c, []) == 512 && Size(HeldKeys(c)) == 20 * 512
  {
    CrowdUnique();
    CountFull(c);
    FindUnique(c, [], 512);
    LongKeys(c);
  }

  lemma CrowdOk()
    ensures NsOk(Crowd())
    ensures var c := Cells(Crowd().slots);
            Listable(c) && Find(c, []) == |c| && Size(HeldKeys(c)) == 20 * 512
  {
    CrowdCells();
    CrowdList(Cells(Crowd().slots));
    CrowdDoubled();
  }

  lemma Small(i: nat)
    requires i < 512
    ensures i < Pow256(MAX_KEY)
  {
    Pow256Add(2, 14);
    Pow256Widths();
    assert Pow256(2) * 1 <= Pow256(2) * Pow256(14);
  }

  lemma {:induction false} LongKeys(c: seq<Cell>)
    requires forall i :: 0 <= i < |c| ==> c[i].Held? && |c[i].key| == MAX_KEY
    ensures Size(HeldKeys(c)) == 20 * |c|
  {
    if c != [] {
      LongKeys(c[1..]);
    }
  }

  // PaginationComplete needs its condition on prp1: 16384 bytes are more than enough for these keys, and yet the loop
  // gets nothing.
  lemma LargeBufferFails(env: Env, t: nat, size: nat, prp2: nat)
    ensures NsOk(Crowd())
    ensures var c := Cells(Crowd().slots);
            && Listable(c) && Find(c, []) == |c|
            && HostListAll(c, env, t, size, Buffer(0, prp2, 16384), []) == None
  {
    CrowdOk();
    LongListingFails(Cells(Crowd().slots), env, t, size, Buffer(0, prp2, 16384), []);
  }
}
