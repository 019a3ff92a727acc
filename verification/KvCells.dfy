/** A slot array seen from the outside: a sequence of cells, each free or holding a pair, and the map it stands for. */
module KvCells {
  import opened Bytes

  type Key = seq<byte>
  type Value = seq<byte>

  datatype Cell = Free | Held(key: Key, val: Value)

  // Index of the first cell holding key k; |c| when there is none.
  function Find(c: seq<Cell>, k: Key): (i: nat)
    ensures i <= |c|
    ensures i < |c| ==> c[i].Held? && c[i].key == k
    ensures forall j :: 0 <= j < i ==> c[j] == Free || c[j].key != k
  {
    if c == [] || (c[0].Held? && c[0].key == k) then 0
    else
      assert forall j :: 0 < j < |c| ==> c[j] == c[1..][j - 1];
      1 + Find(c[1..], k)
  }

  // Index of the first free cell; |c| when every cell is held.
  function FirstFree(c: seq<Cell>): (i: nat)
    ensures i <= |c|
    ensures i < |c| ==> c[i] == Free
    ensures forall j :: 0 <= j < i ==> c[j].Held?
  {
    if c == [] || c[0] == Free then 0
    else
      assert forall j :: 0 < j < |c| ==> c[j] == c[1..][j - 1];
      1 + FirstFree(c[1..])
  }

  ghost predicate Unique(c: seq<Cell>) {
    forall i, j :: 0 <= i < j < |c| && c[i].Held? && c[j].Held? ==> c[i].key != c[j].key
  }

  ghost function KeysOf(c: seq<Cell>): (s: set<Key>)
    ensures forall k :: k in s <==> Find(c, k) < |c|
  {
    var s := set i | 0 <= i < |c| && c[i].Held? :: c[i].key;
    forall k ensures k in s <==> Find(c, k) < |c| {
      if Find(c, k) < |c| {
        assert c[Find(c, k)].key in s;
      }
    }
    s
  }

  ghost function MapOf(c: seq<Cell>): (m: map<Key, Value>)
    ensures forall k :: k in m <==> Find(c, k) < |c|
    ensures forall k :: k in m ==> m[k] == c[Find(c, k)].val
  {
    map k | k in KeysOf(c) :: c[Find(c, k)].val
  }

  ghost function Count(c: seq<Cell>): (n: nat)
    ensures n <= |c|
  {
    if c == [] then 0 else (if c[0].Held? then 1 else 0) + Count(c[1..])
  }

  lemma {:induction false} CountConcat(a: seq<Cell>, b: seq<Cell>)
    ensures Count(a + b) == Count(a) + Count(b)
  {
    if a == [] {
      assert a + b == b;
    } else {
      CountConcat(a[1..], b);
      assert (a + b)[1..] == a[1..] + b;
    }
  }

  lemma {:induction false} CountFree(c: seq<Cell>)
    requires forall i :: 0 <= i < |c| ==> c[i] == Free
    ensures Count(c) == 0
  {
    if c != [] {
      CountFree(c[1..]);
    }
  }

  lemma {:induction false} CountFull(c: seq<Cell>)
    requires forall i :: 0 <= i < |c| ==> c[i].Held?
    ensures Count(c) == |c|
  {
    if c != [] {
      CountFull(c[1..]);
    }
  }

  lemma {:induction false} CountUpdate(c: seq<Cell>, i: nat, v: Cell)
    requires i < |c|
    ensures Count(c[i := v]) == Count(c) - (if c[i].Held? then 1 else 0) + (if v.Held? then 1 else 0)
  {
    if i == 0 {
      assert c[i := v][1..] == c[1..];
    } else {
      CountUpdate(c[1..], i - 1, v);
      assert c[i := v][1..] == c[1..][i - 1 := v];
    }
  }

  // Every cell before the lowest free index is held, so that index is at most the number of pairs.
  lemma FreeIndexBound(c: seq<Cell>, i: nat)
    requires i <= |c| && forall j :: 0 <= j < i ==> c[j].Held?
    ensures i <= Count(c)
  {
    assert c == c[..i] + c[i..];
    CountConcat(c[..i], c[i..]);
    CountFull(c[..i]);
  }

  lemma FullMeans(c: seq<Cell>)
    ensures FirstFree(c) == |c| <==> Count(c) == |c|
  {
    var f := FirstFree(c);
    if f == |c| {
      CountFull(c);
    } else {
      CountUpdate(c, f, Held([], []));
    }
  }

  lemma FindUnique(c: seq<Cell>, k: Key, i: nat)
    requires i <= |c| && (i < |c| ==> c[i].Held? && c[i].key == k)
    requires forall j :: 0 <= j < i ==> c[j] == Free || c[j].key != k
    ensures Find(c, k) == i
  {
  }

  lemma FreeUnique(c: seq<Cell>, i: nat)
    requires i <= |c| && (i < |c| ==> c[i] == Free)
    requires forall j :: 0 <= j < i ==> c[j].Held?
    ensures FirstFree(c) == i
  {
  }

  // In an array without repeated keys, a held cell is where its key is found.
  lemma FindHeld(c: seq<Cell>, i: nat)
    requires Unique(c) && i < |c| && c[i].Held?
    ensures Find(c, c[i].key) == i
  {
  }

  // The number of held cells is the number of keys in the map.
  lemma {:induction false} MapCount(c: seq<Cell>)
    requires Unique(c)
    ensures |MapOf(c)| == Count(c)
  {
    if c == [] {
      assert MapOf(c) == map[];
    } else {
      var n := |c| - 1;
      var a, v := c[..n], c[n];
      assert c == a + [v];
      MapCount(a);
      CountConcat(a, [v]);
      assert Count([v]) == (if v.Held? then 1 else 0) + Count([v][1..]);
      if v.Held? {
        LastKey(a, v);
      } else {
        LastFree(a);
      }
    }
  }

  lemma LastKey(a: seq<Cell>, v: Cell)
    requires v.Held? && Unique(a + [v])
    ensures Unique(a) && v.key !in MapOf(a)
    ensures MapOf(a + [v]) == MapOf(a)[v.key := v.val]
  {
    var c, n := a + [v], |a|;
    assert forall j :: 0 <= j < n ==> c[j] == a[j];
    assert c[n] == v;
    assert Find(a, v.key) == n;
    forall k ensures Find(c, k) == if Find(a, k) == n && k != v.key then n + 1 else Find(a, k) {
      FindUnique(c, k, if Find(a, k) == n && k != v.key then n + 1 else Find(a, k));
    }
    MapIs(c, MapOf(a)[v.key := v.val]);
  }

  // A map that agrees with the search is the map.
  lemma MapIs(c: seq<Cell>, m: map<Key, Value>)
    requires forall k :: k in m <==> Find(c, k) < |c|
    requires forall k :: k in m ==> m[k] == c[Find(c, k)].val
    ensures MapOf(c) == m
  {
  }

  lemma LastFree(a: seq<Cell>)
    requires Unique(a + [Free])
    ensures Unique(a) && MapOf(a + [Free]) == MapOf(a)
  {
    var c := a + [Free];
    assert Unique(a) by {
      assert forall j :: 0 <= j < |a| ==> c[j] == a[j];
    }
    forall k ensures Find(c, k) == if Find(a, k) == |a| then |c| else Find(a, k) {
      FindUnique(c, k, if Find(a, k) == |a| then |c| else Find(a, k));
    }
  }

  // Replacing the value of a key that is present.
  lemma SetMap(c: seq<Cell>, k: Key, v: Value)
    requires Unique(c) && Find(c, k) < |c|
    ensures var c' := c[Find(c, k) := Held(k, v)];
            Unique(c') && MapOf(c') == MapOf(c)[k := v] && Count(c') == Count(c)
  {
    var i := Find(c, k);
    var c' := c[i := Held(k, v)];
    CountUpdate(c, i, Held(k, v));
    SameKeysFind(c, c');
    var m := MapOf(c)[k := v];
    forall q | q in m ensures m[q] == c'[Find(c', q)].val {
      assert q != k ==> Find(c, q) != i;
    }
    MapIs(c', m);
  }

  ghost predicate SameKeys(c: seq<Cell>, d: seq<Cell>) {
    |c| == |d| && forall j :: 0 <= j < |c| ==> c[j].Held? == d[j].Held? && (c[j].Held? ==> c[j].key == d[j].key)
  }

  lemma SameKeysFind(c: seq<Cell>, d: seq<Cell>)
    requires SameKeys(c, d) && Unique(c)
    ensures Unique(d) && forall q :: Find(d, q) == Find(c, q)
  {
    forall q ensures Find(d, q) == Find(c, q) {
      FindUnique(d, q, Find(c, q));
    }
  }

  // Putting a new key in a free cell.
  lemma PutMap(c: seq<Cell>, f: nat, k: Key, v: Value)
    requires Unique(c) && f < |c| && c[f] == Free && Find(c, k) == |c|
    ensures var c' := c[f := Held(k, v)];
            Unique(c') && MapOf(c') == MapOf(c)[k := v] && Count(c') == Count(c) + 1
  {
    var c' := c[f := Held(k, v)];
    CountUpdate(c, f, Held(k, v));
    PutFind(c, f, k, v);
    MapIs(c', MapOf(c)[k := v]);
  }

  lemma PutFind(c: seq<Cell>, f: nat, k: Key, v: Value)
    requires Unique(c) && f < |c| && c[f] == Free && Find(c, k) == |c|
    ensures Unique(c[f := Held(k, v)])
    ensures forall q :: Find(c[f := Held(k, v)], q) == if q == k then f else Find(c, q)
  {
    var c' := c[f := Held(k, v)];
    forall q ensures Find(c', q) == if q == k then f else Find(c, q) {
      FindUnique(c', q, if q == k then f else Find(c, q));
    }
  }

  // Freeing the cell of a key that is present.
  lemma ClearMap(c: seq<Cell>, k: Key)
    requires Unique(c) && Find(c, k) < |c|
    ensures var c' := c[Find(c, k) := Free];
            Unique(c') && MapOf(c') == MapOf(c) - {k} && Count(c') + 1 == Count(c)
  {
    var i := Find(c, k);
    var c', m := c[i := Free], MapOf(c) - {k};
    CountUpdate(c, i, Free);
    ClearFind(c, i);
    forall q ensures q in m <==> Find(c', q) < |c'| {
    }
    forall q | q in m ensures m[q] == c'[Find(c', q)].val {
      assert Find(c', q) == Find(c, q) != i;
    }
    MapIs(c', m);
  }

  lemma ClearFind(c: seq<Cell>, i: nat)
    requires Unique(c) && i < |c| && c[i].Held?
    ensures Unique(c[i := Free])
    ensures forall q :: Find(c[i := Free], q) == if q == c[i].key then |c| else Find(c, q)
  {
    var c' := c[i := Free];
    forall q ensures Find(c', q) == if q == c[i].key then |c| else Find(c, q) {
      FindUnique(c', q, if q == c[i].key then |c| else Find(c, q));
    }
  }

  // Appending free cells.
  lemma GrowMap(c: seq<Cell>, more: seq<Cell>)
    requires Unique(c) && forall i :: 0 <= i < |more| ==> more[i] == Free
    ensures Unique(c + more) && MapOf(c + more) == MapOf(c) && Count(c + more) == Count(c)
    ensures forall k :: Find(c, k) == |c| ==> Find(c + more, k) == |c + more|
  {
    CountConcat(c, more);
    CountFree(more);
    GrowFind(c, more);
    MapIs(c + more, MapOf(c));
  }

  lemma GrowFind(c: seq<Cell>, more: seq<Cell>)
    requires Unique(c) && forall i :: 0 <= i < |more| ==> more[i] == Free
    ensures Unique(c + more)
    ensures forall q :: Find(c + more, q) == if Find(c, q) == |c| then |c + more| else Find(c, q)
  {
    var c' := c + more;
    forall q ensures Find(c', q) == if Find(c, q) == |c| then |c'| else Find(c, q) {
      FindUnique(c', q, if Find(c, q) == |c| then |c'| else Find(c, q));
    }
  }

  // ---------------------------------------------------------------- the layout of the keys

  function Shade(v: Cell): Cell {
    match v
    case Free => Free
    case Held(k, _) => Held(k, [])
  }

  // Which keys are where, without their values.
  function Layout(c: seq<Cell>): (l: seq<Cell>)
    ensures |l| == |c| && forall i :: 0 <= i < |c| ==> l[i] == Shade(c[i])
  {
    seq(|c|, i requires 0 <= i < |c| => Shade(c[i]))
  }

  function Frees(n: nat): (c: seq<Cell>)
    ensures |c| == n && forall i :: 0 <= i < n ==> c[i] == Free
  {
    seq(n, i => Free)
  }

  lemma LayoutKeys(c: seq<Cell>)
    ensures SameKeys(c, Layout(c))
    ensures FirstFree(Layout(c)) == FirstFree(c)
  {
    FreeUnique(Layout(c), FirstFree(c));
  }

  lemma LayoutFind(c: seq<Cell>)
    requires Unique(c)
    ensures Unique(Layout(c)) && forall k :: Find(Layout(c), k) == Find(c, k)
  {
    LayoutKeys(c);
    SameKeysFind(c, Layout(c));
  }

  lemma LayoutUpdate(c: seq<Cell>, i: nat, v: Cell)
    requires i < |c|
    ensures Layout(c[i := v]) == Layout(c)[i := Shade(v)]
    ensures c[i].Held? && v.Held? && c[i].key == v.key ==> Layout(c[i := v]) == Layout(c)
  {
  }

  lemma LayoutConcat(a: seq<Cell>, b: seq<Cell>)
    ensures Layout(a + b) == Layout(a) + Layout(b)
  {
  }

  // The layout with k in its lowest free place, after doubling when there is none.
  function Placed(layout: seq<Cell>, k: Key): (l: seq<Cell>)
    requires layout != []
    ensures l != []
  {
    var f := FirstFree(layout);
    (if f < |layout| then layout else layout + Frees(|layout|))[f := Held(k, [])]
  }

  function Vacated(layout: seq<Cell>, k: Key): (l: seq<Cell>)
    ensures |l| == |layout|
  {
    if Find(layout, k) < |layout| then layout[Find(layout, k) := Free] else layout
  }
}
