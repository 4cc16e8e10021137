/** The swapper's bookkeeping (vm.c and proc.c of the third lab): one entry per tracked page of a
    process, the resident ones on a doubly linked list through the entries. Pointers are indices. */
module Swapper {
  import opened Common

  const MAX_PSYC_PAGES := 15
  const MAX_TOTAL_PAGES := 30
  const PGSIZE := 4096
  const NO_ADDRESS := 0xFFFF_FFFF
  const NONE := -1

  datatype PageState = NotUsed | MainMemory | SwapFile

  /** offset is offset_in_file, with -1 for the value that file2mem takes as negative. */
  datatype Entry = Entry(va: nat, state: PageState, offset: int, counter: nat, next: int, prev: int)

  type Entries = seq<Entry>

  // ----- Counting -----

  function Count(m: Entries, s: PageState): nat {
    if m == [] then 0 else Count(m[..|m| - 1], s) + if m[|m| - 1].state == s then 1 else 0
  }

  lemma {:induction false} CountUpdate(m: Entries, i: nat, e: Entry, s: PageState)
    requires i < |m|
    ensures Count(m[i := e], s) == Count(m, s) - (if m[i].state == s then 1 else 0) + if e.state == s then 1 else 0
  {
    var n := |m| - 1;
    if i == n {
      assert m[i := e][..n] == m[..n];
    } else {
      assert m[i := e][..n] == m[..n][i := e];
      CountUpdate(m[..n], i, e, s);
    }
  }

  lemma {:induction false} CountSame(m: Entries, q: Entries, s: PageState)
    requires |m| == |q| && forall i :: 0 <= i < |m| ==> m[i].state == q[i].state
    ensures Count(m, s) == Count(q, s)
  {
    if m != [] {
      CountSame(m[..|m| - 1], q[..|q| - 1], s);
    }
  }

  lemma {:induction false} CountAll(m: Entries)
    ensures Count(m, NotUsed) + Count(m, MainMemory) + Count(m, SwapFile) == |m|
  {
    if m != [] {
      CountAll(m[..|m| - 1]);
    }
  }

  /** A state is counted exactly when some entry is in it. */
  lemma {:induction false} CountPositive(m: Entries, s: PageState)
    ensures Count(m, s) > 0 <==> exists i :: 0 <= i < |m| && m[i].state == s
  {
    if m != [] {
      var n := |m| - 1;
      CountPositive(m[..n], s);
      if Count(m[..n], s) > 0 {
        var i :| 0 <= i < n && m[..n][i].state == s;
        assert m[i].state == s;
      }
      if i :| 0 <= i < |m| && m[i].state == s {
        if i < n {
          assert m[..n][i].state == s;
        }
      }
    }
  }

  // ----- The list -----

  function At(l: seq<nat>, k: int): int {
    if 0 <= k < |l| then l[k] else NONE
  }

  /** The pointers from head run through l, in both directions, and end: l is acyclic. */
  ghost predicate Linked(m: Entries, head: int, l: seq<nat>) {
    && Distinct(l) && head == At(l, 0)
    && forall k :: 0 <= k < |l| ==> l[k] < |m| && m[l[k]].next == At(l, k + 1) && m[l[k]].prev == At(l, k - 1)
  }

  /** The list holds exactly the resident entries. */
  ghost predicate Resident(m: Entries, l: seq<nat>) {
    forall i :: 0 <= i < |m| ==> (i in l <==> m[i].state == MainMemory)
  }

  /** Entries off the list point nowhere. */
  ghost predicate Rest(m: Entries, l: seq<nat>) {
    forall i :: 0 <= i < |m| && i !in l ==> m[i].next == NONE && m[i].prev == NONE
  }

  /** The entry of an unused slot tracks no address; used slots track different pages. */
  ghost predicate Tracks(m: Entries) {
    && (forall i :: 0 <= i < |m| ==>
         && (m[i].state == NotUsed ==> m[i].va == NO_ADDRESS)
         && (m[i].state != NotUsed ==> m[i].va % PGSIZE == 0)
         && (m[i].state == SwapFile <==> m[i].offset >= 0))
    && forall i, j :: 0 <= i < j < |m| && m[i].state != NotUsed && m[j].state != NotUsed ==> m[i].va != m[j].va
  }

  ghost predicate Tracked(m: Entries, va: nat) {
    exists i :: 0 <= i < |m| && m[i].va == va
  }

  function Without(l: seq<nat>, k: nat): (w: seq<nat>)
    requires k < |l|
    ensures |w| == |l| - 1
  {
    l[..k] + l[k + 1..]
  }

  /** updateListPointers on the entries. */
  function Unlinked(m: Entries, p: nat): Entries
    requires p < |m| && NONE <= m[p].next < |m| && NONE <= m[p].prev < |m|
  {
    var a := if m[p].prev != NONE then m[m[p].prev := m[m[p].prev].(next := m[p].next)] else m;
    var b := if m[p].next != NONE then a[m[p].next := a[m[p].next].(prev := m[p].prev)] else a;
    b[p := b[p].(prev := NONE, next := NONE)]
  }

  function Pushed(m: Entries, t: nat, i: nat): Entries
    requires t < |m| && i < |m|
  {
    var a := m[t := m[t].(next := i)];
    a[i := a[i].(prev := t, next := NONE)]
  }

  lemma UnlinkedInRange(m: Entries, head: int, l: seq<nat>, k: nat)
    requires Linked(m, head, l) && k < |l|
    ensures l[k] < |m| && NONE <= m[l[k]].next < |m| && NONE <= m[l[k]].prev < |m|
    ensures m[l[k]].prev == NONE <==> k == 0
    ensures m[l[k]].next == NONE <==> k == |l| - 1
  {
    assert k + 1 < |l| ==> l[k + 1] < |m|;
    assert k > 0 ==> l[k - 1] < |m|;
  }

  /** The data after page p came in and page v went out. */
  function Swapped(m: Entries, p: nat, v: nat, off: int): Entries
    requires p < |m| && v < |m|
  {
    var c := m[p := m[p].(state := MainMemory, offset := -1)];
    c[v := c[v].(state := SwapFile, offset := off)]
  }

  /** The data after page p was deleted and page b, if any, came in. */
  function Deleted(m: Entries, p: nat, b: int): Entries
    requires p < |m| && NONE <= b < |m|
  {
    var c := m[p := m[p].(va := NO_ADDRESS, state := NotUsed, offset := -1)];
    if b == NONE then c else c[b := c[b].(state := MainMemory, offset := -1)]
  }

  /** A page fault on va: page p is in, the victim v at place k of the old list l is out. */
  ghost predicate SwapDone(m: Entries, l: seq<nat>, inFile: int, va: nat, p: nat, v: int, k: nat,
    q: Entries, w: seq<nat>)
  {
    && p < |m| && 0 <= v < |m| && k < |l| && m[p].va == va && IsVictim(m, l, k) && v == l[k] && v != p
    && w == Without(l + [p], k) && SameData(Swapped(m, p, v, PGSIZE * (inFile - 1)), q)
  }

  /** Page p, at place k of the old list l, is gone; page b of the swap file, if any, is in. */
  ghost predicate DeleteDone(m: Entries, l: seq<nat>, p: nat, k: nat, b: int, q: Entries, w: seq<nat>) {
    && p < |m| && NONE <= b < |m| && k < |l| && (b == NONE || m[b].state == SwapFile)
    && w == Without(if b == NONE then l else l + [b], k) && SameData(Deleted(m, p, b), q)
  }

  /** Seen from another entry: only the neighbours of p change. */
  lemma UnlinkedEntry(m: Entries, p: nat, x: nat)
    requires p < |m| && NONE <= m[p].next < |m| && NONE <= m[p].prev < |m| && x < |m| && x != p
    ensures |Unlinked(m, p)| == |m|
    ensures Unlinked(m, p)[x] ==
              m[x].(next := if m[p].prev == x then m[p].next else m[x].next,
                    prev := if m[p].next == x then m[p].prev else m[x].prev)
  {
  }

  lemma UnlinkedSelf(m: Entries, p: nat)
    requires p < |m| && NONE <= m[p].next < |m| && NONE <= m[p].prev < |m|
    ensures |Unlinked(m, p)| == |m|
    ensures m[p].next != p && m[p].prev != p ==> Unlinked(m, p)[p] == m[p].(next := NONE, prev := NONE)
  {
  }

  lemma Apart(l: seq<nat>, j: nat, k: int)
    requires Distinct(l) && j < |l|
    ensures At(l, k) == l[j] <==> k == j
  {
  }

  lemma UnlinkedAt(m: Entries, head: int, l: seq<nat>, k: nat, j: nat)
    requires Linked(m, head, l) && k < |l| && j < |l| && j != k
    requires l[k] < |m| && NONE <= m[l[k]].next < |m| && NONE <= m[l[k]].prev < |m|
    ensures l[j] < |m| && |Unlinked(m, l[k])| == |m|
    ensures Unlinked(m, l[k])[l[j]].next == if j == k - 1 then At(l, k + 1) else At(l, j + 1)
    ensures Unlinked(m, l[k])[l[j]].prev == if j == k + 1 then At(l, k - 1) else At(l, j - 1)
  {
    hide Unlinked;
    Apart(l, j, k);
    Apart(l, j, k - 1);
    Apart(l, j, k + 1);
    hide At, Distinct;
    UnlinkedEntry(m, l[k], l[j]);
  }

  lemma WithoutDistinct(l: seq<nat>, k: nat)
    requires Distinct(l) && k < |l|
    ensures Distinct(Without(l, k)) && l[k] !in Without(l, k)
    ensures forall x :: x in l <==> x in Without(l, k) || x == l[k]
  {
    var w := Without(l, k);
    assert forall j :: 0 <= j < |w| ==> w[j] == l[if j < k then j else j + 1];
    forall x | x in l
      ensures x in w || x == l[k]
    {
      var j :| 0 <= j < |l| && l[j] == x;
      if j != k {
        assert w[if j < k then j else j - 1] == x;
      }
    }
  }

  lemma WithoutAt(l: seq<nat>, k: nat, j: int)
    requires k < |l|
    ensures At(Without(l, k), j) == At(l, if j < k then j else j + 1)
  {
  }

  lemma UnlinkedWithout(m: Entries, head: int, l: seq<nat>, k: nat, j: nat)
    requires Linked(m, head, l) && k < |l| && j < |l| - 1
    requires l[k] < |m| && NONE <= m[l[k]].next < |m| && NONE <= m[l[k]].prev < |m|
    ensures var q, w := Unlinked(m, l[k]), Without(l, k);
            |w| == |l| - 1 && w[j] < |q| && q[w[j]].next == At(w, j + 1) && q[w[j]].prev == At(w, j - 1)
  {
    hide Unlinked;
    WithoutAt(l, k, j);
    WithoutAt(l, k, j + 1);
    WithoutAt(l, k, j - 1);
    UnlinkedAt(m, head, l, k, if j < k then j else j + 1);
    hide Linked;
  }

  /** Taking an entry out leaves a list of the others in the same order. */
  lemma UnlinkLinked(m: Entries, head: int, l: seq<nat>, k: nat)
    requires Linked(m, head, l) && k < |l|
    ensures l[k] < |m| && NONE <= m[l[k]].next < |m| && NONE <= m[l[k]].prev < |m|
    ensures Linked(Unlinked(m, l[k]), if k == 0 then m[l[k]].next else head, Without(l, k))
    ensures l[k] !in Without(l, k)
  {
    hide Unlinked, Without;
    UnlinkedInRange(m, head, l, k);
    WithoutDistinct(l, k);
    WithoutAt(l, k, 0);
    var q, w := Unlinked(m, l[k]), Without(l, k);
    forall j: nat | j < |l| - 1
      ensures |w| == |l| - 1 && w[j] < |q| && q[w[j]].next == At(w, j + 1) && q[w[j]].prev == At(w, j - 1)
    {
      UnlinkedWithout(m, head, l, k, j);
    }
    assert |w| == |l| - 1;
  }

  /** A new tail. */
  lemma PushLinked(m: Entries, head: int, l: seq<nat>, i: nat)
    requires Linked(m, head, l) && l != [] && i < |m| && i !in l
    ensures l[|l| - 1] < |m| && Linked(Pushed(m, l[|l| - 1], i), head, l + [i])
  {
    var q, w := Pushed(m, l[|l| - 1], i), l + [i];
    forall k | 0 <= k < |w|
      ensures w[k] < |q| && q[w[k]].next == At(w, k + 1) && q[w[k]].prev == At(w, k - 1)
    {
      if k < |l| - 1 {
        assert l[k] != l[|l| - 1] && l[k] in l;
      }
    }
  }

  /** Entries may change everything but their pointers. */
  lemma LinkedKeeps(m: Entries, q: Entries, head: int, l: seq<nat>)
    requires Linked(m, head, l) && |q| == |m|
    requires forall i :: 0 <= i < |m| ==> q[i].next == m[i].next && q[i].prev == m[i].prev
    ensures Linked(q, head, l)
  {
  }

  /** Only pointers differ. */
  ghost predicate SameData(m: Entries, q: Entries) {
    |q| == |m| && forall i :: 0 <= i < |m| ==> q[i] == m[i].(next := q[i].next, prev := q[i].prev)
  }

  lemma PushedEntry(m: Entries, t: nat, i: nat, x: nat)
    requires t < |m| && i < |m| && x < |m|
    ensures |Pushed(m, t, i)| == |m|
    ensures var e := Pushed(m, t, i)[x];
            e == m[x].(next := e.next, prev := e.prev) && (x != t && x != i ==> e == m[x])
  {
  }

  lemma PushRest(m: Entries, head: int, l: seq<nat>, i: nat)
    requires Linked(m, head, l) && Rest(m, l) && l != [] && i < |m|
    ensures l[|l| - 1] < |m| && Rest(Pushed(m, l[|l| - 1], i), l + [i]) && SameData(m, Pushed(m, l[|l| - 1], i))
  {
    var t := l[|l| - 1];
    assert t < |m| && t in l;
    hide Linked, Pushed;
    PushedEntry(m, t, i, i);
    forall x: nat | x < |m|
      ensures var e := Pushed(m, t, i)[x];
              && e == m[x].(next := e.next, prev := e.prev)
              && (x !in l + [i] ==> e.next == NONE && e.prev == NONE)
    {
      PushedEntry(m, t, i, x);
    }
  }

  lemma UnlinkRest(m: Entries, head: int, l: seq<nat>, k: nat)
    requires Linked(m, head, l) && Rest(m, l) && k < |l|
    ensures l[k] < |m| && NONE <= m[l[k]].next < |m| && NONE <= m[l[k]].prev < |m|
    ensures Rest(Unlinked(m, l[k]), Without(l, k)) && SameData(m, Unlinked(m, l[k]))
  {
    hide Unlinked, Without;
    UnlinkedInRange(m, head, l, k);
    WithoutDistinct(l, k);
    assert m[l[k]].prev == At(l, k - 1) && m[l[k]].next == At(l, k + 1);
    Apart(l, k, k - 1);
    Apart(l, k, k + 1);
    UnlinkedSelf(m, l[k]);
    forall i: nat | i < |m|
      ensures var q := Unlinked(m, l[k]);
              && q[i] == m[i].(next := q[i].next, prev := q[i].prev)
              && (i !in Without(l, k) ==> q[i].next == NONE && q[i].prev == NONE)
    {
      if i != l[k] {
        UnlinkedEntry(m, l[k], i);
      }
    }
  }

  /** The whole bookkeeping but for the counters. */
  ghost predicate Book(m: Entries, head: int, l: seq<nat>) {
    Linked(m, head, l) && Rest(m, l) && Resident(m, l) && Tracks(m)
  }

  /** Somebody's counters agree with the entries. */
  ghost predicate Sound(m: Entries, head: int, inMem: int, inFile: int) {
    exists l :: Book(m, head, l) && |l| == inMem && Count(m, SwapFile) == inFile
  }

  lemma SomebodyIn(l: seq<nat>)
    ensures l != [] ==> exists x :: x in l
  {
    if l != [] {
      assert l[0] in l;
    }
  }

  lemma {:induction false} ListCount(m: Entries, l: seq<nat>)
    requires Distinct(l) && Resident(m, l) && forall x :: x in l ==> x < |m|
    ensures |l| == Count(m, MainMemory)
  {
    if m == [] {
      SomebodyIn(l);
    } else {
      var n := |m| - 1;
      var r := m[..n];
      if m[n].state == MainMemory {
        assert n in l;
        var k :| 0 <= k < |l| && l[k] == n;
        var w := Without(l, k);
        WithoutDistinct(l, k);
        assert forall j :: 0 <= j < |w| ==> w[j] in w && w[j] != n && w[j] in l;
        ListCount(r, w);
      } else {
        assert forall k :: 0 <= k < |l| ==> l[k] in l && l[k] != n;
        ListCount(r, l);
      }
    }
  }

  /** Data first, pointers after. */
  lemma Rebuilt(m: Entries, q: Entries, head: int, l: seq<nat>)
    requires SameData(m, q) && Linked(q, head, l) && Rest(q, l) && Resident(m, l) && Tracks(m)
    ensures Book(q, head, l) && Count(q, SwapFile) == Count(m, SwapFile)
  {
    CountSame(m, q, SwapFile);
    assert Tracks(q);
    assert Resident(q, l);
  }

  // ----- What each operation comes to -----

  /** addNewPageToPhysMem at entry i, with t the tail of the list or NONE. */
  function Added(m: Entries, t: int, i: nat, va: nat): Entries
    requires NONE <= t < |m| && i < |m|
  {
    if t == NONE then m[i := Entry(va, MainMemory, -1, 0, NONE, m[i].prev)]
    else Pushed(m, t, i)[i := Entry(va, MainMemory, -1, 0, NONE, t)]
  }

  /** Where addNewPageToPhysMem looks: slot 0 for an empty list, else the entry that tracks va, else
      the first unused one. */
  ghost predicate AddSlot(m: Entries, l: seq<nat>, va: nat, i: nat) {
    i < |m| && if l == [] then i == 0
               else m[i].va == va || (!Tracked(m, va) && m[i].state == NotUsed)
  }

  lemma AddData(m: Entries, l: seq<nat>, i: nat, va: nat)
    requires Tracks(m) && Resident(m, l) && i < |m| && m[i].state == NotUsed && !Tracked(m, va) && va % PGSIZE == 0
    ensures var d := m[i := Entry(va, MainMemory, -1, 0, m[i].next, m[i].prev)];
            Tracks(d) && Resident(d, l + [i])
  {
  }

  lemma AddPushed(m: Entries, head: int, l: seq<nat>, i: nat, va: nat)
    requires Linked(m, head, l) && Rest(m, l) && i < |m| && i !in l && l != []
    ensures l[|l| - 1] < |m|
    ensures var q := Added(m, l[|l| - 1], i, va);
            && Linked(q, head, l + [i]) && Rest(q, l + [i])
            && SameData(m[i := Entry(va, MainMemory, -1, 0, m[i].next, m[i].prev)], q)
  {
    PushLinked(m, head, l, i);
    PushRest(m, head, l, i);
    var t := l[|l| - 1];
    assert t in l;
    var p, q := Pushed(m, t, i), Added(m, t, i, va);
    assert p[i] == m[i].(prev := t, next := NONE);
    hide Pushed;
    assert q == p[i := Entry(va, MainMemory, -1, 0, NONE, t)];
    LinkedKeeps(p, q, head, l + [i]);
    hide Linked;
    assert Rest(q, l + [i]);
  }

  lemma AddKeeps(m: Entries, head: int, l: seq<nat>, i: nat, va: nat)
    requires Book(m, head, l) && i < |m| && m[i].state == NotUsed && !Tracked(m, va) && va % PGSIZE == 0
    ensures l != [] ==> l[|l| - 1] < |m|
    ensures var q := Added(m, At(l, |l| - 1), i, va);
            Book(q, if l == [] then i else head, l + [i]) && Count(q, SwapFile) == Count(m, SwapFile)
  {
    var d := m[i := Entry(va, MainMemory, -1, 0, m[i].next, m[i].prev)];
    assert i !in l;
    AddData(m, l, i, va);
    CountUpdate(m, i, d[i], SwapFile);
    hide Tracks, Resident;
    if l != [] {
      AddPushed(m, head, l, i, va);
      hide Linked, Rest, Added;
      Rebuilt(d, Added(m, l[|l| - 1], i, va), head, l + [i]);
    } else {
      Rebuilt(d, Added(m, NONE, i, va), i, [i]);
    }
  }

  /** In every other case the counters are wrong afterwards, or one address is tracked twice. */
  lemma AddBreaks(m: Entries, head: int, l: seq<nat>, i: nat, va: nat, h: int, k: seq<nat>)
    requires Book(m, head, l) && AddSlot(m, l, va, i) && va % PGSIZE == 0
    requires !(m[i].state == NotUsed && !Tracked(m, va))
    requires l != [] ==> l[|l| - 1] < |m|
    ensures var q := Added(m, At(l, |l| - 1), i, va);
            !(Book(q, h, k) && |k| == |l| + 1 && Count(q, SwapFile) == Count(m, SwapFile))
  {
    var q := Added(m, At(l, |l| - 1), i, va);
    AddCounts(m, At(l, |l| - 1), i, va);
    ListCount(m, l);
    if Book(q, h, k) && |k| == |l| + 1 && Count(q, SwapFile) == Count(m, SwapFile) {
      ListCount(q, k);
      assert m[i].state == NotUsed;
      var j :| 0 <= j < |m| && m[j].va == va;
      AddTwice(m, At(l, |l| - 1), i, va, j);
    }
  }

  lemma AddExact(m: Entries, head: int, l: seq<nat>, i: nat, va: nat)
    requires Book(m, head, l) && AddSlot(m, l, va, i) && va % PGSIZE == 0
    ensures l != [] ==> l[|l| - 1] < |m|
    ensures var q, h, n := Added(m, At(l, |l| - 1), i, va), if l == [] then i else head, Count(m, SwapFile);
            if m[i].state == NotUsed && !Tracked(m, va) then Book(q, h, l + [i]) && Count(q, SwapFile) == n
            else !Sound(q, h, |l| + 1, n)
  {
    assert l != [] ==> l[|l| - 1] < |m|;
    var q, h, n := Added(m, At(l, |l| - 1), i, va), if l == [] then i else head, Count(m, SwapFile);
    hide Book, Added, Count, Tracked;
    if m[i].state == NotUsed && !Tracked(m, va) {
      AddKeeps(m, head, l, i, va);
    } else {
      forall k | Book(q, h, k) && |k| == |l| + 1 && Count(q, SwapFile) == n
        ensures false
      {
        AddBreaks(m, head, l, i, va, h, k);
      }
    }
  }

  /** One page is tracked, resident at address 0, and address 0 is added again, as exec may do: the
      entry is found and used a second time, and no list has the two pages that are now counted. */
  lemma AddTwiceExample(m: Entries)
    requires |m| == MAX_TOTAL_PAGES && m[0] == Entry(0, MainMemory, -1, 0, NONE, NONE)
    requires forall i :: 0 < i < |m| ==> m[i] == Entry(NO_ADDRESS, NotUsed, -1, 0, NONE, NONE)
    ensures Book(m, 0, [0]) && AddSlot(m, [0], 0, 0) && Count(m, MainMemory) == 1 && Count(m, SwapFile) == 0
    ensures var q := Added(m, 0, 0, 0); Count(q, MainMemory) == 1 && !Sound(q, 0, 2, 0)
  {
    ListCount(m, [0]);
    CountPositive(m, SwapFile);
    AddExact(m, 0, [0], 0, 0);
    AddCounts(m, 0, 0, 0);
  }

  lemma AddCounts(m: Entries, t: int, i: nat, va: nat)
    requires NONE <= t < |m| && i < |m|
    ensures var q := Added(m, t, i, va);
            && Count(q, SwapFile) == Count(m, SwapFile) - (if m[i].state == SwapFile then 1 else 0)
            && Count(q, MainMemory) == Count(m, MainMemory) + (if m[i].state == MainMemory then 0 else 1)
  {
    var q := Added(m, t, i, va);
    var d := m[i := Entry(va, MainMemory, -1, 0, m[i].next, m[i].prev)];
    assert SameStates(d, q);
    CountSame(d, q, SwapFile);
    CountSame(d, q, MainMemory);
    CountUpdate(m, i, d[i], SwapFile);
    CountUpdate(m, i, d[i], MainMemory);
  }

  lemma AddTwice(m: Entries, t: int, i: nat, va: nat, j: nat)
    requires NONE <= t < |m| && i < |m| && j < |m| && m[j].va == va && m[i].state == NotUsed
    requires Tracks(m) && va % PGSIZE == 0
    ensures !Tracks(Added(m, t, i, va))
  {
    var q := Added(m, t, i, va);
    assert q[i].va == va && q[j].va == va && q[j].state != NotUsed && i != j;
    assert i < j || j < i;
  }

  ghost predicate SameStates(m: Entries, q: Entries) {
    |m| == |q| && forall i :: 0 <= i < |m| ==> m[i].state == q[i].state
  }

  // ----- The victim -----

  /** Of the first n places of the list, place k holds the first entry of least counter. */
  predicate LeastOf(m: Entries, l: seq<nat>, n: nat, k: nat) {
    k < n <= |l| && (forall j :: 0 <= j < n ==> l[j] < |m|)
    && forall j :: 0 <= j < n ==> m[l[k]].counter < m[l[j]].counter || (m[l[k]].counter == m[l[j]].counter && k <= j)
  }

  predicate IsVictim(m: Entries, l: seq<nat>, k: nat) {
    LeastOf(m, l, |l|, k)
  }

  lemma WholeList(m: Entries, l: seq<nat>, k: nat)
    requires LeastOf(m, l, |l|, k)
    ensures IsVictim(m, l, k)
  {
  }

  lemma VictimIs(m: Entries, l: seq<nat>, k: nat)
    requires IsVictim(m, l, k)
    ensures k < |l| && forall j :: 0 <= j < |l| ==>
              && l[j] < |m| && m[l[k]].counter <= m[l[j]].counter
              && (m[l[k]].counter == m[l[j]].counter ==> k <= j)
  {
  }

  /** A page fault, entry by entry. */
  lemma SwapIs(m: Entries, l: seq<nat>, inFile: int, va: nat, p: nat, v: int, k: nat, q: Entries, w: seq<nat>)
    requires SwapDone(m, l, inFile, va, p, v, k, q, w)
    ensures |q| == |m| && p < |m| && 0 <= v < |m| && v != p
    ensures m[p].va == va && q[p].state == MainMemory && q[v].state == SwapFile && q[v].offset == PGSIZE * (inFile - 1)
    ensures forall i :: 0 <= i < |m| ==>
              && q[i].va == m[i].va && q[i].counter == m[i].counter
              && (i != p && i != v ==> q[i].state == m[i].state && q[i].offset == m[i].offset)
    ensures forall j :: 0 <= j < |l| ==> l[j] < |m| && m[v].counter <= m[l[j]].counter
  {
    VictimIs(m, l, k);
  }

  /** A deletion, entry by entry. */
  lemma DeleteIs(m: Entries, l: seq<nat>, p: nat, k: nat, b: int, q: Entries, w: seq<nat>)
    requires DeleteDone(m, l, p, k, b, q, w) && (b != NONE ==> b != p)
    ensures |q| == |m| && p < |m| && q[p].state == NotUsed && q[p].va == NO_ADDRESS
    ensures b != NONE ==> 0 <= b < |m| && m[b].state == SwapFile && q[b].state == MainMemory
    ensures forall i :: 0 <= i < |m| && i != p ==>
              q[i].va == m[i].va && q[i].counter == m[i].counter && (i != b ==> q[i].state == m[i].state)
  {
  }

  lemma AddedIs(m: Entries, t: int, i: nat, va: nat)
    requires NONE <= t < |m| && i < |m|
    ensures var q := Added(m, t, i, va);
            && |q| == |m| && q[i].va == va && q[i].state == MainMemory && q[i].counter == 0
            && forall x :: 0 <= x < |m| && x != i ==>
                 && q[x].va == m[x].va && q[x].state == m[x].state
                 && q[x].counter == m[x].counter && q[x].offset == m[x].offset
  {
  }

  function In(m: Entries, s: PageState): set<nat> {
    set i: nat | i < |m| && m[i].state == s
  }

  lemma InLonger(m: Entries, s: PageState)
    requires m != []
    ensures var n := |m| - 1;
            n !in In(m[..n], s) && In(m, s) == In(m[..n], s) + if m[n].state == s then {n} else {}
  {
  }

  lemma {:induction false} CountIsSize(m: Entries, s: PageState)
    ensures Count(m, s) == |In(m, s)|
  {
    if m != [] {
      InLonger(m, s);
      CountIsSize(m[..|m| - 1], s);
      hide In;
    }
  }

  lemma HeadIs(m: Entries, head: int, l: seq<nat>)
    requires Linked(m, head, l)
    ensures head == NONE <==> l == []
  {
  }

  lemma LeastFirst(m: Entries, l: seq<nat>)
    requires l != [] && l[0] < |m|
    ensures LeastOf(m, l, 1, 0)
  {
  }

  lemma LeastStep(m: Entries, l: seq<nat>, n: nat, k: nat)
    requires LeastOf(m, l, n, k) && n < |l| && l[n] < |m|
    ensures LeastOf(m, l, n + 1, if m[l[n]].counter < m[l[k]].counter then n else k)
  {
  }

  lemma LinkAt(m: Entries, head: int, l: seq<nat>, j: nat)
    requires Linked(m, head, l) && j < |l|
    ensures head == l[0] && l[j] < |m| && m[l[j]].next == if j + 1 < |l| then l[j + 1] else NONE
  {
  }

  /** A timer tick numbers the list in order, with a counter that wraps at 32 bits. */
  function Stamp(time: nat, k: nat): nat {
    (time + k) % UINT32
  }

  ghost predicate Stamped(m: Entries, l: seq<nat>, n: nat, time: nat) {
    n <= |l| && forall k :: 0 <= k < n ==> l[k] < |m| && m[l[k]].counter == Stamp(time, k)
  }

  lemma FirstStamp(time: nat)
    requires time < UINT32
    ensures Stamp(time, 0) == time
  {
  }

  lemma NextStamp(time: nat, k: nat)
    ensures (Stamp(time, k) + 1) % UINT32 == Stamp(time, k + 1)
  {
  }

  /** Right after a tick the victim is the head, exactly when the numbering did not wrap. */
  lemma TickVictim(m: Entries, l: seq<nat>, time: nat)
    requires Stamped(m, l, |l|, time) && time < UINT32 && 0 < |l| <= MAX_TOTAL_PAGES
    ensures IsVictim(m, l, 0) <==> time + |l| <= UINT32
  {
    if time + |l| > UINT32 {
      var w := UINT32 - time;
      assert m[l[w]].counter == 0 && m[l[0]].counter == time;
    }
  }

  // ----- One process's pages -----

  lemma RestKeeps(m: Entries, q: Entries, l: seq<nat>)
    requires Rest(m, l) && |q| == |m| && forall i :: 0 <= i < |m| ==> q[i].next == m[i].next && q[i].prev == m[i].prev
    ensures Rest(q, l)
  {
  }

  lemma ListFacts(m: Entries, h: int, l: seq<nat>)
    requires Book(m, h, l)
    ensures Linked(m, h, l) && (h == NONE <==> l == [])
    ensures l != [] ==> l[|l| - 1] < |m|
  {
  }

  lemma Untracked(m: Entries, va: nat)
    requires forall j :: 0 <= j < |m| ==> m[j].va != va
    ensures !Tracked(m, va)
  {
  }

  lemma TrackedAt(m: Entries, va: nat, p: nat)
    requires p < |m| && m[p].va == va
    ensures Tracked(m, va)
  {
  }

  lemma SlotFree(m: Entries, l: seq<nat>, va: nat, i: nat)
    requires AddSlot(m, l, va, i) && !Tracked(m, va) && (l == [] ==> m[0].state == NotUsed)
    ensures m[i].state == NotUsed
  {
  }

  lemma TrackedStill(m: Entries, v: nat, off: nat, q: Entries)
    requires v < |m| && SameData(m[v := m[v].(state := SwapFile, offset := off)], q)
    ensures forall va :: Tracked(q, va) <==> Tracked(m, va)
  {
    forall va
      ensures Tracked(q, va) <==> Tracked(m, va)
    {
      if Tracked(m, va) {
        var i :| 0 <= i < |m| && m[i].va == va;
        assert q[i].va == va;
      }
    }
  }

  lemma SameSelf(m: Entries)
    ensures SameData(m, m)
  {
  }

  lemma SameThrough(m: Entries, q: Entries, r: Entries)
    requires SameData(m, q) && SameData(q, r)
    ensures SameData(m, r)
  {
  }

  lemma SwapFacts(m: Entries, head: int, l: seq<nat>, p: nat, k: nat)
    requires Book(m, head, l) && p < |m| && m[p].state == SwapFile && k < |l|
    ensures Linked(m, head, l) && Rest(m, l) && p !in l && l[k] < |m| && l[k] != p && m[p].offset >= 0
  {
    assert l[k] in l;
  }

  lemma DeleteFacts(m: Entries, head: int, l: seq<nat>, k: nat)
    requires Book(m, head, l) && k < |l|
    ensures Linked(m, head, l) && Rest(m, l) && l[k] < |m| && m[l[k]].state == MainMemory
  {
    assert l[k] in l;
  }

  lemma FullList(l: seq<nat>)
    requires |l| > 0
    ensures l != []
  {
  }

  // ----- The books after each operation -----

  lemma ResidentUpdate(m: Entries, l: seq<nat>, i: nat, e: Entry, w: seq<nat>)
    requires Resident(m, l) && i < |m|
    requires (forall x :: x != i ==> (x in w <==> x in l)) && (i in w <==> e.state == MainMemory)
    ensures Resident(m[i := e], w)
  {
  }

  lemma TracksUpdate(m: Entries, i: nat, e: Entry)
    requires Tracks(m) && i < |m| && (e.state == SwapFile <==> e.offset >= 0)
    requires if e.state == NotUsed then e.va == NO_ADDRESS else e.va == m[i].va && m[i].state != NotUsed
    ensures Tracks(m[i := e])
  {
  }

  lemma EvictBook(m: Entries, q: Entries, head: int, l: seq<nat>, k: nat, off: nat)
    requires Resident(m, l) && Tracks(m) && Distinct(l) && k < |l| && l[k] < |m|
    requires SameData(m[l[k] := m[l[k]].(state := SwapFile, offset := off)], q)
    requires Linked(q, head, Without(l, k)) && Rest(q, Without(l, k))
    ensures Book(q, head, Without(l, k)) && Count(q, SwapFile) == Count(m, SwapFile) + 1
  {
    var d := m[l[k] := m[l[k]].(state := SwapFile, offset := off)];
    hide Linked, Rest, SameData, Without;
    WithoutDistinct(l, k);
    assert l[k] in l && m[l[k]].state == MainMemory;
    hide Resident, Tracks, Distinct;
    ResidentUpdate(m, l, l[k], d[l[k]], Without(l, k));
    TracksUpdate(m, l[k], d[l[k]]);
    CountUpdate(m, l[k], d[l[k]], SwapFile);
    Rebuilt(d, q, head, Without(l, k));
  }

  /** Page p came in and then the victim l[k] went out. */
  lemma SwapData(m: Entries, l: seq<nat>, p: nat, k: nat, off: nat)
    requires Resident(m, l) && Tracks(m) && Distinct(l) && k < |l| && l[k] < |m|
    requires p < |m| && m[p].state == SwapFile && p != l[k]
    ensures var d := Swapped(m, p, l[k], off);
            Resident(d, Without(l + [p], k)) && Tracks(d) && Count(d, SwapFile) == Count(m, SwapFile)
  {
    hide Without;
    var c := m[p := m[p].(state := MainMemory, offset := -1)];
    var d := c[l[k] := c[l[k]].(state := SwapFile, offset := off)];
    assert l[k] in l && p !in l;
    assert Distinct(l + [p]);
    WithoutDistinct(l + [p], k);
    hide Resident, Tracks, Distinct;
    ResidentUpdate(m, l, p, c[p], l + [p]);
    ResidentUpdate(c, l + [p], l[k], d[l[k]], Without(l + [p], k));
    TracksUpdate(m, p, c[p]);
    TracksUpdate(c, l[k], d[l[k]]);
    CountUpdate(m, p, c[p], SwapFile);
    CountUpdate(c, l[k], d[l[k]], SwapFile);
  }

  lemma SwapSame(m: Entries, m1: Entries, m2: Entries, q: Entries, p: nat, v: nat, off: nat)
    requires v < |m| && p < |m| && p != v
    requires m1 == m[v := m[v].(offset := m[p].offset)]
    requires SameData(m1[p := m1[p].(state := MainMemory, offset := -1)], m2)
    requires |m2| == |m| && SameData(m2[v := m2[v].(state := SwapFile, offset := off)], q)
    ensures SameData(Swapped(m, p, v, off), q)
  {
  }

  lemma SwapBook(m: Entries, m1: Entries, m2: Entries, q: Entries, head: int, l: seq<nat>, p: nat, k: nat, off: nat)
    requires Resident(m, l) && Tracks(m) && Distinct(l) && k < |l| && l[k] < |m|
    requires p < |m| && m[p].state == SwapFile && p != l[k]
    requires m1 == m[l[k] := m[l[k]].(offset := m[p].offset)]
    requires SameData(m1[p := m1[p].(state := MainMemory, offset := -1)], m2)
    requires |m2| == |m| && SameData(m2[l[k] := m2[l[k]].(state := SwapFile, offset := off)], q)
    requires Linked(q, head, Without(l + [p], k)) && Rest(q, Without(l + [p], k))
    ensures Book(q, head, Without(l + [p], k)) && Count(q, SwapFile) == Count(m, SwapFile)
    ensures SameData(Swapped(m, p, l[k], off), q)
  {
    var d := Swapped(m, p, l[k], off);
    hide Linked, Rest, SameData, Without, Resident, Tracks, Distinct, Swapped;
    SwapSame(m, m1, m2, q, p, l[k], off);
    SwapData(m, l, p, k, off);
    Rebuilt(d, q, head, Without(l + [p], k));
  }

  /** The deleted page's entry is free and off the list. */
  lemma DeleteBook(m: Entries, q: Entries, head: int, l: seq<nat>, k: nat)
    requires Resident(m, l) && Tracks(m) && Distinct(l) && k < |l| && l[k] < |m|
    requires SameData(Deleted(m, l[k], NONE), q)
    requires Linked(q, head, Without(l, k)) && Rest(q, Without(l, k))
    ensures Book(q, head, Without(l, k)) && Count(q, SwapFile) == Count(m, SwapFile)
  {
    var d := m[l[k] := m[l[k]].(va := NO_ADDRESS, state := NotUsed, offset := -1)];
    hide Linked, Rest, SameData, Without;
    WithoutDistinct(l, k);
    assert l[k] in l && m[l[k]].state == MainMemory;
    hide Resident, Tracks, Distinct;
    ResidentUpdate(m, l, l[k], d[l[k]], Without(l, k));
    TracksUpdate(m, l[k], d[l[k]]);
    CountUpdate(m, l[k], d[l[k]], SwapFile);
    Rebuilt(d, q, head, Without(l, k));
  }

  lemma BringData(m: Entries, l: seq<nat>, k: nat, b: nat)
    requires Resident(m, l) && Tracks(m) && Distinct(l) && k < |l| && l[k] < |m|
    requires b < |m| && m[b].state == SwapFile
    ensures b != l[k] && b !in l && m[b].offset >= 0
    ensures var d := Deleted(m, l[k], b);
            Resident(d, Without(l + [b], k)) && Tracks(d) && Count(d, SwapFile) == Count(m, SwapFile) - 1
  {
    hide Without;
    assert l[k] in l;
    var c := m[l[k] := m[l[k]].(va := NO_ADDRESS, state := NotUsed, offset := -1)];
    var d := c[b := c[b].(state := MainMemory, offset := -1)];
    assert Distinct(l + [b]);
    WithoutDistinct(l + [b], k);
    hide Resident, Tracks, Distinct;
    ResidentUpdate(m, l, b, m[b].(state := MainMemory, offset := -1), l + [b]);
    var e := m[b := m[b].(state := MainMemory, offset := -1)];
    ResidentUpdate(e, l + [b], l[k], d[l[k]], Without(l + [b], k));
    assert d == e[l[k] := d[l[k]]];
    TracksUpdate(m, l[k], c[l[k]]);
    TracksUpdate(c, b, d[b]);
    CountUpdate(m, l[k], c[l[k]], SwapFile);
    CountUpdate(c, b, d[b], SwapFile);
  }

  lemma BringBook(m: Entries, m2: Entries, q: Entries, head: int, l: seq<nat>, k: nat, b: nat)
    requires Resident(m, l) && Tracks(m) && Distinct(l) && k < |l| && l[k] < |m|
    requires b < |m| && m[b].state == SwapFile
    requires SameData(Deleted(m, l[k], b), m2)
    requires SameData(m2, q) && Linked(q, head, Without(l + [b], k)) && Rest(q, Without(l + [b], k))
    ensures Book(q, head, Without(l + [b], k)) && Count(q, SwapFile) == Count(m, SwapFile) - 1
    ensures SameData(Deleted(m, l[k], b), q)
  {
    hide Linked, Rest, SameData, Without, Resident, Tracks, Distinct;
    var d := Deleted(m, l[k], b);
    SameThrough(d, m2, q);
    BringData(m, l, k, b);
    Rebuilt(d, q, head, Without(l + [b], k));
  }

  lemma DropBook(m: Entries, head: int, l: seq<nat>, i: nat)
    requires Book(m, head, l) && i < |m| && m[i].state == SwapFile
    ensures var q := m[i := m[i].(va := NO_ADDRESS, counter := 0, offset := -1, state := NotUsed)];
            Book(q, head, l) && Count(q, SwapFile) == Count(m, SwapFile) - 1
  {
    var q := m[i := m[i].(va := NO_ADDRESS, counter := 0, offset := -1, state := NotUsed)];
    LinkedKeeps(m, q, head, l);
    RestKeeps(m, q, l);
    hide Linked, Rest;
    assert Resident(q, l) by { hide Tracks; }
    assert Tracks(q) by { hide Resident; }
    CountUpdate(m, i, q[i], SwapFile);
  }

  /** With at most 29 pages tracked there is an unused entry, and it is entry 0 for an empty list and
      an empty swap file. */
  lemma Room(m: Entries, head: int, l: seq<nat>)
    requires Book(m, head, l) && |l| + Count(m, SwapFile) < |m|
    ensures exists j :: 0 <= j < |m| && m[j].state == NotUsed
    ensures l == [] && Count(m, SwapFile) == 0 ==> m[0].state == NotUsed
  {
    forall x | x in l
      ensures x < |m|
    {
      var k :| 0 <= k < |l| && l[k] == x;
    }
    ListCount(m, l);
    CountAll(m);
    CountPositive(m, NotUsed);
    CountPositive(m, SwapFile);
  }

  lemma AddedTracks(m: Entries, t: int, i: nat, va: nat)
    requires NONE <= t < |m| && i < |m|
    ensures Tracked(Added(m, t, i, va), va)
  {
    assert Added(m, t, i, va)[i].va == va;
  }

  // ----- A tick changes counters only -----

  ghost predicate SameButCounters(m: Entries, q: Entries, l: seq<nat>) {
    |q| == |m| && forall i :: 0 <= i < |m| ==> q[i] == m[i].(counter := if i in l then q[i].counter else m[i].counter)
  }

  lemma LinkedFacts(m: Entries, head: int, l: seq<nat>)
    requires Linked(m, head, l)
    ensures Distinct(l) && head == At(l, 0)
  {
  }

  lemma StampNone(m: Entries, l: seq<nat>, time: nat)
    ensures SameButCounters(m, m, l) && Stamped(m, l, 0, time)
  {
  }

  lemma TickAt(m: Entries, q: Entries, head: int, l: seq<nat>, j: nat)
    requires Book(m, head, l) && SameButCounters(m, q, l) && j < |l|
    ensures l[j] < |q| && q[l[j]].state == MainMemory && q[l[j]].next == At(l, j + 1)
  {
    assert l[j] in l;
  }

  lemma StampOne(m: Entries, q: Entries, l: seq<nat>, j: nat, time: nat)
    requires Distinct(l) && SameButCounters(m, q, l) && j < |l| && l[j] < |q| && Stamped(q, l, j, time)
    ensures var r := q[l[j] := q[l[j]].(counter := Stamp(time, j))];
            SameButCounters(m, r, l) && Stamped(r, l, j + 1, time)
  {
    hide Stamp;
  }

  lemma TickIs(m: Entries, q: Entries, l: seq<nat>, time: nat)
    requires SameButCounters(m, q, l) && Stamped(q, l, |l|, time)
    ensures |q| == |m| && Stamp(time, |l|) == (time + |l|) % 0x1_0000_0000
    ensures forall j :: 0 <= j < |l| ==> l[j] < |q| && q[l[j]].counter == (time + j) % 0x1_0000_0000
    ensures forall i :: 0 <= i < |q| && i !in l ==> q[i] == m[i]
  {
  }

  lemma CountersOnly(m: Entries, q: Entries, head: int, l: seq<nat>)
    requires Book(m, head, l) && SameButCounters(m, q, l)
    ensures Book(q, head, l) && Count(q, SwapFile) == Count(m, SwapFile)
  {
    CountSame(m, q, SwapFile);
    LinkedKeeps(m, q, head, l);
    RestKeeps(m, q, l);
    hide Linked, Rest, Count;
    assert Resident(q, l) by { hide Tracks; }
    assert Tracks(q) by { hide Resident; }
  }

  class Pages {
    const meta: array<Entry>
    var head: int
    var inMem: int             // num_pages_in_main_mem
    var inFile: int            // num_pages_in_file
    ghost var list: seq<nat>

    ghost predicate Valid()
      reads this, meta
    {
      && meta.Length == MAX_TOTAL_PAGES && Book(meta[..], head, list)
      && inMem == |list| && inFile == Count(meta[..], SwapFile)
    }

    /** The counters count, and the pages tracked are different pages. */
    lemma Books()
      requires Valid()
      ensures inMem == |set i: nat | i < meta.Length && meta[i].state == MainMemory|
      ensures inFile == |set i: nat | i < meta.Length && meta[i].state == SwapFile|
      ensures forall i, j :: 0 <= i < j < meta.Length && meta[i].state != NotUsed && meta[j].state != NotUsed ==>
                meta[i].va != meta[j].va
      ensures forall i :: 0 <= i < meta.Length ==> (i in list <==> meta[i].state == MainMemory)
    {
      var m := meta[..];
      ListCount(m, list);
      CountIsSize(m, MainMemory);
      CountIsSize(m, SwapFile);
      assert (set i: nat | i < meta.Length && meta[i].state == MainMemory) == In(m, MainMemory);
      assert (set i: nat | i < meta.Length && meta[i].state == SwapFile) == In(m, SwapFile);
      assert forall i :: 0 <= i < meta.Length ==> m[i] == meta[i];
    }

    /** What allocuvm keeps of a process with pid > 2. */
    ghost predicate Bounded()
      reads this
    {
      inMem <= MAX_PSYC_PAGES && inFile <= MAX_TOTAL_PAGES - MAX_PSYC_PAGES && (inFile > 0 ==> inMem > 0)
    }

    /** resetProcessPagesData. */
    constructor ()
      ensures Valid() && Bounded() && fresh(meta) && list == [] && inFile == 0
      ensures forall i :: 0 <= i < meta.Length ==> meta[i].state == NotUsed
    {
      meta := new Entry[MAX_TOTAL_PAGES](_ => Entry(NO_ADDRESS, NotUsed, -1, 0, NONE, NONE));
      head, inMem, inFile, list := NONE, 0, 0, [];
      new;
      CountPositive(meta[..], SwapFile);
    }

    /** The scans of paging_meta_data: the first entry with this address, or the length. */
    method FindAddress(va: nat) returns (i: nat)
      ensures i <= meta.Length && (i < meta.Length ==> meta[i].va == va)
      ensures forall j :: 0 <= j < i ==> meta[j].va != va
    {
      i := 0;
      while i < meta.Length && meta[i].va != va
        invariant 0 <= i <= meta.Length
        invariant forall j :: 0 <= j < i ==> meta[j].va != va
      {
        i := i + 1;
      }
    }

    method FindState(s: PageState) returns (i: nat)
      ensures i <= meta.Length && (i < meta.Length ==> meta[i].state == s)
      ensures forall j :: 0 <= j < i ==> meta[j].state != s
    {
      i := 0;
      while i < meta.Length && meta[i].state != s
        invariant 0 <= i <= meta.Length
        invariant forall j :: 0 <= j < i ==> meta[j].state != s
      {
        i := i + 1;
      }
    }

    /** The walk to the last entry of a non-empty list. */
    method Tail() returns (t: nat)
      requires Linked(meta[..], head, list) && list != []
      ensures t < meta.Length && t == list[|list| - 1]
    {
      hide Linked;
      ghost var k := 0;
      var c := head;
      LinkAt(meta[..], head, list, 0);
      while meta[c].next != NONE
        invariant 0 <= k < |list| && c == list[k] && 0 <= c < meta.Length
        decreases |list| - k
      {
        LinkAt(meta[..], head, list, k);
        c := meta[c].next;
        k := k + 1;
        LinkAt(meta[..], head, list, k);
      }
      LinkAt(meta[..], head, list, k);
      t := c;
    }

    /** The search of addNewPageToPhysMem, with t the tail of a non-empty list. */
    method SlotFor(va: nat, t: int) returns (i: nat)
      requires meta.Length > 0 && exists j :: 0 <= j < meta.Length && meta[j].state == NotUsed
      ensures i < meta.Length
      ensures if t == NONE then i == 0
              else meta[i].va == va || (!Tracked(meta[..], va) && meta[i].state == NotUsed)
    {
      if t == NONE {
        return 0;
      }
      i := FindAddress(va);
      if i == meta.Length {
        i := FindState(NotUsed);
        assert forall j :: 0 <= j < |meta[..]| ==> meta[..][j].va != va;
      }
    }

    method Link(t: int, i: nat, va: nat)
      requires NONE <= t < meta.Length && i < meta.Length
      modifies `head, meta
      ensures meta[..] == Added(old(meta[..]), t, i, va)
      ensures head == if t == NONE then i else old(head)
    {
      ghost var m := meta[..];
      if t == NONE {
        head := i;
        meta[i] := Entry(va, MainMemory, -1, 0, NONE, meta[i].prev);
        assert meta[..] == m[i := meta[i]];
      } else {
        meta[t] := meta[t].(next := i);
        assert meta[..] == m[t := meta[t]];
        ghost var a := meta[..];
        meta[i] := meta[i].(prev := t);
        meta[i] := Entry(va, MainMemory, -1, 0, NONE, meta[i].prev);
        assert meta[..] == a[i := meta[i]];
      }
    }

    /** addNewPageToPhysMem. It keeps the books exactly when the address is new and the slot is free. */
    method AddNewPage(va: nat) returns (i: nat)
      requires Valid() && va % PGSIZE == 0
      requires exists j :: 0 <= j < meta.Length && meta[j].state == NotUsed
      modifies this, meta
      ensures AddSlot(old(meta[..]), old(list), va, i) && i < |old(meta[..])|
      ensures old(list) != [] ==> old(list)[|old(list)| - 1] < |old(meta[..])|
      ensures meta[..] == Added(old(meta[..]), At(old(list), |old(list)| - 1), i, va)
      ensures inMem == old(inMem) + 1 && inFile == old(inFile) && |old(meta[..])| == meta.Length
      ensures i < meta.Length && meta[i].va == va && meta[i].state == MainMemory && meta[i].counter == 0
      ensures forall x :: 0 <= x < meta.Length && x != i ==>
                && meta[x].va == old(meta[..])[x].va && meta[x].state == old(meta[..])[x].state
                && meta[x].counter == old(meta[..])[x].counter && meta[x].offset == old(meta[..])[x].offset
      ensures var ok := old(meta[..])[i].state == NotUsed && !Tracked(old(meta[..]), va);
              && (ok ==> Valid() && list == old(list) + [i])
              && (!ok ==> !Sound(meta[..], head, inMem, inFile))
    {
      hide Book, Added, Count, Tracked, Sound;
      ghost var m, l, h := meta[..], list, head;
      ListFacts(m, h, l);
      var t := NONE;
      if head != NONE {
        t := Tail();
      }
      i := SlotFor(va, t);
      AddExact(m, h, l, i, va);
      Link(t, i, va);
      AddedIs(m, t, i, va);
      inMem := inMem + 1;
      if m[i].state == NotUsed && !Tracked(m, va) {
        list := l + [i];
      }
    }

    /** choosePageFromPhysMem: the first resident page of least counter. */
    method ChoosePage() returns (v: int, ghost k: nat)
      requires Linked(meta[..], head, list)
      ensures v == NONE <==> list == []
      ensures list != [] ==> k < |list| && 0 <= v < meta.Length && v == list[k] && IsVictim(meta[..], list, k)
      ensures list != [] ==> forall j :: 0 <= j < |list| ==>
                && list[j] < meta.Length && meta[v].counter <= meta[list[j]].counter
                && (meta[v].counter == meta[list[j]].counter ==> k <= j)
    {
      hide Linked, LeastOf, IsVictim, Distinct, At;
      ghost var m := meta[..];
      v, k := head, 0;
      HeadIs(m, head, list);
      if head == NONE {
        return;
      }
      LinkAt(m, head, list, 0);
      LeastFirst(m, list);
      var c := head;
      var least := meta[c].counter;
      ghost var j := 0;
      while meta[c].next != NONE
        invariant 0 <= j < |list| && c == list[j] && 0 <= c < meta.Length
        invariant k < |list| && v == list[k] && 0 <= v < meta.Length && least == m[v].counter
        invariant LeastOf(m, list, j + 1, k)
        decreases |list| - j
      {
        LinkAt(m, head, list, j);
        c := meta[c].next;
        j := j + 1;
        LinkAt(m, head, list, j);
        LeastStep(m, list, j, k);
        if meta[c].counter < least {
          v, k := c, j;
          least := meta[c].counter;
        }
      }
      LinkAt(m, head, list, j);
      WholeList(m, list, k);
      VictimIs(m, list, k);
    }

    /** updateListPointers. */
    method UpdateListPointers(p: nat, ghost k: nat)
      requires Linked(meta[..], head, list) && Rest(meta[..], list) && k < |list| && list[k] == p
      modifies `head, `list, meta
      ensures list == Without(old(list), k)
      ensures Linked(meta[..], head, list) && Rest(meta[..], list) && SameData(old(meta[..]), meta[..])
    {
      hide Linked, Rest, SameData, Without;
      ghost var m := meta[..];
      UnlinkLinked(m, head, list, k);
      UnlinkRest(m, head, list, k);
      UnlinkedInRange(m, head, list, k);
      var prev, next := meta[p].prev, meta[p].next;
      if prev != NONE {
        meta[prev] := meta[prev].(next := next);
        assert meta[..] == m[prev := m[prev].(next := next)];
        ghost var a := meta[..];
        if next != NONE {
          meta[next] := meta[next].(prev := prev);
          assert meta[..] == a[next := a[next].(prev := prev)];
        }
      } else {
        head := next;
        if next != NONE {
          meta[next] := meta[next].(prev := NONE);
          assert meta[..] == m[next := m[next].(prev := NONE)];
        }
      }
      ghost var b := meta[..];
      meta[p] := meta[p].(prev := NONE, next := NONE);
      assert meta[..] == b[p := b[p].(prev := NONE, next := NONE)];
      assert meta[..] == Unlinked(m, p);
      list := Without(list, k);
    }

    /** mem2File. The swap file gets the page at its end: the test of an older offset is never true. */
    method Mem2File(p: nat, ghost k: nat, written: bool) returns (ok: bool)
      requires Linked(meta[..], head, list) && Rest(meta[..], list) && k < |list| && list[k] == p && p < meta.Length
      modifies this, meta
      ensures ok == written
      ensures !ok ==> unchanged(this) && unchanged(meta)
      ensures ok ==>
                && list == Without(old(list), k) && inMem == old(inMem) - 1 && inFile == old(inFile) + 1
                && Linked(meta[..], head, list) && Rest(meta[..], list)
                && var m := old(meta[..]);
                   SameData(m[p := m[p].(state := SwapFile, offset := PGSIZE * old(inFile))], meta[..])
    {
      hide Rest, SameData, Without, Distinct;
      if !written {
        return false;
      }
      ghost var m := meta[..];
      meta[p] := meta[p].(offset := PGSIZE * inFile);
      meta[p] := meta[p].(state := SwapFile);
      assert meta[..] == m[p := m[p].(state := SwapFile, offset := PGSIZE * inFile)];
      inFile := inFile + 1;
      LinkedKeeps(m, meta[..], head, list);
      RestKeeps(m, meta[..], list);
      hide Linked;
      UpdateListPointers(p, k);
      inMem := inMem - 1;
      return true;
    }

    /** The end of file2mem: p becomes the tail of a non-empty list. */
    method PushBack(p: nat)
      requires Linked(meta[..], head, list) && Rest(meta[..], list) && list != [] && p < meta.Length && p !in list
      modifies `list, meta
      ensures list == old(list) + [p]
      ensures Linked(meta[..], head, list) && Rest(meta[..], list) && SameData(old(meta[..]), meta[..])
    {
      hide Linked, Rest, SameData, Distinct;
      ghost var d := meta[..];
      var t := Tail();
      PushLinked(d, head, list, p);
      PushRest(d, head, list, p);
      meta[t] := meta[t].(next := p);
      assert meta[..] == d[t := d[t].(next := p)];
      ghost var a := meta[..];
      meta[p] := meta[p].(prev := t);
      meta[p] := meta[p].(next := NONE);
      assert meta[..] == a[p := a[p].(prev := t, next := NONE)];
      assert meta[..] == Pushed(d, t, p);
      list := list + [p];
    }

    /** file2mem, the read succeeding. */
    method File2Mem(p: nat) returns (ok: bool)
      requires Linked(meta[..], head, list) && Rest(meta[..], list) && list != [] && p < meta.Length && p !in list
      modifies this, meta
      ensures ok <==> old(meta[p].offset) >= 0
      ensures !ok ==> unchanged(this) && unchanged(meta)
      ensures ok ==>
                && list == old(list) + [p] && inMem == old(inMem) + 1 && inFile == old(inFile) - 1
                && head == old(head) && Linked(meta[..], head, list) && Rest(meta[..], list)
                && var m := old(meta[..]); SameData(m[p := m[p].(state := MainMemory, offset := -1)], meta[..])
    {
      hide Rest, SameData, Distinct;
      if meta[p].offset < 0 {
        return false;
      }
      ghost var m := meta[..];
      inMem := inMem + 1;
      meta[p] := meta[p].(offset := -1);
      meta[p] := meta[p].(state := MainMemory);
      assert meta[..] == m[p := m[p].(state := MainMemory, offset := -1)];
      inFile := inFile - 1;
      ghost var d := meta[..];
      LinkedKeeps(m, d, head, list);
      RestKeeps(m, d, list);
      hide Linked;
      PushBack(p);
      return true;
    }

    /** allocuvm's mem2File(choosePageFromPhysMem()). */
    method Evict(v: nat, ghost k: nat, written: bool) returns (ok: bool)
      requires Valid() && k < |list| && list[k] == v
      modifies this, meta
      ensures ok == written && Valid()
      ensures !ok ==> unchanged(this) && unchanged(meta)
      ensures ok ==> list == Without(old(list), k) && inMem == old(inMem) - 1 && inFile == old(inFile) + 1
      ensures ok ==> v < |old(meta[..])| && var m := old(meta[..]);
                SameData(m[v := m[v].(state := SwapFile, offset := PGSIZE * old(inFile))], meta[..])
    {
      hide Linked, Rest, Resident, Tracks, SameData, Without, Count;
      ghost var m, l, h := meta[..], list, head;
      DeleteFacts(m, h, l, k);
      ok := Mem2File(v, k, written);
      if ok {
        EvictBook(m, meta[..], head, l, k, PGSIZE * old(inFile));
      }
    }

    /** A page fault on a page in the swap file. The victim was chosen before the page came in. */
    method SwapPages(va: nat) returns (r: int, p: nat, v: int, ghost k: nat)
      requires Valid()
      requires forall i :: 0 <= i < meta.Length && meta[i].va == va ==> meta[i].state == SwapFile && list != []
      modifies this, meta
      ensures Valid()
      ensures r == -1 <==> !Tracked(old(meta[..]), va)
      ensures r == -1 ==> unchanged(this) && unchanged(meta)
      ensures r != -1 ==>
                && r == 0 && inMem == old(inMem) && inFile == old(inFile)
                && SwapDone(old(meta[..]), old(list), old(inFile), va, p, v, k, meta[..], list)
      ensures r != -1 ==>
                && p < meta.Length && 0 <= v < meta.Length && v != p && |old(meta[..])| == meta.Length
                && meta[p].va == va && meta[p].state == MainMemory && meta[v].state == SwapFile
                && (forall i :: 0 <= i < meta.Length ==>
                     && meta[i].va == old(meta[..])[i].va && meta[i].counter == old(meta[..])[i].counter
                     && (i != p && i != v ==> meta[i].state == old(meta[..])[i].state))
                && forall j :: 0 <= j < |old(list)| ==>
                     old(list)[j] < meta.Length && meta[v].counter <= meta[old(list)[j]].counter
    {
      hide Linked, Rest, Resident, Tracks, SameData, Without, LeastOf, Count, Distinct;
      ghost var m, l := meta[..], list;
      v, k := ChoosePage();
      p := FindAddress(va);
      if p == meta.Length {
        Untracked(m, va);
        return -1, p, v, k;
      }
      TrackedAt(m, va, p);
      SwapFacts(m, head, l, p, k);
      meta[v] := meta[v].(offset := meta[p].offset);
      ghost var m1 := meta[..];
      assert m1 == m[v := m[v].(offset := m[p].offset)];
      LinkedKeeps(m, m1, head, l);
      RestKeeps(m, m1, l);
      var ok := File2Mem(p);
      ghost var m2 := meta[..];
      assert list[k] == v;
      ok := Mem2File(v, k, true);
      CountPositive(m, SwapFile);
      SwapBook(m, m1, m2, meta[..], head, l, p, k, PGSIZE * (old(inFile) - 1));
      SwapIs(m, l, old(inFile), va, p, v, k, meta[..], list);
      return 0, p, v, k;
    }

    /** deletePage. A page in the swap file takes the place of the deleted one; it comes in while the
        deleted one is still on the list, so file2mem never sees an empty list. */
    method DeletePage(p: nat, ghost k: nat) returns (b: int)
      requires Valid() && p < meta.Length && k < |list| && list[k] == p
      modifies this, meta
      ensures Valid()
      ensures b == NONE <==> old(inFile) == 0
      ensures b == NONE ==> inMem == old(inMem) - 1 && inFile == 0
      ensures b != NONE ==> inMem == old(inMem) && inFile == old(inFile) - 1
      ensures DeleteDone(old(meta[..]), old(list), p, k, b, meta[..], list)
      ensures p < meta.Length == |old(meta[..])| && meta[p].state == NotUsed && meta[p].va == NO_ADDRESS
      ensures b != NONE ==>
                0 <= b < meta.Length && old(meta[..])[b].state == SwapFile && meta[b].state == MainMemory
      ensures forall i :: 0 <= i < meta.Length && i != p ==>
                && meta[i].va == old(meta[..])[i].va && meta[i].counter == old(meta[..])[i].counter
                && (i != b ==> meta[i].state == old(meta[..])[i].state)
    {
      hide Linked, Rest, Resident, Tracks, SameData, Without, Distinct, Count;
      ghost var m, l, h := meta[..], list, head;
      if inMem > 0 {
        inMem := inMem - 1;
      }
      meta[p] := meta[p].(va := NO_ADDRESS, state := NotUsed, offset := -1);
      ghost var d := meta[..];
      assert d == m[p := m[p].(va := NO_ADDRESS, state := NotUsed, offset := -1)];
      LinkedKeeps(m, d, head, l);
      RestKeeps(m, d, l);
      DeleteFacts(m, h, l, k);
      SameSelf(d);
      b := NONE;
      CountUpdate(m, p, d[p], SwapFile);
      CountPositive(d, SwapFile);
      if inFile > 0 {
        var f := FindState(SwapFile);
        assert forall j :: 0 <= j < f ==> d[j].state != SwapFile;
        assert f < meta.Length;
        BringData(m, l, k, f);
        b := f;
        var ok := File2Mem(f);
      }
      ghost var d2 := meta[..];
      UpdateListPointers(p, k);
      if b == NONE {
        DeleteBook(m, meta[..], head, l, k);
        SameThrough(d, d2, meta[..]);
      } else {
        BringBook(m, d2, meta[..], head, l, k, b);
      }
      DeleteIs(m, l, p, k, b, meta[..], list);
    }

    /** deallocuvm's other case: the page is in the swap file. */
    method DropSwapped(i: nat)
      requires Valid() && i < meta.Length && meta[i].state == SwapFile
      modifies `inFile, meta
      ensures Valid() && inFile == old(inFile) - 1 && i < |old(meta[..])|
      ensures var m := old(meta[..]);
              meta[..] == m[i := m[i].(va := NO_ADDRESS, counter := 0, offset := -1, state := NotUsed)]
    {
      hide Linked, Rest, Resident, Tracks, SameData, Count;
      ghost var m := meta[..];
      inFile := inFile - 1;
      meta[i] := meta[i].(va := NO_ADDRESS, counter := 0, offset := -1, state := NotUsed);
      assert meta[..] == m[i := meta[i]];
      DropBook(m, head, list, i);
    }

    /** allocuvm's test of the limits: false if there is no room, and no way to make it. */
    method MakeRoom(written: bool) returns (ok: bool, ghost k: nat)
      requires Valid() && Bounded()
      modifies this, meta
      ensures Valid() && Bounded()
      ensures ok <==> (old(inMem) == MAX_PSYC_PAGES ==> written && old(inFile) < MAX_TOTAL_PAGES - MAX_PSYC_PAGES)
      ensures !ok || old(inMem) < MAX_PSYC_PAGES ==> unchanged(this) && unchanged(meta)
      ensures ok && old(inMem) == MAX_PSYC_PAGES ==>
                && inMem == MAX_PSYC_PAGES - 1 && inFile == old(inFile) + 1
                && k < |old(list)| && IsVictim(old(meta[..]), old(list), k) && list == Without(old(list), k)
      ensures forall va :: Tracked(meta[..], va) <==> Tracked(old(meta[..]), va)
    {
      hide Book, Count, Without, LeastOf, SameData, Tracked, Linked;
      ok, k := true, 0;
      ghost var m := meta[..];
      if inMem == MAX_PSYC_PAGES {
        if inFile == MAX_TOTAL_PAGES - MAX_PSYC_PAGES {
          assert meta[..] == m;
          return false, k;
        }
        ListFacts(m, head, list);
        FullList(list);
        var v;
        v, k := ChoosePage();
        ok := Evict(v, k, written);
        if ok {
          TrackedStill(m, v, PGSIZE * old(inFile), meta[..]);
        } else {
          assert meta[..] == m;
        }
      } else {
        assert meta[..] == m;
      }
    }

    /** One turn of allocuvm's loop for a process with pid > 2. written and mapped say whether the swap
        file, and kalloc and mappages, had room. */
    method AllocStep(va: nat, written: bool, mapped: bool) returns (ok: bool)
      requires Valid() && Bounded() && va % PGSIZE == 0 && !Tracked(meta[..], va)
      modifies this, meta
      ensures Valid() && Bounded()
      ensures ok ==> Tracked(meta[..], va)
      ensures ok <==>
                mapped && (old(inMem) == MAX_PSYC_PAGES ==> written && old(inFile) < MAX_TOTAL_PAGES - MAX_PSYC_PAGES)
      ensures old(inMem) < MAX_PSYC_PAGES ==> inFile == old(inFile) && inMem == old(inMem) + if ok then 1 else 0
      ensures ok && old(inMem) == MAX_PSYC_PAGES ==> inMem == MAX_PSYC_PAGES && inFile == old(inFile) + 1
      ensures inMem <= 15 && inFile <= 15
    {
      hide Book, Count, SameData, Without, LeastOf, Added, Tracked, Sound;
      ghost var k;
      ok, k := MakeRoom(written);
      if !ok || !mapped {
        return false;
      }
      ghost var m := meta[..];
      Room(m, head, list);
      ghost var t := At(list, |list| - 1);
      ghost var l := list;
      var i := AddNewPage(va);
      SlotFree(m, l, va, i);
      AddedTracks(m, t, i, va);
      return true;
    }

    /** update_recently_accessed, for this process: a resident page always has a non-zero entry in the
        page table, so each gets the next value of the clock, in the order of the list. */
    method Tick(time: nat) returns (after: nat)
      requires Valid() && time < UINT32
      modifies meta
      ensures Valid() && after == Stamp(time, |list|) && Stamped(meta[..], list, |list|, time)
      ensures SameButCounters(old(meta[..]), meta[..], list)
      ensures after == (time + |list|) % 0x1_0000_0000
      ensures forall j :: 0 <= j < |list| ==>
                list[j] < meta.Length && meta[list[j]].counter == (time + j) % 0x1_0000_0000
      ensures forall i :: 0 <= i < meta.Length && i !in list ==> meta[i] == old(meta[i])
    {
      hide Book, Count, Stamped, SameButCounters, Linked, Stamp, Distinct;
      ghost var m := meta[..];
      ListFacts(m, head, list);
      after := time;
      assert after == Stamp(time, 0) by { FirstStamp(time); }
      var c := head;
      ghost var j := 0;
      StampNone(m, list, time);
      LinkedFacts(m, head, list);
      while c != NONE
        invariant 0 <= j <= |list| && c == At(list, j) && after == Stamp(time, j)
        invariant SameButCounters(m, meta[..], list) && Stamped(meta[..], list, j, time)
        decreases |list| - j
      {
        TickAt(m, meta[..], head, list, j);
        ghost var q := meta[..];
        if meta[c].state == MainMemory {
          meta[c] := meta[c].(counter := after);
          NextStamp(time, j);
          after := (after + 1) % UINT32;
        }
        assert meta[..] == q[c := q[c].(counter := Stamp(time, j))];
        StampOne(m, q, list, j, time);
        c := meta[c].next;
        j := j + 1;
      }
      CountersOnly(m, meta[..], head, list);
      TickIs(m, meta[..], list, time);
    }
  }
}
