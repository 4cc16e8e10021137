/** umalloc.c: the allocator of Kernighan and Ritchie. Addresses count units of sizeof(Header),
    8 bytes. The free list is circular through `base`, in address order with one wrap. */
module Umalloc {
  import opened Common

  const HEADER: nat := 8
  const MOREUNITS: nat := 4096

  /** The header at the front of every block: the next free block, and the size in units. */
  datatype Header = Header(ptr: nat, size: nat)

  type Memory = map<nat, Header>

  /** The header at address a. */
  function At(hdr: Memory, a: nat): Header {
    if a in hdr then hdr[a] else Header(0, 0)
  }

  /** A free block: address and size. */
  type Block = (nat, nat)

  function Range(a: nat, n: nat): (r: set<nat>)
    ensures forall u: nat :: u in r <==> a <= u < a + n
  {
    if n == 0 then {} else Range(a, n - 1) + {a + n - 1}
  }

  ghost function Units(q: seq<Block>): set<nat> {
    if q == [] then {} else Range(q[0].0, q[0].1) + Units(q[1..])
  }

  lemma {:induction false} UnitsConcat(q: seq<Block>, r: seq<Block>)
    ensures Units(q + r) == Units(q) + Units(r)
  {
    if q == [] {
      assert q + r == r;
    } else {
      assert (q + r)[1..] == q[1..] + r;
      UnitsConcat(q[1..], r);
    }
  }

  lemma UnitsOne(b: Block)
    ensures Units([b]) == Range(b.0, b.1)
  {
    assert [b][1..] == [];
  }

  /** Every unit of the list lies in one of its blocks. */
  lemma {:induction false} UnitsIn(q: seq<Block>, u: nat)
    ensures u in Units(q) <==> exists i :: 0 <= i < |q| && u in Range(q[i].0, q[i].1)
  {
    if q != [] {
      UnitsIn(q[1..], u);
      if u in Units(q[1..]) {
        var i :| 0 <= i < |q[1..]| && u in Range(q[1..][i].0, q[1..][i].1);
        assert u in Range(q[i + 1].0, q[i + 1].1);
      }
      if j :| 0 <= j < |q| && u in Range(q[j].0, q[j].1) {
        if j > 0 {
          assert u in Range(q[1..][j - 1].0, q[1..][j - 1].1);
        }
      }
    }
  }

  // ----- The list -----

  /** In address order, and no block ends where the next begins: neighbours are merged. */
  ghost predicate Sorted(q: seq<Block>) {
    forall i, j :: 0 <= i < j < |q| ==> q[i].0 + q[i].1 < q[j].0
  }

  function First(q: seq<Block>, end: nat): nat {
    if |q| > 0 then q[0].0 else end
  }

  /** The headers of the blocks q lead from each to the next and from the last to end. */
  ghost predicate Path(hdr: Memory, q: seq<Block>, end: nat) {
    q == [] ||
    (At(hdr, q[0].0) == Header(First(q[1..], end), q[0].1) && Path(hdr, q[1..], end))
  }

  lemma {:induction false} PathConcat(hdr: Memory, q: seq<Block>, r: seq<Block>, end: nat)
    ensures Path(hdr, q + r, end) <==> Path(hdr, q, First(r, end)) && Path(hdr, r, end)
  {
    if q == [] {
      assert q + r == r;
    } else {
      assert (q + r)[1..] == q[1..] + r;
      PathConcat(hdr, q[1..], r, end);
    }
  }

  lemma {:induction false} PathFrame(hdr: Memory, h: Memory, q: seq<Block>, end: nat)
    requires Path(hdr, q, end)
    requires forall i :: 0 <= i < |q| ==> At(h, q[i].0) == At(hdr, q[i].0)
    ensures Path(h, q, end)
  {
    if q != [] {
      PathFrame(hdr, h, q[1..], end);
    }
  }

  lemma {:induction false} PathAt(hdr: Memory, q: seq<Block>, end: nat, i: nat)
    requires Path(hdr, q, end) && i < |q|
    ensures At(hdr, q[i].0) == Header(if i + 1 < |q| then q[i + 1].0 else end, q[i].1)
  {
    if i > 0 {
      PathAt(hdr, q[1..], end, i - 1);
    }
  }

  ghost predicate ListOk(hdr: Memory, base: nat, q: seq<Block>) {
    && |q| > 0 && q[0] == (base, 0) && Sorted(q) && Path(hdr, q, base)
    && Positive(q[1..])
  }

  /** Where a block at bp belongs: after block j. */
  ghost predicate Spot(q: seq<Block>, bp: nat, j: nat) {
    j < |q| && q[j].0 + q[j].1 <= bp && (j + 1 < |q| ==> bp < q[j + 1].0)
  }

  // Block (bp, n) put in after block j of q, merged with its neighbours where they touch: the
  // block as it absorbs the one above, the blocks that replace block j, where the rest resumes.

  function Upper(q: seq<Block>, bp: nat, n: nat, j: nat): Block {
    if j + 1 < |q| && bp + n == q[j + 1].0 then (bp, n + q[j + 1].1) else (bp, n)
  }

  function Resume(q: seq<Block>, bp: nat, n: nat, j: nat): nat {
    if j + 1 < |q| && bp + n == q[j + 1].0 then j + 2 else j + 1
  }

  function Middle(q: seq<Block>, bp: nat, n: nat, j: nat): seq<Block>
    requires j < |q|
  {
    var b := Upper(q, bp, n, j);
    if q[j].0 + q[j].1 == bp then [(q[j].0, q[j].1 + b.1)] else [q[j], b]
  }

  function Inserted(q: seq<Block>, bp: nat, n: nat, j: nat): seq<Block>
    requires j < |q|
  {
    q[..j] + (Middle(q, bp, n, j) + q[Resume(q, bp, n, j)..])
  }

  lemma RangeJoin(a: nat, m: nat, n: nat)
    ensures Range(a, m) + Range(a + m, n) == Range(a, m + n)
  {
  }

  lemma UnitsTwo(b: Block, c: Block)
    ensures Units([b, c]) == Range(b.0, b.1) + Range(c.0, c.1)
  {
    assert [b, c] == [b] + [c];
    UnitsConcat([b], [c]);
    UnitsOne(b);
    UnitsOne(c);
  }

  lemma UpperUnits(q: seq<Block>, bp: nat, n: nat, j: nat)
    requires j < |q|
    ensures var b := Upper(q, bp, n, j);
            Range(b.0, b.1) + Units(q[Resume(q, bp, n, j)..]) == Range(bp, n) + Units(q[j + 1..])
  {
    hide Range;
    if j + 1 < |q| && bp + n == q[j + 1].0 {
      RangeJoin(bp, n, q[j + 1].1);
      assert q[j + 1..] == [q[j + 1]] + q[j + 2..];
      UnitsConcat([q[j + 1]], q[j + 2..]);
      UnitsOne(q[j + 1]);
    }
  }

  lemma MiddleUnits(q: seq<Block>, bp: nat, n: nat, j: nat)
    requires j < |q|
    ensures var b := Upper(q, bp, n, j);
            Units(Middle(q, bp, n, j)) == Range(q[j].0, q[j].1) + Range(b.0, b.1)
  {
    hide Range;
    var b := Upper(q, bp, n, j);
    if q[j].0 + q[j].1 == bp {
      RangeJoin(q[j].0, q[j].1, b.1);
      UnitsOne((q[j].0, q[j].1 + b.1));
    } else {
      UnitsTwo(q[j], b);
    }
  }

  /** Insertion adds exactly the units of the block. */
  lemma InsertedUnits(q: seq<Block>, bp: nat, n: nat, j: nat)
    requires j < |q|
    ensures Units(Inserted(q, bp, n, j)) == Units(q) + Range(bp, n)
  {
    hide Range, Units, Middle, Upper, Resume;
    var b, d, m := Upper(q, bp, n, j), Resume(q, bp, n, j), Middle(q, bp, n, j);
    assert d <= |q| by { ResumeFits(q, bp, n, j); }
    UpperUnits(q, bp, n, j);
    MiddleUnits(q, bp, n, j);
    UnitsConcat(m, q[d..]);
    UnitsConcat(q[..j], m + q[d..]);
    assert q == q[..j] + ([q[j]] + q[j + 1..]);
    UnitsConcat(q[..j], [q[j]] + q[j + 1..]);
    UnitsConcat([q[j]], q[j + 1..]);
    UnitsOne(q[j]);
  }

  lemma ResumeFits(q: seq<Block>, bp: nat, n: nat, j: nat)
    requires j < |q|
    ensures j < Resume(q, bp, n, j) <= |q|
  {
  }

  lemma SortedConcat(q: seq<Block>, r: seq<Block>)
    requires Sorted(q) && Sorted(r)
    requires forall i, k :: 0 <= i < |q| && 0 <= k < |r| ==> q[i].0 + q[i].1 < r[k].0
    ensures Sorted(q + r)
  {
  }

  /** Insertion keeps the order and leaves no two neighbours unmerged. */
  lemma InsertedSorted(q: seq<Block>, bp: nat, n: nat, j: nat)
    requires Sorted(q) && Spot(q, bp, j) && n > 0 && (j + 1 < |q| ==> bp + n <= q[j + 1].0)
    ensures Sorted(Inserted(q, bp, n, j))
  {
    var m, d := Middle(q, bp, n, j), Resume(q, bp, n, j);
    forall i, k | 0 <= i < |m| && 0 <= k < |q[d..]|
      ensures m[i].0 + m[i].1 < q[d..][k].0
    {
      assert q[d..][k] == q[d + k];
    }
    SortedConcat(m, q[d..]);
    forall i, k | 0 <= i < |q[..j]| && 0 <= k < |m + q[d..]|
      ensures q[..j][i].0 + q[..j][i].1 < (m + q[d..])[k].0
    {
    }
    SortedConcat(q[..j], m + q[d..]);
  }

  ghost predicate Positive(q: seq<Block>) {
    forall b :: b in q ==> b.1 > 0
  }

  /** The list still starts at base, and only base is empty. */
  lemma InsertedShape(q: seq<Block>, base: nat, bp: nat, n: nat, j: nat)
    requires |q| > 0 && q[0] == (base, 0) && Positive(q[1..]) && n > 0 && j < |q| && base < bp
    ensures var r := Inserted(q, bp, n, j); |r| > 0 && r[0] == (base, 0) && Positive(r[1..])
  {
    var r, m, d := Inserted(q, bp, n, j), Middle(q, bp, n, j), Resume(q, bp, n, j);
    assert forall i :: 0 < i < |q| ==> q[i] == q[1..][i - 1] && q[i] in q[1..];
    if j == 0 {
      assert r[1..] == [Upper(q, bp, n, j)] + q[d..];
    } else {
      assert r[1..] == q[1..j] + (m + q[d..]);
    }
  }

  lemma SortedTake(q: seq<Block>, k: nat, n: nat)
    requires Sorted(q) && k < |q| && n < q[k].1
    ensures Sorted(q[k := (q[k].0, q[k].1 - n)])
  {
  }

  lemma SortedRemove(q: seq<Block>, k: nat)
    requires Sorted(q) && k < |q|
    ensures Sorted(q[..k] + q[k + 1..])
  {
  }

  // ----- Live blocks -----

  ghost function LiveUnits(live: map<nat, nat>): set<nat> {
    set a, u | a in live && u in Range(a, live[a]) :: u
  }

  ghost predicate LiveOk(hdr: Memory, live: map<nat, nat>) {
    && (forall a :: a in live ==> At(hdr, a).size == live[a] && live[a] > 0)
    && (forall a, b :: a in live && b in live && a < b ==> a + live[a] <= b)
  }

  // ----- The writes of free -----

  /** free's two header updates, at predecessor p. */
  function Spliced(hdr: Memory, bp: nat, p: nat): Memory {
    var nx, n := At(hdr, p).ptr, At(hdr, bp).size;
    var h1 := hdr[bp := if bp + n == nx then Header(At(hdr, nx).ptr, n + At(hdr, nx).size) else Header(nx, n)];
    var ps := At(h1, p).size;
    h1[p := if p + ps == bp then Header(At(h1, bp).ptr, ps + At(h1, bp).size) else Header(bp, ps)]
  }

  /** Blocks j to d of the list give way to the blocks m. */
  lemma PathReplaced(hdr: Memory, h: Memory, q: seq<Block>, end: nat, j: nat, m: seq<Block>, d: nat)
    requires Path(hdr, q, end) && j < d <= |q| && First(m, 0) == q[j].0 && |m| > 0
    requires forall i :: 0 <= i < j ==> At(h, q[i].0) == At(hdr, q[i].0)
    requires forall i :: d <= i < |q| ==> At(h, q[i].0) == At(hdr, q[i].0)
    requires Path(h, m, First(q[d..], end))
    ensures Path(h, q[..j] + (m + q[d..]), end)
  {
    assert q == q[..j] + q[j..] && q == q[..d] + q[d..];
    PathConcat(hdr, q[..j], q[j..], end);
    PathConcat(hdr, q[..d], q[d..], end);
    PathFrame(hdr, h, q[..j], q[j].0);
    PathFrame(hdr, h, q[d..], end);
    PathConcat(h, m, q[d..], end);
    PathConcat(h, q[..j], m + q[d..], end);
  }

  /** The headers of the blocks of a sorted list are all different. */
  lemma SortedDiffer(q: seq<Block>, i: nat, j: nat)
    requires Sorted(q) && i < |q| && j < |q| && i != j
    ensures q[i].0 != q[j].0
  {
  }

  /** What the two updates of free leave in the headers of p and bp. */
  lemma SplicedHeaders(hdr: Memory, base: nat, q: seq<Block>, bp: nat, j: nat)
    requires ListOk(hdr, base, q) && j < |q| && base < bp && q[j].0 != bp
    requires j + 1 < |q| ==> q[j + 1].0 != bp
    ensures var n := At(hdr, bp).size;
            var h, b, d := Spliced(hdr, bp, q[j].0), Upper(q, bp, n, j), Resume(q, bp, n, j);
            var nx := if d < |q| then q[d].0 else base;
            if q[j].0 + q[j].1 == bp then At(h, q[j].0) == Header(nx, q[j].1 + b.1)
            else At(h, q[j].0) == Header(bp, q[j].1) && At(h, bp) == Header(nx, b.1)
  {
    PathAt(hdr, q, base, j);
    if j + 1 < |q| {
      PathAt(hdr, q, base, j + 1);
    }
  }

  lemma PathOne(hdr: Memory, b: Block, end: nat)
    requires At(hdr, b.0) == Header(end, b.1)
    ensures Path(hdr, [b], end)
  {
    assert [b][1..] == [];
  }

  lemma SplicedPath(hdr: Memory, base: nat, q: seq<Block>, bp: nat, j: nat)
    requires ListOk(hdr, base, q) && j < |q| && base < bp && q[j].0 != bp
    requires j + 1 < |q| ==> q[j + 1].0 != bp
    ensures var n := At(hdr, bp).size;
            Path(Spliced(hdr, bp, q[j].0), Middle(q, bp, n, j), First(q[Resume(q, bp, n, j)..], base))
  {
    SplicedHeaders(hdr, base, q, bp, j);
    hide Spliced, ListOk, Path;
    var n := At(hdr, bp).size;
    var h, b, d := Spliced(hdr, bp, q[j].0), Upper(q, bp, n, j), Resume(q, bp, n, j);
    var nx := First(q[d..], base);
    assert nx == if d < |q| then q[d].0 else base;
    if q[j].0 + q[j].1 == bp {
      PathOne(h, (q[j].0, q[j].1 + b.1), nx);
    } else {
      PathOne(h, q[j], b.0);
      PathOne(h, b, nx);
      PathConcat(h, [q[j]], [b], nx);
      assert [q[j]] + [b] == [q[j], b];
    }
  }

  lemma SplicedFrame(hdr: Memory, q: seq<Block>, bp: nat, j: nat, i: nat)
    requires Sorted(q) && j < |q| && i < |q| && i != j && q[i].0 != bp
    ensures At(Spliced(hdr, bp, q[j].0), q[i].0) == At(hdr, q[i].0)
  {
    SortedDiffer(q, i, j);
  }

  /** After free's updates the headers in memory hold the list with the block put in. */
  lemma SplicedOk(hdr: Memory, base: nat, q: seq<Block>, bp: nat, j: nat)
    requires ListOk(hdr, base, q) && Spot(q, bp, j) && base < bp && At(hdr, bp).size > 0
    requires j + 1 < |q| ==> bp + At(hdr, bp).size <= q[j + 1].0
    requires forall i :: 0 <= i < |q| ==> q[i].0 != bp
    ensures ListOk(Spliced(hdr, bp, q[j].0), base, Inserted(q, bp, At(hdr, bp).size, j))
  {
    hide Path, Spliced, Middle, Resume, Sorted;
    var n := At(hdr, bp).size;
    InsertedSorted(q, bp, n, j);
    InsertedShape(q, base, bp, n, j);
    var h := Spliced(hdr, bp, q[j].0);
    forall i: nat | i < |q| && i != j
      ensures At(h, q[i].0) == At(hdr, q[i].0)
    {
      SplicedFrame(hdr, q, bp, j, i);
    }
    SplicedPath(hdr, base, q, bp, j);
    ResumeFits(q, bp, n, j);
    MiddleFirst(q, bp, n, j);
    PathReplaced(hdr, h, q, base, j, Middle(q, bp, n, j), Resume(q, bp, n, j));
  }

  lemma MiddleFirst(q: seq<Block>, bp: nat, n: nat, j: nat)
    requires j < |q|
    ensures |Middle(q, bp, n, j)| > 0 && Middle(q, bp, n, j)[0].0 == q[j].0
  {
  }

  // ----- The writes of malloc -----

  lemma UnitsAround(x: seq<Block>, b: Block, y: seq<Block>)
    ensures Units(x + ([b] + y)) == Units(x) + Range(b.0, b.1) + Units(y)
  {
    UnitsConcat(x, [b] + y);
    UnitsConcat([b], y);
    UnitsOne(b);
  }

  /** A block between the blocks of the list shares no unit with them. */
  lemma UnitsApart(q: seq<Block>, at: nat, n: nat)
    requires forall i :: 0 <= i < |q| ==> q[i].0 + q[i].1 <= at || at + n <= q[i].0
    ensures Units(q) !! Range(at, n)
  {
    forall u: nat | u in Units(q)
      ensures u !in Range(at, n)
    {
      UnitsIn(q, u);
    }
  }

  /** Block k without its last n units. */
  function Shrunk(q: seq<Block>, k: nat, n: nat): seq<Block>
    requires k < |q| && n <= q[k].1
  {
    q[k := (q[k].0, q[k].1 - n)]
  }

  /** malloc's writes when it cuts the last n units off block k. */
  function Cut(hdr: Memory, q: seq<Block>, k: nat, n: nat): Memory
    requires k < |q| && n <= q[k].1
  {
    var at := q[k].0 + (q[k].1 - n);
    var h := hdr[q[k].0 := Header(At(hdr, q[k].0).ptr, q[k].1 - n)];
    h[at := Header(At(h, at).ptr, n)]
  }

  lemma CutOk(hdr: Memory, base: nat, q: seq<Block>, k: nat, n: nat)
    requires ListOk(hdr, base, q) && k < |q| && 0 < n < q[k].1
    ensures ListOk(Cut(hdr, q, k, n), base, Shrunk(q, k, n))
  {
    var c: Block := (q[k].0, q[k].1 - n);
    var h := Cut(hdr, q, k, n);
    var r := Shrunk(q, k, n);
    SortedTake(q, k, n);
    forall i: nat | i < |q| && i != k
      ensures At(h, q[i].0) == At(hdr, q[i].0)
    {
      assert q[i].0 + q[i].1 < q[k].0 || q[k].0 + q[k].1 < q[i].0;
    }
    PathAt(hdr, q, base, k);
    assert First(q[k + 1..], base) == if k + 1 < |q| then q[k + 1].0 else base;
    assert [c][1..] == [];
    PathReplaced(hdr, h, q, base, k, [c], k + 1);
    assert r == q[..k] + ([c] + q[k + 1..]);
    assert k > 0 && r[1..] == q[1..][k - 1 := c];
  }

  lemma CutUnits(q: seq<Block>, k: nat, n: nat)
    requires Sorted(q) && k < |q| && 0 < n < q[k].1
    ensures var at := q[k].0 + (q[k].1 - n);
            Units(q) == Units(Shrunk(q, k, n)) + Range(at, n) && Units(Shrunk(q, k, n)) !! Range(at, n)
  {
    hide Units;
    var at := q[k].0 + (q[k].1 - n);
    UnitsAround(q[..k], q[k], q[k + 1..]);
    assert q == q[..k] + ([q[k]] + q[k + 1..]);
    var c: Block := (q[k].0, q[k].1 - n);
    UnitsAround(q[..k], c, q[k + 1..]);
    assert Shrunk(q, k, n) == q[..k] + ([c] + q[k + 1..]);
    RangeJoin(q[k].0, q[k].1 - n, n);
    UnitsApart(Shrunk(q, k, n), at, n);
  }

  function Removed(q: seq<Block>, k: nat): seq<Block>
    requires k < |q|
  {
    q[..k] + q[k + 1..]
  }

  /** malloc's write when block k is taken whole. */
  function Unlinked(hdr: Memory, q: seq<Block>, k: nat): Memory
    requires 0 < k < |q|
  {
    hdr[q[k - 1].0 := Header(At(hdr, q[k].0).ptr, At(hdr, q[k - 1].0).size)]
  }

  lemma RemovePath(hdr: Memory, base: nat, q: seq<Block>, k: nat)
    requires Path(hdr, q, base) && Sorted(q) && 0 < k < |q|
    ensures Path(Unlinked(hdr, q, k), Removed(q, k), base)
  {
    var h := Unlinked(hdr, q, k);
    forall i: nat | i < |q| && i != k - 1
      ensures At(h, q[i].0) == At(hdr, q[i].0)
    {
      SortedDiffer(q, i, k - 1);
    }
    hide Sorted;
    PathAt(hdr, q, base, k);
    PathAt(hdr, q, base, k - 1);
    var m := [q[k - 1]];
    assert m[1..] == [];
    PathReplaced(hdr, h, q, base, k - 1, m, k + 1);
    assert Removed(q, k) == q[..k - 1] + (m + q[k + 1..]);
  }

  lemma RemoveOk(hdr: Memory, base: nat, q: seq<Block>, k: nat)
    requires ListOk(hdr, base, q) && 0 < k < |q|
    ensures ListOk(Unlinked(hdr, q, k), base, Removed(q, k))
  {
    hide Path, Sorted, Unlinked;
    SortedRemove(q, k);
    RemovePath(hdr, base, q, k);
    assert Removed(q, k)[1..] == q[1..k] + q[k + 1..];
  }

  lemma RemovedApart(q: seq<Block>, k: nat, i: nat)
    requires Sorted(q) && k < |q| && i < |q| - 1
    ensures var r := Removed(q, k); r[i].0 + r[i].1 <= q[k].0 || q[k].0 + q[k].1 <= r[i].0
  {
  }

  lemma RemoveUnits(q: seq<Block>, k: nat)
    requires Sorted(q) && k < |q|
    ensures Units(q) == Units(Removed(q, k)) + Range(q[k].0, q[k].1)
    ensures Units(Removed(q, k)) !! Range(q[k].0, q[k].1)
  {
    hide Units, Range, Sorted;
    forall i | 0 <= i < |Removed(q, k)|
      ensures var r := Removed(q, k); r[i].0 + r[i].1 <= q[k].0 || q[k].0 + q[k].1 <= r[i].0
    {
      RemovedApart(q, k, i);
    }
    UnitsApart(Removed(q, k), q[k].0, q[k].1);
    UnitsAround(q[..k], q[k], q[k + 1..]);
    assert q == q[..k] + ([q[k]] + q[k + 1..]);
    UnitsConcat(q[..k], q[k + 1..]);
  }

  // ----- The allocator -----

  /** Units for nbytes bytes and a header; the sum wraps at 32 bits. */
  function Nunits(nbytes: nat): nat {
    (nbytes + HEADER - 1) % UINT32 / HEADER + 1
  }

  /** The block that malloc cuts holds nbytes bytes exactly when the sum does not wrap. */
  /** The units that morecore asks sbrk for when nu are needed. */
  function Asked(nu: nat): nat {
    if nu < MOREUNITS then MOREUNITS else nu
  }

  lemma NunitsHoldIff(nbytes: nat)
    requires nbytes < UINT32
    ensures (Nunits(nbytes) - 1) * HEADER >= nbytes <==> nbytes <= UINT32 - HEADER
    ensures nbytes <= UINT32 - HEADER ==> (Nunits(nbytes) - 2) * HEADER < nbytes
  {
  }

  lemma NunitsPositive(nbytes: nat)
    ensures Nunits(nbytes) > 0
  {
  }

  lemma LiveIn(live: map<nat, nat>, u: nat)
    ensures u in LiveUnits(live) <==> exists a :: a in live && u in Range(a, live[a])
  {
  }

  lemma LiveRemoveAt(live: map<nat, nat>, a: nat, u: nat)
    requires a in live && forall b, c :: b in live && c in live && b < c ==> b + live[b] <= c
    ensures u in LiveUnits(live) <==> u in LiveUnits(live - {a}) || u in Range(a, live[a])
    ensures !(u in LiveUnits(live - {a}) && u in Range(a, live[a]))
  {
    hide LiveUnits;
    var rest := live - {a};
    LiveIn(live, u);
    LiveIn(rest, u);
    if u in LiveUnits(rest) {
      var b :| b in rest && u in Range(b, rest[b]);
      assert b in live && live[b] == rest[b];
    }
    if u in LiveUnits(live) && u !in Range(a, live[a]) {
      var b :| b in live && u in Range(b, live[b]);
      assert b in rest && rest[b] == live[b];
    }
  }

  lemma LiveRemove(live: map<nat, nat>, a: nat)
    requires a in live && forall b, c :: b in live && c in live && b < c ==> b + live[b] <= c
    ensures LiveUnits(live) == LiveUnits(live - {a}) + Range(a, live[a])
    ensures LiveUnits(live - {a}) !! Range(a, live[a])
  {
    hide LiveUnits, Range;
    forall u: nat
      ensures u in LiveUnits(live) <==> u in LiveUnits(live - {a}) || u in Range(a, live[a])
      ensures !(u in LiveUnits(live - {a}) && u in Range(a, live[a]))
    {
      LiveRemoveAt(live, a, u);
    }
  }

  lemma LiveAdd(live: map<nat, nat>, a: nat, n: nat)
    requires a !in live
    ensures LiveUnits(live[a := n]) == LiveUnits(live) + Range(a, n)
  {
    hide LiveUnits;
    var more := live[a := n];
    forall u: nat ensures u in LiveUnits(more) <==> u in LiveUnits(live) || u in Range(a, n) {
      LiveIn(live, u);
      LiveIn(more, u);
      if u in LiveUnits(live) {
        var b :| b in live && u in Range(b, live[b]);
        assert b in more && more[b] == live[b];
      }
      if u in Range(a, n) {
        assert a in more && more[a] == n;
      }
    }
  }

  /** The block at bp lies between the blocks of the list. */
  ghost predicate Apart(q: seq<Block>, bp: nat, n: nat) {
    forall i :: 0 <= i < |q| ==>
      q[i].0 != bp && (q[i].0 < bp ==> q[i].0 + q[i].1 <= bp) && (bp < q[i].0 ==> bp + n <= q[i].0)
  }

  lemma ApartFromUnits(hdr: Memory, base: nat, q: seq<Block>, bp: nat, n: nat)
    requires ListOk(hdr, base, q) && Units(q) !! Range(bp, n) && n > 0 && base < bp
    ensures Apart(q, bp, n)
  {
    forall i | 0 <= i < |q|
      ensures q[i].0 != bp && (q[i].0 < bp ==> q[i].0 + q[i].1 <= bp) && (bp < q[i].0 ==> bp + n <= q[i].0)
    {
      if i > 0 {
        assert q[1..][i - 1] == q[i] && q[i].1 > 0;
        UnitsIn(q, q[i].0);
        UnitsIn(q, bp);
        assert q[i].0 in Range(q[i].0, q[i].1);
        assert bp in Range(bp, n);
        assert bp !in Range(q[i].0, q[i].1);
      }
    }
  }

  /** There is one place in the list where a block belongs. */
  lemma FindSpot(q: seq<Block>, bp: nat, n: nat) returns (s: nat)
    requires |q| > 0 && q[0].0 < bp && Apart(q, bp, n) && Sorted(q)
    ensures Spot(q, bp, s) && forall j: nat :: Spot(q, bp, j) ==> j == s
  {
    s := 0;
    while s + 1 < |q| && q[s + 1].0 < bp
      invariant s < |q| && q[s].0 < bp
    {
      s := s + 1;
    }
  }

  /** The two tests of free's loop hold at the right place and nowhere else. */
  lemma SpotTest(hdr: Memory, base: nat, q: seq<Block>, bp: nat, n: nat, j: nat)
    requires ListOk(hdr, base, q) && base < bp && Apart(q, bp, n) && j < |q|
    ensures var p, nx := q[j].0, At(hdr, q[j].0).ptr;
            && nx == (if j + 1 < |q| then q[j + 1].0 else q[0].0)
            && ((bp > p && bp < nx) || (p >= nx && (bp > p || bp < nx)) <==> Spot(q, bp, j))
  {
    PathAt(hdr, q, base, j);
    assert j > 0 ==> base < q[j].0;
  }

  /** Every unit obtained from sbrk is in exactly one block, free or live. */
  ghost predicate Conserved(hdr: Memory, base: nat, q: seq<Block>, live: map<nat, nat>, arena: set<nat>, top: nat) {
    && LiveOk(hdr, live) && arena == Units(q) + LiveUnits(live) && Units(q) !! LiveUnits(live)
    && base < top && forall u :: u in arena ==> base < u < top
  }

  lemma LiveApart(hdr: Memory, base: nat, q: seq<Block>, live: map<nat, nat>, arena: set<nat>, top: nat, a: nat)
    requires Conserved(hdr, base, q, live, arena, top) && a in live
    ensures base < a && live[a] > 0 && Units(q) !! Range(a, live[a]) && At(hdr, a).size == live[a]
  {
    LiveRemove(live, a);
    assert a in Range(a, live[a]);
  }

  lemma LiveInArena(hdr: Memory, base: nat, q: seq<Block>, live: map<nat, nat>, arena: set<nat>, top: nat, a: nat)
    requires Conserved(hdr, base, q, live, arena, top) && a in live
    ensures Range(a, live[a]) <= arena
  {
    LiveRemove(live, a);
  }

  /** Headers of the list and of live blocks are at different addresses. */
  lemma LiveHeaders(hdr: Memory, base: nat, q: seq<Block>, live: map<nat, nat>, arena: set<nat>,
      top: nat, a: nat, i: nat)
    requires ListOk(hdr, base, q) && Conserved(hdr, base, q, live, arena, top) && a in live && i < |q|
    ensures q[i].0 != a
  {
    hide Conserved, Path, Units, Sorted;
    LiveApart(hdr, base, q, live, arena, top, a);
    ApartFromUnits(hdr, base, q, a, live[a]);
  }

  lemma FreeValid(hdr: Memory, base: nat, q: seq<Block>, live: map<nat, nat>, arena: set<nat>,
      top: nat, bp: nat, j: nat)
    requires ListOk(hdr, base, q) && Conserved(hdr, base, q, live, arena, top) && bp in live && Spot(q, bp, j)
    ensures var r, h := Inserted(q, bp, live[bp], j), Spliced(hdr, bp, q[j].0);
            && ListOk(h, base, r) && Conserved(h, base, r, live - {bp}, arena, top)
            && Units(r) == Units(q) + Range(bp, live[bp])
  {
    hide Path, Units, LiveUnits, Sorted, Inserted, Range, ListOk;
    var n := live[bp];
    LiveApart(hdr, base, q, live, arena, top, bp);
    ApartFromUnits(hdr, base, q, bp, n);
    SplicedOk(hdr, base, q, bp, j);
    InsertedUnits(q, bp, n, j);
    LiveRemove(live, bp);
    forall a | a in live && a != bp
      ensures At(Spliced(hdr, bp, q[j].0), a).size == live[a]
    {
      LiveHeaders(hdr, base, q, live, arena, top, a, j);
    }
  }

  /** Units that leave the list become a live block. */
  lemma TakeConserved(hdr: Memory, h: Memory, base: nat, q: seq<Block>, r: seq<Block>, live: map<nat, nat>,
                      arena: set<nat>, top: nat, at: nat, n: nat)
    requires Conserved(hdr, base, q, live, arena, top) && n > 0
    requires Units(q) == Units(r) + Range(at, n) && Units(r) !! Range(at, n)
    requires At(h, at).size == n && forall a :: a in live ==> At(h, a).size == At(hdr, a).size
    ensures at !in live && Conserved(h, base, r, live[at := n], arena, top)
  {
    hide Units, LiveUnits;
    assert at in Range(at, n);
    forall a | a in live
      ensures at + n <= a || a + live[a] <= at
    {
      LiveApart(hdr, base, q, live, arena, top, a);
      assert a in Range(a, live[a]);
    }
    LiveAdd(live, at, n);
  }

  /** Memory from sbrk, above everything, becomes one live block. */
  lemma GrowConserved(hdr: Memory, h: Memory, base: nat, q: seq<Block>, live: map<nat, nat>,
                      arena: set<nat>, top: nat, hp: nat, n: nat)
    requires Conserved(hdr, base, q, live, arena, top) && n > 0 && top <= hp
    requires At(h, hp).size == n && forall a :: a in live && a != hp ==> At(h, a).size == At(hdr, a).size
    ensures hp !in live && Conserved(h, base, q, live[hp := n], arena + Range(hp, n), hp + n)
  {
    hide Units, LiveUnits;
    forall a | a in live
      ensures a + live[a] <= hp
    {
      LiveRemove(live, a);
      assert a + live[a] - 1 in Range(a, live[a]);
    }
    LiveAdd(live, hp, n);
  }

  lemma SplicedIs(h0: Memory, h: Memory, bp: nat, p: nat)
    requires var nx, n := At(h0, p).ptr, At(h0, bp).size;
             var h1 := h0[bp := if bp + n == nx then Header(At(h0, nx).ptr, n + At(h0, nx).size) else Header(nx, n)];
             h == h1[p := if p + At(h1, p).size == bp then Header(At(h1, bp).ptr, At(h1, p).size + At(h1, bp).size)
                          else Header(bp, At(h1, p).size)]
    ensures h == Spliced(h0, bp, p)
  {
  }

  /** The predecessor stays on the list. */
  lemma InsertedAt(q: seq<Block>, bp: nat, n: nat, j: nat)
    requires j < |q|
    ensures var r := Inserted(q, bp, n, j); j < |r| && r[j].0 == q[j].0
    ensures exists b :: b in Inserted(q, bp, n, j) && b.1 >= n
  {
    var r, b := Inserted(q, bp, n, j), Upper(q, bp, n, j);
    if q[j].0 + q[j].1 == bp {
      assert r[j] == (q[j].0, q[j].1 + b.1);
    } else {
      assert r[j] == q[j] && r[j + 1] == b;
    }
  }

  /** sbrk memory is above every header of the list. */
  lemma GrowList(hdr: Memory, h: Memory, base: nat, q: seq<Block>, live: map<nat, nat>, arena: set<nat>,
      top: nat, hp: nat)
    requires ListOk(hdr, base, q) && Conserved(hdr, base, q, live, arena, top) && top <= hp
    requires forall a :: a != hp ==> At(h, a) == At(hdr, a)
    ensures ListOk(h, base, q)
  {
    forall i: nat | i < |q|
      ensures At(h, q[i].0) == At(hdr, q[i].0)
    {
      if i > 0 {
        assert q[1..][i - 1] == q[i];
        UnitsIn(q, q[i].0);
        assert q[i].0 in Range(q[i].0, q[i].1);
      }
    }
    PathFrame(hdr, h, q, base);
  }

  lemma ListSorted(hdr: Memory, base: nat, q: seq<Block>)
    requires ListOk(hdr, base, q)
    ensures Sorted(q) && Path(hdr, q, base) && |q| > 0 && q[0] == (base, 0)
    ensures forall i :: 0 <= i < |q| ==> base <= q[i].0
  {
  }

  /** A change of the header of a list block leaves live headers alone. */
  lemma KeepsLive(hdr: Memory, h: Memory, base: nat, q: seq<Block>, live: map<nat, nat>, arena: set<nat>,
      top: nat, i: nat)
    requires ListOk(hdr, base, q) && Conserved(hdr, base, q, live, arena, top) && i < |q|
    requires forall a :: a != q[i].0 ==> At(h, a) == At(hdr, a)
    ensures forall a :: a in live ==> At(h, a) == At(hdr, a)
  {
    hide ListOk, Conserved;
    forall a | a in live
      ensures At(h, a) == At(hdr, a)
    {
      LiveHeaders(hdr, base, q, live, arena, top, a, i);
    }
  }

  lemma CutKeepsLive(hdr: Memory, base: nat, q: seq<Block>, live: map<nat, nat>, arena: set<nat>,
      top: nat, k: nat, n: nat)
    requires ListOk(hdr, base, q) && Conserved(hdr, base, q, live, arena, top) && k < |q| && 0 < n < q[k].1
    ensures forall a :: a in live ==> At(Cut(hdr, q, k, n), a) == At(hdr, a)
  {
    hide ListOk, Conserved, Units, LiveUnits;
    ListSorted(hdr, base, q);
    CutUnits(q, k, n);
    forall a | a in live
      ensures At(Cut(hdr, q, k, n), a) == At(hdr, a)
    {
      LiveHeaders(hdr, base, q, live, arena, top, a, k);
      LiveApart(hdr, base, q, live, arena, top, a);
      assert a in Range(a, live[a]) && q[k].0 + (q[k].1 - n) in Range(q[k].0 + (q[k].1 - n), n);
    }
  }

  /** The state the first malloc sets up: only base, pointing at itself. */
  lemma FirstList(hdr: Memory, base: nat, live: map<nat, nat>, arena: set<nat>, top: nat)
    requires At(hdr, base) == Header(base, 0) && live == map[]
    requires exists h :: Conserved(h, base, [], live, arena, top)
    ensures ListOk(hdr, base, [(base, 0)]) && Conserved(hdr, base, [(base, 0)], live, arena, top)
  {
    UnitsOne((base, 0));
    assert [(base, 0)][1..] == [];
  }

  /** An index that may have run once round a list of n blocks. */
  function Cyc(i: int, n: int): int {
    if i < n then i else i - n
  }

  /** How many steps round the list lead from block f to block i. */
  function Steps(f: int, i: int, n: int): int {
    if i > f then i - f else i - f + n
  }

  /** malloc's search: p is the k-th block after freep, prevp the one before it, and the blocks
      passed so far are smaller than n. */
  ghost predicate Scan(q: seq<Block>, f: nat, k: nat, freep: nat, p: nat, prevp: nat, n: nat) {
    && f < |q| && q[f].0 == freep && 1 <= k <= |q|
    && p == q[Cyc(f + k, |q|)].0 && prevp == q[Cyc(f + k - 1, |q|)].0
    && forall i :: 0 <= i < |q| && Steps(f, i, |q|) < k ==> q[i].1 < n
  }

  /** Block c is the first of at least n units behind the block at freep, once round the list. */
  ghost predicate FirstFit(q: seq<Block>, freep: nat, n: nat, c: nat) {
    && c < |q| && q[c].1 >= n
    && exists f: nat ::
         && f < |q| && q[f].0 == freep
         && forall i: nat :: i < |q| && (if f < c then f < i < c else i < c || f < i) ==> q[i].1 < n
  }

  /** n units at address p are the end of block c of q; the rest of the block, if any, stays. */
  ghost predicate Carved(q: seq<Block>, c: nat, n: nat, p: int, q': seq<Block>) {
    && c < |q| && q[c].1 >= n && p == q[c].0 + q[c].1 - n
    && q' == if q[c].1 == n then q[..c] + q[c + 1..] else q[c := (q[c].0, q[c].1 - n)]
  }

  /** They come from the first block that is large enough. */
  ghost predicate TookFirst(q: seq<Block>, freep: nat, n: nat, p: int, q': seq<Block>) {
    exists c: nat :: FirstFit(q, freep, n, c) && Carved(q, c, n, p, q')
  }

  lemma TookIs(q: seq<Block>, freep: nat, n: nat, c: nat, p: int, q': seq<Block>)
    requires FirstFit(q, freep, n, c) && Carved(q, c, n, p, q')
    ensures TookFirst(q, freep, n, p, q')
  {
  }

  lemma ScanFits(hdr: Memory, base: nat, q: seq<Block>, f: nat, k: nat, freep: nat, p: nat, prevp: nat, n: nat)
    requires ListOk(hdr, base, q) && Scan(q, f, k, freep, p, prevp, n) && n > 0 && q[Cyc(f + k, |q|)].1 >= n
    ensures FirstFit(q, freep, n, Cyc(f + k, |q|))
  {
    var c := Cyc(f + k, |q|);
    forall i: nat | i < |q| && (if f < c then f < i < c else i < c || f < i)
      ensures q[i].1 < n
    {
      assert Steps(f, i, |q|) < k;
    }
  }

  lemma ScanStart(hdr: Memory, base: nat, q: seq<Block>, f: nat, n: nat)
    requires ListOk(hdr, base, q) && f < |q|
    ensures Scan(q, f, 1, q[f].0, At(hdr, q[f].0).ptr, q[f].0, n)
  {
    PathAt(hdr, q, base, f);
  }

  lemma ScanBlock(hdr: Memory, base: nat, q: seq<Block>, f: nat, k: nat, freep: nat, p: nat, prevp: nat, n: nat)
    requires ListOk(hdr, base, q) && Scan(q, f, k, freep, p, prevp, n) && n > 0
    ensures var i := Cyc(f + k, |q|);
            && i < |q| && p == q[i].0 && At(hdr, p).size == q[i].1
            && (q[i].1 >= n ==> i > 0 && prevp == q[i - 1].0)
  {
    PathAt(hdr, q, base, Cyc(f + k, |q|));
  }

  lemma ScanNext(hdr: Memory, base: nat, q: seq<Block>, f: nat, k: nat, freep: nat, p: nat, prevp: nat, n: nat)
    requires ListOk(hdr, base, q) && Scan(q, f, k, freep, p, prevp, n) && At(hdr, p).size < n && p != freep
    ensures k < |q| && Scan(q, f, k + 1, freep, At(hdr, p).ptr, p, n)
  {
    var i := Cyc(f + k, |q|);
    PathAt(hdr, q, base, i);
    assert Cyc(f + k + 1, |q|) == if i + 1 < |q| then i + 1 else 0;
  }

  /** Once round: no block is large enough. */
  lemma ScanEnd(hdr: Memory, base: nat, q: seq<Block>, f: nat, k: nat, freep: nat, prevp: nat, n: nat)
    requires ListOk(hdr, base, q) && Scan(q, f, k, freep, freep, prevp, n) && At(hdr, freep).size < n
    ensures forall b :: b in q ==> b.1 < n
  {
    PathAt(hdr, q, base, f);
    if k < |q| {
      SortedDiffer(q, f, Cyc(f + k, |q|));
    }
  }

  lemma StartsAtBase(hdr: Memory, base: nat, q: seq<Block>)
    requires ListOk(hdr, base, q)
    ensures |q| > 0 && q[0] == (base, 0) && forall i :: 0 <= i < |q| ==> base <= q[i].0
  {
    hide Path;
  }

  predicate Has(b: Block, u: nat) {
    b.0 <= u < b.0 + b.1
  }

  ghost predicate FreeHas(q: seq<Block>, u: nat) {
    exists i :: 0 <= i < |q| && Has(q[i], u)
  }

  ghost predicate LiveHas(live: map<nat, nat>, u: nat) {
    exists a :: a in live && Has((a, live[a]), u)
  }

  lemma FreeUnit(q: seq<Block>, u: nat)
    ensures u in Units(q) <==> FreeHas(q, u)
  {
    UnitsIn(q, u);
    if i :| 0 <= i < |q| && u in Range(q[i].0, q[i].1) {
      assert Has(q[i], u);
    }
    if i :| 0 <= i < |q| && Has(q[i], u) {
      assert u in Range(q[i].0, q[i].1);
    }
  }

  lemma LiveUnit(live: map<nat, nat>, u: nat)
    ensures u in LiveUnits(live) <==> LiveHas(live, u)
  {
    LiveIn(live, u);
    if a :| a in live && u in Range(a, live[a]) {
      assert Has((a, live[a]), u);
    }
    if a :| a in live && Has((a, live[a]), u) {
      assert u in Range(a, live[a]);
    }
  }

  class Heap {
    const base: nat
    var hdr: Memory
    var freep: nat
    ghost var list: seq<Block>
    ghost var live: map<nat, nat>    // the blocks malloc has given out, with their sizes
    ghost var arena: set<nat>        // the units obtained from sbrk
    ghost var top: nat               // the break: sbrk memory ends below it

    /** The list is the one in memory, freep is in it, and every unit ever obtained from sbrk
        is in exactly one block, free or live. */
    ghost predicate Valid()
      reads this
    {
      && base > 0 && Conserved(hdr, base, list, live, arena, top)
      && if freep == 0 then list == [] && live == map[] else ListOk(hdr, base, list) && OnList(freep)
    }

    ghost predicate OnList(p: nat)
      reads this
    {
      exists i :: 0 <= i < |list| && list[i].0 == p
    }

    /** The free list in memory: a ring of headers in address order through base, no two blocks of which touch. */
    lemma Ring(i: nat)
      requires Valid() && freep != 0 && i < |list|
      ensures list[0] == (base, 0) && OnList(freep)
      ensures At(hdr, list[i].0) == Header(list[if i + 1 < |list| then i + 1 else 0].0, list[i].1)
      ensures i + 1 < |list| ==> list[i].0 + list[i].1 < list[i + 1].0
    {
      PathAt(hdr, list, base, i);
    }

    /** Every unit that sbrk gave, and no other, is in exactly one block, free or live. */
    lemma OneBlock(u: nat)
      requires Valid()
      ensures u in arena <==> FreeHas(list, u) || LiveHas(live, u)
      ensures !(FreeHas(list, u) && LiveHas(live, u))
      ensures forall a, b :: a in live && b in live && Has((a, live[a]), u) && Has((b, live[b]), u) ==> a == b
      ensures forall i, j :: 0 <= i < |list| && 0 <= j < |list| && Has(list[i], u) && Has(list[j], u) ==> i == j
    {
      FreeUnit(list, u);
      LiveUnit(live, u);
      if freep != 0 {
        ListSorted(hdr, base, list);
      }
      hide ListOk, Units, LiveUnits, FreeHas, LiveHas;
    }

    constructor (base: nat)
      requires base > 0
      ensures Valid() && live == map[] && arena == {}
    {
      this.base, hdr, freep := base, map[], 0;
      list, live, arena, top := [], map[], {}, base + 1;
    }

    /** free(ap). The search ends at the one place in the list where the block belongs, and the
        block is merged with both neighbours it touches. */
    method Free(ap: nat)
      requires Valid() && ap > 0 && ap - 1 in live
      modifies this
      ensures Valid() && freep != 0
      ensures live == old(live) - {ap - 1} && arena == old(arena) && top == old(top)
      ensures Units(list) == old(Units(list)) + Range(ap - 1, old(live)[ap - 1])
      ensures exists j: nat :: Spot(old(list), ap - 1, j) && freep == old(list)[j].0 &&
                list == Inserted(old(list), ap - 1, old(live)[ap - 1], j)
    {
      hide ListOk, Units, LiveUnits, Inserted, Path, Range, Spot, Apart;
      var bp := ap - 1;
      ghost var q, n := list, live[bp];
      LiveRemove(live, bp);
      InArena(bp);
      ApartFromUnits(hdr, base, q, bp, n);
      StartsAtBase(hdr, base, q);
      ListSorted(hdr, base, q);
      ghost var s := FindSpot(q, bp, n);
      var p := freep;
      ghost var j :| 0 <= j < |q| && q[j].0 == p;
      SpotTest(hdr, base, q, bp, n, j);
      while !(bp > p && bp < At(hdr, p).ptr)
        invariant 0 <= j < |q| && q[j].0 == p && unchanged(this)
        invariant bp > p && bp < At(hdr, p).ptr ==> Spot(q, bp, j)
        decreases if j <= s then s - j else |q| - j + s
      {
        SpotTest(hdr, base, q, bp, n, j);
        if p >= At(hdr, p).ptr && (bp > p || bp < At(hdr, p).ptr) {
          break;
        }
        p := At(hdr, p).ptr;
        j := if j + 1 < |q| then j + 1 else 0;
        SpotTest(hdr, base, q, bp, n, j);
      }
      SpotTest(hdr, base, q, bp, n, j);
      assert Spot(q, bp, j);
      Coalesce(bp, p, j);
    }

    /** The rest of free, once p is found. */
    method Coalesce(bp: nat, p: nat, ghost j: nat)
      requires Valid() && bp in live && Spot(list, bp, j) && p == list[j].0
      modifies this
      ensures Valid() && freep != 0
      ensures live == old(live) - {bp} && arena == old(arena) && top == old(top)
      ensures Units(list) == old(Units(list)) + Range(bp, old(live)[bp])
      ensures freep == old(list)[j].0 && list == Inserted(old(list), bp, old(live)[bp], j)
    {
      hide ListOk, Conserved, Units, LiveUnits, Inserted, Path, Range, Spliced;
      ghost var h, q, l, n := hdr, list, live, live[bp];
      StartsAtBase(hdr, base, list);
      if bp + At(hdr, bp).size == At(hdr, p).ptr {
        var nx := At(hdr, p).ptr;
        hdr := hdr[bp := Header(At(hdr, nx).ptr, At(hdr, bp).size + At(hdr, nx).size)];
      } else {
        hdr := hdr[bp := Header(At(hdr, p).ptr, At(hdr, bp).size)];
      }
      if p + At(hdr, p).size == bp {
        hdr := hdr[p := Header(At(hdr, bp).ptr, At(hdr, p).size + At(hdr, bp).size)];
      } else {
        hdr := hdr[p := Header(bp, At(hdr, p).size)];
      }
      freep := p;
      assert hdr == Spliced(h, bp, p) by { SplicedIs(h, hdr, bp, p); }
      list := Inserted(q, bp, n, j);
      live := live - {bp};
      FreeValid(h, base, q, l, arena, top, bp, j);
      InsertedAt(q, bp, n, j);
    }

    /** Asks sbrk for at least nu units. brk is sbrk's answer: None is failure, Some(hp) a block
        above all memory given before. 0 is failure; else freep comes back. */
    method Morecore(nu: nat, brk: Option<nat>) returns (p: nat)
      requires Valid() && freep != 0 && nu > 0 && (brk.Some? ==> brk.value >= top)
      modifies this
      ensures Valid() && freep != 0 && live == old(live)
      ensures brk.None? ==> p == 0 && list == old(list) && arena == old(arena) && top == old(top) && freep == old(freep)
      ensures brk.Some? ==> arena == old(arena) + Range(brk.value, Asked(nu)) && top == brk.value + Asked(nu)
      ensures brk.Some? ==> p == freep && exists b :: b in list && b.1 >= nu
    {
      hide ListOk, Conserved, Units, LiveUnits, Inserted, Range;
      if brk.None? {
        return 0;
      }
      var n := Asked(nu);
      var hp := brk.value;
      ghost var h := hdr;
      hdr := hdr[hp := Header(At(hdr, hp).ptr, n)];
      GrowConserved(h, hdr, base, list, live, arena, top, hp, n);
      GrowList(h, hdr, base, list, live, arena, top, hp);
      live, arena, top := live[hp := n], arena + Range(hp, n), hp + n;
      ghost var q, l := list, live;
      Free(hp + 1);
      ghost var j: nat :| Spot(q, hp, j) && freep == q[j].0 && list == Inserted(q, hp, n, j);
      InsertedAt(q, hp, n, j);
      assert live == old(live);
      return freep;
    }

    /** Takes n units of block k of the list, whose predecessor is prevp: the block whole, or
        its last n units. The result is the address of the block's header. */
    method Take(p0: nat, prevp: nat, n: nat, ghost k: nat) returns (p: nat)
      requires Valid() && freep != 0 && 0 < k < |list| && p0 == list[k].0 && prevp == list[k - 1].0
      requires 0 < n <= list[k].1
      modifies this
      ensures Valid() && freep == prevp != 0 && p > 0
      ensures p !in old(live) && live == old(live)[p := n] && arena == old(arena) && top == old(top)
      ensures Range(p, n) <= old(Units(list)) && Carved(old(list), k, n, p, list)
    {
      hide ListOk, Conserved, Units, LiveUnits, Range;
      ghost var h, q, l := hdr, list, live;
      p := p0;
      ListSorted(h, base, q);
      PathAt(h, q, base, k);
      if At(hdr, p).size == n {
        hdr := hdr[prevp := Header(At(hdr, p).ptr, At(hdr, prevp).size)];
        RemoveOk(h, base, q, k);
        RemoveUnits(q, k);
        list := Removed(q, k);
        KeepsLive(h, hdr, base, q, l, arena, top, k - 1);
        assert list[k - 1].0 == prevp;
      } else {
        hdr := hdr[p := Header(At(hdr, p).ptr, At(hdr, p).size - n)];
        p := p + At(hdr, p).size;
        hdr := hdr[p := Header(At(hdr, p).ptr, n)];
        CutOk(h, base, q, k, n);
        CutUnits(q, k, n);
        list := Shrunk(q, k, n);
        assert list[k - 1].0 == prevp;
        assert hdr == Cut(h, q, k, n);
        CutKeepsLive(h, base, q, l, arena, top, k, n);
      }
      freep := prevp;
      TakeConserved(h, hdr, base, q, list, l, arena, top, p, n);
      live := live[p := n];
    }

    /** The first malloc makes the list of the empty block base. */
    method Begin()
      requires Valid()
      modifies `freep, `hdr, `list
      ensures Valid() && freep != 0
      ensures if old(freep) == 0 then freep == base && list == [(base, 0)] else unchanged(this)
    {
      hide ListOk, Conserved, Units, LiveUnits, Range;
      if freep == 0 {
        freep := base;
        hdr := hdr[base := Header(base, 0)];
        FirstList(hdr, base, live, arena, top);
        list := [(base, 0)];
        assert list[0].0 == base;
      }
    }

    /** malloc(nbytes), with brk the answer of sbrk should it be asked. First fit from freep on;
        sbrk is asked at most once, and only when no free block is large enough. 0 is failure. */
    method Malloc(nbytes: nat, brk: Option<nat>) returns (r: nat, ghost asked: nat)
      requires Valid() && nbytes < UINT32 && Nunits(nbytes) * HEADER < UINT32 / 2
      requires brk.Some? ==> brk.value >= top
      modifies this
      ensures Valid() && asked <= 1
      ensures asked > 0 ==> forall b :: b in old(list) ==> b.1 < Nunits(nbytes)
      ensures asked == 0 ==> arena == old(arena) && top == old(top)
      ensures asked == 0 ==> TookFirst(old(list), old(freep), Nunits(nbytes), r - 1, list)
      ensures r == 0 <==> asked == 1 && brk.None?
      ensures r == 0 ==> live == old(live) && arena == old(arena) && top == old(top)
      ensures r != 0 ==> r - 1 !in old(live) && live == old(live)[r - 1 := Nunits(nbytes)]
      ensures r != 0 && asked == 0 ==> Range(r - 1, Nunits(nbytes)) <= old(Units(list))
      ensures asked == 1 && brk.Some? ==>
                && arena == old(arena) + Range(brk.value, Asked(Nunits(nbytes)))
                && top == brk.value + Asked(Nunits(nbytes))
      ensures r != 0 ==> Range(r - 1, Nunits(nbytes)) <= arena
    {
      hide ListOk, Conserved, Units, LiveUnits, Range, Scan, FirstFit, TookFirst, Carved, Nunits, Asked;
      NunitsPositive(nbytes);
      var nunits := Nunits(nbytes);
      asked := 0;
      Begin();
      var prevp := freep;
      ghost var q0 := list;
      ghost var f: nat :| f < |list| && list[f].0 == freep;
      ghost var k := 1;
      ScanStart(hdr, base, list, f, nunits);
      var p := At(hdr, prevp).ptr;
      while true
        invariant Valid() && freep != 0 && live == old(live) && asked <= 1
        invariant Scan(list, f, k, freep, p, prevp, nunits)
        invariant asked == 0 ==> list == q0 && arena == old(arena) && top == old(top)
        invariant asked == 0 ==>
                    if old(freep) == 0 then list == [(base, 0)] else list == old(list) && freep == old(freep)
        invariant asked == 1 ==> brk.Some? && forall b :: b in q0 ==> b.1 < nunits
        invariant asked == 1 ==> exists b :: b in list && b.1 >= nunits
        invariant asked == 1 ==>
                    arena == old(arena) + Range(brk.value, Asked(nunits)) && top == brk.value + Asked(nunits)
        decreases 1 - asked, |list| - k
      {
        ScanBlock(hdr, base, list, f, k, freep, p, prevp, nunits);
        if At(hdr, p).size >= nunits {
          ScanFits(hdr, base, list, f, k, freep, p, prevp, nunits);
          ghost var c := Cyc(f + k, |list|);
          ghost var q, fp := list, freep;
          assert asked == 0 ==> q == old(list) && fp == old(freep);
          p := Take(p, prevp, nunits, c);
          TookIs(q, fp, nunits, c, p, list);
          LiveInArena(hdr, base, list, live, arena, top, p);
          return p + 1, asked;
        }
        if p == freep {
          ScanEnd(hdr, base, list, f, k, freep, prevp, nunits);
          p := Morecore(nunits, brk);
          if p == 0 {
            return 0, 1;
          }
          asked := asked + 1;
          f :| f < |list| && list[f].0 == freep;
          ScanStart(hdr, base, list, f, nunits);
          k := 1;
        } else {
          ScanNext(hdr, base, list, f, k, freep, p, prevp, nunits);
          k := k + 1;
        }
        prevp := p;
        p := At(hdr, p).ptr;
      }
    }

    lemma InArena(bp: nat)
      requires Valid() && bp in live
      ensures base < bp && live[bp] > 0 && freep != 0 && Units(list) !! Range(bp, live[bp])
    {
      LiveRemove(live, bp);
      assert bp in Range(bp, live[bp]);
    }
  }
}
