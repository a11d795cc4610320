/** The Lisp collector: mark with an explicit walk down cdr chains, then sweep the object list. */
module LispGc {
  /** An object, by what its header says. First is a cons's or lambda's car and a symbol's function;
      rest is the cdr, or the symbol's value. */
  datatype Kind = Cons | Lambda | Symbol | Str | Prim
  datatype Obj = Obj(mark: bool, kind: Kind, next: nat, first: nat, rest: nat)
  type Heap = map<nat, Obj>

  /** A tagged word: the low three bits are the tag, tag 0 is an immediate number. */
  function Tag(w: nat): nat { w % 8 }
  function Ptr(w: nat): nat { w - w % 8 }

  // ----- reachability -----

  predicate Traced(o: Obj) {
    o.kind == Cons || o.kind == Lambda || o.kind == Symbol
  }

  predicate Names(w: nat, a: nat) {
    Tag(w) != 0 && Ptr(w) == a && a != 0
  }

  /** Object a points at object b. */
  predicate Edge(h: Heap, a: nat, b: nat) {
    a in h && Traced(h[a]) && (Names(h[a].first, b) || Names(h[a].rest, b))
  }

  /** a is n steps away from a root. */
  ghost predicate Within(h: Heap, roots: set<nat>, a: nat, n: nat)
    decreases n
  {
    a in h && if n == 0 then a in roots else exists b :: Within(h, roots, b, n - 1) && Edge(h, b, a)
  }

  ghost predicate Reachable(h: Heap, roots: set<nat>, a: nat) {
    exists n: nat :: Within(h, roots, a, n)
  }

  ghost function Live(h: Heap, roots: set<nat>): set<nat> {
    set a | a in h && Reachable(h, roots, a)
  }

  /** Every pointer in the heap is null or names an object. */
  ghost predicate Grounded(h: Heap) {
    && 0 !in h
    && forall a, b :: Edge(h, a, b) ==> b in h
  }

  lemma RootLive(h: Heap, roots: set<nat>, a: nat)
    requires a in h && a in roots
    ensures Reachable(h, roots, a)
  {
    assert Within(h, roots, a, 0);
  }

  lemma EdgeLive(h: Heap, roots: set<nat>, a: nat, b: nat)
    requires Reachable(h, roots, a) && Edge(h, a, b) && b in h
    ensures Reachable(h, roots, b)
  {
    var n: nat :| Within(h, roots, a, n);
    assert Within(h, roots, b, n + 1);
  }

  // ----- marks -----

  ghost function Marked(h: Heap): set<nat> {
    set a | a in h && h[a].mark
  }

  ghost function Unmarked(h: Heap): set<nat> {
    set a | a in h && !h[a].mark
  }

  /** Nothing but marks differs. */
  ghost predicate SameFields(h: Heap, h': Heap) {
    h'.Keys == h.Keys && forall a :: a in h ==> h'[a] == h[a].(mark := h'[a].mark)
  }

  /** Whatever a points at is in seen, or is the one pointer still to be followed. */
  ghost predicate Settled(h: Heap, seen: set<nat>, pending: nat, a: nat) {
    forall b :: Edge(h, a, b) ==> b in seen || b == pending
  }

  /** Every object marked since `before` is settled. */
  ghost predicate Closed(h: Heap, before: set<nat>, after: set<nat>, pending: nat) {
    before <= after && forall a :: a in after && a !in before ==> Settled(h, after, pending, a)
  }

  lemma ClosedTrans(h: Heap, s0: set<nat>, s1: set<nat>, s2: set<nat>, pending: nat)
    requires Closed(h, s0, s1, pending) && Closed(h, s1, s2, 0) && Grounded(h)
    ensures Closed(h, s0, s2, pending)
  {
    forall a | a in s2 && a !in s0 ensures Settled(h, s2, pending, a) {
      if a in s1 { assert Settled(h, s1, pending, a); } else { assert Settled(h, s2, 0, a); }
    }
  }

  /** A closed set that holds the roots holds everything reachable. */
  lemma {:induction false} ClosedCovers(h: Heap, roots: set<nat>, s: set<nat>, a: nat, n: nat)
    requires Grounded(h) && Closed(h, {}, s, 0) && Within(h, roots, a, n)
    requires forall r :: r in roots && r in h ==> r in s
    ensures a in s
    decreases n
  {
    if n > 0 {
      var b :| Within(h, roots, b, n - 1) && Edge(h, b, a);
      ClosedCovers(h, roots, s, b, n - 1);
      assert Settled(h, s, 0, b);
    }
  }

  // ----- the object list -----

  function At(l: seq<nat>, i: int): nat {
    if 0 <= i < |l| then l[i] else 0
  }

  /** The i-th object of l is followed by the next one. */
  ghost predicate Linked(h: Heap, l: seq<nat>, i: int) {
    0 <= i < |l| ==> l[i] in h && h[l[i]].next == At(l, i + 1)
  }

  /** The next fields spell l from head on. */
  ghost predicate Chain(h: Heap, head: nat, l: seq<nat>) {
    && head == At(l, 0)
    && (forall i :: Linked(h, l, i))
    && (forall i, j :: 0 <= i < j < |l| ==> l[i] != l[j])
  }

  function Filter(l: seq<nat>, keep: set<nat>): seq<nat> {
    if l == [] then [] else (if l[0] in keep then [l[0]] else []) + Filter(l[1..], keep)
  }

  /** gc_collect's roots: addresses named by proper words, and addresses any scanned word may mean. */
  ghost function Roots(h: Heap, proper: seq<nat>, scanned: seq<nat>): set<nat> {
    (set w | w in proper && Tag(w) != 0 :: Ptr(w)) + (set w | w in scanned && Ptr(w) in h :: Ptr(w))
  }

  /** A root word kept by the interpreter itself: an immediate, null, or an object. */
  ghost predicate Proper(h: Heap, w: nat) {
    Tag(w) != 0 && Ptr(w) != 0 ==> Ptr(w) in h
  }

  /** A word without a tag, a null of any tag, or the address of an object. */
  lemma ProperIs(h: Heap, w: nat)
    ensures Proper(h, w) <==> w % 8 == 0 || w < 8 || w - w % 8 in h
  {
  }

  ghost predicate Rooted(roots: set<nat>, w: nat) {
    Tag(w) != 0 ==> Ptr(w) in roots
  }

  ghost predicate Scanned(h: Heap, roots: set<nat>, w: nat) {
    Ptr(w) in h ==> Reachable(h, roots, Ptr(w))
  }

  /** The object a collection leaves: same kind and same two slots. */
  ghost predicate Survives(o: Obj, o': Obj) {
    o'.kind == o.kind && o'.first == o.first && o'.rest == o.rest
  }

  /** The sweep half way: kept is settled, rest is still to be looked at. */
  ghost predicate Swept(h0: Heap, l0: seq<nat>, keep: set<nat>, h: Heap, head: nat, kept: seq<nat>, rest: seq<nat>) {
    Chain(h, head, kept + rest) && Sorted(h0, l0, keep, h, kept, rest)
  }

  ghost predicate Sorted(h0: Heap, l0: seq<nat>, keep: set<nat>, h: Heap, kept: seq<nat>, rest: seq<nat>) {
    && 0 !in h && (forall a :: a in h <==> a in kept || a in rest) && h.Keys <= h0.Keys
    && kept + Filter(rest, keep) == Filter(l0, keep)
    && (forall a :: a in h ==> Survives(h0[a], h[a]))
    && (forall a :: a in kept ==> !h[a].mark && a in keep)
    && (forall a :: a in rest ==> (h[a].mark <==> a in keep))
    && forall a :: a in keep ==> a in h
  }

  class Gc {
    var heap: Heap
    var objects: nat
    var count: nat
    var threshold: nat
    var lo: nat
    var hi: nat
    ghost var list: seq<nat>

    constructor ()
      ensures Valid() && heap == map[] && count == 0 && threshold == 20000
    {
      heap, objects, count, threshold, lo, hi := map[], 0, 0, 20000, 0, 0;
      list := [];
    }

    /** The list threads exactly the objects that exist, count is its length, and [lo, hi) covers
        every address. */
    ghost predicate Listed()
      reads this
    {
      && Chain(heap, objects, list) && heap.Keys == (set a | a in list) && 0 !in heap
      && count == |list| && forall a :: a in heap ==> 0 < lo <= a < hi
    }

    ghost predicate Valid()
      reads this
    {
      Listed() && Grounded(heap) && Marked(heap) == {}
    }

    /** The state the mark phase works in: marks are all that has changed since h0, and only live
        objects carry one. */
    ghost predicate Marking(h0: Heap, roots: set<nat>)
      reads this
    {
      Grounded(h0) && SameFields(h0, heap) && Listed() && forall a :: a in heap && heap[a].mark ==> Reachable(h0, roots, a)
    }

    /** gc_mark_ptr: walk down the rest pointers, recurse into the first ones. */
    method MarkPtr(ptr0: nat, ghost h0: Heap, ghost roots: set<nat>)
      requires Marking(h0, roots) && (ptr0 != 0 ==> Reachable(h0, roots, ptr0))
      modifies this`heap
      ensures Marking(h0, roots) && Closed(h0, old(Marked(heap)), Marked(heap), 0)
      ensures old(Marked(heap)) <= Marked(heap) && |Unmarked(heap)| <= old(|Unmarked(heap)|)
      ensures ptr0 != 0 ==> ptr0 in Marked(heap)
      decreases |Unmarked(heap)|, 0
    {
      hide Listed, Grounded, Closed, Edge, Settled;
      var ptr := ptr0;
      ghost var before := Marked(heap);
      ClosedRefl(h0, before, ptr);
      while ptr != 0
        invariant Marking(h0, roots) && (ptr != 0 ==> Reachable(h0, roots, ptr))
        invariant Closed(h0, before, Marked(heap), ptr)
        invariant ptr0 == ptr || ptr0 in Marked(heap)
        invariant before <= Marked(heap) && |Unmarked(heap)| <= old(|Unmarked(heap)|)
        decreases |Unmarked(heap)|
      {
        var c := heap[ptr];
        ghost var m0 := Marked(heap);
        if c.mark { Arrived(h0, before, m0, ptr); return; }
        SetMark(ptr, h0, roots);
        if !Traced(c) {
          LeafDone(h0, before, m0, ptr);
          return;
        }
        NextLive(h0, roots, ptr);
        Mark(c.first, h0, roots);
        NodeDone(h0, before, m0, Marked(heap), ptr);
        if Tag(c.rest) == 0 { return; }
        ptr := Ptr(c.rest);
      }
    }

    /** gc_mark: immediates are skipped. */
    method Mark(w: nat, ghost h0: Heap, ghost roots: set<nat>)
      requires Marking(h0, roots) && (Tag(w) != 0 && Ptr(w) != 0 ==> Reachable(h0, roots, Ptr(w)))
      modifies this`heap
      ensures Marking(h0, roots) && Closed(h0, old(Marked(heap)), Marked(heap), 0)
      ensures old(Marked(heap)) <= Marked(heap) && |Unmarked(heap)| <= old(|Unmarked(heap)|)
      ensures Tag(w) != 0 && Ptr(w) != 0 ==> Ptr(w) in Marked(heap)
      decreases |Unmarked(heap)|, 1
    {
      hide Listed, Grounded, Closed;
      ClosedRefl(h0, Marked(heap), 0);
      if Tag(w) == 0 { return; }
      MarkPtr(Ptr(w), h0, roots);
    }

    method SetMark(ptr: nat, ghost h0: Heap, ghost roots: set<nat>)
      requires Marking(h0, roots) && Reachable(h0, roots, ptr) && ptr in heap && !heap[ptr].mark
      modifies this`heap
      ensures Marking(h0, roots) && Marked(heap) == old(Marked(heap)) + {ptr}
      ensures |Unmarked(heap)| < old(|Unmarked(heap)|)
    {
      hide Grounded, Reachable, Chain;
      ghost var h := heap;
      heap := heap[ptr := heap[ptr].(mark := true)];
      MarkedOne(h, ptr);
      SameChain(h, objects, list, heap);
    }

    /** is_heap_object: walks the list, never looks at the word's target. */
    method IsHeapObject(a: nat) returns (r: bool)
      requires Listed()
      ensures r == (a in heap)
    {
      if a < lo || a >= hi { return false; }
      var o := objects;
      ghost var i := 0;
      while o != 0
        invariant i <= |list| && o == At(list, i) && forall j :: 0 <= j < i ==> list[j] != a
        decreases |list| - i
      {
        assert Linked(heap, list, i);
        if o == a { return true; }
        o := heap[o].next;
        i := i + 1;
      }
      assert a in heap ==> a in list;
      return false;
    }

    /** gc_scan_words: every word that could be the address of an object marks it. */
    method ScanWords(words: seq<nat>, ghost h0: Heap, ghost roots: set<nat>)
      requires Marking(h0, roots) && forall k :: 0 <= k < |words| ==> Scanned(h0, roots, words[k])
      modifies this`heap
      ensures Marking(h0, roots) && Closed(h0, old(Marked(heap)), Marked(heap), 0)
      ensures old(Marked(heap)) <= Marked(heap)
      ensures forall k :: 0 <= k < |words| && Ptr(words[k]) in h0 ==> Ptr(words[k]) in Marked(heap)
    {
      hide Grounded, Closed, Chain, Reachable;
      ghost var before := Marked(heap);
      ClosedRefl(h0, before, 0);
      for i := 0 to |words|
        invariant Marking(h0, roots) && Closed(h0, before, Marked(heap), 0) && before <= Marked(heap)
        invariant forall k :: 0 <= k < i && Ptr(words[k]) in h0 ==> Ptr(words[k]) in Marked(heap)
      {
        assert Scanned(h0, roots, words[i]);
        var cand := Ptr(words[i]);
        var hit := IsHeapObject(cand);
        if hit {
          ghost var mid := Marked(heap);
          MarkPtr(cand, h0, roots);
          ClosedTrans(h0, before, mid, Marked(heap), 0);
        }
      }
    }

    /** The loop of gc_collect over its proper roots: gc_mark each. */
    method MarkAll(words: seq<nat>, ghost h0: Heap, ghost roots: set<nat>)
      requires Marking(h0, roots) && forall k :: 0 <= k < |words| ==> Proper(h0, words[k]) && Rooted(roots, words[k])
      modifies this`heap
      ensures Marking(h0, roots) && Closed(h0, old(Marked(heap)), Marked(heap), 0)
      ensures old(Marked(heap)) <= Marked(heap)
      ensures forall k :: 0 <= k < |words| && Tag(words[k]) != 0 && Ptr(words[k]) != 0 ==> Ptr(words[k]) in Marked(heap)
    {
      hide Grounded, Closed, Chain, Reachable;
      ghost var before := Marked(heap);
      ClosedRefl(h0, before, 0);
      for i := 0 to |words|
        invariant Marking(h0, roots) && Closed(h0, before, Marked(heap), 0) && before <= Marked(heap)
        invariant forall k :: 0 <= k < i && Tag(words[k]) != 0 && Ptr(words[k]) != 0 ==> Ptr(words[k]) in Marked(heap)
      {
        assert Proper(h0, words[i]) && Rooted(roots, words[i]);
        if Tag(words[i]) != 0 && Ptr(words[i]) != 0 { RootLive(h0, roots, Ptr(words[i])); }
        ghost var mid := Marked(heap);
        Mark(words[i], h0, roots);
        ClosedTrans(h0, before, mid, Marked(heap), 0);
      }
    }

    /** gc_sweep: unlink and free what carries no mark, clear the marks that are left. */
    method Sweep()
      requires Listed()
      modifies this`heap, this`objects, this`count, this`list
      ensures Listed() && Marked(heap) == {}
      ensures heap.Keys == old(Marked(heap)) && list == Filter(old(list), old(Marked(heap)))
      ensures forall a :: a in heap ==> Survives(old(heap)[a], heap[a])
    {
      hide Swept, Listed, Chain, Survives;
      ghost var h0, l0, keep := heap, list, Marked(heap);
      var prev, obj := 0, objects;
      ghost var kept, rest := [], list;
      SweepStarts();
      while obj != 0
        invariant Swept(h0, l0, keep, heap, objects, kept, rest) && obj == At(rest, 0)
        invariant prev == At(kept, |kept| - 1) && count == |kept| + |rest|
        decreases |rest|
      {
        SweepAt(h0, l0, keep, heap, objects, kept, rest);
        var next := heap[obj].next;
        if !heap[obj].mark {
          SweepFrees(h0, l0, keep, heap, objects, kept, rest);
          if prev == 0 { objects := next; } else { heap := heap[prev := heap[prev].(next := next)]; }
          heap := heap - {obj};
          count := count - 1;
        } else {
          SweepKeeps(h0, l0, keep, heap, objects, kept, rest);
          heap := heap[obj := heap[obj].(mark := false)];
          prev := obj;
          kept := kept + [obj];
        }
        rest := rest[1..];
        obj := next;
      }
      SweepEnds(h0, l0, keep, heap, objects, kept, rest);
      list := kept;
      NowListed();
    }

    /** What is left once gc_alloc has decided whether to collect. */
    ghost function Spared(proper: seq<nat>, scanned: seq<nat>, onStack: bool): set<nat>
      reads this
    {
      if onStack && count >= threshold then Live(heap, Roots(heap, proper, scanned)) else heap.Keys
    }

    /** gc_alloc: collect at the threshold when the stack can be scanned, then put a fresh object in
        front of the list. addr is what the platform's allocator returned. */
    method Alloc(proper: seq<nat>, scanned: seq<nat>, onStack: bool, size: nat, kind: Kind, addr: nat)
      requires Valid() && forall k :: 0 <= k < |proper| ==> Proper(heap, proper[k])
      requires addr != 0 && size > 0 && addr !in Spared(proper, scanned, onStack)
      modifies this`heap, this`objects, this`count, this`list, this`lo, this`hi
      ensures Valid() && heap.Keys == old(Spared(proper, scanned, onStack)) + {addr}
      ensures list == [addr] + Filter(old(list), old(Spared(proper, scanned, onStack)))
      ensures heap[addr] == Obj(false, kind, heap[addr].next, 0, 0)
      ensures forall a :: a in heap && a != addr ==> a in old(heap) && Survives(old(heap)[a], heap[a])
    {
      hide Valid, Live, Filter;
      Shown();
      FilterAll(list, heap.Keys);
      if onStack && count >= threshold { Collect(proper, scanned); Shown(); }
      Push(size, kind, addr);
    }

    lemma Shown()
      requires Valid()
      ensures forall a :: a in list ==> a in heap
    {
    }

    /** A zeroed object in front of the list, and the address bounds widened to it. */
    method Push(size: nat, kind: Kind, addr: nat)
      requires Valid() && addr != 0 && size > 0 && addr !in heap
      modifies this`heap, this`objects, this`count, this`list, this`lo, this`hi
      ensures Valid() && list == [addr] + old(list)
      ensures heap == old(heap)[addr := Obj(false, kind, old(objects), 0, 0)]
    {
      hide Grounded, Chain;
      ghost var h, head := heap, objects;
      heap := heap[addr := Obj(false, kind, objects, 0, 0)];
      objects := addr;
      list := [addr] + list;
      count := count + 1;
      if lo == 0 || addr < lo { lo := addr; }
      if addr + size > hi { hi := addr + size; }
      Pushed(h, head, list[1..], addr, heap[addr]);
      assert Marked(heap) == Marked(h);
    }

    lemma NowListed()
      requires Chain(heap, objects, list) && heap.Keys == (set a | a in list) && 0 !in heap
      requires count == |list| && forall a :: a in heap ==> 0 < lo <= a < hi
      ensures Listed()
    {
    }

    lemma StartMarking(roots: set<nat>)
      requires Valid()
      ensures Marking(heap, roots)
    {
      forall a | a in heap ensures !heap[a].mark { assert a !in Marked(heap); }
    }

    lemma SweepStarts()
      requires Listed()
      ensures Swept(heap, list, Marked(heap), heap, objects, [], list) && objects == At(list, 0) && count == |list|
      ensures forall a :: a in heap ==> 0 < lo <= a < hi
    {
      assert [] + list == list;
    }

    /** gc_collect. proper: the symbol table, both environments and the buffers' property lists;
        scanned: the saved registers and the stack. */
    method Collect(proper: seq<nat>, scanned: seq<nat>)
      requires Valid() && forall k :: 0 <= k < |proper| ==> Proper(heap, proper[k])
      modifies this`heap, this`objects, this`count, this`list
      ensures Valid()
      ensures heap.Keys == Live(old(heap), Roots(old(heap), proper, scanned))
      ensures forall a :: a in heap ==> a in old(heap) && Survives(old(heap)[a], heap[a])
      ensures list == Filter(old(list), heap.Keys)
    {
      hide Grounded, Listed, Survives, Closed, Reachable;
      ghost var h0, roots := heap, Roots(heap, proper, scanned);
      StartMarking(roots);
      RootsMeant(h0, proper, scanned);
      MarkAll(proper, h0, roots);
      ghost var mid := Marked(heap);
      ScanWords(scanned, h0, roots);
      ClosedTrans(h0, {}, mid, Marked(heap), 0);
      MarkedIsLive(h0, proper, scanned, Marked(heap));
      ghost var h1 := heap;
      Sweep();
      LiveGrounded(h0, roots, h1, heap);
    }
  }

  lemma MarkedOne(h: Heap, ptr: nat)
    requires ptr in h && !h[ptr].mark
    ensures var h' := h[ptr := h[ptr].(mark := true)];
      Marked(h') == Marked(h) + {ptr} && |Unmarked(h')| == |Unmarked(h)| - 1
  {
    var h' := h[ptr := h[ptr].(mark := true)];
    assert Unmarked(h') == Unmarked(h) - {ptr};
  }

  lemma SameChain(h: Heap, head: nat, l: seq<nat>, h': Heap)
    requires Chain(h, head, l) && SameFields(h, h')
    ensures Chain(h', head, l)
  {
    forall i ensures Linked(h', l, i) { assert Linked(h, l, i); }
  }

  lemma ClosedRefl(h: Heap, s: set<nat>, pending: nat)
    ensures Closed(h, s, s, pending)
  {
  }

  lemma Arrived(h: Heap, before: set<nat>, s: set<nat>, ptr: nat)
    requires Closed(h, before, s, ptr) && ptr in s
    ensures Closed(h, before, s, 0)
  {
    forall a | a in s && a !in before ensures Settled(h, s, 0, a) { assert Settled(h, s, ptr, a); }
  }

  lemma LeafDone(h: Heap, before: set<nat>, s: set<nat>, ptr: nat)
    requires Closed(h, before, s, ptr) && ptr in h && !Traced(h[ptr])
    ensures Closed(h, before, s + {ptr}, 0)
  {
    forall a | a in s + {ptr} && a !in before ensures Settled(h, s + {ptr}, 0, a) {
      if a in s { assert Settled(h, s, ptr, a); }
    }
  }

  lemma NodeDone(h: Heap, before: set<nat>, s: set<nat>, s': set<nat>, ptr: nat)
    requires Closed(h, before, s, ptr) && ptr in h && Traced(h[ptr]) && Closed(h, s + {ptr}, s', 0)
    requires Tag(h[ptr].first) != 0 && Ptr(h[ptr].first) != 0 ==> Ptr(h[ptr].first) in s'
    ensures Closed(h, before, s', if Tag(h[ptr].rest) == 0 then 0 else Ptr(h[ptr].rest))
  {
    var p := if Tag(h[ptr].rest) == 0 then 0 else Ptr(h[ptr].rest);
    forall a | a in s' && a !in before ensures Settled(h, s', p, a) {
      if a in s { assert Settled(h, s, ptr, a); }
      else if a != ptr { assert Settled(h, s', 0, a); }
    }
  }

  lemma NextLive(h: Heap, roots: set<nat>, ptr: nat)
    requires Grounded(h) && Reachable(h, roots, ptr) && ptr in h && Traced(h[ptr])
    ensures forall w :: (w == h[ptr].first || w == h[ptr].rest) && Tag(w) != 0 && Ptr(w) != 0 ==> Reachable(h, roots, Ptr(w))
  {
    forall w | (w == h[ptr].first || w == h[ptr].rest) && Tag(w) != 0 && Ptr(w) != 0
      ensures Reachable(h, roots, Ptr(w))
    {
      assert Edge(h, ptr, Ptr(w));
      EdgeLive(h, roots, ptr, Ptr(w));
    }
  }

  // ----- sweep -----

  lemma SweepAt(h0: Heap, l0: seq<nat>, keep: set<nat>, h: Heap, head: nat, kept: seq<nat>, rest: seq<nat>)
    requires Swept(h0, l0, keep, h, head, kept, rest) && At(rest, 0) != 0
    ensures rest[0] in h && h[rest[0]].next == At(rest[1..], 0)
    ensures kept != [] ==> kept[|kept| - 1] in h
    ensures At(kept, |kept| - 1) == 0 <==> kept == []
  {
    var l := kept + rest;
    assert Linked(h, l, |kept|) && Linked(h, l, |kept| - 1);
    assert rest == [rest[0]] + rest[1..];
  }

  lemma SweepKeeps(h0: Heap, l0: seq<nat>, keep: set<nat>, h: Heap, head: nat, kept: seq<nat>, rest: seq<nat>)
    requires Swept(h0, l0, keep, h, head, kept, rest) && rest != [] && rest[0] in h && h[rest[0]].mark
    ensures Swept(h0, l0, keep, h[rest[0] := h[rest[0]].(mark := false)], head, kept + [rest[0]], rest[1..])
  {
    var x := rest[0];
    var h' := h[x := h[x].(mark := false)];
    assert (kept + [x]) + rest[1..] == kept + rest;
    Positions(kept, rest);
    forall i ensures Linked(h', kept + rest, i) { assert Linked(h, kept + rest, i); }
    hide Chain, Linked;
    KeepsSorted(h0, l0, keep, h, kept, rest);
  }

  lemma KeepsSorted(h0: Heap, l0: seq<nat>, keep: set<nat>, h: Heap, kept: seq<nat>, rest: seq<nat>)
    requires Sorted(h0, l0, keep, h, kept, rest) && rest != [] && rest[0] in h && h[rest[0]].mark
    requires forall a :: a in kept || a in rest[1..] ==> a != rest[0]
    ensures Sorted(h0, l0, keep, h[rest[0] := h[rest[0]].(mark := false)], kept + [rest[0]], rest[1..])
  {
    hide Filter;
    Parts(rest, keep);
    assert (kept + [rest[0]]) + Filter(rest[1..], keep) == kept + ([rest[0]] + Filter(rest[1..], keep));
  }

  lemma Parts(rest: seq<nat>, keep: set<nat>)
    requires rest != []
    ensures Filter(rest, keep) == (if rest[0] in keep then [rest[0]] else []) + Filter(rest[1..], keep)
    ensures forall a :: a in rest <==> a == rest[0] || a in rest[1..]
  {
    assert rest == [rest[0]] + rest[1..];
  }

  /** Places in a list cut in two. */
  lemma Positions(kept: seq<nat>, rest: seq<nat>)
    requires rest != [] && forall i, j :: 0 <= i < j < |kept + rest| ==> (kept + rest)[i] != (kept + rest)[j]
    ensures forall a :: a in kept || a in rest[1..] ==> a != rest[0]
  {
    var l := kept + rest;
    assert l[|kept|] == rest[0];
    forall a | a in kept ensures a != rest[0] {
      var i :| 0 <= i < |kept| && kept[i] == a;
      assert l[i] == a;
    }
    forall a | a in rest[1..] ensures a != rest[0] {
      var i :| 0 <= i < |rest[1..]| && rest[1..][i] == a;
      assert l[|kept| + 1 + i] == a;
    }
  }

  /** Removing the n-th node of a chain. */
  lemma Unlinked(h: Heap, head: nat, l: seq<nat>, n: nat, h1: Heap, head1: nat)
    requires Chain(h, head, l) && n < |l| && 0 !in l && Linked(h, l, n) && Linked(h, l, n - 1)
    requires h1 == if n == 0 then h else h[l[n - 1] := h[l[n - 1]].(next := h[l[n]].next)]
    requires head1 == if n == 0 then h[l[0]].next else head
    ensures Chain(h1 - {l[n]}, head1, l[..n] + l[n + 1..])
  {
    var l1 := l[..n] + l[n + 1..];
    assert Linked(h, l, n) && Linked(h, l, n - 1);
    forall i ensures Linked(h1 - {l[n]}, l1, i) {
      assert Linked(h, l, i) && Linked(h, l, i + 1);
    }
  }

  lemma SweepFrees(h0: Heap, l0: seq<nat>, keep: set<nat>, h: Heap, head: nat, kept: seq<nat>, rest: seq<nat>)
    requires Swept(h0, l0, keep, h, head, kept, rest) && rest != [] && rest[0] in h && !h[rest[0]].mark
    ensures kept != [] ==> kept[|kept| - 1] in h
    ensures var x := rest[0];
      var h1 := if kept == [] then h else h[kept[|kept| - 1] := h[kept[|kept| - 1]].(next := h[x].next)];
      Swept(h0, l0, keep, h1 - {x}, if kept == [] then h[x].next else head, kept, rest[1..])
  {
    var l, n, x := kept + rest, |kept|, rest[0];
    assert Linked(h, l, n) && Linked(h, l, n - 1);
    var h1 := if kept == [] then h else h[kept[n - 1] := h[kept[n - 1]].(next := h[x].next)];
    Positions(kept, rest);
    assert 0 !in l;
    FreesSorted(h0, l0, keep, h, kept, rest, h1);
    assert l[..n] + l[n + 1..] == kept + rest[1..];
    hide Sorted;
    Unlinked(h, head, l, n, h1, if kept == [] then h[x].next else head);
  }

  lemma FreesSorted(h0: Heap, l0: seq<nat>, keep: set<nat>, h: Heap, kept: seq<nat>, rest: seq<nat>, h1: Heap)
    requires Sorted(h0, l0, keep, h, kept, rest) && rest != [] && rest[0] in h && !h[rest[0]].mark
    requires forall a :: a in kept || a in rest[1..] ==> a != rest[0]
    requires h1.Keys == h.Keys && forall a :: a in h ==> h1[a] == h[a].(next := h1[a].next)
    ensures Sorted(h0, l0, keep, h1 - {rest[0]}, kept, rest[1..])
  {
    hide Filter;
    Parts(rest, keep);
  }

  lemma SweepEnds(h0: Heap, l0: seq<nat>, keep: set<nat>, h: Heap, head: nat, kept: seq<nat>, rest: seq<nat>)
    requires Swept(h0, l0, keep, h, head, kept, rest) && At(rest, 0) == 0
    ensures rest == [] && Chain(h, head, kept) && h.Keys == (set a | a in kept) && 0 !in h && h.Keys <= h0.Keys
    ensures h.Keys == keep && kept == Filter(l0, keep) && Marked(h) == {}
    ensures forall a :: a in h ==> Survives(h0[a], h[a])
  {
    assert rest == [] || At(rest, 0) in kept + rest;
    assert kept + [] == kept;
  }

  // ----- collect -----

  lemma RootsMeant(h: Heap, proper: seq<nat>, scanned: seq<nat>)
    requires forall k :: 0 <= k < |proper| ==> Proper(h, proper[k])
    ensures var r := Roots(h, proper, scanned);
      && (forall k :: 0 <= k < |proper| ==> Rooted(r, proper[k]))
      && (forall k :: 0 <= k < |scanned| ==> Scanned(h, r, scanned[k]))
  {
    var r := Roots(h, proper, scanned);
    forall k | 0 <= k < |scanned| ensures Scanned(h, r, scanned[k]) {
      if Ptr(scanned[k]) in h { RootLive(h, r, Ptr(scanned[k])); }
    }
  }

  lemma MarkedIsLive(h: Heap, proper: seq<nat>, scanned: seq<nat>, m: set<nat>)
    requires Grounded(h) && Closed(h, {}, m, 0) && m <= h.Keys
    requires forall a :: a in m ==> Reachable(h, Roots(h, proper, scanned), a)
    requires forall k :: 0 <= k < |proper| && Tag(proper[k]) != 0 && Ptr(proper[k]) != 0 ==> Ptr(proper[k]) in m
    requires forall k :: 0 <= k < |scanned| && Ptr(scanned[k]) in h ==> Ptr(scanned[k]) in m
    ensures m == Live(h, Roots(h, proper, scanned))
  {
    var r := Roots(h, proper, scanned);
    forall a | a in Live(h, r) ensures a in m {
      var n: nat :| Within(h, r, a, n);
      ClosedCovers(h, r, m, a, n);
    }
  }

  lemma LiveGrounded(h0: Heap, roots: set<nat>, h1: Heap, h: Heap)
    requires Grounded(h0) && SameFields(h0, h1) && h.Keys == Live(h0, roots) && h.Keys <= h1.Keys
    requires forall a :: a in h ==> Survives(h1[a], h[a])
    ensures Grounded(h) && forall a :: a in h ==> Survives(h0[a], h[a])
  {
    forall a, b | Edge(h, a, b) ensures b in h {
      assert Edge(h0, a, b);
      EdgeLive(h0, roots, a, b);
    }
  }

  // ----- alloc -----

  lemma {:induction false} FilterAll(l: seq<nat>, keep: set<nat>)
    requires forall a :: a in l ==> a in keep
    ensures Filter(l, keep) == l
  {
    if l != [] { FilterAll(l[1..], keep); }
  }

  /** An object without pointers, put in front. */
  lemma Pushed(h: Heap, head: nat, l: seq<nat>, x: nat, o: Obj)
    requires Chain(h, head, l) && Grounded(h) && x !in h && x != 0 && x !in l
    requires o.next == head && o.first == 0 && o.rest == 0
    ensures Chain(h[x := o], x, [x] + l) && Grounded(h[x := o])
  {
    var h', l' := h[x := o], [x] + l;
    forall i ensures Linked(h', l', i) { assert Linked(h, l, i - 1); }
    forall a, b | Edge(h', a, b) ensures b in h' { assert a != x ==> Edge(h, a, b); }
  }

  // ----- a second collection -----

  lemma {:induction false} WithinKept(h: Heap, h': Heap, proper: seq<nat>, scanned: seq<nat>, a: nat, n: nat)
    requires h'.Keys == Live(h, Roots(h, proper, scanned)) && forall x :: x in h' ==> Survives(h[x], h'[x])
    requires Within(h, Roots(h, proper, scanned), a, n)
    ensures Within(h', Roots(h', proper, scanned), a, n)
    decreases n
  {
    var r := Roots(h, proper, scanned);
    assert Reachable(h, r, a);
    if n == 0 {
      RootLive(h, r, a);
    } else {
      var b :| Within(h, r, b, n - 1) && Edge(h, b, a);
      WithinKept(h, h', proper, scanned, b, n - 1);
      assert Reachable(h, r, b);
      assert Edge(h', b, a);
    }
  }

  /** With the same root words a second collection frees nothing: what a collection keeps is exactly
      what still is reachable after it. */
  lemma CollectAgain(h: Heap, h': Heap, proper: seq<nat>, scanned: seq<nat>)
    requires h'.Keys == Live(h, Roots(h, proper, scanned)) && forall x :: x in h' ==> Survives(h[x], h'[x])
    ensures Live(h', Roots(h', proper, scanned)) == h'.Keys
  {
    var r := Roots(h, proper, scanned);
    forall a | a in h' ensures a in Live(h', Roots(h', proper, scanned)) {
      var n: nat :| Within(h, r, a, n);
      WithinKept(h, h', proper, scanned, a, n);
    }
  }

  /** An object is freed only if no path of car, cdr, function and value slots leads to it. A cons's and a
      lambda's two slots and a symbol's function and value keep alive what they name, ... */
  lemma NothingLiveFreed(h: Heap, proper: seq<nat>, scanned: seq<nat>, a: nat, w: nat)
    requires a in Live(h, Roots(h, proper, scanned)) && (w == h[a].first || w == h[a].rest)
    requires h[a].kind == Cons || h[a].kind == Lambda || h[a].kind == Symbol
    requires w % 8 != 0 && w - w % 8 in h && w - w % 8 != 0
    ensures w - w % 8 in Live(h, Roots(h, proper, scanned))
  {
    assert Edge(h, a, Ptr(w));
    EdgeLive(h, Roots(h, proper, scanned), a, Ptr(w));
  }

  /** ... a tagged word among the proper roots does, and any scanned word with the bits of an address. */
  lemma RootsKept(h: Heap, proper: seq<nat>, scanned: seq<nat>, w: nat)
    requires w - w % 8 in h && ((w in proper && w % 8 != 0) || w in scanned)
    ensures w - w % 8 in Live(h, Roots(h, proper, scanned))
  {
    RootLive(h, Roots(h, proper, scanned), Ptr(w));
  }

  /** s holds what the root words name, and what the slots of a cons, lambda or symbol in s name. */
  ghost predicate Keeps(h: Heap, proper: seq<nat>, scanned: seq<nat>, s: set<nat>) {
    && (forall w :: w in proper && w % 8 != 0 && w - w % 8 in h ==> w - w % 8 in s)
    && (forall w :: w in scanned && w - w % 8 in h ==> w - w % 8 in s)
    && forall a :: a in s && a in h && h[a].kind != Str && h[a].kind != Prim ==>
      && (h[a].first % 8 != 0 && h[a].first - h[a].first % 8 in h ==> h[a].first - h[a].first % 8 in s)
      && (h[a].rest % 8 != 0 && h[a].rest - h[a].rest % 8 in h ==> h[a].rest - h[a].rest % 8 in s)
  }

  /** Nothing else is kept: what is live lies in every set that keeps all that. A string's and a
      primitive's slots keep nothing alive. */
  lemma LiveIsLeast(h: Heap, proper: seq<nat>, scanned: seq<nat>, s: set<nat>)
    requires Keeps(h, proper, scanned, s)
    ensures Live(h, Roots(h, proper, scanned)) <= s
  {
    var r := Roots(h, proper, scanned);
    forall a | a in Live(h, r) ensures a in s {
      var n: nat :| Within(h, r, a, n);
      StepsInside(h, proper, scanned, s, a, n);
    }
  }

  lemma {:induction false} StepsInside(h: Heap, proper: seq<nat>, scanned: seq<nat>, s: set<nat>, a: nat, n: nat)
    requires Keeps(h, proper, scanned, s) && Within(h, Roots(h, proper, scanned), a, n)
    ensures a in s
    decreases n
  {
    if n > 0 {
      var b :| Within(h, Roots(h, proper, scanned), b, n - 1) && Edge(h, b, a);
      StepsInside(h, proper, scanned, s, b, n - 1);
    }
  }

  /** The order of the list and its members are those of the survivors. */
  lemma {:induction false} FilterIs(l: seq<nat>, keep: set<nat>, x: nat)
    ensures x in Filter(l, keep) <==> x in l && x in keep
    ensures |Filter(l, keep)| <= |l|
  {
    if l != [] { FilterIs(l[1..], keep, x); }
  }
}
