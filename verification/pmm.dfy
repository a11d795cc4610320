/** The page allocator: a frontier that only moves up, and an intrusive list of returned pages. */
module Pmm {
  const PAGE: nat := 4096
  const RAM_END: nat := 0x5000_0000
  const U64: nat := 0x1_0000_0000_0000_0000

  /** A page of [start, bump). */
  predicate IsPage(start: nat, bump: nat, p: nat) {
    start <= p < bump && (p - start) % PAGE == 0
  }

  /** The next words spell l from head on. */
  ghost predicate Spells(link: map<nat, nat>, head: nat, l: seq<nat>)
    decreases |l|
  {
    if l == [] then head == 0 else head == l[0] != 0 && l[0] in link && Spells(link, link[l[0]], l[1..])
  }

  lemma {:induction false} SpellsFrame(link: map<nat, nat>, head: nat, l: seq<nat>, link': map<nat, nat>)
    requires Spells(link, head, l) && forall p :: p in l ==> p in link && p in link' && link'[p] == link[p]
    ensures Spells(link', head, l)
    decreases |l|
  {
    if l != [] { SpellsFrame(link, link[l[0]], l[1..], link'); }
  }

  lemma {:induction false} SpellsIn(link: map<nat, nat>, head: nat, l: seq<nat>)
    requires Spells(link, head, l)
    ensures forall p :: p in l ==> p in link && p != 0
    decreases |l|
  {
    if l != [] { SpellsIn(link, link[l[0]], l[1..]); }
  }

  predicate NoDup(l: seq<nat>) {
    forall i, j :: 0 <= i < j < |l| ==> l[i] != l[j]
  }

  /** The pages of a run. */
  ghost function Run(base: nat, n: nat): set<nat> {
    set k: nat | k < n :: base + k * PAGE
  }

  class Pages {
    const start: nat
    var bump: nat
    var freeList: nat
    /** The word a returned page stores in itself. */
    var link: map<nat, nat>
    ghost var list: seq<nat>
    ghost var taken: set<nat>

    /** Every page below the frontier is either handed out or on the list, never both, and on the
        list at most once. */
    ghost predicate Valid()
      reads this
    {
      && 0 < start <= bump <= RAM_END && (bump - start) % PAGE == 0
      && Spells(link, freeList, list) && NoDup(list)
      && (forall p :: p in list || p in taken <==> IsPage(start, bump, p))
      && (forall p :: p in list ==> p !in taken)
    }

    /** pmm_init. */
    constructor (kernelEnd: nat)
      requires 0 < kernelEnd <= RAM_END
      ensures Valid() && bump == start && kernelEnd <= start < kernelEnd + 4096 && start % 4096 == 0 && taken == {}
    {
      start := (kernelEnd + PAGE - 1) / PAGE * PAGE;
      bump := (kernelEnd + PAGE - 1) / PAGE * PAGE;
      freeList, link, list, taken := 0, map[], [], {};
    }

    /** pmm_alloc: a returned page if there is one, else a fresh one; 0 when RAM is used up. */
    method Alloc() returns (p: nat)
      requires Valid()
      modifies this
      ensures Valid()
      ensures p == 0 <==> old(list) == [] && old(bump) + 4096 > 0x5000_0000
      ensures p == 0 ==> taken == old(taken) && list == old(list) && bump == old(bump)
      ensures p != 0 ==> p !in old(taken) && taken == old(taken) + {p}
      ensures p != 0 ==>
        if old(list) != [] then p == old(list)[0] && list == old(list)[1..] && bump == old(bump)
        else list == [] && p == old(bump) && bump == old(bump) + 4096
    {
      if freeList != 0 {
        p := freeList;
        freeList := link[p];
        list := list[1..];
        taken := taken + {p};
        return;
      }
      if bump + PAGE > RAM_END { return 0; }
      p := bump;
      bump := bump + PAGE;
      taken := taken + {p};
    }

    /** pmm_alloc_pages: a contiguous run, from the frontier only; 0 when it does not fit. The sums are
        in 64 bits: a run that is handed out has its n pages below the frontier if and only if they fit
        into RAM without wrapping. */
    method AllocPages(n: nat) returns (run: nat)
      requires Valid() && n < U64
      modifies this
      ensures list == old(list) && (run == 0 <==> (old(bump) + n * 4096) % 0x1_0000_0000_0000_0000 > 0x5000_0000)
      ensures run == 0 ==> Valid() && taken == old(taken) && bump == old(bump)
      ensures run != 0 ==> run == old(bump) && bump == (old(bump) + n * 4096) % 0x1_0000_0000_0000_0000
      ensures run != 0 ==> ((forall p :: p in Run(run, n) ==> p < bump) <==> old(bump) + n * PAGE <= RAM_END)
      ensures run != 0 && old(bump) + n * PAGE <= RAM_END ==>
        Valid() && bump == run + n * PAGE && Run(run, n) !! old(taken) && taken == old(taken) + Run(run, n)
    {
      var bytes := n * PAGE % U64;
      var top := (bump + bytes) % U64;
      TopIs(bump, n * PAGE);
      if top > RAM_END { return 0; }
      run := bump;
      bump := top;
      if run + n * PAGE <= RAM_END {
        taken := taken + Run(run, n);
        forall p: nat ensures p in list || p in taken <==> IsPage(start, bump, p) {
          if run <= p < bump && (p - start) % PAGE == 0 { InRun(start, run, n, p); }
        }
      } else {
        assert run + (n - 1) * PAGE in Run(run, n);
      }
    }

    /** pmm_free: a page already on the list is left alone, so no page is ever listed twice. */
    method Free(page: nat)
      requires Valid() && IsPage(start, bump, page)
      modifies this
      ensures Valid() && bump == old(bump)
      ensures page in old(taken) ==> taken == old(taken) - {page} && list == [page] + old(list)
      ensures page !in old(taken) ==> taken == old(taken) && list == old(list)
    {
      assert page != 0;
      hide NoDup, IsPage;
      var p := freeList;
      ghost var rest := list;
      ghost var seen: seq<nat> := [];
      while p != 0
        invariant Spells(link, p, rest) && list == seen + rest && page !in seen
        decreases |rest|
      {
        if p == page { assert page == rest[0]; return; }
        seen := seen + [rest[0]];
        rest := rest[1..];
        p := link[p];
      }
      assert rest == [] && list == seen;
      Pushed(link, freeList, list, page);
      link := link[page := freeList];
      freeList := page;
      list := [page] + list;
      taken := taken - {page};
    }
  }

  lemma Pushed(link: map<nat, nat>, head: nat, l: seq<nat>, page: nat)
    requires Spells(link, head, l) && page !in l && page != 0 && NoDup(l)
    ensures Spells(link[page := head], page, [page] + l) && NoDup([page] + l)
    ensures forall p :: p in [page] + l <==> p == page || p in l
  {
    SpellsIn(link, head, l);
    SpellsFrame(link, head, l, link[page := head]);
    assert ([page] + l)[1..] == l;
  }

  lemma TopIs(b: nat, x: nat)
    ensures (b + x % U64) % U64 == (b + x) % U64
    ensures b + x < U64 ==> (b + x) % U64 == b + x
  {
    var q := x / U64;
    assert b + x == (b + x % U64) + q * U64;
  }

  /** 2^52 pages are 2^64 bytes, which is none: the run is handed out and the frontier stays. */
  lemma WholeSpace(b: nat)
    requires b <= RAM_END
    ensures (b + 0x10_0000_0000_0000 * PAGE) % U64 == b
  {
  }

  lemma InRun(start: nat, run: nat, n: nat, p: nat)
    requires start <= run <= p < run + n * PAGE && (run - start) % PAGE == 0 && (p - start) % PAGE == 0
    ensures p in Run(run, n)
  {
    var k: nat := (p - run) / PAGE;
    assert p == run + k * PAGE;
  }
}
