/**
The pass at the start of check_page_free_list that moves pages below a directory limit to
the front of the free list. It threads two lists through the links it is walking over, with
a pointer to the slot where each list grows; it is an in-place stable partition.
*/
module FreeListSplit {
  import opened Layout
  import opened PhysicalMemory
  import opened Pmap

  /** What a struct Page ** may point at: one of the two local heads, or a page's pp_link. */
  datatype Slot = Local(which: nat) | Link(page: nat)

  /** PDX(page2pa(pp)) >= pdx_limit */
  predicate High(f: nat, limit: nat) { f / NPTENTRIES >= limit }

  /** The pages of one kind, in list order. */
  function Select(s: seq<nat>, limit: nat, high: bool): (t: seq<nat>)
    ensures forall f :: f in t <==> f in s && High(f, limit) == high
  {
    if s == [] then []
    else
      var rest := Select(s[..|s| - 1], limit, high);
      assert s == s[..|s| - 1] + [s[|s| - 1]];
      if High(s[|s| - 1], limit) == high then rest + [s[|s| - 1]] else rest
  }

  /** The two selections together are the same pages, each as often as before. */
  lemma {:induction false} SelectPartition(s: seq<nat>, limit: nat)
    ensures multiset(Select(s, limit, false) + Select(s, limit, true)) == multiset(s)
  {
    if s != [] {
      SelectPartition(s[..|s| - 1], limit);
      assert s == s[..|s| - 1] + [s[|s| - 1]];
    }
  }

  ghost predicate Distinct(s: seq<nat>) {
    forall k, l :: 0 <= k < l < |s| ==> s[k] != s[l]
  }

  /** A list under construction: the links run through s, and its last link is still open. */
  ghost predicate Open(head: int, link: seq<int>, s: seq<nat>) {
    && (s != [] ==> head == s[0])
    && (forall k :: 0 <= k < |s| ==> s[k] < |link|)
    && (forall k :: 0 <= k < |s| - 1 ==> link[s[k]] == s[k + 1])
  }

  /** The slot at which s grows. */
  ghost function Tail(s: seq<nat>, which: nat): Slot {
    if s == [] then Local(which) else Link(s[|s| - 1])
  }

  /** Storing f at the growing slot of s. */
  ghost function Grow(link: seq<int>, s: seq<nat>, f: int): seq<int>
    requires forall k :: 0 <= k < |s| ==> s[k] < |link|
  {
    if s == [] then link else link[s[|s| - 1] := f]
  }

  lemma GrowOpen(head: int, link: seq<int>, s: seq<nat>, f: nat)
    requires Open(head, link, s) && Distinct(s) && f < |link|
    ensures Open(if s == [] then f else head, Grow(link, s, f), s + [f])
  {
    var t := s + [f];
    var link' := Grow(link, s, f);
    forall k | 0 <= k < |t| - 1 ensures link'[t[k]] == t[k + 1] {
      if k < |s| - 1 { assert s[k] != s[|s| - 1]; }
    }
  }

  lemma GrowOther(head: int, link: seq<int>, s: seq<nat>, t: seq<nat>, f: int)
    requires Open(head, link, t) && (forall k :: 0 <= k < |s| ==> s[k] < |link|)
    requires forall k, l :: 0 <= k < |s| && 0 <= l < |t| ==> s[k] != t[l]
    ensures Open(head, Grow(link, s, f), t)
  {}

  /** Two open lists joined, the second one closed with NULL. */
  lemma JoinChain(h1: int, h2: int, link: seq<int>, s: seq<nat>, t: seq<nat>)
    requires Open(h1, link, s) && Open(h2, link, t) && Distinct(s + t)
    requires t != [] ==> link[t[|t| - 1]] == NULL
    requires t == [] ==> h2 == NULL
    ensures Chain(if s == [] then h2 else h1, Grow(link, s, h2), s + t)
  {
    var u := s + t;
    var link' := Grow(link, s, h2);
    forall k | 0 <= k < |u| - 1 ensures link'[u[k]] == u[k + 1] {
      if k < |s| - 1 {
        assert u[k] != u[|s| - 1];
      } else if k >= |s| {
        assert u[k] == t[k - |s|] && u[k + 1] == t[k - |s| + 1];
        assert s != [] ==> u[k] != u[|s| - 1];
      }
    }
    if u != [] {
      if t != [] { assert u[|u| - 1] == t[|t| - 1]; assert s != [] ==> u[|s| - 1] != u[|u| - 1]; }
    }
  }

  /** Two lists and the unwalked rest share no page. */
  ghost predicate Apart(low: seq<nat>, high: seq<nat>, rest: seq<nat>) {
    && Distinct(low) && Distinct(high)
    && (forall k, l :: 0 <= k < |low| && 0 <= l < |high| ==> low[k] != high[l])
    && (forall k, l :: 0 <= k < |low| && 0 <= l < |rest| ==> low[k] != rest[l])
    && (forall k, l :: 0 <= k < |high| && 0 <= l < |rest| ==> high[k] != rest[l])
  }

  /** Where the walk stands: two open lists behind it, the rest of the old chain ahead. */
  ghost predicate Walking(low: seq<nat>, high: seq<nat>, rest: seq<nat>, pp: int, link: seq<int>,
                          pp1: int, pp2: int, tp: seq<Slot>) {
    && Apart(low, high, rest) && Chain(pp, link, rest)
    && Open(pp1, link, low) && Open(pp2, link, high)
    && tp == [Tail(low, 0), Tail(high, 1)]
  }

  lemma GrowChain(head: int, link: seq<int>, s: seq<nat>, t: seq<nat>, f: int)
    requires Chain(head, link, t) && (forall k :: 0 <= k < |s| ==> s[k] < |link|)
    requires forall k, l :: 0 <= k < |s| && 0 <= l < |t| ==> s[k] != t[l]
    ensures Chain(head, Grow(link, s, f), t)
  {}

  lemma ApartNext(low: seq<nat>, high: seq<nat>, rest: seq<nat>)
    requires Apart(low, high, rest) && rest != [] && Distinct(rest)
    ensures Apart(low + [rest[0]], high, rest[1..]) && Apart(low, high + [rest[0]], rest[1..])
  {}

  lemma WalkLow(low: seq<nat>, high: seq<nat>, rest: seq<nat>, pp: int, link: seq<int>,
                pp1: int, pp2: int, tp: seq<Slot>)
    requires Walking(low, high, rest, pp, link, pp1, pp2, tp) && rest != []
    ensures var link' := Grow(link, low, pp);
      Walking(low + [rest[0]], high, rest[1..], link'[rest[0]], link',
              if low == [] then pp else pp1, pp2, tp[0 := Link(rest[0])])
  {
    ApartNext(low, high, rest);
    GrowOpen(pp1, link, low, rest[0]);
    GrowOther(pp2, link, low, high, pp);
    GrowChain(pp, link, low, rest, pp);
    ChainPop(pp, Grow(link, low, pp), rest);
  }

  lemma WalkHigh(low: seq<nat>, high: seq<nat>, rest: seq<nat>, pp: int, link: seq<int>,
                 pp1: int, pp2: int, tp: seq<Slot>)
    requires Walking(low, high, rest, pp, link, pp1, pp2, tp) && rest != []
    ensures var link' := Grow(link, high, pp);
      Walking(low, high + [rest[0]], rest[1..], link'[rest[0]], link',
              pp1, if high == [] then pp else pp2, tp[1 := Link(rest[0])])
  {
    ApartNext(low, high, rest);
    GrowOpen(pp2, link, high, rest[0]);
    GrowOther(pp1, link, high, low, pp);
    GrowChain(pp, link, high, rest, pp);
    ChainPop(pp, Grow(link, high, pp), rest);
  }

  lemma SelectNext(free: seq<nat>, limit: nat, n: nat, high: bool)
    requires n < |free|
    ensures Select(free[..n + 1], limit, high) ==
      Select(free[..n], limit, high) + (if High(free[n], limit) == high then [free[n]] else [])
  {
    assert free[..n + 1][..n] == free[..n];
  }

  /** The reordered list: low pages first, each half in its old order, NULL-terminated and
      without repetition, also when a half is empty. */
  method SplitFreeList(link: array<int>, head: int, ghost free: seq<nat>, limit: nat) returns (newHead: int)
    requires Chain(head, link[..], free)
    modifies link
    ensures Chain(newHead, link[..], Select(free, limit, false) + Select(free, limit, true))
  {
    ghost var low: seq<nat>, high: seq<nat>, rest, n := [], [], free, 0;
    var pp1, pp2 := NULL, NULL;
    var tp := [Local(0), Local(1)];
    var pp := head;
    while pp != NULL
      invariant n <= |free| && rest == free[n..]
      invariant low == Select(free[..n], limit, false) && high == Select(free[..n], limit, true)
      invariant Walking(low, high, rest, pp, link[..], pp1, pp2, tp)
      decreases |rest|
    {
      SelectNext(free, limit, n, false);
      SelectNext(free, limit, n, true);
      ghost var high' := High(free[n], limit);
      pp, pp1, pp2, tp := SplitStep(link, pp, limit, pp1, pp2, tp, low, high, rest);
      low, high := if high' then low else low + [free[n]], if high' then high + [free[n]] else high;
      rest, n := rest[1..], n + 1;
    }
    assert free[..n] == free;
    newHead := CloseLists(link, low, high, pp1, pp2, tp);
  }

  /** The body of the pass: append pp to its list, and step to what its link held. */
  method SplitStep(link: array<int>, pp: nat, limit: nat, pp1: int, pp2: int, tp: seq<Slot>,
                   ghost low: seq<nat>, ghost high: seq<nat>, ghost rest: seq<nat>)
      returns (next: int, r1: int, r2: int, rtp: seq<Slot>)
    requires rest != [] && Walking(low, high, rest, pp, link[..], pp1, pp2, tp)
    modifies link
    ensures !High(pp, limit) ==> Walking(low + [rest[0]], high, rest[1..], next, link[..], r1, r2, rtp)
    ensures High(pp, limit) ==> Walking(low, high + [rest[0]], rest[1..], next, link[..], r1, r2, rtp)
  {
    if !High(pp, limit) {
      WalkLow(low, high, rest, pp, link[..], pp1, pp2, tp);
    } else {
      WalkHigh(low, high, rest, pp, link[..], pp1, pp2, tp);
    }
    var pagetype := if High(pp, limit) then 1 else 0;
    r1, r2 := StoreThrough(link, tp[pagetype], pp, pp1, pp2);
    rtp := tp[pagetype := Link(pp)];
    next := link[pp];
  }

  /** *slot = value */
  method StoreThrough(link: array<int>, slot: Slot, value: int, pp1: int, pp2: int) returns (r1: int, r2: int)
    requires slot.Link? ==> slot.page < link.Length
    requires slot.Local? ==> slot.which < 2
    modifies link
    ensures link[..] == if slot.Link? then old(link[..])[slot.page := value] else old(link[..])
    ensures r1 == if slot == Local(0) then value else pp1
    ensures r2 == if slot == Local(1) then value else pp2
  {
    r1, r2 := pp1, pp2;
    match slot
    case Local(w) => if w == 0 { r1 := value; } else { r2 := value; }
    case Link(f) => link[f] := value;
  }

  /** *tp[1] = 0; *tp[0] = pp2; the result is the new page_free_list. */
  method CloseLists(link: array<int>, ghost low: seq<nat>, ghost high: seq<nat>, pp1: int, pp2: int, tp: seq<Slot>)
      returns (newHead: int)
    requires Walking(low, high, [], NULL, link[..], pp1, pp2, tp)
    modifies link
    ensures Chain(newHead, link[..], low + high)
  {
    CloseJoin(low, high, link[..], pp1, pp2);
    var a1, a2 := StoreThrough(link, tp[1], NULL, pp1, pp2);
    var b1, b2 := StoreThrough(link, tp[0], a2, a1, a2);
    newHead := b1;
  }

  lemma CloseJoin(low: seq<nat>, high: seq<nat>, link: seq<int>, pp1: int, pp2: int)
    requires Apart(low, high, []) && Open(pp1, link, low) && Open(pp2, link, high)
    ensures var h2 := if high == [] then NULL else pp2;
      var closed := Grow(link, high, NULL);
      && (forall k :: 0 <= k < |low| ==> low[k] < |closed|)
      && Chain(if low == [] then h2 else pp1, Grow(closed, low, h2), low + high)
  {
    GrowOther(pp1, link, high, low, NULL);
    JoinChain(pp1, if high == [] then NULL else pp2, Grow(link, high, NULL), low, high);
  }
}
