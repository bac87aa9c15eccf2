/**
stab_binsearch of kern/kdebug.c: a binary search for one type of entry in a table that
mixes types, run twice in a row by debuginfo_eip. The search raises its own key by one on
an exact match and goes on, so its progress measure is lexicographic and a second entry
one above the key can be taken for the first.
*/
module StabSearch {

  const MAXADDR := 0xffff_ffff
  const N_SO := 0x64
  const N_FUN := 0x24

  type Addr = a: int | 0 <= a <= MAXADDR

  datatype Stab = Stab(ntype: nat, value: Addr)

  /** addr++ on a uintptr_t */
  function Bump(a: Addr): Addr { if a == MAXADDR then 0 else a + 1 }

  predicate IsType(stabs: seq<Stab>, ty: nat, k: int) { 0 <= k < |stabs| && stabs[k].ntype == ty }

  /** The latest entry of the type in [l, m], or l - 1. */
  function ScanDown(stabs: seq<Stab>, ty: nat, l: int, m: int): (k: int)
    requires 0 <= l <= m + 1 <= |stabs|
    ensures l - 1 <= k <= m
    ensures k >= l ==> IsType(stabs, ty, k)
    ensures forall x :: k < x <= m ==> !IsType(stabs, ty, x)
    decreases m - l + 1
  {
    if m >= l && stabs[m].ntype != ty then ScanDown(stabs, ty, l, m - 1) else m
  }

  /** 1 while the entry at l still equals the key; an exact match that does not move l clears it. */
  function AtKey(stabs: seq<Stab>, ty: nat, l: int, key: Addr): nat {
    if IsType(stabs, ty, l) && stabs[l].value == key then 1 else 0
  }

  /** The variables of the main loop: the window, the key, *region_left, *region_right and
      any_matches. */
  datatype State = State(l: int, r: int, key: Addr, left: int, right: int, any: bool)

  predicate InRange(stabs: seq<Stab>, s: State) { 0 <= s.l <= s.r + 1 <= |stabs| }

  /** One pass of the main loop. */
  function Next(stabs: seq<Stab>, ty: nat, s: State): (t: State)
    requires InRange(stabs, s) && s.l <= s.r
    ensures InRange(stabs, t)
    ensures t.r - t.l < s.r - s.l
      || (t.r - t.l == s.r - s.l && AtKey(stabs, ty, t.l, t.key) < AtKey(stabs, ty, s.l, s.key))
  {
    var mid := (s.l + s.r) / 2;
    var m := ScanDown(stabs, ty, s.l, mid);
    if m < s.l then s.(l := mid + 1)
    else if stabs[m].value < s.key then s.(l := mid + 1, left := m, any := true)
    else if stabs[m].value > s.key then s.(r := m - 1, right := m - 1, any := true)
    else s.(l := m, key := Bump(s.key), left := m, any := true)
  }

  function Loop(stabs: seq<Stab>, ty: nat, s: State): State
    requires InRange(stabs, s)
    decreases s.r - s.l + 1, AtKey(stabs, ty, s.l, s.key)
  {
    if s.l > s.r then s else Loop(stabs, ty, Next(stabs, ty, s))
  }

  /** The closing scan for the rightmost region. */
  function Rightmost(stabs: seq<Stab>, ty: nat, left: int, k: int): int
    decreases k - left
  {
    if k > left && !IsType(stabs, ty, k) then Rightmost(stabs, ty, left, k - 1) else k
  }

  function Finish(stabs: seq<Stab>, ty: nat, s: State): (int, int) {
    if !s.any then (s.left, s.left - 1) else (Rightmost(stabs, ty, s.left, s.right), s.right)
  }

  function Start(l: int, r: int, addr: Addr): State { State(l, r, addr, l, r, false) }

  /** stab_binsearch: the new values of *region_left and *region_right. */
  function Search(stabs: seq<Stab>, ty: nat, l: int, r: int, addr: Addr): (int, int)
    requires 0 <= l <= r + 1 <= |stabs|
  {
    Finish(stabs, ty, Loop(stabs, ty, Start(l, r, addr)))
  }

  method StabBinsearch(stabs: seq<Stab>, left: int, right: int, ty: nat, addr: Addr)
    returns (regionLeft: int, regionRight: int)
    requires 0 <= left <= right + 1 <= |stabs|
    ensures (regionLeft, regionRight) == Search(stabs, ty, left, right, addr)
  {
    regionLeft, regionRight := left, right;
    var l, r, key, any := left, right, addr, false;
    while l <= r
      invariant 0 <= l <= r + 1 <= |stabs|
      invariant Loop(stabs, ty, State(l, r, key, regionLeft, regionRight, any))
        == Loop(stabs, ty, Start(left, right, addr))
      decreases r - l + 1, AtKey(stabs, ty, l, key)
    {
      l, r, key, regionLeft, regionRight, any := SearchPass(stabs, ty, l, r, key, regionLeft, regionRight, any);
    }
    if !any {
      regionRight := regionLeft - 1;
    } else {
      regionLeft := FindRightmost(stabs, ty, regionLeft, regionRight);
    }
  }

  /** The body of the main loop. */
  method SearchPass(stabs: seq<Stab>, ty: nat, l: int, r: int, key: Addr, left: int, right: int, any: bool)
    returns (l': int, r': int, key': Addr, left': int, right': int, any': bool)
    requires 0 <= l <= r < |stabs|
    ensures State(l', r', key', left', right', any') == Next(stabs, ty, State(l, r, key, left, right, any))
  {
    l', r', key', left', right', any' := l, r, key, left, right, any;
    var trueM := (l + r) / 2;
    var m := FindEarlier(stabs, ty, l, trueM);
    if m < l {
      l' := trueM + 1;
      return;
    }
    any' := true;
    if stabs[m].value < key {
      left' := m;
      l' := trueM + 1;
    } else if stabs[m].value > key {
      right' := m - 1;
      r' := m - 1;
    } else {
      left' := m;
      l' := m;
      key' := Bump(key);
    }
  }

  method FindEarlier(stabs: seq<Stab>, ty: nat, l: int, trueM: int) returns (m: int)
    requires 0 <= l <= trueM + 1 <= |stabs|
    ensures m == ScanDown(stabs, ty, l, trueM)
  {
    m := trueM;
    while m >= l && stabs[m].ntype != ty
      invariant l - 1 <= m <= trueM
      invariant ScanDown(stabs, ty, l, m) == ScanDown(stabs, ty, l, trueM)
    {
      m := m - 1;
    }
  }

  method FindRightmost(stabs: seq<Stab>, ty: nat, left: int, right: int) returns (l: int)
    ensures l == Rightmost(stabs, ty, left, right)
  {
    l := right;
    while l > left && !IsType(stabs, ty, l)
      invariant Rightmost(stabs, ty, left, l) == Rightmost(stabs, ty, left, right)
    {
      l := l - 1;
    }
  }

  // ---------------------------------------------------------------- what it should find

  predicate Has(stabs: seq<Stab>, ty: nat, l: int, r: int, v: int) {
    exists k :: l <= k <= r && IsType(stabs, ty, k) && stabs[k].value == v
  }

  /** Entries of the type are sorted by value. */
  ghost predicate Sorted(stabs: seq<Stab>, ty: nat, l: int, r: int) {
    forall j, k :: l <= j <= k <= r && IsType(stabs, ty, j) && IsType(stabs, ty, k) ==> stabs[j].value <= stabs[k].value
  }

  /** No entry of the type lies strictly between j and k. */
  ghost predicate NoneBetween(stabs: seq<Stab>, ty: nat, j: int, k: int) {
    forall x :: j < x < k ==> !IsType(stabs, ty, x)
  }

  ghost predicate SomeAtMost(stabs: seq<Stab>, ty: nat, l: int, r: int, addr: int) {
    exists k :: l <= k <= r && IsType(stabs, ty, k) && stabs[k].value <= addr
  }

  ghost predicate SomeType(stabs: seq<Stab>, ty: nat, l: int, r: int) {
    exists k :: l <= k <= r && IsType(stabs, ty, k)
  }

  /** The result for [l, r]. With an entry at or below addr it is the documented one: the last
      such entry, up to just before the next entry (or the old right end). With entries that
      all lie above addr the region ends before the first of them and, the closing scan having
      run, its left end never exceeds its right end. With no entry the region is empty. */
  ghost predicate Brackets(stabs: seq<Stab>, ty: nat, l: int, r: int, addr: int, res: (int, int)) {
    var (left, right) := res;
    && (SomeAtMost(stabs, ty, l, r, addr) ==>
          && l <= left <= right <= r && IsType(stabs, ty, left) && stabs[left].value <= addr
          && NoneBetween(stabs, ty, left, right + 1))
    && (SomeType(stabs, ty, l, r) && !SomeAtMost(stabs, ty, l, r, addr) ==>
          && l - 1 <= right < r && left == (if right < l then right else l)
          && NoneBetween(stabs, ty, l - 1, right + 1))
    && (SomeType(stabs, ty, l, r) ==>
          right == r || (IsType(stabs, ty, right + 1) && stabs[right + 1].value > addr))
    && (!SomeType(stabs, ty, l, r) ==> left == l && right == l - 1)
  }

  /** addr is there, and so is addr + 1 (or there is no addr + 1): the branch for an exact
      match can be taken twice. */
  predicate Ambiguous(stabs: seq<Stab>, ty: nat, l: int, r: int, addr: Addr) {
    Has(stabs, ty, l, r, addr) && (addr == MAXADDR || Has(stabs, ty, l, r, addr + 1))
  }

  /** Loop states reached from [l0, r0] on a table that is not ambiguous. */
  ghost predicate Narrowed(stabs: seq<Stab>, ty: nat, l0: int, r0: int, addr: Addr, s: State) {
    && InRange(stabs, s) && 0 <= l0 <= s.l && s.r <= r0 < |stabs| && s.right == s.r
    && (s.key == addr || (addr < MAXADDR && s.key == addr + 1 && !Has(stabs, ty, l0, r0, addr + 1)))
    && (forall k :: l0 <= k < s.l && IsType(stabs, ty, k) ==> stabs[k].value <= addr && stabs[k].value < s.key)
    && (forall k :: s.r < k <= r0 && IsType(stabs, ty, k) ==> stabs[k].value > addr)
    && (s.r == r0 || IsType(stabs, ty, s.r + 1))
    && NoneBetween(stabs, ty, s.left, s.l)
    && ((s.left == l0 && NoneBetween(stabs, ty, l0 - 1, s.l)) ||
        (s.any && l0 <= s.left <= s.l && s.left <= s.r && IsType(stabs, ty, s.left) && stabs[s.left].value <= addr))
    && (!s.any ==> s.r == r0 && NoneBetween(stabs, ty, l0 - 1, s.l))
    && (s.any ==> SomeType(stabs, ty, l0, r0))
  }

  lemma NarrowMiss(stabs: seq<Stab>, ty: nat, l0: int, r0: int, addr: Addr, s: State)
    requires Narrowed(stabs, ty, l0, r0, addr, s) && s.l <= s.r
    requires ScanDown(stabs, ty, s.l, (s.l + s.r) / 2) < s.l
    ensures Narrowed(stabs, ty, l0, r0, addr, Next(stabs, ty, s))
  {
    var mid := (s.l + s.r) / 2;
    assert NoneBetween(stabs, ty, s.l - 1, mid + 1);
    NarrowSkip(stabs, ty, l0, r0, addr, s, mid);
  }

  lemma NarrowSkip(stabs: seq<Stab>, ty: nat, l0: int, r0: int, addr: Addr, s: State, mid: int)
    requires Narrowed(stabs, ty, l0, r0, addr, s) && s.l <= mid <= s.r && NoneBetween(stabs, ty, s.l - 1, mid + 1)
    ensures Narrowed(stabs, ty, l0, r0, addr, s.(l := mid + 1))
  {}

  lemma NarrowBelow(stabs: seq<Stab>, ty: nat, l0: int, r0: int, addr: Addr, s: State)
    requires Sorted(stabs, ty, l0, r0) && Narrowed(stabs, ty, l0, r0, addr, s) && s.l <= s.r
    requires var m := ScanDown(stabs, ty, s.l, (s.l + s.r) / 2); m >= s.l && stabs[m].value < s.key
    ensures Narrowed(stabs, ty, l0, r0, addr, Next(stabs, ty, s))
  {
    var mid := (s.l + s.r) / 2;
    var m := ScanDown(stabs, ty, s.l, mid);
    var t := Next(stabs, ty, s);
    BelowPart(stabs, ty, l0, r0, addr, s, m, mid);
    assert SomeType(stabs, ty, l0, r0);
    assert t == s.(l := mid + 1, left := m, any := true);
  }

  lemma BelowPart(stabs: seq<Stab>, ty: nat, l0: int, r0: int, addr: Addr, s: State, m: int, mid: int)
    requires Sorted(stabs, ty, l0, r0) && Narrowed(stabs, ty, l0, r0, addr, s) && s.l <= m <= mid <= s.r
    requires IsType(stabs, ty, m) && NoneBetween(stabs, ty, m, mid + 1) && stabs[m].value < s.key
    ensures stabs[m].value <= addr
    ensures forall k :: l0 <= k < mid + 1 && IsType(stabs, ty, k) ==> stabs[k].value <= stabs[m].value
  {
    forall k | l0 <= k < mid + 1 && IsType(stabs, ty, k) ensures k <= m {}
  }

  lemma NarrowAbove(stabs: seq<Stab>, ty: nat, l0: int, r0: int, addr: Addr, s: State)
    requires Sorted(stabs, ty, l0, r0) && Narrowed(stabs, ty, l0, r0, addr, s) && s.l <= s.r
    requires var m := ScanDown(stabs, ty, s.l, (s.l + s.r) / 2); m >= s.l && stabs[m].value > s.key
    ensures Narrowed(stabs, ty, l0, r0, addr, Next(stabs, ty, s))
  {
    assert SomeType(stabs, ty, l0, r0);
  }

  lemma NarrowHit(stabs: seq<Stab>, ty: nat, l0: int, r0: int, addr: Addr, s: State)
    requires Sorted(stabs, ty, l0, r0) && !Ambiguous(stabs, ty, l0, r0, addr)
    requires Narrowed(stabs, ty, l0, r0, addr, s) && s.l <= s.r
    requires var m := ScanDown(stabs, ty, s.l, (s.l + s.r) / 2); m >= s.l && stabs[m].value == s.key
    ensures Narrowed(stabs, ty, l0, r0, addr, Next(stabs, ty, s))
  {
    assert Has(stabs, ty, l0, r0, s.key);
    assert s.key == addr;
    assert SomeType(stabs, ty, l0, r0);
  }

  lemma {:induction false} LoopBrackets(stabs: seq<Stab>, ty: nat, l0: int, r0: int, addr: Addr, s: State)
    requires Sorted(stabs, ty, l0, r0) && !Ambiguous(stabs, ty, l0, r0, addr) && Narrowed(stabs, ty, l0, r0, addr, s)
    ensures Brackets(stabs, ty, l0, r0, addr, Finish(stabs, ty, Loop(stabs, ty, s)))
    decreases s.r - s.l + 1, AtKey(stabs, ty, s.l, s.key)
  {
    if s.l > s.r {
      ExitBrackets(stabs, ty, l0, r0, addr, s);
    } else {
      var m := ScanDown(stabs, ty, s.l, (s.l + s.r) / 2);
      if m < s.l {
        NarrowMiss(stabs, ty, l0, r0, addr, s);
      } else if stabs[m].value < s.key {
        NarrowBelow(stabs, ty, l0, r0, addr, s);
      } else if stabs[m].value > s.key {
        NarrowAbove(stabs, ty, l0, r0, addr, s);
      } else {
        NarrowHit(stabs, ty, l0, r0, addr, s);
      }
      LoopBrackets(stabs, ty, l0, r0, addr, Next(stabs, ty, s));
    }
  }

  lemma {:induction false} RightmostStays(stabs: seq<Stab>, ty: nat, left: int, k: int)
    requires left <= k && NoneBetween(stabs, ty, left, k + 1)
    ensures Rightmost(stabs, ty, left, k) == left
    decreases k - left
  {
    if k > left { RightmostStays(stabs, ty, left, k - 1); }
  }

  lemma ExitBrackets(stabs: seq<Stab>, ty: nat, l0: int, r0: int, addr: Addr, s: State)
    requires Sorted(stabs, ty, l0, r0) && Narrowed(stabs, ty, l0, r0, addr, s) && s.l > s.r
    ensures Brackets(stabs, ty, l0, r0, addr, Finish(stabs, ty, s))
  {
    if s.any && s.left <= s.right { RightmostStays(stabs, ty, s.left, s.right); }
  }

  /** On a sorted, unambiguous range the search brackets the address. */
  lemma SearchBrackets(stabs: seq<Stab>, ty: nat, l: int, r: int, addr: Addr)
    requires 0 <= l <= r + 1 <= |stabs| && Sorted(stabs, ty, l, r) && !Ambiguous(stabs, ty, l, r, addr)
    ensures Brackets(stabs, ty, l, r, addr, Search(stabs, ty, l, r, addr))
  {
    if l <= r {
      LoopBrackets(stabs, ty, l, r, addr, Start(l, r, addr));
    }
  }

  // ---------------------------------------------------------------- exactly when it does

  /** x and y are the only entries of the type in [x, y], and y's value is one above x's. */
  ghost predicate Twins(stabs: seq<Stab>, ty: nat, x: int, y: int, addr: Addr) {
    && 0 <= x < y < |stabs| && addr < MAXADDR - 1
    && IsType(stabs, ty, x) && IsType(stabs, ty, y) && NoneBetween(stabs, ty, x, y)
    && stabs[x].value == addr && stabs[y].value == addr + 1
  }

  /** After the match at x the key is addr + 1, and the search runs on to y. */
  lemma {:induction false} TwinLoop(stabs: seq<Stab>, ty: nat, x: int, y: int, addr: Addr, s: State)
    requires Twins(stabs, ty, x, y, addr) && x <= s.l <= s.r == y && s.right == y && s.key == addr + 1
    ensures var t := Loop(stabs, ty, s); t.any && t.left == t.right == y
    decreases s.r - s.l + 1
  {
    var mid := (s.l + s.r) / 2;
    var m := ScanDown(stabs, ty, s.l, mid);
    if m == y {
      TwinEnd(stabs, ty, x, y, addr, Next(stabs, ty, s));
    } else {
      assert mid != y;
      if m >= s.l { assert m == x; }
      TwinLoop(stabs, ty, x, y, addr, Next(stabs, ty, s));
    }
  }

  lemma TwinEnd(stabs: seq<Stab>, ty: nat, x: int, y: int, addr: Addr, s: State)
    requires Twins(stabs, ty, x, y, addr) && s.l == s.r == s.left == s.right == y && s.key == addr + 2 && s.any
    ensures var t := Loop(stabs, ty, s); t.any && t.left == t.right == y
  {
    assert Next(stabs, ty, s) == s.(l := y + 1);
  }

  lemma TwinsMislead(stabs: seq<Stab>, ty: nat, x: int, y: int, addr: Addr)
    requires Twins(stabs, ty, x, y, addr)
    ensures Search(stabs, ty, x, y, addr) == (y, y) && !Brackets(stabs, ty, x, y, addr, (y, y))
  {
    var s := Start(x, y, addr);
    var m := ScanDown(stabs, ty, x, (x + y) / 2);
    assert m == x;
    TwinLoop(stabs, ty, x, y, addr, Next(stabs, ty, s));
    assert SomeAtMost(stabs, ty, x, y, addr);
  }

  /** Matching the largest address wraps the key to 0 and drops the match itself. */
  lemma TopMisleads(stabs: seq<Stab>, ty: nat, x: int)
    requires IsType(stabs, ty, x) && stabs[x].value == MAXADDR
    ensures !Brackets(stabs, ty, x, x, MAXADDR, Search(stabs, ty, x, x, MAXADDR))
  {
    var s0 := Start(x, x, MAXADDR);
    var s1 := Next(stabs, ty, s0);
    assert s1 == State(x, x, 0, x, x, true);
    var s2 := Next(stabs, ty, s1);
    assert s2 == State(x, x - 1, 0, x, x - 1, true);
    assert Loop(stabs, ty, s1) == Loop(stabs, ty, s2) == s2;
    assert SomeAtMost(stabs, ty, x, x, MAXADDR);
  }

  lemma {:induction false} NextOfType(stabs: seq<Stab>, ty: nat, x: int, z: int) returns (y: int)
    requires 0 <= x < z < |stabs| && IsType(stabs, ty, z)
    ensures x < y <= z && IsType(stabs, ty, y) && NoneBetween(stabs, ty, x, y)
    decreases z - x
  {
    if IsType(stabs, ty, x + 1) { y := x + 1; }
    else {
      y := NextOfType(stabs, ty, x + 1, z);
    }
  }

  /** From a match at j: the last one with the same value before z. */
  lemma {:induction false} FindTwins(stabs: seq<Stab>, ty: nat, l: int, r: int, addr: Addr, j: int, z: int)
      returns (x: int, y: int)
    requires Sorted(stabs, ty, l, r) && 0 <= l <= j < z <= r < |stabs| && addr < MAXADDR - 1
    requires IsType(stabs, ty, j) && stabs[j].value == addr && IsType(stabs, ty, z) && stabs[z].value == addr + 1
    ensures l <= x <= y <= r && Twins(stabs, ty, x, y, addr)
    decreases z - j
  {
    y := NextOfType(stabs, ty, j, z);
    if stabs[y].value == addr {
      x, y := FindTwins(stabs, ty, l, r, addr, y, z);
    } else {
      x := j;
    }
  }

  lemma SearchExactBelow(stabs: seq<Stab>, ty: nat, l: int, r: int, addr: Addr)
    requires 0 <= l <= r + 1 <= |stabs| && Sorted(stabs, ty, l, r) && addr != BELOW_MAX
    ensures (forall a, b :: l <= a <= b + 1 <= r + 1 ==> Brackets(stabs, ty, a, b, addr, Search(stabs, ty, a, b, addr)))
      <==> !Ambiguous(stabs, ty, l, r, addr)
  {
    if !Ambiguous(stabs, ty, l, r, addr) {
      forall a, b | l <= a <= b + 1 <= r + 1
        ensures Brackets(stabs, ty, a, b, addr, Search(stabs, ty, a, b, addr))
      {
        SearchBrackets(stabs, ty, a, b, addr);
      }
    } else {
      var j :| l <= j <= r && IsType(stabs, ty, j) && stabs[j].value == addr;
      if addr == MAXADDR {
        TopMisleads(stabs, ty, j);
        assert l <= j <= j + 1 <= r + 1;
      } else {
        var z :| l <= z <= r && IsType(stabs, ty, z) && stabs[z].value == addr + 1;
        var x, y := FindTwins(stabs, ty, l, r, addr, j, z);
        TwinsMislead(stabs, ty, x, y, addr);
      }
    }
  }

  // ---------------------------------------------------------------- the last address but one

  const BELOW_MAX: Addr := 0xffff_fffe

  /** y holds the one entry of the type at the largest address. */
  ghost predicate OneTop(stabs: seq<Stab>, ty: nat, l: int, r: int, y: int) {
    && 0 <= l <= y <= r < |stabs| && IsType(stabs, ty, y) && stabs[y].value == MAXADDR
    && forall k :: l <= k <= r && k != y && IsType(stabs, ty, k) ==> stabs[k].value < MAXADDR
  }

  /** Searching for it: a match at y wraps the key to 0, and the region ends before y. */
  ghost predicate Wrapping(stabs: seq<Stab>, ty: nat, l0: int, r0: int, y: int, s: State) {
    && InRange(stabs, s) && l0 <= s.l && s.right == s.r <= r0
    && (s.l <= y <= s.r || (s.r == y - 1 && s.any))
    && (s.key == BELOW_MAX || s.key == MAXADDR || (s.key == 0 && s.l == y))
  }

  lemma {:induction false} WrapLoop(stabs: seq<Stab>, ty: nat, l0: int, r0: int, y: int, s: State)
    requires Sorted(stabs, ty, l0, r0) && OneTop(stabs, ty, l0, r0, y) && Wrapping(stabs, ty, l0, r0, y, s)
    ensures var t := Loop(stabs, ty, s); t.any && t.right == y - 1
    decreases s.r - s.l + 1, AtKey(stabs, ty, s.l, s.key)
  {
    if s.l <= s.r {
      var m := ScanDown(stabs, ty, s.l, (s.l + s.r) / 2);
      assert m >= s.l ==> m <= y;
      WrapLoop(stabs, ty, l0, r0, y, Next(stabs, ty, s));
    }
  }

  lemma WrapSearch(stabs: seq<Stab>, ty: nat, l: int, r: int, y: int)
    requires Sorted(stabs, ty, l, r) && OneTop(stabs, ty, l, r, y) && IsType(stabs, ty, y - 1)
    ensures Search(stabs, ty, l, r, BELOW_MAX) == (y - 1, y - 1)
  {
    WrapLoop(stabs, ty, l, r, y, Start(l, r, BELOW_MAX));
  }

  lemma TopTwinEnd(stabs: seq<Stab>, ty: nat, y: int, s: State)
    requires IsType(stabs, ty, y) && stabs[y].value == MAXADDR
    requires s.l == s.r == s.left == s.right == y && s.key == 0
    ensures Loop(stabs, ty, s).left == y
  {
    var t := Next(stabs, ty, s);
    assert t == State(y, y - 1, 0, y, y - 1, true);
    assert Loop(stabs, ty, t) == t;
  }

  /** With only x and y of the type in the window the left end ends up at y. */
  lemma {:induction false} TopTwinLoop(stabs: seq<Stab>, ty: nat, x: int, y: int, s: State)
    requires 0 <= x < y < |stabs| && IsType(stabs, ty, x) && IsType(stabs, ty, y) && NoneBetween(stabs, ty, x, y)
    requires stabs[x].value < MAXADDR == stabs[y].value
    requires x <= s.l <= s.r == y && s.right == y && s.key == MAXADDR
    ensures Loop(stabs, ty, s).left == y
    decreases s.r - s.l + 1
  {
    var mid := (s.l + s.r) / 2;
    var m := ScanDown(stabs, ty, s.l, mid);
    if m == y {
      TopTwinEnd(stabs, ty, y, Next(stabs, ty, s));
    } else {
      assert mid != y;
      if m >= s.l { assert m == x; }
      TopTwinLoop(stabs, ty, x, y, Next(stabs, ty, s));
    }
  }

  lemma TopTwinsLeft(stabs: seq<Stab>, ty: nat, x: int, y: int)
    requires 0 <= x < y < |stabs| && IsType(stabs, ty, x) && IsType(stabs, ty, y)
    requires NoneBetween(stabs, ty, x, y) && stabs[x].value == BELOW_MAX && stabs[y].value == MAXADDR
    ensures Loop(stabs, ty, Start(x, y, BELOW_MAX)).left == y
  {
    var s := Start(x, y, BELOW_MAX);
    assert ScanDown(stabs, ty, x, (x + y) / 2) == x;
    assert Next(stabs, ty, s) == State(x, y, MAXADDR, x, y, true);
    TopTwinLoop(stabs, ty, x, y, Next(stabs, ty, s));
  }

  lemma FinishTop(stabs: seq<Stab>, ty: nat, y: int, t: State)
    requires t.any && t.left == y && t.right == y - 1
    ensures Finish(stabs, ty, t) == (y - 1, y - 1)
  {}

  lemma TopTwinsSearch(stabs: seq<Stab>, ty: nat, x: int, y: int)
    requires 0 <= x < y < |stabs| && IsType(stabs, ty, x) && IsType(stabs, ty, y)
    requires NoneBetween(stabs, ty, x, y) && stabs[x].value == BELOW_MAX && stabs[y].value == MAXADDR
    ensures Search(stabs, ty, x, y, BELOW_MAX) == (y - 1, y - 1)
  {
    TopTwinsLeft(stabs, ty, x, y);
    WrapLoop(stabs, ty, x, y, y, Start(x, y, BELOW_MAX));
    FinishTop(stabs, ty, y, Loop(stabs, ty, Start(x, y, BELOW_MAX)));
  }

  lemma TopTwinsMislead(stabs: seq<Stab>, ty: nat, x: int, y: int)
    requires 0 <= x && x + 1 < y < |stabs| && IsType(stabs, ty, x) && IsType(stabs, ty, y)
    requires NoneBetween(stabs, ty, x, y) && stabs[x].value == BELOW_MAX && stabs[y].value == MAXADDR
    ensures !Brackets(stabs, ty, x, y, BELOW_MAX, Search(stabs, ty, x, y, BELOW_MAX))
  {
    TopTwinsSearch(stabs, ty, x, y);
    assert SomeAtMost(stabs, ty, x, y, BELOW_MAX);
    assert !IsType(stabs, ty, y - 1);
  }

  lemma {:induction false} PrevOfType(stabs: seq<Stab>, ty: nat, j: int, y: int) returns (x: int)
    requires 0 <= j < y < |stabs| && IsType(stabs, ty, j)
    ensures j <= x < y && IsType(stabs, ty, x) && NoneBetween(stabs, ty, x, y)
    decreases y - j
  {
    if IsType(stabs, ty, y - 1) { x := y - 1; }
    else {
      x := PrevOfType(stabs, ty, j, y - 1);
    }
  }

  lemma SearchExactTop(stabs: seq<Stab>, ty: nat, l: int, r: int, y: int)
    requires Sorted(stabs, ty, l, r) && OneTop(stabs, ty, l, r, y)
    ensures (forall a, b :: l <= a <= b + 1 <= r + 1 ==>
               Brackets(stabs, ty, a, b, BELOW_MAX, Search(stabs, ty, a, b, BELOW_MAX)))
      <==> !Has(stabs, ty, l, r, BELOW_MAX) || (l < y && IsType(stabs, ty, y - 1))
  {
    if !Has(stabs, ty, l, r, BELOW_MAX) || (l < y && IsType(stabs, ty, y - 1)) {
      forall a, b | l <= a <= b + 1 <= r + 1
        ensures Brackets(stabs, ty, a, b, BELOW_MAX, Search(stabs, ty, a, b, BELOW_MAX))
      {
        PartBrackets(stabs, ty, l, r, y, a, b);
      }
    } else {
      var j :| l <= j <= r && IsType(stabs, ty, j) && stabs[j].value == BELOW_MAX;
      assert j < y;
      var x := PrevOfType(stabs, ty, j, y);
      assert stabs[j].value <= stabs[x].value < MAXADDR;
      TopTwinsMislead(stabs, ty, x, y);
    }
  }

  lemma PartBrackets(stabs: seq<Stab>, ty: nat, l: int, r: int, y: int, a: int, b: int)
    requires Sorted(stabs, ty, l, r) && OneTop(stabs, ty, l, r, y) && l <= a <= b + 1 <= r + 1
    requires !Has(stabs, ty, l, r, BELOW_MAX) || (l < y && IsType(stabs, ty, y - 1))
    ensures Brackets(stabs, ty, a, b, BELOW_MAX, Search(stabs, ty, a, b, BELOW_MAX))
  {
    if Ambiguous(stabs, ty, a, b, BELOW_MAX) {
      var j :| a <= j <= b && IsType(stabs, ty, j) && stabs[j].value == BELOW_MAX;
      var k :| a <= k <= b && IsType(stabs, ty, k) && stabs[k].value == MAXADDR;
      assert k == y && j < y;
      WrapSearch(stabs, ty, a, b, y);
      assert stabs[j].value <= stabs[y - 1].value < MAXADDR;
    } else {
      SearchBrackets(stabs, ty, a, b, BELOW_MAX);
    }
  }

  /** One entry of the type at most has the largest address. */
  ghost predicate TopOnce(stabs: seq<Stab>, ty: nat, l: int, r: int) {
    forall j, k :: l <= j < k <= r && IsType(stabs, ty, j) && IsType(stabs, ty, k) ==>
      stabs[j].value != MAXADDR || stabs[k].value != MAXADDR
  }

  /** Entries of the type at the last two addresses, side by side. */
  ghost predicate TopAdjacent(stabs: seq<Stab>, ty: nat, l: int, r: int) {
    exists y :: l < y <= r && IsType(stabs, ty, y) && stabs[y].value == MAXADDR
      && IsType(stabs, ty, y - 1) && stabs[y - 1].value == BELOW_MAX
  }

  /** stab_binsearch brackets the address on every part of a sorted table exactly when the table
      does not hold an entry at addr together with one at addr + 1 (for the largest address: no
      entry at addr at all). For the last address but one the key wraps on the second match, and
      the result is right also if the two entries are neighbours. */
  lemma SearchExact(stabs: seq<Stab>, ty: nat, l: int, r: int, addr: Addr)
    requires 0 <= l <= r + 1 <= |stabs| && Sorted(stabs, ty, l, r)
    requires addr == BELOW_MAX ==> TopOnce(stabs, ty, l, r)
    ensures (forall a, b :: l <= a <= b + 1 <= r + 1 ==> Brackets(stabs, ty, a, b, addr, Search(stabs, ty, a, b, addr)))
      <==> !Ambiguous(stabs, ty, l, r, addr) || (addr == BELOW_MAX && TopAdjacent(stabs, ty, l, r))
  {
    if addr != BELOW_MAX {
      SearchExactBelow(stabs, ty, l, r, addr);
    } else if !Ambiguous(stabs, ty, l, r, addr) {
      forall a, b | l <= a <= b + 1 <= r + 1
        ensures Brackets(stabs, ty, a, b, addr, Search(stabs, ty, a, b, addr))
      {
        SearchBrackets(stabs, ty, a, b, addr);
      }
    } else {
      var y :| l <= y <= r && IsType(stabs, ty, y) && stabs[y].value == MAXADDR;
      SearchExactTop(stabs, ty, l, r, y);
      TopBefore(stabs, ty, l, r, y);
    }
  }

  lemma TopBefore(stabs: seq<Stab>, ty: nat, l: int, r: int, y: int)
    requires Sorted(stabs, ty, l, r) && OneTop(stabs, ty, l, r, y) && Has(stabs, ty, l, r, BELOW_MAX)
    ensures TopAdjacent(stabs, ty, l, r) <==> l < y && IsType(stabs, ty, y - 1)
  {
    var j :| l <= j <= r && IsType(stabs, ty, j) && stabs[j].value == BELOW_MAX;
    assert j < y;
  }

  // ---------------------------------------------------------------- debuginfo_eip

  /** Whatever the table, a search that met an entry of the type ends inside the window or, with
      both ends, just before it; one that met none leaves the left end where it was. */
  lemma {:induction false} LoopBounds(stabs: seq<Stab>, ty: nat, l0: int, r0: int, s: State)
    requires InRange(stabs, s) && l0 <= s.l && s.right == s.r <= r0 && l0 <= s.left && l0 - 1 <= s.r
    requires s.any || s.left == l0
    ensures var t := Loop(stabs, ty, s); l0 <= t.left && l0 - 1 <= t.right <= r0 && (t.any || t.left == l0)
    decreases s.r - s.l + 1, AtKey(stabs, ty, s.l, s.key)
  {
    if s.l <= s.r { LoopBounds(stabs, ty, l0, r0, Next(stabs, ty, s)); }
  }

  lemma {:induction false} RightmostBounds(stabs: seq<Stab>, ty: nat, left: int, k: int)
    ensures var m := Rightmost(stabs, ty, left, k); m <= k && (if k > left then left <= m else m == k)
    decreases k - left
  {
    if k > left && !IsType(stabs, ty, k) { RightmostBounds(stabs, ty, left, k - 1); }
  }

  lemma SearchBounds(stabs: seq<Stab>, ty: nat, l: int, r: int, addr: Addr)
    requires 0 <= l <= r + 1 <= |stabs|
    ensures var (left, right) := Search(stabs, ty, l, r, addr);
      l - 1 <= left <= right + 1 && right <= r && ((left == l && right == l - 1) || left <= right)
  {
    var t := Loop(stabs, ty, Start(l, r, addr));
    LoopBounds(stabs, ty, l, r, Start(l, r, addr));
    if t.any { RightmostBounds(stabs, ty, t.left, t.right); }
  }

  /** The file and function lookup of debuginfo_eip: NoFile for its -1, otherwise the file's region
      and the region in which the function was searched. BeforeTable is the case lfile == -1: the
      test for 0 lets it pass, and the second search starts by reading stabs[-1]. */
  datatype Found = NoFile | BeforeTable | Found(lfile: int, rfile: int, lfun: int, rfun: int)

  /** The first search, over the whole table. */
  function FileSearch(stabs: seq<Stab>, addr: Addr): (int, int) { Search(stabs, N_SO, 0, |stabs| - 1, addr) }

  /** The table has its entries of the type in order, and none is mistaken for a second match. */
  ghost predicate Plain(stabs: seq<Stab>, ty: nat, addr: Addr) {
    Sorted(stabs, ty, 0, |stabs| - 1) && !Ambiguous(stabs, ty, 0, |stabs| - 1, addr)
  }

  lemma PlainBrackets(stabs: seq<Stab>, ty: nat, l: int, r: int, addr: Addr, res: (int, int))
    requires 0 <= l <= r + 1 <= |stabs| && res == Search(stabs, ty, l, r, addr)
    ensures Plain(stabs, ty, addr) ==> Brackets(stabs, ty, l, r, addr, res)
  {
    if Plain(stabs, ty, addr) { SearchBrackets(stabs, ty, l, r, addr); }
  }

  /** For every table; the brackets are promised for a plain one. */
  method DebugInfo(stabs: seq<Stab>, addr: Addr) returns (res: Found)
    ensures res.BeforeTable? <==> FileSearch(stabs, addr).0 < 0
    ensures res.NoFile? <==> FileSearch(stabs, addr).0 == 0
    ensures res.Found? ==>
      && (res.lfile, res.rfile) == FileSearch(stabs, addr) && 0 < res.lfile <= res.rfile < |stabs|
      && (res.lfun, res.rfun) == Search(stabs, N_FUN, res.lfile, res.rfile, addr)
    ensures res.Found? && Plain(stabs, N_SO, addr) ==>
      Brackets(stabs, N_SO, 0, |stabs| - 1, addr, (res.lfile, res.rfile))
    ensures res.Found? && Plain(stabs, N_FUN, addr) ==>
      Brackets(stabs, N_FUN, res.lfile, res.rfile, addr, (res.lfun, res.rfun))
  {
    var lfile, rfile := StabBinsearch(stabs, 0, |stabs| - 1, N_SO, addr);
    SearchBounds(stabs, N_SO, 0, |stabs| - 1, addr);
    if lfile == 0 {
      return NoFile;
    }
    if lfile < 0 {
      return BeforeTable;
    }
    PlainBrackets(stabs, N_SO, 0, |stabs| - 1, addr, (lfile, rfile));
    var lfun, rfun := StabBinsearch(stabs, lfile, rfile, N_FUN, addr);
    PlainBrackets(stabs, N_FUN, lfile, rfile, addr, (lfun, rfun));
    return Found(lfile, rfile, lfun, rfun);
  }

  /** A table that starts with a file entry above the address sends the lookup before the table. */
  lemma LeavesTable(stabs: seq<Stab>)
    requires stabs == [Stab(N_SO, 5)]
    ensures FileSearch(stabs, 3) == (-1, -1)
  {
    var s := Start(0, 0, 3);
    assert Next(stabs, N_SO, s) == State(0, -1, 3, 0, -1, true);
    assert Loop(stabs, N_SO, s) == Next(stabs, N_SO, s);
  }

  /** Entry 0 sends the search for `addr` before the table: it lies above the address, or it is at the
      largest address, which is searched for, and no other entry of the type is in the first half. */
  ghost predicate FallsOff(stabs: seq<Stab>, ty: nat, addr: Addr) {
    IsType(stabs, ty, 0) &&
      (stabs[0].value > addr
       || (stabs[0].value == addr == MAXADDR && NoneBetween(stabs, ty, 0, (|stabs| - 1) / 2 + 1)))
  }

  /** The window cannot lose entry 0 on the left of it: the entry is not of the type, or not above the
      key, or behind the window already. */
  ghost predicate Keeping(stabs: seq<Stab>, ty: nat, s: State) {
    && InRange(stabs, s) && s.right == s.r >= 0 && s.left >= 0
    && (IsType(stabs, ty, 0) && s.l == 0 ==> stabs[0].value <= s.key && stabs[0].value < MAXADDR)
  }

  lemma {:induction false} KeepingLoop(stabs: seq<Stab>, ty: nat, s: State)
    requires Keeping(stabs, ty, s)
    ensures var t := Loop(stabs, ty, s); t.right >= 0 && t.left >= 0
    decreases s.r - s.l + 1, AtKey(stabs, ty, s.l, s.key)
  {
    if s.l <= s.r { KeepingLoop(stabs, ty, Next(stabs, ty, s)); }
  }

  /** A table whose first entry is at the largest address, once the key has wrapped at that entry. */
  lemma {:induction false} FallingLoop(stabs: seq<Stab>, ty: nat, s: State)
    requires Sorted(stabs, ty, 0, |stabs| - 1) && IsType(stabs, ty, 0) && stabs[0].value == MAXADDR
    requires InRange(stabs, s) && s.l == 0 && s.key == 0 && s.right == s.r && s.any && s.left == 0
    ensures var t := Loop(stabs, ty, s); t.any && t.right == -1 && t.left == 0
    decreases s.r
  {
    if s.l <= s.r {
      var m := ScanDown(stabs, ty, 0, s.r / 2);
      assert stabs[0].value <= stabs[m].value;
      FallingLoop(stabs, ty, Next(stabs, ty, s));
    }
  }

  lemma FinishLeft(stabs: seq<Stab>, ty: nat, s: State)
    requires s.left >= 0
    ensures Finish(stabs, ty, s).0 < 0 <==> s.any && s.right < 0
  {
    if s.any { RightmostBounds(stabs, ty, s.left, s.right); }
  }

  /** The largest address, with entry 0 there: the first pass decides. */
  lemma TopFirst(stabs: seq<Stab>, ty: nat)
    requires Sorted(stabs, ty, 0, |stabs| - 1) && IsType(stabs, ty, 0) && stabs[0].value == MAXADDR
    ensures Search(stabs, ty, 0, |stabs| - 1, MAXADDR).0 < 0 <==> NoneBetween(stabs, ty, 0, (|stabs| - 1) / 2 + 1)
  {
    var s := Start(0, |stabs| - 1, MAXADDR);
    var m := ScanDown(stabs, ty, 0, (|stabs| - 1) / 2);
    var t := Next(stabs, ty, s);
    assert stabs[0].value <= stabs[m].value;
    assert t == s.(l := m, key := 0, left := m, any := true);
    if m == 0 { FallingLoop(stabs, ty, t); } else { KeepingLoop(stabs, ty, t); }
    FinishLeft(stabs, ty, Loop(stabs, ty, t));
  }

  /** In a sorted table the lookup leaves the table exactly when entry 0 is a file entry above the
      address, or one of the kind FallsOff describes at the largest address. */
  lemma LeavesTableExact(stabs: seq<Stab>, addr: Addr)
    requires Sorted(stabs, N_SO, 0, |stabs| - 1)
    ensures FileSearch(stabs, addr).0 < 0 <==> FallsOff(stabs, N_SO, addr)
  {
    if IsType(stabs, N_SO, 0) && stabs[0].value > addr {
      PlainBrackets(stabs, N_SO, 0, |stabs| - 1, addr, FileSearch(stabs, addr));
      assert SomeType(stabs, N_SO, 0, |stabs| - 1);
      SearchBounds(stabs, N_SO, 0, |stabs| - 1, addr);
    } else if IsType(stabs, N_SO, 0) && stabs[0].value == MAXADDR {
      TopFirst(stabs, N_SO);
    } else {
      var s := Start(0, |stabs| - 1, addr);
      if stabs != [] { KeepingLoop(stabs, N_SO, s); }
      FinishLeft(stabs, N_SO, Loop(stabs, N_SO, s));
    }
  }

  /** debuginfo_eip takes `lfun <= rfun` to mean that lfun is the function holding the address.
      That is so exactly when the file has no function entries or one at or below the address:
      if all of them lie above, lfun is still the file's own entry, and the test succeeds. */
  lemma FunctionTestExact(stabs: seq<Stab>, lfile: int, rfile: int, addr: Addr, res: (int, int))
    requires 0 < lfile <= rfile < |stabs| && IsType(stabs, N_SO, lfile)
    requires Brackets(stabs, N_FUN, lfile, rfile, addr, res)
    ensures (res.0 <= res.1 <==> SomeAtMost(stabs, N_FUN, lfile, rfile, addr))
      <==> !SomeType(stabs, N_FUN, lfile, rfile) || SomeAtMost(stabs, N_FUN, lfile, rfile, addr)
    ensures SomeAtMost(stabs, N_FUN, lfile, rfile, addr) ==> IsType(stabs, N_FUN, res.0) && stabs[res.0].value <= addr
    ensures res.0 <= res.1 && !SomeAtMost(stabs, N_FUN, lfile, rfile, addr) ==> res.0 == lfile
  {
    if SomeType(stabs, N_FUN, lfile, rfile) && !SomeAtMost(stabs, N_FUN, lfile, rfile, addr) {
      assert res.1 != lfile - 1;
    }
  }

  lemma FileRegion(stabs: seq<Stab>)
    requires stabs == [Stab(N_SO, 0), Stab(N_SO, 0), Stab(N_FUN, 5)]
    ensures FileSearch(stabs, 3) == (1, 2)
  {
    var s1 := Next(stabs, N_SO, Start(0, 2, 3));
    assert s1 == State(2, 2, 3, 1, 2, true);
    var s2 := Next(stabs, N_SO, s1);
    assert s2 == State(3, 2, 3, 1, 2, true);
    assert Loop(stabs, N_SO, s1) == Loop(stabs, N_SO, s2) == s2;
    assert Rightmost(stabs, N_SO, 1, 2) == Rightmost(stabs, N_SO, 1, 1) == 1;
  }

  lemma FunctionRegion(stabs: seq<Stab>)
    requires stabs == [Stab(N_SO, 0), Stab(N_SO, 0), Stab(N_FUN, 5)]
    ensures Search(stabs, N_FUN, 1, 2, 3) == (1, 1)
  {
    var s1 := Next(stabs, N_FUN, Start(1, 2, 3));
    assert s1 == State(2, 2, 3, 1, 2, false);
    var s2 := Next(stabs, N_FUN, s1);
    assert s2 == State(2, 1, 3, 1, 1, true);
    assert Loop(stabs, N_FUN, s1) == Loop(stabs, N_FUN, s2) == s2;
  }

  /** The only function of the file lies above the address, and the test takes the file's own
      entry for it. */
  lemma FileTakenForFunction(stabs: seq<Stab>)
    requires stabs == [Stab(N_SO, 0), Stab(N_SO, 0), Stab(N_FUN, 5)]
    ensures FileSearch(stabs, 3) == (1, 2) && Search(stabs, N_FUN, 1, 2, 3) == (1, 1)
    ensures !SomeAtMost(stabs, N_FUN, 1, 2, 3) && !IsType(stabs, N_FUN, 1)
  {
    FileRegion(stabs);
    FunctionRegion(stabs);
  }
}
