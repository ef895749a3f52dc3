/** kern/kdebug.c: the binary search over symbol-table entries of one type among entries of others. */
module StabSearch {
  const WORD := 0x1_0000_0000       // uintptr_t wraps here

  type Addr = x: int | 0 <= x < WORD

  datatype Stab = Stab(kind: int, value: Addr)

  predicate Match(stabs: seq<Stab>, kind: int, i: int) { 0 <= i < |stabs| && stabs[i].kind == kind }

  /** The entries of this kind in [lo, hi] lie at increasing addresses, at least 2 apart. */
  ghost predicate Sorted(stabs: seq<Stab>, kind: int, lo: int, hi: int) {
    forall i, j :: lo <= i < j <= hi && Match(stabs, kind, i) && Match(stabs, kind, j) ==>
        stabs[i].value + 2 <= stabs[j].value
  }

  ghost predicate NoMatch(stabs: seq<Stab>, kind: int, lo: int, hi: int) {
    forall i :: lo <= i <= hi ==> !Match(stabs, kind, i)
  }

  /** How many matching entries in [l, r] are at or above addr. */
  ghost function Above(stabs: seq<Stab>, kind: int, addr: nat, l: int, r: int): nat
    decreases r - l + 1
  {
    if l > r then 0
    else Above(stabs, kind, addr, l, r - 1) + if Match(stabs, kind, r) && stabs[r].value >= addr then 1 else 0
  }

  lemma {:induction false} AboveShrinks(stabs: seq<Stab>, kind: int, addr: nat, addr': nat, l: int, r: int, l': int,
                                        r': int)
    requires l <= l' && r' <= r && addr <= addr'
    ensures Above(stabs, kind, addr', l', r') <= Above(stabs, kind, addr, l, r)
    ensures addr < addr' && (exists i :: l' <= i <= r' && Match(stabs, kind, i) && stabs[i].value == addr) ==>
              Above(stabs, kind, addr', l', r') < Above(stabs, kind, addr, l, r)
    decreases r - l + 1
  {
    if l <= r {
      AboveShrinks(stabs, kind, addr, addr', l, r - 1, l', if r' < r then r' else r - 1);
    }
  }

  lemma {:induction false} AboveAtMost(stabs: seq<Stab>, kind: int, addr: nat, l: int, r: int)
    requires 0 <= l
    ensures Above(stabs, kind, addr, l, r) <= if r < l then 0 else r - l + 1
    decreases r - l + 1
  {
    if l <= r {
      AboveAtMost(stabs, kind, addr, l, r - 1);
    }
  }

  /** m is the last matching entry in [lo, hi]. */
  ghost predicate LastMatch(stabs: seq<Stab>, kind: int, lo: int, hi: int, m: int) {
    lo <= m <= hi && Match(stabs, kind, m) && NoMatch(stabs, kind, m + 1, hi)
  }

  /** The result for a region [lo, hi] of sorted entries. */
  ghost predicate Found(stabs: seq<Stab>, kind: int, addr: nat, lo: int, hi: int, left: int, right: int) {
    if NoMatch(stabs, kind, lo, hi) then left == lo && right == lo - 1
    else
      // right ends the region of left: either the whole range ends there or the next match follows it
      && lo - 1 <= right <= hi
      && (right == hi || (Match(stabs, kind, right + 1) && stabs[right+1].value > addr))
      && (if exists i :: lo <= i <= hi && Match(stabs, kind, i) && stabs[i].value <= addr
          then LastMatch(stabs, kind, lo, right, left) && stabs[left].value <= addr
          else NoMatch(stabs, kind, lo, right) && left == if right < lo then right else lo)
  }

  /** The search has narrowed [lo, hi] down to [l, r]: what lies left of l is below addr, what lies right
      of r is above addr0, and left is the last match found below l or the exact hit. */
  ghost predicate Narrowed(stabs: seq<Stab>, kind: int, addr0: nat, addr: nat, lo: int, hi: int, l: int, r: int,
                           left: int) {
    && (forall i :: lo <= i < l && Match(stabs, kind, i) ==> stabs[i].value < addr)
    && (r == hi || (Match(stabs, kind, r + 1) && stabs[r+1].value > addr0))
    && (if addr == addr0
        then (if NoMatch(stabs, kind, lo, l - 1) then left == lo else LastMatch(stabs, kind, lo, l - 1, left))
        else addr == addr0 + 1 && Match(stabs, kind, left) && stabs[left].value == addr0 && lo <= left <= l && left <= r
             && NoMatch(stabs, kind, left + 1, l - 1))
  }

  lemma NarrowSkip(stabs: seq<Stab>, kind: int, addr0: nat, addr: nat, lo: int, hi: int, l: int, r: int, left: int,
                   l': int)
    requires Narrowed(stabs, kind, addr0, addr, lo, hi, l, r, left) && lo <= l <= l' && NoMatch(stabs, kind, l, l' - 1)
    ensures Narrowed(stabs, kind, addr0, addr, lo, hi, l', r, left)
  {
    if addr == addr0 {
      if NoMatch(stabs, kind, lo, l - 1) {
        assert NoMatch(stabs, kind, lo, l' - 1);
      } else {
        assert Match(stabs, kind, left) && lo <= left <= l' - 1;
        assert LastMatch(stabs, kind, lo, l' - 1, left);
      }
    }
  }

  lemma NarrowBelow(stabs: seq<Stab>, kind: int, addr0: nat, addr: nat, lo: int, hi: int, l: int, r: int, left: int,
                    m: int, l': int)
    requires Sorted(stabs, kind, lo, hi) && Narrowed(stabs, kind, addr0, addr, lo, hi, l, r, left)
             && lo <= l <= m < l' <= r + 1 && r <= hi
    requires Match(stabs, kind, m) && stabs[m].value < addr && NoMatch(stabs, kind, m + 1, l' - 1)
    ensures Narrowed(stabs, kind, addr0, addr, lo, hi, l', r, m)
  {
    forall i | lo <= i < l' && Match(stabs, kind, i) ensures i <= m && stabs[i].value < addr {
    }
    assert Match(stabs, kind, m) && lo <= m <= l' - 1;
    assert LastMatch(stabs, kind, lo, l' - 1, m);
    if addr != addr0 {
      assert left == m;
    }
  }

  lemma NarrowAbove(stabs: seq<Stab>, kind: int, addr0: nat, addr: nat, lo: int, hi: int, l: int, r: int, left: int,
                    m: int)
    requires Sorted(stabs, kind, lo, hi) && Narrowed(stabs, kind, addr0, addr, lo, hi, l, r, left)
             && lo <= l <= m <= r <= hi
    requires Match(stabs, kind, m) && stabs[m].value > addr >= addr0
    ensures Narrowed(stabs, kind, addr0, addr, lo, hi, l, m - 1, left)
  {
  }

  lemma NarrowExact(stabs: seq<Stab>, kind: int, addr0: nat, addr: nat, lo: int, hi: int, l: int, r: int, left: int,
                    m: int)
    requires Sorted(stabs, kind, lo, hi) && Narrowed(stabs, kind, addr0, addr, lo, hi, l, r, left)
             && lo <= l <= m <= r <= hi
    requires Match(stabs, kind, m) && stabs[m].value == addr
    ensures addr == addr0 && Narrowed(stabs, kind, addr0, addr + 1, lo, hi, m, r, m)
  {
  }

  /** When l has passed r, left is the last match at or below addr0, if there is one. */
  lemma NarrowEnd(stabs: seq<Stab>, kind: int, addr0: nat, addr: nat, lo: int, hi: int, r: int, left: int)
    requires Sorted(stabs, kind, lo, hi) && Narrowed(stabs, kind, addr0, addr, lo, hi, r + 1, r, left)
             && lo - 1 <= r <= hi
    ensures NoMatch(stabs, kind, lo, r) ==>
              left == lo && (r == hi || forall i :: lo <= i <= hi && Match(stabs, kind, i) ==> stabs[i].value > addr0)
    ensures !NoMatch(stabs, kind, lo, r) ==> LastMatch(stabs, kind, lo, r, left) && stabs[left].value <= addr0
    ensures forall i :: r < i <= hi && Match(stabs, kind, i) ==> stabs[i].value > addr0
  {
    forall i | r < i <= hi && Match(stabs, kind, i) ensures stabs[i].value > addr0 {
      if i > r + 1 {
        assert Match(stabs, kind, r + 1);
      }
    }
  }

  /** The downward scans: from `from` to the first match, but not below `stop`. */
  method LastUpTo(stabs: seq<Stab>, kind: int, stop: int, from: int) returns (m: int)
    requires -1 <= stop && from < |stabs|
    ensures if from < stop then m == from else stop <= m <= from
    ensures m > stop ==> Match(stabs, kind, m) && stabs[m].kind == kind
    ensures NoMatch(stabs, kind, m + 1, from)
  {
    m := from;
    while m > stop && stabs[m].kind != kind
      invariant m <= from && (from >= stop ==> m >= stop) && (from < stop ==> m == from)
      invariant NoMatch(stabs, kind, m + 1, from)
    {
      m := m - 1;
    }
  }

  /** The state of the search; `any` is set once a match has been seen. */
  datatype Search = Search(l: int, r: int, addr: nat, any: bool, left: int, right: int)

  ghost function Measure(stabs: seq<Stab>, kind: int, q: Search): int {
    q.r - q.l + 1 + Above(stabs, kind, q.addr, q.l, q.r)
  }

  /** The search fails for one kind of input only: the highest address there is, with an entry there. */
  ghost predicate Overruns(stabs: seq<Stab>, kind: int, addr: nat, lo: int, hi: int) {
    addr == WORD - 1 && exists i :: lo <= i <= hi && Match(stabs, kind, i) && stabs[i].value == addr
  }

  /** After addr++ has wrapped: the exact hit is the last match, and the next probe moves r below it. */
  ghost predicate Overrun(stabs: seq<Stab>, kind: int, addr0: nat, lo: int, hi: int, q: Search) {
    && addr0 == WORD - 1 && lo <= q.left <= hi && Match(stabs, kind, q.left) && stabs[q.left].value == addr0
    && NoMatch(stabs, kind, q.left + 1, hi) && q.l == q.left && q.addr == 0
    && (q.r == hi || q.r == q.left - 1)
  }

  /** What holds between two turns.  addr++ wraps at most once, because after that it counts entries. */
  ghost predicate Going(stabs: seq<Stab>, kind: int, addr0: nat, lo: int, hi: int, q: Search, wrapped: bool) {
    && lo <= q.l <= q.r + 1 && q.right == q.r <= hi && lo - 1 <= q.r && lo <= q.left && q.addr < WORD
    && (if wrapped then q.any && q.addr + Above(stabs, kind, q.addr, q.l, q.r) <= |stabs| else addr0 <= q.addr)
    && (!q.any ==> q.left == lo && q.r == hi && NoMatch(stabs, kind, lo, q.l - 1))
    && (q.any ==> !NoMatch(stabs, kind, lo, hi))
    && (Sorted(stabs, kind, lo, hi) ==>
          if wrapped then Overrun(stabs, kind, addr0, lo, hi, q)
          else Narrowed(stabs, kind, addr0, q.addr, lo, hi, q.l, q.r, q.left))
  }

  /** The next state is as good as this one, and smaller, or it is the one in which addr has wrapped. */
  ghost predicate Better(stabs: seq<Stab>, kind: int, addr0: nat, lo: int, hi: int, q: Search, w: bool, p: Search,
                         w': bool) {
    && Going(stabs, kind, addr0, lo, hi, p, w') && 0 <= Measure(stabs, kind, p)
    && (if w' == w then Measure(stabs, kind, p) < Measure(stabs, kind, q) else w')
  }

  lemma SkipBetter(stabs: seq<Stab>, kind: int, addr0: nat, lo: int, hi: int, q: Search, w: bool, l: int)
    requires Going(stabs, kind, addr0, lo, hi, q, w) && q.l < l <= q.r + 1 && NoMatch(stabs, kind, q.l, l - 1)
    ensures Better(stabs, kind, addr0, lo, hi, q, w, q.(l := l), w)
  {
    if Sorted(stabs, kind, lo, hi) && w {
      OverrunHit(stabs, kind, addr0, lo, hi, q, l - 1);
    }
    hide Sorted, Narrowed, Above, NoMatch, Match, Overrun;
    AboveShrinks(stabs, kind, q.addr, q.addr, q.l, q.r, l, q.r);
    if Sorted(stabs, kind, lo, hi) && !w { NarrowSkip(stabs, kind, addr0, q.addr, lo, hi, q.l, q.r, q.left, l); }
    if !q.any { NoMatchJoin(stabs, kind, lo, q.l, l - 1); }
  }

  /** After the wrap every probe finds the exact hit again. */
  lemma OverrunHit(stabs: seq<Stab>, kind: int, addr0: nat, lo: int, hi: int, q: Search, m: int)
    requires Overrun(stabs, kind, addr0, lo, hi, q) && q.l <= m <= q.r
    ensures q.r == hi && !NoMatch(stabs, kind, q.l, m)
    ensures forall i :: q.l <= i <= m && Match(stabs, kind, i) ==> i == q.left && stabs[i].value > q.addr
  {
  }

  lemma BelowBetter(stabs: seq<Stab>, kind: int, addr0: nat, lo: int, hi: int, q: Search, w: bool, m: int, l: int)
    requires 0 <= lo && Going(stabs, kind, addr0, lo, hi, q, w) && q.l <= m < l <= q.r + 1
             && NoMatch(stabs, kind, m + 1, l - 1)
    requires Match(stabs, kind, m) && stabs[m].value < q.addr
    ensures Better(stabs, kind, addr0, lo, hi, q, w, q.(any := true, left := m, l := l), w)
  {
    SomeMatch(stabs, kind, lo, hi, m);
    if Sorted(stabs, kind, lo, hi) && w {
      OverrunHit(stabs, kind, addr0, lo, hi, q, m);
    }
    hide Sorted, Narrowed, Above, NoMatch, Overrun;
    AboveShrinks(stabs, kind, q.addr, q.addr, q.l, q.r, l, q.r);
    if Sorted(stabs, kind, lo, hi) && !w { NarrowBelow(stabs, kind, addr0, q.addr, lo, hi, q.l, q.r, q.left, m, l); }
  }

  lemma AboveBetter(stabs: seq<Stab>, kind: int, addr0: nat, lo: int, hi: int, q: Search, w: bool, m: int)
    requires 0 <= lo && Going(stabs, kind, addr0, lo, hi, q, w) && q.l <= m <= q.r
    requires Match(stabs, kind, m) && stabs[m].value > q.addr
    ensures Better(stabs, kind, addr0, lo, hi, q, w, q.(any := true, right := m - 1, r := m - 1), w)
  {
    hide Sorted, Narrowed, Above, NoMatch;
    SomeMatch(stabs, kind, lo, hi, m);
    if Sorted(stabs, kind, lo, hi) && w {
      OverrunHit(stabs, kind, addr0, lo, hi, q, m);
    }
    AboveShrinks(stabs, kind, q.addr, q.addr, q.l, q.r, q.l, m - 1);
    if Sorted(stabs, kind, lo, hi) && !w { NarrowAbove(stabs, kind, addr0, q.addr, lo, hi, q.l, q.r, q.left, m); }
  }

  /** An exact hit: the region may stay as it is, but one entry fewer is at or above the new address;
      at the highest address of all, the search starts to overrun. */
  lemma ExactBetter(stabs: seq<Stab>, kind: int, addr0: nat, lo: int, hi: int, q: Search, w: bool, m: int)
    requires 0 <= lo && |stabs| < WORD && hi < |stabs| && Going(stabs, kind, addr0, lo, hi, q, w) && q.l <= m <= q.r
    requires Match(stabs, kind, m) && stabs[m].value == q.addr
    ensures w ==> q.addr + 1 < WORD
    ensures Better(stabs, kind, addr0, lo, hi, q, w, q.(any := true, left := m, l := m, addr := (q.addr + 1) % WORD),
                   w || q.addr == WORD - 1)
  {
    hide Sorted, Narrowed, Above, NoMatch;
    SomeMatch(stabs, kind, lo, hi, m);
    if Sorted(stabs, kind, lo, hi) && w {
      OverrunHit(stabs, kind, addr0, lo, hi, q, m);
    }
    ExactFalls(stabs, kind, q.addr, q.l, q.r, m);
    AboveAtMost(stabs, kind, 0, m, q.r);
    if Sorted(stabs, kind, lo, hi) && !w {
      NarrowExact(stabs, kind, addr0, q.addr, lo, hi, q.l, q.r, q.left, m);
      if q.addr == WORD - 1 {
        HighestIsLast(stabs, kind, addr0, lo, hi, q, m);
      }
    }
  }

  lemma HighestIsLast(stabs: seq<Stab>, kind: int, addr0: nat, lo: int, hi: int, q: Search, m: int)
    requires Sorted(stabs, kind, lo, hi) && Narrowed(stabs, kind, addr0, q.addr, lo, hi, q.l, q.r, q.left)
    requires lo <= m <= q.r <= hi && Match(stabs, kind, m) && stabs[m].value == q.addr == addr0 == WORD - 1
    ensures q.r == hi && NoMatch(stabs, kind, m + 1, hi)
  {
  }

  /** One turn of the loop. */
  method Probe(stabs: seq<Stab>, kind: int, ghost addr0: nat, ghost lo: int, ghost hi: int, q: Search, ghost w: bool)
    returns (p: Search, ghost w': bool)
    requires 0 <= lo && hi < |stabs| < WORD && Going(stabs, kind, addr0, lo, hi, q, w) && q.l <= q.r
    ensures Better(stabs, kind, addr0, lo, hi, q, w, p, w')
  {
    hide Better, Sorted, Narrowed, Above, Overrun;
    w' := w;
    var trueM := (q.l + q.r) / 2;
    var m := LastUpTo(stabs, kind, q.l - 1, trueM);
    if m < q.l {
      SkipBetter(stabs, kind, addr0, lo, hi, q, w, trueM + 1);
      return q.(l := trueM + 1), w';
    }
    if stabs[m].value < q.addr {
      BelowBetter(stabs, kind, addr0, lo, hi, q, w, m, trueM + 1);
      p := q.(any := true, left := m, l := trueM + 1);
    } else if stabs[m].value > q.addr {
      AboveBetter(stabs, kind, addr0, lo, hi, q, w, m);
      p := q.(any := true, right := m - 1, r := m - 1);
    } else {
      ExactBetter(stabs, kind, addr0, lo, hi, q, w, m);
      p := q.(any := true, left := m, l := m, addr := (q.addr + 1) % WORD);
      w' := w || q.addr == WORD - 1;
    }
  }

  /** stab_binsearch.  An entry that equals addr is remembered and the search goes on for addr + 1; that
      the loop ends at all rests on the number of entries at or above addr in the region.  On sorted
      entries the result is the promised one if and only if addr + 1 was never needed past the last address. */
  method StabBinsearch(stabs: seq<Stab>, regionLeft: int, regionRight: int, kind: int, addr: Addr)
    returns (left: int, right: int)
    requires 0 <= regionLeft && regionRight < |stabs| < WORD && regionLeft <= regionRight + 1
    ensures Sorted(stabs, kind, regionLeft, regionRight) ==>
              (Found(stabs, kind, addr, regionLeft, regionRight, left, right) <==>
               !Overruns(stabs, kind, addr, regionLeft, regionRight))
  {
    hide Sorted, Narrowed, Found, Above, Match, Overrun, Overruns;
    var q := Search(regionLeft, regionRight, addr, false, regionLeft, regionRight);
    ghost var w := false;
    NarrowStart(stabs, kind, addr, regionLeft, regionRight);
    while q.l <= q.r
      invariant Going(stabs, kind, addr, regionLeft, regionRight, q, w)
      decreases if w then 0 else 1, Measure(stabs, kind, q)
    {
      q, w := Probe(stabs, kind, addr, regionLeft, regionRight, q, w);
    }
    left, right := q.left, q.right;
    if Sorted(stabs, kind, regionLeft, regionRight) && w {
      OverrunEnd(stabs, kind, addr, regionLeft, regionRight, q);
    }
    if !q.any {
      right := left - 1;
    } else {
      left := LastUpTo(stabs, kind, left, right);
    }
    if Sorted(stabs, kind, regionLeft, regionRight) {
      if w {
        OverrunDone(stabs, kind, addr, regionLeft, regionRight, q, left, right);
      } else {
        SearchDone(stabs, kind, addr, q.addr, regionLeft, regionRight, q.r, q.left, q.any, left, right);
        NeverOverran(stabs, kind, addr, q.addr, regionLeft, regionRight, q.r, q.left);
      }
    }
  }

  lemma OverrunEnd(stabs: seq<Stab>, kind: int, addr0: nat, lo: int, hi: int, q: Search)
    requires Overrun(stabs, kind, addr0, lo, hi, q) && q.l == q.r + 1
    ensures q.r == q.left - 1
  {
  }

  lemma OverrunDone(stabs: seq<Stab>, kind: int, addr0: nat, lo: int, hi: int, q: Search, left: int, right: int)
    requires Overrun(stabs, kind, addr0, lo, hi, q) && q.l == q.r + 1 && left == right == q.r
    ensures Overruns(stabs, kind, addr0, lo, hi) && !Found(stabs, kind, addr0, lo, hi, left, right)
  {
  }

  /** Without a wrap the highest address was not hit: the hit would have made the next one. */
  lemma NeverOverran(stabs: seq<Stab>, kind: int, addr0: nat, addr: nat, lo: int, hi: int, r: int, left: int)
    requires Sorted(stabs, kind, lo, hi) && Narrowed(stabs, kind, addr0, addr, lo, hi, r + 1, r, left)
             && lo - 1 <= r <= hi
    requires addr < WORD
    ensures !Overruns(stabs, kind, addr0, lo, hi)
  {
  }

  lemma NoMatchJoin(stabs: seq<Stab>, kind: int, lo: int, mid: int, hi: int)
    requires NoMatch(stabs, kind, lo, mid - 1) && NoMatch(stabs, kind, mid, hi)
    ensures NoMatch(stabs, kind, lo, hi)
  {
  }

  lemma SomeMatch(stabs: seq<Stab>, kind: int, lo: int, hi: int, m: int)
    requires lo <= m <= hi && 0 <= m < |stabs| && stabs[m].kind == kind
    ensures Match(stabs, kind, m) && !NoMatch(stabs, kind, lo, hi)
  {
    assert Match(stabs, kind, m);
  }

  lemma ExactFalls(stabs: seq<Stab>, kind: int, addr: nat, l: int, r: int, m: int)
    requires l <= m <= r && Match(stabs, kind, m) && stabs[m].value == addr
    ensures Above(stabs, kind, addr + 1, m, r) < Above(stabs, kind, addr, l, r)
  {
    AboveShrinks(stabs, kind, addr, addr + 1, l, r, m, r);
  }

  lemma NarrowStart(stabs: seq<Stab>, kind: int, addr0: nat, lo: int, hi: int)
    ensures Narrowed(stabs, kind, addr0, addr0, lo, hi, lo, hi, lo)
  {
  }

  lemma SearchDone(stabs: seq<Stab>, kind: int, addr0: nat, addr: nat, lo: int, hi: int, r: int, last: int, any: bool,
                   left: int, right: int)
    requires Sorted(stabs, kind, lo, hi) && Narrowed(stabs, kind, addr0, addr, lo, hi, r + 1, r, last)
             && lo - 1 <= r <= hi
    requires !any ==> NoMatch(stabs, kind, lo, hi) && left == lo && right == lo - 1
    requires any ==> !NoMatch(stabs, kind, lo, hi) && right == r && NoMatch(stabs, kind, left + 1, r)
    requires any ==> left <= r && (r >= last ==> left >= last) && (r < last ==> left == r)
    requires any && left > last ==> Match(stabs, kind, left)
    ensures Found(stabs, kind, addr0, lo, hi, left, right)
  {
    NarrowEnd(stabs, kind, addr0, addr, lo, hi, r, last);
    if any {
      if NoMatch(stabs, kind, lo, r) {
        assert forall i :: lo <= i <= hi && Match(stabs, kind, i) ==> i > r;
      } else {
        assert Match(stabs, kind, last) && left == last;
      }
    }
  }

  /** A region that fails: one function entry, at the highest address, which is the one searched for. */
  method TopOfMemory() returns (left: int, right: int)
    ensures !Found([Stab(36, WORD - 1)], 36, WORD - 1, 0, 0, left, right)
  {
    hide Found;
    var stabs := [Stab(36, WORD - 1)];
    assert Match(stabs, 36, 0);
    left, right := StabBinsearch(stabs, 0, 0, 36, WORD - 1);
  }
}
