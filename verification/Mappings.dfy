/** pp_ref of an ordinary page is the number of places at which environments map it. */
module Mappings {
  import opened Mmu
  import opened PageRefs
  import opened PageCounts
  import opened Spaces
  import EnvVm

  /** Environment `env` maps something at page number `vpn`. */
  datatype Place = Place(env: nat, vpn: nat)

  predicate MapsTo(views: seq<map<nat, Word>>, c: Place, g: nat) {
    c.env < |views| && c.vpn in views[c.env] && views[c.env][c.vpn].frame == g
  }

  /** All places that map page g. */
  ghost function Places(views: seq<map<nat, Word>>, g: nat): (r: set<Place>)
    ensures forall c :: c in r <==> MapsTo(views, c, g)
  {
    set e, v | 0 <= e < |views| && v in views[e] && views[e][v].frame == g :: Place(e, v)
  }

  /** The place a page-table entry stands for, read off the back pointers. */
  function PlaceOf(s: Mem, c: Slot): Place
    requires |s.kind| == |s.frames|
  {
    if c.Entry? && c.frame < |s.kind| && s.kind[c.frame].Table? && s.kind[c.frame].dir < |s.kind|
       && s.kind[s.kind[c.frame].dir].Dir?
    then Place(s.kind[s.kind[c.frame].dir].env, Vpn(s.kind[c.frame].pdx, c.idx))
    else Place(0, 0)
  }

  function SlotAt(s: Mem, c: Place): Slot {
    if c.env < |s.roots| && s.roots[c.env] < |s.frames|
    then Entry(s.frames[s.roots[c.env]][Pdx(c.vpn)].frame, Ptx(c.vpn))
    else Root(0)
  }

  lemma EntryIsPlace(s: Mem, c: Slot, g: nat)
    requires Typed(s) && g < |s.kind| && s.kind[g] == Data && RefersTo(s, c, g)
    ensures MapsTo(Views(s), PlaceOf(s, c), g) && SlotAt(s, PlaceOf(s, c)) == c
  {
    hide Space;
    assert c.Entry? && s.kind[c.frame].Table?;
    var d, i := s.kind[c.frame].dir, s.kind[c.frame].pdx;
    JoinVpn(i, c.idx);
    Translate(s, d, Vpn(i, c.idx));
  }

  lemma PlaceIsEntry(s: Mem, c: Place, g: nat)
    requires Typed(s) && MapsTo(Views(s), c, g)
    ensures RefersTo(s, SlotAt(s, c), g) && PlaceOf(s, SlotAt(s, c)) == c
  {
    hide Space;
    var d := s.roots[c.env];
    assert s.kind[d] == Dir(c.env);
    SpaceBelow(s.frames, d, c.vpn);
    Translate(s, d, c.vpn);
    SplitVpn(c.vpn);
  }

  lemma SpaceBelow(frames: seq<Page>, d: nat, v: nat)
    requires d < |frames| && v in Space(frames, d)
    ensures v < UTOP_VPN
  {
  }

  lemma {:induction false} SameSize<A, B>(a: set<A>, b: set<B>, f: map<A, B>, g: map<B, A>)
    requires f.Keys == a && g.Keys == b
    requires forall x :: x in a ==> f[x] in b && g[f[x]] == x
    requires forall y :: y in b ==> g[y] in a && f[g[y]] == y
    ensures |a| == |b|
  {
    if a == {} {
      assert b == {} by {
        if y :| y in b {
          assert g[y] in a;
        }
      }
    } else {
      var x :| x in a;
      SameSize(a - {x}, b - {f[x]}, f - {x}, g - {f[x]});
    }
  }

  /** The count kept in pp_ref is the number of (environment, page number) pairs that map the page. */
  lemma RefIsPlaces(s: Mem, pages: seq<PageInfo>, head: int, free: seq<nat>, g: nat)
    requires Inv(s, pages, head, free, multiset{}, {}) && g in s.managed && g < |s.kind| && s.kind[g] == Data
    ensures g < |pages| && pages[g].ref == |Places(Views(s), g)|
  {
    hide Inv, Typed, Refs, MapsTo, Views, PlaceOf, SlotAt, RefersTo;
    EnvVm.FreeIffUnreferenced(s, pages, head, free, g);
    InvTyped(s, pages, head, free, multiset{}, {});
    var a, b := Refs(s, g), Places(Views(s), g);
    var f := map c | c in a :: PlaceOf(s, c);
    var h := map c | c in b :: SlotAt(s, c);
    RefsAre(s, g);
    forall c | c in a ensures f[c] in b && h[f[c]] == c {
      EntryIsPlace(s, c, g);
    }
    forall c | c in b ensures h[c] in a && f[h[c]] == c {
      PlaceIsEntry(s, c, g);
    }
    SameSize(a, b, f, h);
  }

  lemma RefsAre(s: Mem, g: nat)
    requires |s.kind| == |s.frames|
    ensures forall c :: c in Refs(s, g) <==> RefersTo(s, c, g)
  {
  }
}
