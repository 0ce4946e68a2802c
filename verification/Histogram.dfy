/** Frequency maps in which an absent key counts zero. */
module Histogram {

  function At(h: map<nat, nat>, d: nat): (n: nat) {
    if d in h then h[d] else 0
  }

  /** One more occurrence of `d`. */
  function Bumped(h: map<nat, nat>, d: nat): (r: map<nat, nat>)
    ensures forall x :: At(r, x) == At(h, x) + if x == d then 1 else 0
  {
    h[d := At(h, d) + 1]
  }

  /** Frequencies added key by key. */
  function Plus(h: map<nat, nat>, g: map<nat, nat>): (r: map<nat, nat>)
    ensures r.Keys == h.Keys + g.Keys
    ensures forall x :: At(r, x) == At(h, x) + At(g, x)
  {
    map d | d in h.Keys + g.Keys :: At(h, d) + At(g, d)
  }

  /** Maps with the same keys and the same frequencies are equal. */
  lemma SameHistogram(h: map<nat, nat>, g: map<nat, nat>)
    requires h.Keys == g.Keys && forall d :: At(h, d) == At(g, d)
    ensures h == g
  {
    forall d | d in h
      ensures h[d] == g[d]
    {
      assert At(h, d) == At(g, d);
    }
  }

  lemma PlusBump(h: map<nat, nat>, g: map<nat, nat>, d: nat)
    ensures Plus(h, Bumped(g, d)) == Bumped(Plus(h, g), d)
    ensures Plus(Bumped(h, d), g) == Bumped(Plus(h, g), d)
  {
    PlusBumpRight(h, g, d);
    PlusBumpRight(g, h, d);
    PlusCommutes(h, Bumped(g, d));
    PlusCommutes(g, Bumped(h, d));
    PlusCommutes(h, g);
  }

  lemma PlusBumpRight(h: map<nat, nat>, g: map<nat, nat>, d: nat)
    ensures Plus(h, Bumped(g, d)) == Bumped(Plus(h, g), d)
  {
    SameHistogram(Plus(h, Bumped(g, d)), Bumped(Plus(h, g), d));
  }

  lemma PlusCommutes(h: map<nat, nat>, g: map<nat, nat>)
    ensures Plus(h, g) == Plus(g, h)
  {
    hide At;
    SameHistogram(Plus(h, g), Plus(g, h));
  }

  /** The total frequency. */
  ghost function Total(h: map<nat, nat>): (n: nat)
    decreases |h|
  {
    if h == map[] then 0
    else
      var d :| d in h;
      h[d] + Total(h - {d})
  }

  /** Any key may be taken out first. */
  lemma {:induction false} TotalRemove(h: map<nat, nat>, d: nat)
    requires d in h
    ensures Total(h) == h[d] + Total(h - {d})
    decreases |h|
  {
    var e :| e in h && Total(h) == h[e] + Total(h - {e});
    if e != d {
      TotalRemove(h - {e}, d);
      TotalRemove(h - {d}, e);
      assert h - {e} - {d} == h - {d} - {e};
    }
  }

  lemma TotalBumped(h: map<nat, nat>, d: nat)
    ensures Total(Bumped(h, d)) == Total(h) + 1
  {
    var r := Bumped(h, d);
    TotalRemove(r, d);
    if d in h {
      TotalRemove(h, d);
      assert r - {d} == h - {d};
    } else {
      assert r - {d} == h;
    }
  }

  /** The part of a histogram below a distance. */
  ghost function Below(h: map<nat, nat>, limit: nat): (r: map<nat, nat>) {
    map d | d in h && d < limit :: h[d]
  }

  ghost function From(h: map<nat, nat>, limit: nat): (r: map<nat, nat>) {
    map d | d in h && d >= limit :: h[d]
  }

  lemma BelowBumped(h: map<nat, nat>, d: nat, limit: nat)
    ensures Below(Bumped(h, d), limit) == if d < limit then Bumped(Below(h, limit), d) else Below(h, limit)
    ensures From(Bumped(h, d), limit) == if d < limit then From(h, limit) else Bumped(From(h, limit), d)
  {
  }
}
