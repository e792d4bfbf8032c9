/** Ranks: one 5-bit digit per argument position, the first position the most significant. */
module Ranking {
  import opened Delegation

  const POSITIONS: nat := 6

  /** 1 << ((5 - i) * 5). */
  function Weight(i: nat): nat
    requires i < POSITIONS
  {
    [33554432, 1048576, 32768, 1024, 32, 1][i]
  }

  predicate IsDigits(ds: seq<nat>) {
    |ds| == POSITIONS && forall i | 0 <= i < POSITIONS :: ds[i] < 32
  }

  /** The packed rank: or-ing digits into disjoint fields is adding them. */
  function Pack(ds: seq<nat>): nat
    requires |ds| == POSITIONS
  {
    ds[0] * 33554432 + ds[1] * 1048576 + ds[2] * 32768 + ds[3] * 1024 + ds[4] * 32 + ds[5]
  }

  lemma PackMore(ds: seq<nat>, i: nat, d: nat)
    requires |ds| == POSITIONS && i < POSITIONS && ds[i] == 0
    ensures Pack(ds[i := d]) == Pack(ds) + d * Weight(i)
  {
  }

  /** a comes before b when it has the smaller digit at the first position where they differ. */
  ghost predicate Less(a: seq<nat>, b: seq<nat>) {
    exists p :: LessAt(a, b, p)
  }

  predicate LessAt(a: seq<nat>, b: seq<nat>, p: nat) {
    |a| == |b| && p < |a| && a[..p] == b[..p] && a[p] < b[p]
  }

  lemma LessPacks(a: seq<nat>, b: seq<nat>, p: nat)
    requires IsDigits(a) && IsDigits(b) && LessAt(a, b, p)
    ensures Pack(a) < Pack(b)
  {
    assert forall q | 0 <= q < p :: a[q] == a[..p][q] == b[..p][q] == b[q];
  }

  lemma FirstDifference(a: seq<nat>, b: seq<nat>) returns (p: nat)
    requires |a| == |b|
    ensures p <= |a| && a[..p] == b[..p] && (p < |a| ==> a[p] != b[p])
  {
    p := 0;
    while p < |a| && a[p] == b[p]
      invariant p <= |a| && a[..p] == b[..p]
    {
      p := p + 1;
    }
  }

  /** Comparing packed ranks is comparing the digits lexicographically, argument 0 first. */
  lemma RankIsLexicographic(a: seq<nat>, b: seq<nat>)
    requires IsDigits(a) && IsDigits(b)
    ensures Pack(a) < Pack(b) <==> Less(a, b)
  {
    var p := FirstDifference(a, b);
    if p == |a| {
      assert a == b;
    } else if a[p] < b[p] {
      LessPacks(a, b, p);
      assert LessAt(a, b, p) && Less(a, b);
    } else {
      assert LessAt(b, a, p);
      LessPacks(b, a, p);
    }
    if Less(a, b) {
      var q :| LessAt(a, b, q);
      LessPacks(a, b, q);
    }
  }

  // ---------- digits of a definition ----------

  /** How far dispatch has come: arguments before `arg` are done, and `count` maps of that argument. */
  datatype Progress = Progress(arg: nat, count: nat)

  /** The definition's digit at position p: 31 less the depth at which it is found there first. */
  function Digit(w: World, walks: seq<seq<int>>, d: int, p: nat, at: Progress): nat {
    if p < |walks| then
      var k := FirstFound(w, walks[p], d, p);
      if k < |walks[p]| && (p < at.arg || (p == at.arg && k < at.count)) && k <= 31 then 31 - k else 0
    else 0
  }

  function Digits(w: World, walks: seq<seq<int>>, d: int, at: Progress): (r: seq<nat>)
    ensures IsDigits(r)
  {
    seq(POSITIONS, p requires 0 <= p < POSITIONS => Digit(w, walks, d, p, at))
  }

  /** The positions at which the definition has been found. */
  function FoundAt(w: World, walks: seq<seq<int>>, d: int, at: Progress): set<nat> {
    set p: nat | p < |walks| && FirstFound(w, walks[p], d, p) < |walks[p]|
                 && (p < at.arg || (p == at.arg && FirstFound(w, walks[p], d, p) < at.count))
  }

  /** The end of the search. */
  function End(walks: seq<seq<int>>): Progress {
    Progress(|walks|, 0)
  }

  /** An applicable definition is found at all the positions it dispatches on. */
  predicate Applicable(w: World, walks: seq<seq<int>>, d: int) {
    FoundAt(w, walks, d, End(walks)) == w.positions(d) && w.positions(d) != {}
  }

  function Rank(w: World, walks: seq<seq<int>>, d: int): nat {
    Pack(Digits(w, walks, d, End(walks)))
  }

  /** No argument's walk is longer than the digits can tell apart. */
  ghost predicate Short(walks: seq<seq<int>>) {
    |walks| <= POSITIONS && forall p | 0 <= p < |walks| :: |walks[p]| <= 31
  }

  /** A definition that dispatches on found positions only has its final digits. */
  lemma CompleteIsFinal(w: World, walks: seq<seq<int>>, d: int, at: Progress)
    requires WellFormed(w) && Short(walks) && (forall p, k | 0 <= p < |walks| && 0 <= k < |walks[p]| :: walks[p][k] in w.maps)
    requires FoundAt(w, walks, d, at) == w.positions(d) && at.arg <= |walks|
    ensures Digits(w, walks, d, at) == Digits(w, walks, d, End(walks)) && FoundAt(w, walks, d, End(walks)) == w.positions(d)
  {
    forall p: nat | p < |walks| && FirstFound(w, walks[p], d, p) < |walks[p]| ensures p in FoundAt(w, walks, d, at) {
      var k := FirstFound(w, walks[p], d, p);
      var m := walks[p][k];
      assert HasRole(w, m, d, p);
      var r :| 0 <= r < |w.roles(m)| && w.roles(m)[r].def == d && p in w.roles(m)[r].positions;
      assert w.roles(m)[r].positions <= w.positions(d);
    }
    forall p | 0 <= p < POSITIONS ensures Digit(w, walks, d, p, at) == Digit(w, walks, d, p, End(walks)) {
      if p < |walks| && FirstFound(w, walks[p], d, p) < |walks[p]| {
        assert p in FoundAt(w, walks, d, at);
      }
    }
    forall p ensures p in FoundAt(w, walks, d, End(walks)) <==> p in w.positions(d) {
    }
  }

  /**
   * Why dispatch may stop early: what is found later adds a smaller digit at the present position, or digits at
   * less significant ones, so it cannot catch up with a complete definition that ranks above everything else.
   */
  lemma NoneCatchesUp(w: World, walks: seq<seq<int>>, d: int, e: int, at: Progress)
    requires Short(walks) && at.arg < |walks| && at.count <= |walks[at.arg]|
    requires Digits(w, walks, d, at) == Digits(w, walks, d, End(walks))
    requires Pack(Digits(w, walks, e, at)) < Pack(Digits(w, walks, d, at))
    ensures Rank(w, walks, e) < Rank(w, walks, d)
  {
    hide Digits, Pack;
    RankIsLexicographic(Digits(w, walks, e, at), Digits(w, walks, d, at));
    Unfinished(w, walks, d, at);
    Unfinished(w, walks, e, at);
    var p :| LessAt(Digits(w, walks, e, at), Digits(w, walks, d, at), p);
    StaysLess(Digits(w, walks, e, at), Digits(w, walks, d, at), Digits(w, walks, e, End(walks)), at.arg, 32 - at.count, p);
    LessPacks(Digits(w, walks, e, End(walks)), Digits(w, walks, d, End(walks)), p);
  }

  /** The digits a grow to a', behind position i or, from zero, at i to less than `bound`: the first difference to b stays. */
  lemma StaysLess(a: seq<nat>, b: seq<nat>, a': seq<nat>, i: nat, bound: int, p: nat)
    requires IsDigits(a) && IsDigits(b) && IsDigits(a') && i < POSITIONS && LessAt(a, b, p)
    requires forall q | 0 <= q < i :: a[q] == a'[q]
    requires forall q | i < q < POSITIONS :: b[q] == 0
    requires a[i] != 0 ==> a'[i] == a[i]
    requires a[i] == 0 ==> a'[i] < bound
    requires b[i] != 0 ==> b[i] >= bound
    ensures LessAt(a', b, p)
  {
    assert p <= i;
    forall q | 0 <= q < p ensures a'[q] == b[q] {
      assert a[q] == a[..p][q] == b[..p][q] == b[q];
    }
    assert a'[..p] == b[..p];
  }

  /** Digits at finished positions are final, those at later ones are zero, and at the present one only a smaller one may come. */
  lemma Unfinished(w: World, walks: seq<seq<int>>, d: int, at: Progress)
    requires Short(walks) && at.arg < |walks| && at.count <= |walks[at.arg]|
    ensures var ds, fs := Digits(w, walks, d, at), Digits(w, walks, d, End(walks));
      && (forall q | 0 <= q < at.arg :: ds[q] == fs[q]) && (forall q | at.arg < q < POSITIONS :: ds[q] == 0)
      && (ds[at.arg] != 0 ==> fs[at.arg] == ds[at.arg] && ds[at.arg] >= 32 - at.count)
      && (ds[at.arg] == 0 ==> fs[at.arg] < 32 - at.count)
  {
  }
}
