/** Open addressing with linear probing: from its home position an entry is looked for up to the end of the table and then from its start. */
module Probing {
  import opened Wrappers

  type Table<T> = seq<Option<T>>

  /** The j-th position that is looked at from position h on. */
  function At(h: nat, j: nat, n: nat): nat
    requires h < n && j < n
  {
    if h + j < n then h + j else h + j - n
  }

  /** How many positions are looked at before p. */
  function Dist(h: nat, p: nat, n: nat): nat
    requires h < n && p < n
  {
    if h <= p then p - h else p + n - h
  }

  lemma AtDist(h: nat, p: nat, n: nat)
    requires h < n && p < n
    ensures Dist(h, p, n) < n && At(h, Dist(h, p, n), n) == p
    ensures forall j | 0 <= j < n :: At(h, j, n) < n && Dist(h, At(h, j, n), n) == j
  {
  }

  /** The position of the first entry that matches, if no free position comes before it. */
  function Probe<T>(t: Table<T>, h: nat, matches: T -> bool, j: nat): Option<nat>
    requires h < |t| && j <= |t|
    decreases |t| - j
  {
    if j == |t| then None
    else
      var p := At(h, j, |t|);
      if t[p].None? then None
      else if matches(t[p].value) then Some(p)
      else Probe(t, h, matches, j + 1)
  }

  /** The first free position. */
  function FirstFree<T>(t: Table<T>, h: nat, j: nat): Option<nat>
    requires h < |t| && j <= |t|
    decreases |t| - j
  {
    if j == |t| then None
    else
      var p := At(h, j, |t|);
      if t[p].None? then Some(p) else FirstFree(t, h, j + 1)
  }

  ghost predicate Occupied<T>(t: Table<T>, h: nat, d: nat)
    requires h < |t| && d <= |t|
  {
    forall j | 0 <= j < d :: t[At(h, j, |t|)].Some?
  }

  /** There is no free position between any entry's home and the entry. */
  ghost predicate ProbeOk<T>(t: Table<T>, home: T -> nat) {
    forall p | 0 <= p < |t| && t[p].Some? :: home(t[p].value) < |t| && Occupied(t, home(t[p].value), Dist(home(t[p].value), p, |t|))
  }

  lemma {:induction false} ProbeFinds<T>(t: Table<T>, h: nat, matches: T -> bool, j: nat)
    requires h < |t| && j <= |t| && Occupied(t, h, j)
    ensures Probe(t, h, matches, j).Some? ==>
      var p := Probe(t, h, matches, j).value;
      p < |t| && t[p].Some? && matches(t[p].value) && j <= Dist(h, p, |t|) && Occupied(t, h, Dist(h, p, |t|))
    decreases |t| - j
  {
    if j < |t| {
      AtDist(h, At(h, j, |t|), |t|);
      if t[At(h, j, |t|)].Some? {
        assert Occupied(t, h, j + 1);
        ProbeFinds(t, h, matches, j + 1);
      }
    }
  }

  /** An entry that matches is found, or another one before it. */
  lemma {:induction false} ProbeMeets<T>(t: Table<T>, h: nat, matches: T -> bool, j: nat, p: nat)
    requires h < |t| && p < |t| && j <= Dist(h, p, |t|) && t[p].Some? && matches(t[p].value) && Occupied(t, h, Dist(h, p, |t|))
    ensures Probe(t, h, matches, j).Some?
    decreases |t| - j
  {
    AtDist(h, p, |t|);
    if j < Dist(h, p, |t|) {
      ProbeMeets(t, h, matches, j + 1, p);
    }
  }

  /** Looking for an entry from its home finds one if and only if the table has one. */
  lemma ProbeIffPresent<T>(t: Table<T>, home: T -> nat, h: nat, matches: T -> bool)
    requires h < |t| && ProbeOk(t, home) && forall v | matches(v) :: home(v) == h
    ensures Probe(t, h, matches, 0).Some? <==> exists p :: 0 <= p < |t| && t[p].Some? && matches(t[p].value)
  {
    ProbeFinds(t, h, matches, 0);
    if p :| 0 <= p < |t| && t[p].Some? && matches(t[p].value) {
      ProbeMeets(t, h, matches, 0, p);
    }
  }

  lemma {:induction false} FreeFinds<T>(t: Table<T>, h: nat, j: nat)
    requires h < |t| && j <= |t| && Occupied(t, h, j)
    ensures FirstFree(t, h, j).Some? ==>
      var p := FirstFree(t, h, j).value;
      p < |t| && t[p].None? && Occupied(t, h, Dist(h, p, |t|))
    ensures FirstFree(t, h, j).None? ==> forall p | 0 <= p < |t| :: t[p].Some?
    decreases |t| - j
  {
    if j < |t| {
      AtDist(h, At(h, j, |t|), |t|);
      if t[At(h, j, |t|)].Some? {
        assert Occupied(t, h, j + 1);
        FreeFinds(t, h, j + 1);
      }
    } else {
      forall p | 0 <= p < |t| ensures t[p].Some? {
        AtDist(h, p, |t|);
        assert t[At(h, Dist(h, p, |t|), |t|)].Some?;
      }
    }
  }

  /** An entry put at the first free position from its home keeps every entry within reach. */
  lemma InsertOk<T>(t: Table<T>, home: T -> nat, e: T, p: nat)
    requires ProbeOk(t, home) && home(e) < |t| && FirstFree(t, home(e), 0) == Some(p)
    ensures p < |t| && t[p].None? && ProbeOk(t[p := Some(e)], home)
  {
    FreeFinds(t, home(e), 0);
    var t' := t[p := Some(e)];
    forall q | 0 <= q < |t'| && t'[q].Some?
      ensures home(t'[q].value) < |t'| && Occupied(t', home(t'[q].value), Dist(home(t'[q].value), q, |t'|))
    {
      var h := home(t'[q].value);
      assert Occupied(t, h, Dist(h, q, |t|));
      forall j | 0 <= j < Dist(h, q, |t|) ensures t'[At(h, j, |t|)].Some? {
        assert t[At(h, j, |t|)].Some?;
      }
    }
  }

  /** An insertion changes no lookup that found something, and otherwise only the one for the new entry. */
  lemma InsertLookup<T>(t: Table<T>, home: T -> nat, e: T, p: nat, h: nat, matches: T -> bool)
    requires ProbeOk(t, home) && home(e) < |t| && FirstFree(t, home(e), 0) == Some(p) && p < |t|
    requires h < |t| && forall v | matches(v) :: home(v) == h
    ensures Probe(t[p := Some(e)], h, matches, 0) ==
      if Probe(t, h, matches, 0).Some? then Probe(t, h, matches, 0) else if matches(e) then Some(p) else None
  {
    var t' := t[p := Some(e)];
    InsertOk(t, home, e, p);
    FreeFinds(t, home(e), 0);
    ProbeFinds(t, h, matches, 0);
    ProbeIffPresent(t, home, h, matches);
    ProbeIffPresent(t', home, h, matches);
    if Probe(t, h, matches, 0).Some? {
      SameProbe(t, p, e, h, matches, 0, Probe(t, h, matches, 0).value);
    } else if matches(e) {
      assert t'[p].Some? && matches(t'[p].value);
      ProbeFinds(t', h, matches, 0);
      assert forall q | 0 <= q < |t| && q != p :: t'[q] == t[q];
    } else {
      forall q | 0 <= q < |t'| && t'[q].Some? ensures !matches(t'[q].value) {
        if q != p {
          assert t[q].Some?;
        }
      }
    }
  }

  lemma {:induction false} SameProbe<T>(t: Table<T>, p: nat, e: T, h: nat, matches: T -> bool, j: nat, q: nat)
    requires p < |t| && t[p].None? && h < |t| && j <= |t| && Probe(t, h, matches, j) == Some(q)
    ensures Probe(t[p := Some(e)], h, matches, j) == Some(q)
    decreases |t| - j
  {
    if !matches(t[At(h, j, |t|)].value) {
      SameProbe(t, p, e, h, matches, j + 1, q);
    }
  }

  /** The number of entries. */
  ghost function Used<T>(t: Table<T>): nat {
    if t == [] then 0 else Used(t[..|t| - 1]) + if t[|t| - 1].Some? then 1 else 0
  }

  lemma {:induction false} UsedBound<T>(t: Table<T>)
    ensures Used(t) <= |t|
  {
    if t != [] {
      UsedBound(t[..|t| - 1]);
    }
  }

  lemma {:induction false} UsedBelow<T>(t: Table<T>, i: nat)
    requires i <= |t|
    ensures Used(t[..i]) <= Used(t)
  {
    if i == |t| {
      assert t[..i] == t;
    } else {
      assert t[..|t| - 1][..i] == t[..i];
      UsedBelow(t[..|t| - 1], i);
    }
  }

  lemma {:induction false} AllUsed<T>(t: Table<T>)
    ensures (forall p | 0 <= p < |t| :: t[p].Some?) ==> Used(t) == |t|
  {
    if t != [] {
      AllUsed(t[..|t| - 1]);
    }
  }

  lemma {:induction false} InsertUsed<T>(t: Table<T>, p: nat, e: T)
    requires p < |t| && t[p].None?
    ensures Used(t[p := Some(e)]) == Used(t) + 1
  {
    var t' := t[p := Some(e)];
    if p == |t| - 1 {
      assert t'[..p] == t[..p];
    } else {
      assert t'[..|t| - 1] == t[..|t| - 1][p := Some(e)];
      InsertUsed(t[..|t| - 1], p, e);
    }
  }

  lemma {:induction false} NoneUsed<T>(t: Table<T>)
    requires forall p | 0 <= p < |t| :: t[p].None?
    ensures Used(t) == 0
  {
    if t != [] {
      NoneUsed(t[..|t| - 1]);
    }
  }
}
