/** The table that says where each object of an image was copied to: linear probing in a table that is not enlarged. */
module ForwardTables {
  import opened Wrappers
  import opened Probing

  datatype ForwardPointer = ForwardPointer(from: int, to: int)

  /** The address modulo the number of entries. */
  function Hash(x: int, n: nat): (h: nat)
    requires n > 0
    ensures h < n
  {
    x % n
  }

  function Home(n: nat): ForwardPointer -> nat
    requires n > 0
  {
    (e: ForwardPointer) => Hash(e.from, n)
  }

  function Of(x: int): ForwardPointer -> bool {
    (e: ForwardPointer) => e.from == x
  }

  ghost predicate HasKey(t: Table<ForwardPointer>, x: int) {
    exists p :: 0 <= p < |t| && t[p].Some? && Of(x)(t[p].value)
  }

  /** The table holds just these pairs. */
  ghost predicate Represents(t: Table<ForwardPointer>, fwd: map<int, int>) {
    && |t| > 0 && ProbeOk(t, Home(|t|)) && Used(t) == |fwd|
    && (forall p | 0 <= p < |t| && t[p].Some? :: t[p].value.from in fwd && fwd[t[p].value.from] == t[p].value.to)
    && (forall x | x in fwd :: HasKey(t, x))
  }

  /** The first position, from the j-th of the search on, that is free or has the key. */
  function Slot(t: Table<ForwardPointer>, h: nat, x: int, j: nat): Option<nat>
    requires h < |t| && j <= |t|
    decreases |t| - j
  {
    if j == |t| then None
    else
      var p := At(h, j, |t|);
      if t[p].None? || t[p].value.from == x then Some(p) else Slot(t, h, x, j + 1)
  }

  lemma {:induction false} SlotIs(t: Table<ForwardPointer>, h: nat, x: int, j: nat)
    requires h < |t| && j <= |t|
    ensures Slot(t, h, x, j) == if Probe(t, h, Of(x), j).Some? then Probe(t, h, Of(x), j) else FirstFree(t, h, j)
    decreases |t| - j
  {
    if j < |t| {
      SlotIs(t, h, x, j + 1);
    }
  }

  /** The position is the key's; for a key that is not in the table it is free, and there is none only if the table is full. */
  lemma SlotFinds(t: Table<ForwardPointer>, fwd: map<int, int>, x: int)
    requires Represents(t, fwd)
    ensures var s := Slot(t, Hash(x, |t|), x, 0);
      && (s.Some? ==> s.value < |t|)
      && (x in fwd ==> s.Some? && t[s.value] == Some(ForwardPointer(x, fwd[x])))
      && (x !in fwd && s.Some? ==> t[s.value].None? && s == FirstFree(t, Hash(x, |t|), 0))
      && (s.None? ==> |fwd| == |t|)
  {
    hide Used;
    var h := Hash(x, |t|);
    SlotIs(t, h, x, 0);
    ProbeFinds(t, h, Of(x), 0);
    ProbeIffPresent(t, Home(|t|), h, Of(x));
    FreeFinds(t, h, 0);
    assert x in fwd ==> HasKey(t, x);
    AllUsed(t);
  }

  lemma SlotStep(t: Table<ForwardPointer>, h: nat, x: int, j: nat, p: nat)
    requires h < |t| && j < |t| && p == At(h, j, |t|)
    ensures p < |t| && Slot(t, h, x, j) == if t[p].None? || t[p].value.from == x then Some(p) else Slot(t, h, x, j + 1)
  {
  }

  lemma SlotEnds(t: Table<ForwardPointer>, h: nat, x: int)
    requires h < |t|
    ensures Slot(t, h, x, |t|) == None
  {
  }

  /** A new pair at the position that was found for its key. */
  lemma SlotTakes(t: Table<ForwardPointer>, fwd: map<int, int>, x: int, y: int, p: nat)
    requires Represents(t, fwd) && x !in fwd && Slot(t, Hash(x, |t|), x, 0) == Some(p)
    ensures p < |t| && Represents(t[p := Some(ForwardPointer(x, y))], fwd[x := y])
  {
    hide Used, ProbeOk, FirstFree, Slot;
    SlotFinds(t, fwd, x);
    var e := ForwardPointer(x, y);
    var t' := t[p := Some(e)];
    InsertOk(t, Home(|t|), e, p);
    InsertUsed(t, p, e);
    forall z | z in fwd[x := y] ensures HasKey(t', z) {
      if z == x {
        assert t'[p].Some? && Of(x)(t'[p].value);
      } else {
        assert HasKey(t, z);
        var q :| 0 <= q < |t| && t[q].Some? && Of(z)(t[q].value);
        assert t'[q].Some? && Of(z)(t'[q].value);
      }
    }
  }

  lemma {:induction false} EmptyRepresents(t: Table<ForwardPointer>)
    requires |t| > 0 && forall p | 0 <= p < |t| :: t[p].None?
    ensures Represents(t, map[])
  {
    NoneUsed(t);
  }

  lemma NoMoreThanFit(t: Table<ForwardPointer>, fwd: map<int, int>)
    requires Represents(t, fwd)
    ensures |fwd| <= |t|
  {
    UsedBound(t);
  }

  class ForwardTable {
    const entries: array<Option<ForwardPointer>>

    /** The zeroed entries of a new table. */
    constructor (count: nat)
      requires count > 0
      ensures fresh(entries) && entries.Length == count && Represents(entries[..], map[])
    {
      entries := new Option<ForwardPointer>[count](i => None);
      new;
      EmptyRepresents(entries[..]);
    }

    /** forward_pointer_hash_get: from the hashed position to the end and then from the start. */
    method Get(x: int) returns (index: Option<nat>)
      requires entries.Length > 0
      ensures index == Slot(entries[..], Hash(x, entries.Length), x, 0)
    {
      hide Slot, Hash;
      ghost var t := entries[..];
      var hash := Hash(x, entries.Length);
      var i := hash;
      while i < entries.Length
        invariant hash <= i <= entries.Length && Slot(t, hash, x, 0) == Slot(t, hash, x, i - hash)
      {
        SlotStep(t, hash, x, i - hash, i);
        if entries[i].None? || entries[i].value.from == x {
          return Some(i);
        }
        i := i + 1;
      }
      i := 0;
      while i < hash
        invariant 0 <= i <= hash && Slot(t, hash, x, 0) == Slot(t, hash, x, entries.Length - hash + i)
      {
        SlotStep(t, hash, x, entries.Length - hash + i, i);
        if entries[i].None? || entries[i].value.from == x {
          return Some(i);
        }
        i := i + 1;
      }
      SlotEnds(t, hash, x);
      index := None;
    }

    /** forward_pointer_hash_add for an address that is not in the table: it fails just when the table is full. */
    method Add(x: int, y: int, ghost fwd: map<int, int>) returns (ok: bool)
      requires Represents(entries[..], fwd) && x !in fwd
      modifies entries
      ensures ok ==> Represents(entries[..], fwd[x := y])
      ensures ok <==> |fwd| < entries.Length
      ensures !ok ==> entries[..] == old(entries[..])
    {
      assert entries.Length > 0;
      hide Represents, Slot, Hash;
      NoMoreThanFit(entries[..], fwd);
      SlotFinds(entries[..], fwd, x);
      var index := Get(x);
      if index.None? {
        return false;
      }
      SlotTakes(entries[..], fwd, x, y, index.value);
      entries[index.value] := Some(ForwardPointer(x, y));
      NoMoreThanFit(entries[..], fwd[x := y]);
      ok := true;
    }
  }
}
