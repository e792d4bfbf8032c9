/** Slot tables: a slot's name and its offset in the object, by linear probing in a table whose capacity is a power of two. */
module SlotTables {
  import opened Wrappers
  import opened Probing
  import opened TableSizes

  datatype Slot = Slot(name: int, offset: int)

  /** The identity hash of a symbol. */
  type NameHash = int -> nat

  /** For a power of two, the hash masked with the capacity less one is the remainder. */
  function Home(hash: NameHash, capacity: nat): Slot -> nat
    requires capacity > 0
  {
    (s: Slot) => hash(s.name) % capacity
  }

  function Named(name: int): Slot -> bool {
    (s: Slot) => s.name == name
  }

  /** Every entry can be reached from its home, and no two have one name. */
  ghost predicate TableOk(t: Table<Slot>, hash: NameHash) {
    |t| > 0 && ProbeOk(t, Home(hash, |t|)) && UniqueNames(t)
  }

  /** The table as a map from names to offsets. */
  ghost function Contents(t: Table<Slot>): map<int, int> {
    if t == [] then map[]
    else
      var front := Contents(t[..|t| - 1]);
      if t[|t| - 1].Some? then front[t[|t| - 1].value.name := t[|t| - 1].value.offset] else front
  }

  lemma {:induction false} ContentsHas(t: Table<Slot>, x: int)
    ensures x in Contents(t) <==> exists p :: 0 <= p < |t| && t[p].Some? && t[p].value.name == x
  {
    if t != [] {
      var front := t[..|t| - 1];
      ContentsHas(front, x);
      if p :| 0 <= p < |front| && front[p].Some? && front[p].value.name == x {
        assert t[p].Some? && t[p].value.name == x;
      }
      if p :| 0 <= p < |t| && t[p].Some? && t[p].value.name == x {
        if p < |front| {
          assert front[p].Some? && front[p].value.name == x;
        }
      }
    }
  }

  ghost predicate UniqueNames(t: Table<Slot>) {
    forall p, q | 0 <= p < |t| && 0 <= q < |t| && t[p].Some? && t[q].Some? && t[p].value.name == t[q].value.name :: p == q
  }

  lemma {:induction false} ContentsAt(t: Table<Slot>, p: nat)
    requires UniqueNames(t) && p < |t| && t[p].Some?
    ensures t[p].value.name in Contents(t) && Contents(t)[t[p].value.name] == t[p].value.offset
  {
    var front := t[..|t| - 1];
    if p < |front| {
      assert UniqueNames(front) by {
        forall a, b | 0 <= a < |front| && 0 <= b < |front| && front[a].Some? && front[b].Some? && front[a].value.name == front[b].value.name ensures a == b {
          assert t[a].Some? && t[b].Some?;
        }
      }
      ContentsAt(front, p);
      assert front[p] == t[p];
    }
  }

  /** The table has this entry. */
  ghost predicate Holds(t: Table<Slot>, x: int, y: int) {
    exists p :: 0 <= p < |t| && t[p] == Some(Slot(x, y))
  }

  lemma ContentsAre(t: Table<Slot>)
    requires UniqueNames(t)
    ensures forall x, y :: Holds(t, x, y) <==> x in Contents(t) && Contents(t)[x] == y
  {
    forall x, y ensures Holds(t, x, y) <==> x in Contents(t) && Contents(t)[x] == y {
      ContentsHas(t, x);
      if Holds(t, x, y) {
        var p :| 0 <= p < |t| && t[p] == Some(Slot(x, y));
        ContentsAt(t, p);
      }
      if x in Contents(t) {
        var p :| 0 <= p < |t| && t[p].Some? && t[p].value.name == x;
        ContentsAt(t, p);
        assert t[p] == Some(Slot(x, t[p].value.offset));
      }
    }
  }

  /** A table with unique names that holds just a map's entries is that map. */
  lemma SameContents(t: Table<Slot>, m: map<int, int>)
    requires UniqueNames(t) && forall x, y :: Holds(t, x, y) <==> x in m && m[x] == y
    ensures Contents(t) == m
  {
    ContentsAre(t);
    forall x ensures x in Contents(t) <==> x in m {
      if x in m {
        assert Holds(t, x, m[x]);
      }
      if x in Contents(t) {
        assert Holds(t, x, Contents(t)[x]);
      }
    }
    forall x | x in m ensures Contents(t)[x] == m[x] {
      assert Holds(t, x, m[x]);
    }
  }

  class SlotTable {
    const slots: array<Option<Slot>>
    const hash: NameHash

    ghost predicate Valid()
      reads this, slots
    {
      IsPow2(slots.Length) && TableOk(slots[..], hash)
    }

    constructor (capacity: nat, hash: NameHash)
      ensures slots.Length == capacity && fresh(slots) && this.hash == hash && forall p | 0 <= p < capacity :: slots[p].None?
    {
      this.hash := hash;
      slots := new Option<Slot>[capacity](i => None);
    }

    /** slot_table_entry_for_name. */
    method EntryForName(name: int) returns (p: Option<nat>)
      ensures p == if slots.Length == 0 then None else Probe(slots[..], hash(name) % slots.Length, Named(name), 0)
    {
      if slots.Length == 0 {
        return None;
      }
      ghost var t := slots[..];
      var h := hash(name) % slots.Length;
      var index := h;
      while index < slots.Length
        invariant h <= index <= slots.Length && Probe(t, h, Named(name), 0) == Probe(t, h, Named(name), index - h)
      {
        assert At(h, index - h, |t|) == index;
        if slots[index].Some? && slots[index].value.name == name {
          return Some(index);
        }
        if slots[index].None? {
          return None;
        }
        index := index + 1;
      }
      index := 0;
      while index < h
        invariant 0 <= index <= h && Probe(t, h, Named(name), 0) == Probe(t, h, Named(name), index + |t| - h)
      {
        assert At(h, index + |t| - h, |t|) == index;
        if slots[index].Some? && slots[index].value.name == name {
          return Some(index);
        }
        if slots[index].None? {
          return None;
        }
        index := index + 1;
      }
      return None;
    }

    /** slot_table_entry_for_inserting_name. */
    method EntryForInsertingName(name: int) returns (p: Option<nat>)
      ensures p == if slots.Length == 0 then None else FirstFree(slots[..], hash(name) % slots.Length, 0)
    {
      if slots.Length == 0 {
        return None;
      }
      ghost var t := slots[..];
      var h := hash(name) % slots.Length;
      var index := h;
      while index < slots.Length
        invariant h <= index <= slots.Length && FirstFree(t, h, 0) == FirstFree(t, h, index - h)
      {
        assert At(h, index - h, |t|) == index;
        if slots[index].None? {
          return Some(index);
        }
        index := index + 1;
      }
      index := 0;
      while index < h
        invariant 0 <= index <= h && FirstFree(t, h, 0) == FirstFree(t, h, index + |t| - h)
      {
        assert At(h, index + |t| - h, |t|) == index;
        if slots[index].None? {
          return Some(index);
        }
        index := index + 1;
      }
      return None;
    }

    /** slot_table_empty_space. */
    method EmptySpace() returns (space: nat)
      ensures space == slots.Length - Used(slots[..])
    {
      space := 0;
      var i := 0;
      while i < slots.Length
        invariant 0 <= i <= slots.Length && space == i - Used(slots[..i])
      {
        assert slots[..i + 1][..i] == slots[..i];
        if slots[i].None? {
          space := space + 1;
        }
        i := i + 1;
      }
      assert slots[..slots.Length] == slots[..];
    }

    /** slot_table_grow_excluding: a new table, with room for n more entries, that holds all entries but the one excluded. */
    method GrowExcluding(n: nat, excluding: int) returns (newSlots: SlotTable)
      requires Valid()
      ensures fresh(newSlots) && fresh(newSlots.slots) && newSlots.hash == hash
      ensures Used(slots[..]) + slots.Length / 3 + n == 0 ==> newSlots.slots.Length == 0
      ensures Used(slots[..]) + slots.Length / 3 + n > 0 ==>
                newSlots.Valid() && IsLeastPow2(newSlots.slots.Length, Used(slots[..]) + slots.Length / 3 + n)
      ensures Contents(newSlots.slots[..]) == Contents(slots[..]) - {excluding}
      ensures Used(newSlots.slots[..]) + n <= newSlots.slots.Length
    {
      ghost var old_ := slots[..];
      var oldSize := slots.Length;
      var space := EmptySpace();
      UsedBound(old_);
      var newSize := Accommodate(oldSize, oldSize / 3 - space + n);
      newSlots := new SlotTable(newSize, hash);
      NothingUsed(newSlots.slots[..]);
      var i := 0;
      while i < oldSize
        invariant 0 <= i <= oldSize && fresh(newSlots) && fresh(newSlots.slots) && newSlots.slots.Length == newSize && slots[..] == old_
        invariant newSlots.hash == hash && (newSize > 0 ==> TableOk(newSlots.slots[..], hash))
        invariant Used(newSlots.slots[..]) <= Used(old_[..i]) && UniqueNames(newSlots.slots[..])
        invariant forall x, y :: Holds(newSlots.slots[..], x, y) <==> Holds(old_[..i], x, y) && x != excluding
      {
        OneMore(old_, i);
        UsedBelow(old_, i + 1);
        if slots[i].Some? && slots[i].value.name != excluding {
          newSlots.InsertKept(old_, i, excluding, slots[i].value);
        }
        i := i + 1;
      }
      assert old_[..oldSize] == old_;
      RestrictedContents(old_, newSlots.slots[..], excluding);
    }

    /** Puts an entry of the old table into this one, which has a free place for it. */
    method InsertKept(ghost old_: Table<Slot>, ghost i: nat, ghost excluding: int, slot: Slot)
      requires slots.Length > 0 && TableOk(slots[..], hash) && UniqueNames(old_) && i < |old_| && old_[i] == Some(slot)
      requires Used(slots[..]) < slots.Length && slot.name != excluding
      requires forall x, y :: Holds(slots[..], x, y) <==> Holds(old_[..i], x, y) && x != excluding
      modifies slots
      ensures TableOk(slots[..], hash) && Used(slots[..]) == old(Used(slots[..])) + 1
      ensures forall x, y :: Holds(slots[..], x, y) <==> Holds(old_[..i + 1], x, y) && x != excluding
    {
      ghost var t, h := slots[..], hash(slot.name) % slots.Length;
      FreeFinds(t, h, 0);
      AllUsed(t);
      var p := EntryForInsertingName(slot.name);
      NotYet(old_, i, t, excluding, slot);
      InsertOk(t, Home(hash, |t|), slot, p.value);
      InsertUnique(t, p.value, slot);
      InsertUsed(t, p.value, slot);
      slots[p.value] := Some(slot);
      assert slots[..] == t[p.value := Some(slot)];
      InsertHolds(t, p.value, slot);
      OneMore(old_, i);
    }
  }

  lemma OneMore(t: Table<Slot>, i: nat)
    requires i < |t|
    ensures t[..i + 1][..i] == t[..i] && Used(t[..i + 1]) == Used(t[..i]) + if t[i].Some? then 1 else 0
    ensures forall x, y :: Holds(t[..i + 1], x, y) <==> Holds(t[..i], x, y) || t[i] == Some(Slot(x, y))
  {
    assert t[..i + 1][..i] == t[..i];
    forall x, y ensures Holds(t[..i + 1], x, y) <==> Holds(t[..i], x, y) || t[i] == Some(Slot(x, y)) {
      if Holds(t[..i + 1], x, y) {
        var p :| 0 <= p < |t[..i + 1]| && t[..i + 1][p] == Some(Slot(x, y));
        if p < i {
          assert t[..i][p] == Some(Slot(x, y));
        }
      }
      if Holds(t[..i], x, y) {
        var p :| 0 <= p < |t[..i]| && t[..i][p] == Some(Slot(x, y));
        assert t[..i + 1][p] == Some(Slot(x, y));
      }
      if t[i] == Some(Slot(x, y)) {
        assert t[..i + 1][i] == Some(Slot(x, y));
      }
    }
  }

  lemma NothingUsed(t: Table<Slot>)
    requires forall p | 0 <= p < |t| :: t[p].None?
    ensures Used(t) == 0 && UniqueNames(t) && (forall x, y :: !Holds(t, x, y)) && forall home :: ProbeOk(t, home)
  {
    NoneUsed(t);
  }

  /** The entry's name is not in the new table yet. */
  lemma NotYet(old_: Table<Slot>, i: nat, t: Table<Slot>, excluding: int, slot: Slot)
    requires UniqueNames(old_) && i < |old_| && old_[i] == Some(slot)
    requires forall x, y :: Holds(t, x, y) <==> Holds(old_[..i], x, y) && x != excluding
    ensures forall q | 0 <= q < |t| && t[q].Some? :: t[q].value.name != slot.name
  {
    forall q | 0 <= q < |t| && t[q].Some? ensures t[q].value.name != slot.name {
      assert t[q] == Some(Slot(t[q].value.name, t[q].value.offset));
      assert Holds(t, t[q].value.name, t[q].value.offset);
      var p :| 0 <= p < i && old_[..i][p] == Some(Slot(t[q].value.name, t[q].value.offset));
      assert old_[p].Some? && p != i;
    }
  }

  lemma InsertUnique(t: Table<Slot>, p: nat, slot: Slot)
    requires UniqueNames(t) && p < |t| && forall q | 0 <= q < |t| && t[q].Some? :: t[q].value.name != slot.name
    ensures UniqueNames(t[p := Some(slot)])
  {
  }

  lemma InsertHolds(t: Table<Slot>, p: nat, slot: Slot)
    requires p < |t| && t[p].None?
    ensures forall x, y :: Holds(t[p := Some(slot)], x, y) <==> Holds(t, x, y) || slot == Slot(x, y)
  {
    var t' := t[p := Some(slot)];
    forall x, y ensures Holds(t', x, y) <==> Holds(t, x, y) || slot == Slot(x, y) {
      if Holds(t, x, y) {
        var q :| 0 <= q < |t| && t[q] == Some(Slot(x, y));
        assert t'[q] == t[q];
      }
      if Holds(t', x, y) {
        var q :| 0 <= q < |t'| && t'[q] == Some(Slot(x, y));
        assert q != p ==> t[q] == t'[q];
      }
      if slot == Slot(x, y) {
        assert t'[p] == Some(Slot(x, y));
      }
    }
  }

  /** The new table is the old map without the excluded name. */
  lemma RestrictedContents(t: Table<Slot>, t': Table<Slot>, excluding: int)
    requires UniqueNames(t) && UniqueNames(t')
    requires forall x, y :: Holds(t', x, y) <==> Holds(t, x, y) && x != excluding
    ensures Contents(t') == Contents(t) - {excluding}
  {
    ContentsAre(t);
    SameContents(t', Contents(t) - {excluding});
  }

  /** A lookup of a name, in a table in order, finds the entry that its map has, and nothing for other names. */
  lemma LookupIsContents(t: Table<Slot>, hash: NameHash, name: int)
    requires TableOk(t, hash)
    ensures var p := Probe(t, hash(name) % |t|, Named(name), 0);
      && (p.Some? <==> name in Contents(t))
      && (p.Some? ==> p.value < |t| && t[p.value].Some? && t[p.value].value == Slot(name, Contents(t)[name]))
  {
    var h := hash(name) % |t|;
    ProbeFinds(t, h, Named(name), 0);
    ProbeIffPresent(t, Home(hash, |t|), h, Named(name));
    ContentsHas(t, name);
    var p := Probe(t, h, Named(name), 0);
    if p.Some? {
      ContentsAt(t, p.value);
    }
    if q :| 0 <= q < |t| && t[q].Some? && t[q].value.name == name {
      assert Named(name)(t[q].value);
    }
  }
}
