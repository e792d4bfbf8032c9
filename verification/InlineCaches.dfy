/** A caller's inline cache: a table of callees by arity and argument maps, filled up to the last position and never emptied. */
module InlineCaches {
  import opened Wrappers
  import opened Probing

  /** One entry: the definition found, the selector of its method, and the maps of the arguments. */
  datatype Callee = Callee(def: int, selector: int, maps: seq<int>, count: nat)

  /** CALLER_PIC_SIZE. */
  const PIC_SIZE: nat := 16

  /** hash_selector without a selector: the exclusive or of the maps' hashes, here any function of the maps. */
  type MapHash = seq<int> -> nat

  function Home(hash: MapHash): Callee -> nat {
    (c: Callee) => hash(c.maps) % PIC_SIZE
  }

  /** method_pic_match_selector: the selector, the arity and all maps agree. */
  predicate IsFor(c: Callee, selector: int, maps: seq<int>) {
    c.selector == selector && c.maps == maps
  }

  function For(selector: int, maps: seq<int>): Callee -> bool {
    (c: Callee) => IsFor(c, selector, maps)
  }

  /** The definition a lookup returns. */
  function Lookup(t: Table<Callee>, hash: MapHash, selector: int, maps: seq<int>): Option<int>
    requires |t| == PIC_SIZE
  {
    var p := Probe(t, hash(maps) % PIC_SIZE, For(selector, maps), 0);
    if p.Some? && p.value < |t| && t[p.value].Some? then Some(t[p.value].value.def) else None
  }

  /** The same, from the k-th position of the search on. */
  function From(t: Table<Callee>, hash: MapHash, selector: int, maps: seq<int>, k: nat): Option<int>
    requires |t| == PIC_SIZE && k <= |t|
  {
    var p := Probe(t, hash(maps) % PIC_SIZE, For(selector, maps), k);
    if p.Some? && p.value < |t| && t[p.value].Some? then Some(t[p.value].value.def) else None
  }

  lemma LookupIs(t: Table<Callee>, hash: MapHash, selector: int, maps: seq<int>)
    requires |t| == PIC_SIZE
    ensures Lookup(t, hash, selector, maps) == From(t, hash, selector, maps, 0)
  {
  }

  /** What the search finds is what is at its next position, or what it finds behind that. */
  lemma FromNext(t: Table<Callee>, hash: MapHash, selector: int, maps: seq<int>, k: nat, p: nat)
    requires |t| == PIC_SIZE && k < |t| && p == At(hash(maps) % PIC_SIZE, k, |t|)
    ensures From(t, hash, selector, maps, k) == if t[p].None? then None
                                                else if IsFor(t[p].value, selector, maps) then Some(t[p].value.def)
                                                else From(t, hash, selector, maps, k + 1)
  {
  }

  lemma NothingFrom(t: Table<Callee>, hash: MapHash, selector: int, maps: seq<int>)
    requires |t| == PIC_SIZE
    ensures From(t, hash, selector, maps, |t|) == None
  {
  }

  /** A lookup that returns a definition returns one that was added for this selector, arity and these maps. */
  lemma LookupSound(t: Table<Callee>, hash: MapHash, selector: int, maps: seq<int>)
    requires |t| == PIC_SIZE && Lookup(t, hash, selector, maps).Some?
    ensures exists p :: 0 <= p < |t| && t[p].Some? && t[p].value.selector == selector && t[p].value.maps == maps
                        && t[p].value.def == Lookup(t, hash, selector, maps).value
  {
    ProbeFinds(t, hash(maps) % PIC_SIZE, For(selector, maps), 0);
  }

  /** A lookup misses only what was never added. */
  lemma LookupComplete(t: Table<Callee>, hash: MapHash, selector: int, maps: seq<int>)
    requires |t| == PIC_SIZE && ProbeOk(t, Home(hash))
    ensures Lookup(t, hash, selector, maps).Some?
       <==> exists p :: 0 <= p < |t| && t[p].Some? && t[p].value.selector == selector && t[p].value.maps == maps
  {
    ProbeFinds(t, hash(maps) % PIC_SIZE, For(selector, maps), 0);
    ProbeIffPresent(t, Home(hash), hash(maps) % PIC_SIZE, For(selector, maps));
    if p :| 0 <= p < |t| && t[p].Some? && t[p].value.selector == selector && t[p].value.maps == maps {
      assert For(selector, maps)(t[p].value);
    }
  }

  /** While space remains, what is added after a miss is found from then on, and no other lookup changes. */
  lemma AddLookup(t: Table<Callee>, hash: MapHash, c: Callee, p: nat, selector: int, maps: seq<int>)
    requires |t| == PIC_SIZE && ProbeOk(t, Home(hash)) && FirstFree(t, Home(hash)(c), 0) == Some(p)
    ensures p < |t| && ProbeOk(t[p := Some(c)], Home(hash))
    ensures Lookup(t[p := Some(c)], hash, selector, maps) ==
      if Lookup(t, hash, selector, maps).Some? then Lookup(t, hash, selector, maps)
      else if c.selector == selector && c.maps == maps then Some(c.def) else None
  {
    InsertOk(t, Home(hash), c, p);
    ProbeFinds(t, hash(maps) % PIC_SIZE, For(selector, maps), 0);
    InsertLookup(t, Home(hash), c, p, hash(maps) % PIC_SIZE, For(selector, maps));
  }

  class InlineCache {
    const entries: array<Option<Callee>>
    const hash: MapHash

    ghost predicate Valid()
      reads this, entries
    {
      entries.Length == PIC_SIZE && ProbeOk(entries[..], Home(hash))
    }

    /** method_pic_setup. */
    constructor (hash: MapHash)
      ensures Valid() && fresh(entries) && entries[..] == seq(PIC_SIZE, i => None) && this.hash == hash
    {
      this.hash := hash;
      entries := new Option<Callee>[PIC_SIZE](i => None);
      new;
      assert forall p | 0 <= p < PIC_SIZE :: entries[..][p].None?;
    }

    /** method_pic_match_selector at one position, with the count of the entry that is found. */
    method Match(i: nat, selector: int, maps: seq<int>) returns (def: Option<int>)
      requires Valid() && i < entries.Length && entries[i].Some?
      modifies entries
      ensures Valid() && entries[..] == if def.Some? then old(Counted(entries[..], i)) else old(entries[..])
      ensures var c := old(entries[i]).value; def == if c.selector == selector && c.maps == maps then Some(c.def) else None
    {
      def := None;
      if entries[i].value.selector == selector && |entries[i].value.maps| == |maps| {
        var j, success := 0, true;
        while j < |maps| && success
          invariant 0 <= j <= |maps| && (success ==> forall k | 0 <= k < j :: entries[i].value.maps[k] == maps[k])
          invariant !success ==> entries[i].value.maps != maps
          invariant entries[..] == old(entries[..])
        {
          if entries[i].value.maps[j] != maps[j] {
            success := false;
          }
          j := j + 1;
        }
        if success {
          CountedOk(entries[..], i, hash);
          def := Some(entries[i].value.def);
          entries[i] := Some(entries[i].value.(count := entries[i].value.count + 1));
        }
      }
    }

    /** One of the two loops of method_pic_find_callee: the positions from `from` up to `to`, the first being number `k` of the search. */
    method FindBetween(selector: int, maps: seq<int>, from: nat, to: nat, ghost k: nat)
      returns (stop: bool, def: Option<int>, ghost at: nat)
      requires Valid() && from <= to <= entries.Length && k + (to - from) <= entries.Length
      requires (from == hash(maps) % PIC_SIZE && to == PIC_SIZE && k == 0) || (from == 0 && to == hash(maps) % PIC_SIZE && k == PIC_SIZE - to)
      requires Lookup(entries[..], hash, selector, maps) == From(entries[..], hash, selector, maps, k)
      modifies entries
      ensures Valid() && (stop ==> def == old(Lookup(entries[..], hash, selector, maps)))
      ensures !stop ==> entries[..] == old(entries[..]) && Lookup(entries[..], hash, selector, maps) == From(entries[..], hash, selector, maps, k + (to - from))
      ensures forall s, m :: Lookup(entries[..], hash, s, m) == old(Lookup(entries[..], hash, s, m))
      ensures def.Some? ==> stop && FoundAt(old(entries[..]), entries[..], selector, maps, def.value, at)
      ensures def.None? ==> entries[..] == old(entries[..])
    {
      hide From, Lookup, Probe, For;
      at := 0;
      ghost var t := entries[..];
      var i := from;
      while i < to
        invariant from <= i <= to && entries[..] == t
        invariant Lookup(t, hash, selector, maps) == From(t, hash, selector, maps, k + (i - from))
      {
        FromNext(t, hash, selector, maps, k + (i - from), i);
        if entries[i].None? {
          return true, None, 0;
        }
        def := Match(i, selector, maps);
        if def.Some? {
          CountedLookups(t, i, hash);
          return true, def, i;
        }
        i := i + 1;
      }
      stop, def, at := false, None, 0;
    }

    /** method_pic_find_callee: from the home position to the end and then from the start, up to the first free position. */
    method FindCallee(selector: int, maps: seq<int>) returns (def: Option<int>, ghost at: nat)
      requires Valid()
      modifies entries
      ensures Valid() && def == old(Lookup(entries[..], hash, selector, maps))
      ensures forall s, m :: Lookup(entries[..], hash, s, m) == old(Lookup(entries[..], hash, s, m))
      ensures var t := old(entries[..]);
        def.Some? ==> at < |t| && t[at].Some? && t[at].value.selector == selector && t[at].value.maps == maps && t[at].value.def == def.value
                      && entries[..] == t[at := Some(t[at].value.(count := t[at].value.count + 1))]
      ensures var t := old(entries[..]);
        def.None? ==> entries[..] == t && forall p | 0 <= p < |t| && t[p].Some? :: !(t[p].value.selector == selector && t[p].value.maps == maps)
    {
      hide Lookup;
      LookupComplete(entries[..], hash, selector, maps);
      var start := hash(maps) % PIC_SIZE;
      LookupIs(entries[..], hash, selector, maps);
      var stop;
      stop, def, at := FindBetween(selector, maps, start, entries.Length, 0);
      if !stop {
        stop, def, at := FindBetween(selector, maps, 0, start, PIC_SIZE - start);
        if !stop {
          NothingFrom(entries[..], hash, selector, maps);
          def := None;
        }
      }
    }

    /** method_pic_add_callee: puts the callee at the first free position from its home; a full table stays as it is. */
    method AddCallee(def: int, selector: int, maps: seq<int>)
      requires Valid()
      modifies entries
      ensures Valid()
      ensures var p := FirstFree(old(entries[..]), hash(maps) % PIC_SIZE, 0); var c := Callee(def, selector, maps, 1);
        entries[..] == if p.Some? && p.value < entries.Length then old(entries[..])[p.value := Some(c)] else old(entries[..])
      ensures var t := old(entries[..]); (forall p | 0 <= p < |t| :: t[p].Some?) ==> entries[..] == t
      ensures var t := old(entries[..]); (exists p | 0 <= p < |t| :: t[p].None?) ==>
        exists p | 0 <= p < |t| :: t[p].None? && entries[..] == t[p := Some(Callee(def, selector, maps, 1))]
    {
      ghost var t, c := entries[..], Callee(def, selector, maps, 1);
      var start := hash(maps) % PIC_SIZE;
      FreeFinds(t, start, 0);
      var i := start;
      while i < entries.Length
        invariant start <= i <= entries.Length && entries[..] == t
        invariant FirstFree(t, start, 0) == FirstFree(t, start, i - start)
      {
        assert At(start, i - start, |t|) == i;
        if entries[i].None? {
          InsertOk(t, Home(hash), c, i);
          entries[i] := Some(Callee(def, selector, maps, 1));
          return;
        }
        i := i + 1;
      }
      i := 0;
      while i < start
        invariant 0 <= i <= start && entries[..] == t
        invariant FirstFree(t, start, 0) == FirstFree(t, start, i + PIC_SIZE - start)
      {
        assert At(start, i + PIC_SIZE - start, |t|) == i;
        if entries[i].None? {
          InsertOk(t, Home(hash), c, i);
          entries[i] := Some(Callee(def, selector, maps, 1));
          return;
        }
        i := i + 1;
      }
    }
  }

  /** An entry for these maps and this selector was found at p, and it counts that. */
  ghost predicate FoundAt(t: Table<Callee>, t': Table<Callee>, selector: int, maps: seq<int>, def: int, p: nat) {
    && p < |t| && t[p].Some? && t[p].value.selector == selector && t[p].value.maps == maps && t[p].value.def == def
    && t' == t[p := Some(t[p].value.(count := t[p].value.count + 1))]
  }

  function Counted(t: Table<Callee>, i: nat): Table<Callee>
    requires i < |t| && t[i].Some?
  {
    t[i := Some(t[i].value.(count := t[i].value.count + 1))]
  }

  lemma CountedOk(t: Table<Callee>, i: nat, hash: MapHash)
    requires i < |t| && t[i].Some? && ProbeOk(t, Home(hash))
    ensures ProbeOk(Counted(t, i), Home(hash))
  {
    var t' := Counted(t, i);
    forall p | 0 <= p < |t'| && t'[p].Some?
      ensures Home(hash)(t'[p].value) < |t'| && Occupied(t', Home(hash)(t'[p].value), Dist(Home(hash)(t'[p].value), p, |t'|))
    {
      assert Home(hash)(t'[p].value) == Home(hash)(t[p].value);
      assert Occupied(t, Home(hash)(t[p].value), Dist(Home(hash)(t[p].value), p, |t|));
    }
  }

  lemma {:induction false} CountedProbe(t: Table<Callee>, i: nat, h: nat, selector: int, maps: seq<int>, j: nat)
    requires i < |t| && t[i].Some? && h < |t| && j <= |t|
    ensures Probe(Counted(t, i), h, For(selector, maps), j) == Probe(t, h, For(selector, maps), j)
    decreases |t| - j
  {
    if j < |t| {
      CountedProbe(t, i, h, selector, maps, j + 1);
    }
  }

  lemma CountedLookups(t: Table<Callee>, i: nat, hash: MapHash)
    requires |t| == PIC_SIZE && i < |t| && t[i].Some?
    ensures forall s, m :: Lookup(Counted(t, i), hash, s, m) == Lookup(t, hash, s, m)
  {
    forall s, m ensures Lookup(Counted(t, i), hash, s, m) == Lookup(t, hash, s, m) {
      CountedProbe(t, i, hash(m) % PIC_SIZE, s, m, 0);
    }
  }
}
