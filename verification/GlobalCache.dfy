/** The global method cache in front of dispatch, over any sequence of sends and of definitions. */
module GlobalCache {
  import opened Wrappers
  import opened Delegation
  import opened Ranking
  import opened Dispatching
  import opened SameDispatch
  import opened SharedMaps
  import opened OrderMatters

  const METHOD_CACHE_SIZE: nat := 65536
  const METHOD_CACHE_ARITY: nat := 6

  /** The object memory for all selectors: role chains by selector and map, and each selector's cacheMask. Maps from `next` on are unused. */
  datatype Memory = Memory(
    maps: set<int>,
    next: int,
    mapOf: int -> int,
    delegates: int -> seq<int>,
    restricts: int -> bool,
    roles: int -> int -> seq<Role>,
    positions: int -> set<nat>,
    masks: int -> set<nat>)

  /** What dispatch of one selector sees. */
  function View(mem: Memory, selector: int): World {
    World(mem.maps, mem.mapOf, mem.delegates, mem.restricts, mem.roles(selector), mem.positions)
  }

  ghost predicate MemoryOk(mem: Memory) {
    (forall m | m in mem.maps :: m < mem.next) && forall s :: WellFormed(View(mem, s)) && Masked(View(mem, s), mem.masks(s))
  }

  /** A cache entry; nil and the zero of a cleared cache are no selector. */
  datatype Entry = Entry(selector: Option<int>, def: int, maps: seq<int>)

  /** method_check_cache returns the entry's definition. */
  predicate Hit(mem: Memory, e: Entry, selector: int, args: seq<int>) {
    e.selector == Some(selector) && MapsMatch(mem.mapOf, mem.masks(selector), args, e.maps)
  }

  /** No walk is longer than the ranks can tell apart, or higher than the delegation stack. */
  ghost predicate Bounded(w: World, args: seq<int>) {
    |args| <= POSITIONS && forall i | 0 <= i < |args| :: BoundedWalk(w, args[i])
  }

  predicate BoundedWalk(w: World, a: int) {
    |Visited(w, a)| <= 31 && Fits(w, a)
  }

  /** For all arguments that would hit the entry, its definition is what the full search finds. */
  ghost predicate RightFor(mem: Memory, selector: int, maps: seq<int>, def: int) {
    && (forall p | p in mem.masks(selector) :: p < |maps| && maps[p] in mem.maps)
    && forall args | MapsMatch(mem.mapOf, mem.masks(selector), args, maps) && Bounded(View(mem, selector), args) ::
         IsBest(View(mem, selector), Walks(View(mem, selector), args), def)
  }

  ghost predicate Right(mem: Memory, e: Entry) {
    e.selector.Some? ==> RightFor(mem, e.selector.value, e.maps, e.def)
  }

  function MapsOf(mem: Memory, args: seq<int>): seq<int> {
    seq(|args|, i requires 0 <= i < |args| => mem.mapOf(args[i]))
  }

  /** An entry's maps after the maps of the arguments have been stored in it. */
  function Stored(mem: Memory, args: seq<int>, maps: seq<int>): seq<int>
    requires |args| <= |maps|
  {
    MapsOf(mem, args) + maps[|args|..]
  }

  /** An entry's maps after the maps of the first i arguments have been stored in it. */
  ghost function WrittenTo(mem: Memory, args: seq<int>, maps: seq<int>, i: nat): (r: seq<int>)
    requires i <= |args| <= |maps|
    ensures |r| == |maps|
  {
    MapsOf(mem, args)[..i] + maps[i..]
  }

  lemma NoneWritten(mem: Memory, args: seq<int>, maps: seq<int>)
    requires |args| <= |maps|
    ensures WrittenTo(mem, args, maps, 0) == maps
  {
  }

  lemma OneWritten(mem: Memory, args: seq<int>, maps: seq<int>, i: nat)
    requires i < |args| <= |maps|
    ensures WrittenTo(mem, args, maps, i)[i := mem.mapOf(args[i])] == WrittenTo(mem, args, maps, i + 1)
  {
  }

  lemma AllWritten(mem: Memory, args: seq<int>, maps: seq<int>)
    requires |args| <= |maps|
    ensures WrittenTo(mem, args, maps, |args|) == Stored(mem, args, maps)
  {
    assert MapsOf(mem, args)[..|args|] == MapsOf(mem, args);
  }

  /** What a full search found for these arguments may be kept for all arguments with the same maps at the masked positions. */
  lemma SavedIsRight(mem: Memory, selector: int, args: seq<int>, maps: seq<int>, def: int)
    requires MemoryOk(mem) && |args| <= |maps| && Covered(mem.masks(selector), |args|)
    requires IsBest(View(mem, selector), Walks(View(mem, selector), args), def)
    ensures RightFor(mem, selector, Stored(mem, args, maps), def)
  {
    hide IsBest, Walks, Masked, Bounded;
    var w, all := View(mem, selector), Stored(mem, args, maps);
    assert WellFormed(w) && Masked(w, mem.masks(selector));
    assert MapsMatch(w.mapOf, mem.masks(selector), args, all);
    forall p | p in mem.masks(selector) ensures p < |all| && all[p] in mem.maps {
      MapKnown(mem, args[p]);
    }
    forall args' | MapsMatch(mem.mapOf, mem.masks(selector), args', all) ensures IsBest(w, Walks(w, args'), def) {
      MaskDecides(w, mem.masks(selector), args, args', all, def);
    }
  }

  // ---------- the mask as a number ----------

  /** object_to_smallint(selector->cacheMask), for masks of the first three positions. */
  function MaskNumber(mask: set<nat>): nat {
    (if 0 in mask then 1 else 0) + (if 1 in mask then 2 else 0) + (if 2 in mask then 4 else 0)
  }

  /** 1 << n. */
  function Shift(n: nat): nat
    requires n <= METHOD_CACHE_ARITY
  {
    [1, 2, 4, 8, 16, 32, 64][n]
  }

  /** What is at a position of the argument array: an argument, or what happens to be behind the last one. */
  function Argument(args: seq<int>, beyond: int, p: nat): int {
    if p < |args| then args[p] else beyond
  }

  lemma NumberCovers(mask: set<nat>, n: nat)
    requires mask <= {0, 1, 2} && n <= METHOD_CACHE_ARITY
    ensures MaskNumber(mask) < Shift(n) <==> Covered(mask, n)
  {
    assert Covered(mask, n) <==> (0 in mask ==> 0 < n) && (1 in mask ==> 1 < n) && (2 in mask ==> 2 < n);
  }

  // ---------- definitions ----------

  /** object_represent after heap_clone_map: the object gets a copy of its map, with this role chain for the selector. */
  function Represent(mem: Memory, selector: int, x: int, chain: seq<Role>): Memory {
    var m, c := mem.mapOf(x), mem.next;
    mem.(maps := mem.maps + {c}, next := c + 1,
         mapOf := (o: int) => if o == x then c else mem.mapOf(o),
         delegates := (n: int) => mem.delegates(if n == c then m else n),
         restricts := (n: int) => mem.restricts(if n == c then m else n),
         roles := (t: int) => (n: int) => if n == c && t == selector then chain else mem.roles(t)(if n == c then m else n))
  }

  /** object_add_role_at on the chain: the definition's entry gets one more position, or there is one more entry. */
  function Joined(chain: seq<Role>, def: int, p: nat): seq<Role> {
    if chain == [] then [Role({p}, def)]
    else if chain[0].def == def then [Role(chain[0].positions + {p}, def)] + chain[1..]
    else [chain[0]] + Joined(chain[1..], def, p)
  }

  function Without(chain: seq<Role>, def: int): seq<Role> {
    if chain == [] then []
    else (if chain[0].def == def then [] else [chain[0]]) + Without(chain[1..], def)
  }

  ghost predicate ChainOk(mem: Memory, selector: int, chain: seq<Role>) {
    forall k | 0 <= k < |chain| :: chain[k].positions <= mem.positions(chain[k].def) && chain[k].positions <= mem.masks(selector)
  }

  lemma {:induction false} JoinedOk(mem: Memory, selector: int, chain: seq<Role>, def: int, p: nat)
    requires ChainOk(mem, selector, chain) && p in mem.positions(def) && p in mem.masks(selector)
    ensures ChainOk(mem, selector, Joined(chain, def, p))
  {
    if chain != [] && chain[0].def != def {
      JoinedOk(mem, selector, chain[1..], def, p);
    }
  }

  lemma {:induction false} WithoutOk(mem: Memory, selector: int, chain: seq<Role>, def: int)
    requires ChainOk(mem, selector, chain)
    ensures ChainOk(mem, selector, Without(chain, def)) && forall k | 0 <= k < |Without(chain, def)| :: Without(chain, def)[k].def != def
  {
    if chain != [] {
      WithoutOk(mem, selector, chain[1..], def);
    }
  }

  lemma ChainOf(mem: Memory, selector: int, m: int)
    requires MemoryOk(mem) && m in mem.maps
    ensures ChainOk(mem, selector, mem.roles(selector)(m))
  {
    var w := View(mem, selector);
    assert WellFormed(w) && Masked(w, mem.masks(selector));
    var chain := mem.roles(selector)(m);
    forall k | 0 <= k < |chain| ensures chain[k].positions <= mem.positions(chain[k].def) && chain[k].positions <= mem.masks(selector) {
      assert w.roles(m)[k] == chain[k];
    }
  }

  lemma MapKnown(mem: Memory, x: int)
    requires MemoryOk(mem)
    ensures mem.mapOf(x) in mem.maps
  {
    assert WellFormed(View(mem, 0));
    assert View(mem, 0).mapOf(x) in View(mem, 0).maps;
  }

  lemma RepresentOk(mem: Memory, selector: int, x: int, chain: seq<Role>)
    requires MemoryOk(mem) && ChainOk(mem, selector, chain)
    ensures MemoryOk(Represent(mem, selector, x, chain))
  {
    var mem' := Represent(mem, selector, x, chain);
    MapKnown(mem, x);
    forall s ensures WellFormed(View(mem', s)) && Masked(View(mem', s), mem'.masks(s)) {
      forall m | m in mem'.maps ensures ChainOk(mem', s, mem'.roles(s)(m)) {
        if m != mem.next || s != selector {
          ChainOf(mem, s, if m == mem.next then mem.mapOf(x) else m);
        }
      }
      forall o ensures mem'.mapOf(o) in mem'.maps {
        MapKnown(mem, o);
      }
    }
  }

  /** No object of x's map is below that map or below one that restricts delegation; or no other object has the map at all. */
  ghost predicate Undisturbed(mem: Memory, x: int) {
    Apart(View(mem, 0), x) || Alone(View(mem, 0), x)
  }

  /** With the copy of its map for x, every bounded walk keeps its order, and was within the stack before. */
  ghost predicate Safe(w: World, w': World, x: int) {
    forall a | a != x && BoundedWalk(w', a) :: KeepsOrder(w, x, a) && Fits(w, a)
  }

  /**
   * With a copy of its map for x every other walk that is within bounds keeps its order, and was within the stack before.
   * This only depends on who delegates to whom, so it can be asked before the copy is made, and whatever the roles are.
   */
  ghost predicate Harmless(mem: Memory, x: int) {
    Safe(View(mem, 1), View(Represent(mem, 0, x, []), 1), x)
  }

  /** The object's map has a role of the selector for the definition at position p. */
  predicate RoleAt(mem: Memory, selector: int, x: int, d: int, p: nat) {
    InChain(mem.roles(selector)(mem.mapOf(x)), d, p)
  }

  predicate InChain(chain: seq<Role>, d: int, p: nat) {
    exists k :: 0 <= k < |chain| && Names(chain[k], d, p)
  }

  predicate Names(r: Role, d: int, p: nat) {
    r.def == d && p in r.positions
  }

  lemma InLonger(r: Role, rest: seq<Role>, d: int, p: nat)
    ensures InChain([r] + rest, d, p) <==> Names(r, d, p) || InChain(rest, d, p)
  {
    var chain := [r] + rest;
    if InChain(rest, d, p) {
      var k :| 0 <= k < |rest| && Names(rest[k], d, p);
      assert chain[k + 1] == rest[k];
    }
    if Names(r, d, p) {
      assert chain[0] == r;
    }
    if k :| 0 < k < |chain| && Names(chain[k], d, p) {
      assert rest[k - 1] == chain[k];
    }
  }

  lemma {:induction false} JoinedHolds(chain: seq<Role>, def: int, p: nat, d: int, q: nat)
    ensures InChain(Joined(chain, def, p), d, q) <==> InChain(chain, d, q) || (d == def && q == p)
  {
    hide InChain;
    if chain == [] {
      InLonger(Role({p}, def), [], d, q);
      Nowhere(d, q);
      assert [Role({p}, def)] + [] == [Role({p}, def)];
    } else {
      var r, rest := chain[0], chain[1..];
      assert chain == [r] + rest;
      InLonger(r, rest, d, q);
      if r.def == def {
        InLonger(Role(r.positions + {p}, def), rest, d, q);
      } else {
        JoinedHolds(rest, def, p, d, q);
        InLonger(r, Joined(rest, def, p), d, q);
      }
    }
  }

  lemma Nowhere(d: int, p: nat)
    ensures !InChain([], d, p)
  {
  }

  lemma {:induction false} WithoutHolds(chain: seq<Role>, def: int, d: int, q: nat)
    ensures InChain(Without(chain, def), d, q) <==> InChain(chain, d, q) && d != def
  {
    hide InChain;
    if chain == [] {
      Nowhere(d, q);
    } else {
      var r, rest := chain[0], chain[1..];
      assert chain == [r] + rest;
      InLonger(r, rest, d, q);
      WithoutHolds(rest, def, d, q);
      InLonger(r, Without(rest, def), d, q);
      assert [] + Without(rest, def) == Without(rest, def);
    }
  }

  /** object_add_role_at. */
  function AddRole(mem: Memory, selector: int, x: int, p: nat, def: int): Memory {
    Represent(mem, selector, x, Joined(mem.roles(selector)(mem.mapOf(x)), def, p))
  }

  /** object_remove_role, which leaves an object alone that has no role for the definition. */
  function RemoveRole(mem: Memory, selector: int, x: int, def: Option<int>): Memory {
    var chain := mem.roles(selector)(mem.mapOf(x));
    if def.None? || forall k | 0 <= k < |chain| :: chain[k].def != def.value then mem
    else Represent(mem, selector, x, Without(chain, def.value))
  }

  lemma AddRoleIs(mem: Memory, selector: int, x: int, p: nat, def: int)
    requires MemoryOk(mem) && p in mem.positions(def) && p in mem.masks(selector)
    ensures var mem' := AddRole(mem, selector, x, p, def);
      MemoryOk(mem') && SameMasks(mem, mem') && forall o, d, q: nat :: RoleAt(mem', selector, o, d, q) <==> RoleAt(mem, selector, o, d, q) || (o == x && d == def && q == p)
  {
    hide InChain, Joined, MemoryOk, ChainOk;
    MapKnown(mem, x);
    var chain := mem.roles(selector)(mem.mapOf(x));
    ChainOf(mem, selector, mem.mapOf(x));
    JoinedOk(mem, selector, chain, def, p);
    RepresentOk(mem, selector, x, Joined(chain, def, p));
    forall o, d, q: nat ensures RoleAt(AddRole(mem, selector, x, p, def), selector, o, d, q) <==> RoleAt(mem, selector, o, d, q) || (o == x && d == def && q == p) {
      RepresentRoles(mem, selector, x, Joined(chain, def, p), o);
      JoinedHolds(chain, def, p, d, q);
    }
  }

  ghost predicate SameMasks(mem: Memory, mem': Memory) {
    mem'.positions == mem.positions && mem'.masks == mem.masks
  }

  lemma RemoveRoleIs(mem: Memory, selector: int, x: int, def: Option<int>)
    requires MemoryOk(mem)
    ensures var mem' := RemoveRole(mem, selector, x, def);
      MemoryOk(mem') && SameMasks(mem, mem') && forall o, d, q: nat :: RoleAt(mem', selector, o, d, q) <==> RoleAt(mem, selector, o, d, q) && !(o == x && Some(d) == def)
  {
    hide Without, MemoryOk, ChainOk;
    MapKnown(mem, x);
    var chain := mem.roles(selector)(mem.mapOf(x));
    if def.Some? {
      ChainOf(mem, selector, mem.mapOf(x));
      WithoutOk(mem, selector, chain, def.value);
      RepresentOk(mem, selector, x, Without(chain, def.value));
      forall o, d, q: nat ensures RoleAt(RemoveRole(mem, selector, x, def), selector, o, d, q) <==> RoleAt(mem, selector, o, d, q) && !(o == x && Some(d) == def) {
        RepresentRoles(mem, selector, x, Without(chain, def.value), o);
        WithoutHolds(chain, def.value, d, q);
      }
    }
  }

  lemma RepresentRoles(mem: Memory, selector: int, x: int, chain: seq<Role>, o: int)
    requires MemoryOk(mem)
    ensures var mem' := Represent(mem, selector, x, chain);
      mem'.roles(selector)(mem'.mapOf(o)) == if o == x then chain else mem.roles(selector)(mem.mapOf(o))
  {
    MapKnown(mem, o);
    NextUnused(mem);
  }

  lemma NextUnused(mem: Memory)
    requires MemoryOk(mem)
    ensures mem.next !in mem.maps
  {
  }

  lemma SplitView(mem: Memory, selector: int, x: int, chain: seq<Role>, s: int)
    requires MemoryOk(mem) && s != selector
    ensures WellFormed(View(mem, s)) && SharedMaps.Split(View(mem, s), View(Represent(mem, selector, x, chain), s), x)
  {
    MapKnown(mem, x);
    NextUnused(mem);
  }

  /** An entry that is right is for a selector with definitions. */
  lemma MaskNotEmpty(mem: Memory, selector: int, maps: seq<int>, def: int)
    requires RightFor(mem, selector, maps, def)
    ensures mem.masks(selector) != {}
  {
    hide IsBest, Walks;
    var w := View(mem, selector);
    NothingBest(w, def);
    assert Bounded(w, []);
    assert mem.masks(selector) == {} ==> MapsMatch(mem.mapOf, mem.masks(selector), [], maps);
  }

  lemma NothingBest(w: World, d: int)
    ensures !IsBest(w, Walks(w, []), d)
  {
    assert FoundAt(w, Walks(w, []), d, End(Walks(w, []))) == {};
  }

  /** The arguments with those outside the mask replaced by one inside. */
  function OnlyMasked(args: seq<int>, mask: set<nat>, q: nat): seq<int>
    requires q < |args|
  {
    seq(|args|, i requires 0 <= i < |args| => if i in mask then args[i] else args[q])
  }

  lemma CollapsedShorter(walk: seq<int>, m: int, c: int, met: bool)
    ensures |Collapsed(walk, m, c, met)| <= |walk|
  {
  }

  lemma SafeArgs(w: World, w': World, x: int, args: seq<int>)
    requires WellFormed(w) && SharedMaps.Split(w, w', x) && Safe(w, w', x) && Bounded(w', args) && x !in args
    ensures WalksKept(w, w', x, args) && Bounded(w, args) && Short(Walks(w, args)) && Short(Walks(w', args))
  {
    hide Visited, Collapsed, Fits, KeepsOrder, WellFormed, SharedMaps.Split;
    forall i | 0 <= i < |args|
      ensures Collapsed(Visited(w', args[i]), w.mapOf(x), w'.mapOf(x), false) == Visited(w, args[i]) && BoundedWalk(w, args[i])
    {
      assert args[i] in args && BoundedWalk(w', args[i]);
      OrderKeptExactly(w, w', x, args[i]);
      CollapsedShorter(Visited(w', args[i]), w.mapOf(x), w'.mapOf(x), false);
    }
  }

  /** If every walk keeps its order, a role for one selector leaves the entries of all others right. */
  lemma OthersStayRight(mem: Memory, selector: int, x: int, chain: seq<Role>, e: Entry)
    requires MemoryOk(mem) && e.selector != Some(selector) && Right(mem, e)
    requires e.selector.Some? ==> Safe(View(mem, e.selector.value), View(Represent(mem, selector, x, chain), e.selector.value), x)
    requires ChainOk(mem, selector, chain)
    ensures Right(Represent(mem, selector, x, chain), e)
  {
    hide IsBest, Walks, MemoryOk, WellFormed, Masked, Bounded, Safe, Represent;
    if e.selector.Some? {
      var s, mem' := e.selector.value, Represent(mem, selector, x, chain);
      RepresentOk(mem, selector, x, chain);
      StaysKnown(mem, selector, x, chain, s, e.maps);
      MaskNotEmpty(mem, s, e.maps, e.def);
      forall args | MapsMatch(mem'.mapOf, mem'.masks(s), args, e.maps) && Bounded(View(mem', s), args)
        ensures IsBest(View(mem', s), Walks(View(mem', s), args), e.def)
      {
        var q :| q in mem.masks(s);
        StaysBest(mem, selector, x, chain, s, e.maps, e.def, args, q);
      }
    }
  }

  lemma StaysKnown(mem: Memory, selector: int, x: int, chain: seq<Role>, s: int, maps: seq<int>)
    requires forall p | p in mem.masks(s) :: p < |maps| && maps[p] in mem.maps
    ensures var mem' := Represent(mem, selector, x, chain);
      mem'.masks == mem.masks && forall p | p in mem'.masks(s) :: p < |maps| && maps[p] in mem'.maps
  {
  }

  lemma StaysBest(mem: Memory, selector: int, x: int, chain: seq<Role>, s: int, maps: seq<int>, def: int, args: seq<int>, q: nat)
    requires MemoryOk(mem) && MemoryOk(Represent(mem, selector, x, chain)) && s != selector && RightFor(mem, s, maps, def)
    requires Safe(View(mem, s), View(Represent(mem, selector, x, chain), s), x) && q in mem.masks(s)
    requires MapsMatch(Represent(mem, selector, x, chain).mapOf, mem.masks(s), args, maps)
    requires Bounded(View(Represent(mem, selector, x, chain), s), args)
    ensures var w' := View(Represent(mem, selector, x, chain), s); IsBest(w', Walks(w', args), def)
  {
    var mem' := Represent(mem, selector, x, chain);
    var w, w', mask := View(mem, s), View(mem', s), mem.masks(s);
    var args2 := OnlyMasked(args, mask, q);
    NextUnused(mem);
    assert x !in args2 && MapsMatch(mem.mapOf, mask, args2, maps) && MapsMatch(w'.mapOf, mask, args2, maps) && Bounded(w', args2) by {
      OldMaps(mem, mem', mask, args, maps, x, q);
      hide BoundedWalk;
    }
    SplitView(mem, selector, x, chain, s);
    assert WellFormed(w') && Masked(w', mask);
    hide IsBest, Walks, WellFormed, Masked, Bounded, Safe, Represent, SharedMaps.Split, View, MapsMatch, WalksKept, Short;
    MaskDecides(w', mask, args, args2, maps, def);
    SafeArgs(w, w', x, args2);
    OrderKeepsBest(w, w', x, args2, def);
  }

  /** The masked arguments have old maps, so x, whose map is new, is none of them. */
  lemma OldMaps(mem: Memory, mem': Memory, mask: set<nat>, args: seq<int>, maps: seq<int>, x: int, q: nat)
    requires MapsMatch(mem'.mapOf, mask, args, maps) && q in mask && (forall p | p in mask :: p < |maps| && maps[p] in mem.maps)
    requires mem'.mapOf(x) !in mem.maps && forall o | o != x :: mem'.mapOf(o) == mem.mapOf(o)
    ensures q < |args| && x !in OnlyMasked(args, mask, q)
    ensures MapsMatch(mem.mapOf, mask, OnlyMasked(args, mask, q), maps) && MapsMatch(mem'.mapOf, mask, OnlyMasked(args, mask, q), maps)
    ensures forall i | 0 <= i < |OnlyMasked(args, mask, q)| :: OnlyMasked(args, mask, q)[i] in args
  {
    var args2 := OnlyMasked(args, mask, q);
    forall i | 0 <= i < |args| ensures args2[i] != x {
      assert i in mask ==> mem'.mapOf(args[i]) == maps[i];
      assert mem'.mapOf(args[q]) == maps[q];
    }
  }

  /** Where x is undisturbed every walk keeps its order. */
  lemma UndisturbedIsSafe(mem: Memory, selector: int, x: int, chain: seq<Role>, s: int)
    requires MemoryOk(mem) && s != selector && Undisturbed(mem, x)
    ensures Safe(View(mem, s), View(Represent(mem, selector, x, chain), s), x)
  {
    var w, w' := View(mem, s), View(Represent(mem, selector, x, chain), s);
    SplitView(mem, selector, x, chain, s);
    SameGraph(View(mem, 0), w, x);
    hide KeepsOrder, Fits, Visited, SharedMaps.Split, Apart, Alone, WellFormed, View;
    forall a | a != x && BoundedWalk(w', a) ensures KeepsOrder(w, x, a) && Fits(w, a) {
      ApartKeepsOrder(w, w', x, a);
    }
  }

  lemma UndisturbedIsHarmless(mem: Memory, x: int)
    requires MemoryOk(mem) && Undisturbed(mem, x)
    ensures Harmless(mem, x)
  {
    hide Undisturbed, MemoryOk, Safe;
    UndisturbedIsSafe(mem, 0, x, [], 1);
  }

  /** What is harmless for no roles at all is harmless for any. */
  lemma HarmlessIsSafe(mem: Memory, selector: int, x: int, chain: seq<Role>, s: int)
    requires Harmless(mem, x)
    ensures Safe(View(mem, s), View(Represent(mem, selector, x, chain), s), x)
  {
    var w, w', u, u' := View(mem, s), View(Represent(mem, selector, x, chain), s), View(mem, 1), View(Represent(mem, 0, x, []), 1);
    assert SameObjects(u, w) && SameObjects(u', w');
    hide View, Represent, KeepsOrder, Fits, Visited, SameObjects;
    forall a | a != x && BoundedWalk(w', a) ensures KeepsOrder(w, x, a) && Fits(w, a) {
      AlikeObjects(u, w, x, a);
      AlikeObjects(u', w', x, a);
      assert BoundedWalk(u', a);
    }
  }

  /** An object that has got a copy has it to itself. */
  lemma CopyAlone(mem: Memory, selector: int, x: int, chain: seq<Role>)
    requires MemoryOk(mem)
    ensures Undisturbed(Represent(mem, selector, x, chain), x)
  {
    var mem' := Represent(mem, selector, x, chain);
    NextUnused(mem);
    forall o | o != x ensures mem'.mapOf(o) != mem'.mapOf(x) {
      MapKnown(mem, o);
    }
    assert Alone(View(mem', 0), x);
  }

  /** Whether x is undisturbed does not depend on the selector. */
  lemma SameGraph(w: World, u: World, x: int)
    requires u == w.(roles := u.roles)
    ensures Apart(w, x) ==> Apart(u, x)
    ensures Alone(w, x) ==> Alone(u, x)
  {
    forall os, o ensures Below(u, os, o) ==> Below(w, os, o) {
      if Below(u, os, o) {
        var p :| IsChain(u, p) && p[0] in os && p[|p| - 1] == o;
        assert IsChain(w, p);
      }
    }
  }

  /** Another object's copy leaves y undisturbed. */
  lemma StillUndisturbed(mem: Memory, selector: int, x: int, chain: seq<Role>, y: int)
    requires MemoryOk(mem) && Undisturbed(mem, y)
    ensures Undisturbed(Represent(mem, selector, x, chain), y)
  {
    var mem' := Represent(mem, selector, x, chain);
    var w, w' := View(mem, 0), View(mem', 0);
    CopyGraph(mem, selector, x, chain);
    hide *;
    UndisturbedIs(mem, y);
    UndisturbedIs(mem', y);
    if Apart(w, y) {
      StillApart(w, w', y);
    } else {
      StillAlone(w, w', y);
    }
  }

  lemma UndisturbedIs(mem: Memory, y: int)
    ensures Undisturbed(mem, y) <==> Apart(View(mem, 0), y) || Alone(View(mem, 0), y)
  {
  }

  /** Objects delegate to what they did, every map is an old one or like one, and no objects share a map that did not. */
  ghost predicate SameDelegation(w: World, w': World) {
    && (forall q :: SameDelegates(w, w', q)) && (forall n | n in w'.maps :: HasLike(w, w', n))
    && forall o, y | w'.mapOf(o) == w'.mapOf(y) :: w.mapOf(o) == w.mapOf(y)
  }

  ghost predicate HasLike(w: World, w': World, n: int) {
    exists n0 :: n0 in w.maps && w'.delegates(n) == w.delegates(n0) && w'.restricts(n) == w.restricts(n0)
  }

  lemma CopyGraph(mem: Memory, selector: int, x: int, chain: seq<Role>)
    requires MemoryOk(mem)
    ensures SameDelegation(View(mem, 0), View(Represent(mem, selector, x, chain), 0))
  {
    var w, w' := View(mem, 0), View(Represent(mem, selector, x, chain), 0);
    hide Represent, View, MemoryOk;
    forall o ensures SameDelegates(w, w', o) {
      MapAfter(mem, selector, x, chain, o);
    }
    forall o, y | w'.mapOf(o) == w'.mapOf(y) ensures w.mapOf(o) == w.mapOf(y) {
      MapAfter(mem, selector, x, chain, o);
      MapAfter(mem, selector, x, chain, y);
    }
    forall n | n in w'.maps ensures HasLike(w, w', n) {
      LikeAfter(mem, selector, x, chain, n);
    }
  }

  lemma MapAfter(mem: Memory, selector: int, x: int, chain: seq<Role>, o: int)
    requires MemoryOk(mem)
    ensures var w, w' := View(mem, 0), View(Represent(mem, selector, x, chain), 0);
      && w.mapOf(o) != mem.next && w'.mapOf(o) == (if o == x then mem.next else w.mapOf(o))
      && w'.delegates(w'.mapOf(o)) == w.delegates(w.mapOf(o))
  {
    MapKnown(mem, o);
    MapKnown(mem, x);
    NextUnused(mem);
  }

  lemma LikeAfter(mem: Memory, selector: int, x: int, chain: seq<Role>, n: int)
    requires MemoryOk(mem) && n in View(Represent(mem, selector, x, chain), 0).maps
    ensures HasLike(View(mem, 0), View(Represent(mem, selector, x, chain), 0), n)
  {
    MapKnown(mem, x);
    var w, w' := View(mem, 0), View(Represent(mem, selector, x, chain), 0);
    var n0 := if n == mem.next then mem.mapOf(x) else n;
    assert n0 in w.maps && w'.delegates(n) == w.delegates(n0) && w'.restricts(n) == w.restricts(n0);
  }

  lemma StillAlone(w: World, w': World, y: int)
    requires SameDelegation(w, w') && Alone(w, y)
    ensures Alone(w', y)
  {
  }

  lemma StillApart(w: World, w': World, y: int)
    requires SameDelegation(w, w') && Apart(w, y)
    ensures Apart(w', y)
  {
    hide Below, Restrained, HasLike;
    forall o | w'.mapOf(o) == w'.mapOf(y) ensures !Below(w', w'.delegates(w'.mapOf(y)), o) && !Restrained(w', o) {
      assert w.mapOf(o) == w.mapOf(y);
      assert SameDelegates(w, w', y);
      NothingMoreBelow(w, w', o);
    }
  }

  predicate SameDelegates(w: World, w': World, o: int) {
    w'.delegates(w'.mapOf(o)) == w.delegates(w.mapOf(o))
  }

  lemma NothingMoreBelow(w: World, w': World, o: int)
    requires SameDelegation(w, w')
    ensures forall os :: Below(w', os, o) ==> Below(w, os, o)
    ensures Restrained(w', o) ==> Restrained(w, o)
  {
    forall os ensures Below(w', os, o) ==> Below(w, os, o) {
      if Below(w', os, o) {
        var p :| IsChain(w', p) && p[0] in os && p[|p| - 1] == o;
        forall i | 0 <= i < |p| - 1 ensures p[i + 1] in w.delegates(w.mapOf(p[i])) {
          assert SameDelegates(w, w', p[i]);
        }
        assert IsChain(w, p);
      }
    }
    if Restrained(w', o) {
      var n :| n in w'.maps && w'.restricts(n) && Below(w', w'.delegates(n), o);
      assert HasLike(w, w', n);
      var n0 :| n0 in w.maps && w'.delegates(n) == w.delegates(n0) && w'.restricts(n) == w.restricts(n0);
      assert Below(w, w.delegates(n0), o);
    }
  }

  class MethodCache {
    var mem: Memory
    const entries: array<Entry>
    const hash: (int, seq<int>) -> nat

    ghost predicate Valid()
      reads this, entries
    {
      entries.Length == METHOD_CACHE_SIZE && MemoryOk(mem) && forall k | 0 <= k < entries.Length :: |entries[k].maps| == METHOD_CACHE_ARITY
    }

    /** Every hit returns what the full search would. */
    ghost predicate Coherent()
      reads this, entries
    {
      Valid() && forall k | 0 <= k < entries.Length :: Right(mem, entries[k])
    }

    /** The same, for selectors other than this one. */
    ghost predicate CoherentBut(selector: int)
      reads this, entries
    {
      Valid() && forall k | 0 <= k < entries.Length && entries[k].selector != Some(selector) :: Right(mem, entries[k])
    }

    /** hash & (METHOD_CACHE_SIZE-1): the hash is of the selector and the arguments' maps. */
    function Index(selector: int, args: seq<int>): nat
      reads this
    {
      hash(selector, MapsOf(mem, args)) % METHOD_CACHE_SIZE
    }

    /** method_check_cache. The mask may name the position behind the last argument; then what is there is compared, too. */
    method CheckCache(selector: int, args: seq<int>, beyond: int) returns (def: Option<int>)
      requires Valid() && |args| <= METHOD_CACHE_ARITY && mem.masks(selector) <= {0, 1, 2}
      ensures var e := entries[Index(selector, args)]; var mask := mem.masks(selector);
        def == if e.selector == Some(selector) && MaskNumber(mask) <= Shift(|args|)
                  && (forall p | p in mask :: mem.mapOf(Argument(args, beyond, p)) == e.maps[p])
               then Some(e.def) else None
      ensures Covered(mem.masks(selector), |args|) ==>
        def == if Hit(mem, entries[Index(selector, args)], selector, args) then Some(entries[Index(selector, args)].def) else None
    {
      var e := entries[Index(selector, args)];
      var mask := MaskNumber(mem.masks(selector));
      NumberCovers(mem.masks(selector), |args|);
      if e.selector != Some(selector) {
        return None;
      }
      if mask > Shift(|args|) {
        return None;
      }
      var map0, map1, map2 := mem.mapOf(Argument(args, beyond, 0)), mem.mapOf(Argument(args, beyond, 1)), mem.mapOf(Argument(args, beyond, 2));
      match mask {
        case 1 => if map0 != e.maps[0] { return None; }
        case 2 => if map1 != e.maps[1] { return None; }
        case 4 => if map2 != e.maps[2] { return None; }
        case 3 => if map0 != e.maps[0] || map1 != e.maps[1] { return None; }
        case 5 => if map0 != e.maps[0] || map2 != e.maps[2] { return None; }
        case 6 => if map1 != e.maps[1] || map2 != e.maps[2] { return None; }
        case 7 => if map0 != e.maps[0] || map1 != e.maps[1] || map2 != e.maps[2] { return None; }
        case _ =>
      }
      def := Some(e.def);
    }

    /** method_save_cache. */
    method SaveCache(def: int, selector: int, args: seq<int>)
      requires Valid() && |args| <= METHOD_CACHE_ARITY
      modifies entries
      ensures Valid()
      ensures entries[..] == old(entries[..])[Index(selector, args) := Entry(Some(selector), def, Stored(mem, args, old(entries[Index(selector, args)].maps)))]
    {
      hide MemoryOk, Right, MapsOf, Stored, WrittenTo;
      var k := Index(selector, args);
      ghost var was := entries[..];
      entries[k] := entries[k].(def := def, selector := Some(selector));
      var i := 0;
      NoneWritten(mem, args, was[k].maps);
      while i < |args|
        invariant 0 <= i <= |args| && |entries[k].maps| == METHOD_CACHE_ARITY
        invariant entries[..] == was[k := Entry(Some(selector), def, WrittenTo(mem, args, was[k].maps, i))]
      {
        OneWritten(mem, args, was[k].maps, i);
        entries[k] := entries[k].(maps := entries[k].maps[i := mem.mapOf(args[i])]);
        i := i + 1;
      }
      AllWritten(mem, args, was[k].maps);
    }

    /** method_flush_cache for a selector. */
    method FlushCache(selector: int)
      requires CoherentBut(selector)
      modifies entries
      ensures Coherent() && forall k | 0 <= k < entries.Length :: entries[k].selector != Some(selector)
      ensures forall k | 0 <= k < entries.Length :: entries[k] == if old(entries[k].selector) == Some(selector) then old(entries[k]).(selector := None) else old(entries[k])
    {
      hide Right, MemoryOk;
      var i := 0;
      while i < entries.Length
        invariant 0 <= i <= entries.Length
        invariant forall k | 0 <= k < i :: entries[k] == if old(entries[k].selector) == Some(selector) then old(entries[k]).(selector := None) else old(entries[k])
        invariant forall k | i <= k < entries.Length :: entries[k] == old(entries[k])
      {
        if entries[i].selector == Some(selector) {
          entries[i] := entries[i].(selector := None);
        }
        i := i + 1;
      }
      forall k | 0 <= k < entries.Length ensures Right(mem, entries[k]) {
        NoneIsRight(mem, entries[k]);
      }
    }

    /** One role of method_define; oldDef is the definition that is replaced, if there is one. */
    method DefineAt(selector: int, x: int, p: nat, def: int, oldDef: Option<int>)
      requires CoherentBut(selector) && p in mem.positions(def) && p in mem.masks(selector)
      requires Harmless(mem, x)
      modifies this`mem
      ensures CoherentBut(selector) && SameMasks(old(mem), mem) && mem == DefinedAt(old(mem), selector, x, p, def, oldDef)
      ensures forall y | Undisturbed(old(mem), y) :: Undisturbed(mem, y)
      ensures forall o, d, q: nat :: RoleAt(mem, selector, o, d, q) <==>
        (RoleAt(old(mem), selector, o, d, q) && !(o == x && Some(d) == oldDef)) || (o == x && d == def && q == p)
    {
      hide Right, MemoryOk, RoleAt, Represent, Joined, Without, Undisturbed, Harmless;
      RemoveRoleIs(mem, selector, x, oldDef);
      ghost var mid := RemoveRole(mem, selector, x, oldDef);
      AddRoleIs(mid, selector, x, p, def);
      forall y | Undisturbed(mem, y) ensures Undisturbed(mid, y) && Undisturbed(AddRole(mid, selector, x, p, def), y) {
        DefinedUndisturbed(mem, selector, x, p, def, oldDef, y);
      }
      forall k | 0 <= k < entries.Length && entries[k].selector != Some(selector) ensures Right(AddRole(mid, selector, x, p, def), entries[k]) {
        DefinedRight(mem, selector, x, p, def, oldDef, entries[k]);
      }
      mem := RemoveRole(mem, selector, x, oldDef);
      mem := AddRole(mem, selector, x, p, def);
    }

    /** method_define and the flush after it. An argument without a role is a small integer or NoRole. */
    method Define(selector: int, args: seq<Option<int>>, def: int, oldDef: Option<int>)
      requires Coherent() && mem.positions(def) == Positions(args) && oldDef != Some(def)
      requires AllHarmless(mem.(masks := MoreMasks(mem.masks, selector, Positions(args))), selector, args, 0, def, oldDef)
      modifies this`mem, entries
      ensures Coherent() && mem.positions == old(mem).positions
      ensures forall s :: mem.masks(s) == if s == selector then old(mem).masks(s) + set p: nat | p < |args| && args[p].Some? else old(mem).masks(s)
      ensures forall o, d, q: nat :: RoleAt(mem, selector, o, d, q) <==>
        (RoleAt(old(mem), selector, o, d, q) && !(Some(o) in args && Some(d) == oldDef)) || (d == def && q < |args| && args[q] == Some(o))
    {
      hide Right, MemoryOk, RoleAt, Undisturbed, Harmless, AllHarmless, DefinedAt, GivenTo, View, Represent, Positions, MoreMasks;
      ghost var m0 := mem;
      mem := mem.(masks := MoreMasks(mem.masks, selector, Positions(args)));
      MaskGrows(m0, selector, Positions(args));
      forall k | 0 <= k < entries.Length && entries[k].selector != Some(selector) ensures Right(mem, entries[k]) {
        MaskGrowsRight(m0, selector, Positions(args), entries[k]);
      }
      ghost var m1 := mem;
      NoneGiven(m0, m1, selector, args, def, oldDef);
      var i := 0;
      while i < |args|
        invariant 0 <= i <= |args| && CoherentBut(selector) && SameMasks(m1, mem)
        invariant AllHarmless(mem, selector, args, i, def, oldDef) && GivenTo(m0, mem, selector, args, i, def, oldDef)
      {
        ghost var m2 := mem;
        NextHarmless(mem, selector, args, i, def, oldDef);
        PositionGiven(m0, selector, args, i, def);
        if args[i].Some? {
          DefineAt(selector, args[i].value, i, def, oldDef);
        }
        OneGiven(m0, m2, mem, selector, args, i, def, oldDef);
        i := i + 1;
      }
      AllGiven(m0, mem, selector, args, def, oldDef);
      MasksAre(m0.masks, selector, args);
      FlushCache(selector);
    }

    /** method_dispatch_on with its cache: with enough arguments to cover the mask, a hit returns what the full search would. */
    method Send(d: Dispatcher, selector: int, args: seq<int>, beyond: int) returns (def: Option<int>)
      requires Coherent() && d.Valid()
      requires mem.masks(selector) <= {0, 1, 2} && Covered(mem.masks(selector), |args|) && Bounded(View(mem, selector), args)
      modifies d, entries
      ensures Coherent() && d.Valid()
      ensures def.None? ==> forall e :: !Applicable(View(mem, selector), Walks(View(mem, selector), args), e)
      ensures def.Some? ==> IsBest(View(mem, selector), Walks(View(mem, selector), args), def.value)
    {
      hide IsBest, Applicable, Walks, Visited, Fits;
      def := CheckCache(selector, args, beyond);
      if def.Some? {
        assert Right(mem, entries[Index(selector, args)]);
        return;
      }
      var early;
      assert WellFormed(View(mem, selector));
      assert forall i | 0 <= i < |args| :: BoundedWalk(View(mem, selector), args[i]);
      def, early := d.DispatchIn(View(mem, selector), args);
      if def.Some? && (early || |args| < METHOD_CACHE_ARITY) {
        SavedIsRight(mem, selector, args, entries[Index(selector, args)].maps, def.value);
        SaveCache(def.value, selector, args);
      }
    }
  }

  /** The first i arguments have their roles. */
  ghost predicate GivenTo(m0: Memory, mem: Memory, selector: int, args: seq<Option<int>>, i: nat, def: int, oldDef: Option<int>)
    requires i <= |args|
  {
    forall o, d, q: nat :: RoleAt(mem, selector, o, d, q) <==>
      (RoleAt(m0, selector, o, d, q) && !(Some(o) in args[..i] && Some(d) == oldDef)) || (d == def && q < i && args[q] == Some(o))
  }

  lemma NoneGiven(m0: Memory, mem: Memory, selector: int, args: seq<Option<int>>, def: int, oldDef: Option<int>)
    requires forall o, d, q: nat :: RoleAt(mem, selector, o, d, q) <==> RoleAt(m0, selector, o, d, q)
    ensures GivenTo(m0, mem, selector, args, 0, def, oldDef)
  {
    hide RoleAt;
  }

  lemma OneGiven(m0: Memory, m1: Memory, m2: Memory, selector: int, args: seq<Option<int>>, i: nat, def: int, oldDef: Option<int>)
    requires i < |args| && GivenTo(m0, m1, selector, args, i, def, oldDef) && oldDef != Some(def)
    requires args[i].None? ==> m2 == m1
    requires args[i].Some? ==> forall o, d, q: nat :: RoleAt(m2, selector, o, d, q) <==>
      (RoleAt(m1, selector, o, d, q) && !(o == args[i].value && Some(d) == oldDef)) || (o == args[i].value && d == def && q == i)
    ensures GivenTo(m0, m2, selector, args, i + 1, def, oldDef)
  {
    hide RoleAt;
    assert args[..i + 1] == args[..i] + [args[i]];
  }

  lemma AllGiven(m0: Memory, mem: Memory, selector: int, args: seq<Option<int>>, def: int, oldDef: Option<int>)
    requires GivenTo(m0, mem, selector, args, |args|, def, oldDef)
    ensures forall o, d, q: nat :: RoleAt(mem, selector, o, d, q) <==>
      (RoleAt(m0, selector, o, d, q) && !(Some(o) in args && Some(d) == oldDef)) || (d == def && q < |args| && args[q] == Some(o))
  {
    hide RoleAt;
    assert args[..|args|] == args;
  }

  lemma PositionGiven(m0: Memory, selector: int, args: seq<Option<int>>, i: nat, def: int)
    requires i < |args| && m0.positions(def) == Positions(args)
    ensures args[i].Some? ==> i in m0.positions(def) && i in MoreMasks(m0.masks, selector, Positions(args))(selector)
  {
  }

  lemma NextHarmless(mem: Memory, selector: int, args: seq<Option<int>>, i: nat, def: int, oldDef: Option<int>)
    requires i < |args| && AllHarmless(mem, selector, args, i, def, oldDef)
    ensures args[i].None? ==> AllHarmless(mem, selector, args, i + 1, def, oldDef)
    ensures args[i].Some? ==> Harmless(mem, args[i].value)
    ensures args[i].Some? ==> AllHarmless(DefinedAt(mem, selector, args[i].value, i, def, oldDef), selector, args, i + 1, def, oldDef)
  {
  }

  lemma MasksAre(masks: int -> set<nat>, selector: int, args: seq<Option<int>>)
    ensures var given := set p: nat | p < |args| && args[p].Some?;
      forall s :: MoreMasks(masks, selector, Positions(args))(s) == if s == selector then masks(s) + given else masks(s)
  {
  }

  /** The argument positions that get a role. */
  function Positions(args: seq<Option<int>>): set<nat> {
    set p: nat | p < |args| && args[p].Some?
  }

  function MoreMasks(masks: int -> set<nat>, selector: int, positions: set<nat>): int -> set<nat> {
    (s: int) => if s == selector then masks(s) + positions else masks(s)
  }

  lemma MaskGrows(mem: Memory, selector: int, positions: set<nat>)
    requires MemoryOk(mem)
    ensures var mem' := mem.(masks := MoreMasks(mem.masks, selector, positions));
      MemoryOk(mem') && (forall y | Undisturbed(mem, y) :: Undisturbed(mem', y))
      && forall o, d, q: nat :: RoleAt(mem', selector, o, d, q) <==> RoleAt(mem, selector, o, d, q)
  {
    hide WellFormed, InChain;
    var mem' := mem.(masks := MoreMasks(mem.masks, selector, positions));
    forall s ensures WellFormed(View(mem', s)) && Masked(View(mem', s), mem'.masks(s)) {
      assert View(mem', s) == View(mem, s);
      assert WellFormed(View(mem, s)) && Masked(View(mem, s), mem.masks(s));
    }
  }

  lemma MaskGrowsRight(mem: Memory, selector: int, positions: set<nat>, e: Entry)
    requires Right(mem, e) && e.selector != Some(selector)
    ensures Right(mem.(masks := MoreMasks(mem.masks, selector, positions)), e)
  {
    hide IsBest, Walks;
    if e.selector.Some? {
      var mem' := mem.(masks := MoreMasks(mem.masks, selector, positions));
      assert View(mem', e.selector.value) == View(mem, e.selector.value);
    }
  }

  lemma DefinedUndisturbed(mem: Memory, selector: int, x: int, p: nat, def: int, oldDef: Option<int>, y: int)
    requires MemoryOk(mem) && Undisturbed(mem, y)
    ensures var mid := RemoveRole(mem, selector, x, oldDef); Undisturbed(mid, y) && Undisturbed(AddRole(mid, selector, x, p, def), y)
  {
    hide Undisturbed, Represent, MemoryOk, Joined, Without;
    var chain := mem.roles(selector)(mem.mapOf(x));
    RemoveRoleIs(mem, selector, x, oldDef);
    var mid := RemoveRole(mem, selector, x, oldDef);
    if oldDef.Some? {
      StillUndisturbed(mem, selector, x, Without(chain, oldDef.value), y);
    }
    StillUndisturbed(mid, selector, x, Joined(mid.roles(selector)(mid.mapOf(x)), def, p), y);
  }

  function DefinedAt(mem: Memory, selector: int, x: int, p: nat, def: int, oldDef: Option<int>): Memory {
    AddRole(RemoveRole(mem, selector, x, oldDef), selector, x, p, def)
  }

  /** Each object that gets a role can have its copy without harm when its turn comes. */
  ghost predicate AllHarmless(mem: Memory, selector: int, args: seq<Option<int>>, i: nat, def: int, oldDef: Option<int>)
    decreases |args| - i
  {
    i < |args| ==>
      if args[i].None? then AllHarmless(mem, selector, args, i + 1, def, oldDef)
      else Harmless(mem, args[i].value) && AllHarmless(DefinedAt(mem, selector, args[i].value, i, def, oldDef), selector, args, i + 1, def, oldDef)
  }

  /** One object that gets a role: the condition is that its copy does no harm. */
  lemma OneHarmless(mem: Memory, selector: int, x: int, def: int, oldDef: Option<int>)
    ensures AllHarmless(mem, selector, [Some(x)], 0, def, oldDef) <==> Harmless(mem, x)
  {
    assert AllHarmless(DefinedAt(mem, selector, x, 0, def, oldDef), selector, [Some(x)], 1, def, oldDef);
  }

  /** Objects that are undisturbed before the definition can have their copies. */
  lemma {:induction false} UndisturbedAllHarmless(mem: Memory, selector: int, args: seq<Option<int>>, i: nat, def: int, oldDef: Option<int>)
    requires MemoryOk(mem) && forall j | i <= j < |args| && args[j].Some? :: Undisturbed(mem, args[j].value) && j in mem.positions(def) && j in mem.masks(selector)
    ensures AllHarmless(mem, selector, args, i, def, oldDef)
    decreases |args| - i
  {
    hide MemoryOk, Undisturbed, Harmless, AddRole, RemoveRole, RoleAt;
    if i < |args| {
      if args[i].None? {
        UndisturbedAllHarmless(mem, selector, args, i + 1, def, oldDef);
      } else {
        var x := args[i].value;
        UndisturbedIsHarmless(mem, x);
        RemoveRoleIs(mem, selector, x, oldDef);
        AddRoleIs(RemoveRole(mem, selector, x, oldDef), selector, x, i, def);
        forall j | i + 1 <= j < |args| && args[j].Some? ensures Undisturbed(DefinedAt(mem, selector, x, i, def, oldDef), args[j].value) {
          DefinedUndisturbed(mem, selector, x, i, def, oldDef, args[j].value);
        }
        UndisturbedAllHarmless(DefinedAt(mem, selector, x, i, def, oldDef), selector, args, i + 1, def, oldDef);
      }
    }
  }

  lemma DefinedRight(mem: Memory, selector: int, x: int, p: nat, def: int, oldDef: Option<int>, e: Entry)
    requires MemoryOk(mem) && Harmless(mem, x) && e.selector != Some(selector) && Right(mem, e)
    requires p in mem.positions(def) && p in mem.masks(selector)
    ensures Right(AddRole(RemoveRole(mem, selector, x, oldDef), selector, x, p, def), e)
  {
    hide Undisturbed, Harmless, Represent, MemoryOk, Joined, Without, Right, ChainOk;
    var chain := mem.roles(selector)(mem.mapOf(x));
    RemoveRoleIs(mem, selector, x, oldDef);
    var mid := RemoveRole(mem, selector, x, oldDef);
    if oldDef.Some? {
      MapKnown(mem, x);
      ChainOf(mem, selector, mem.mapOf(x));
      WithoutOk(mem, selector, chain, oldDef.value);
      HarmlessRight(mem, selector, x, Without(chain, oldDef.value), e);
      CopyAlone(mem, selector, x, Without(chain, oldDef.value));
    }
    if mid != mem {
      UndisturbedIsHarmless(mid, x);
    }
    var chain' := mid.roles(selector)(mid.mapOf(x));
    MapKnown(mid, x);
    ChainOf(mid, selector, mid.mapOf(x));
    JoinedOk(mid, selector, chain', def, p);
    HarmlessRight(mid, selector, x, Joined(chain', def, p), e);
  }

  lemma HarmlessRight(mem: Memory, selector: int, x: int, chain: seq<Role>, e: Entry)
    requires MemoryOk(mem) && Harmless(mem, x) && e.selector != Some(selector) && Right(mem, e) && ChainOk(mem, selector, chain)
    ensures Right(Represent(mem, selector, x, chain), e)
  {
    hide *;
    if e.selector.Some? {
      HarmlessIsSafe(mem, selector, x, chain, e.selector.value);
    }
    OthersStayRight(mem, selector, x, chain, e);
  }

  lemma NoneIsRight(mem: Memory, e: Entry)
    ensures e.selector == None ==> Right(mem, e)
  {
  }
}
