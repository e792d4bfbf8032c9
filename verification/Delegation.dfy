/** Objects, their maps and the order in which dispatch goes through the maps an argument delegates to. */
module Delegation {
  import opened Wrappers

  /** A role: for a selector, a definition and the argument positions it is found at. */
  datatype Role = Role(positions: set<nat>, def: int)

  /** The object memory as dispatch sees it, for one selector: maps, their delegates and role chains, and the definitions' positions. */
  datatype World = World(
    maps: set<int>,
    mapOf: int -> int,
    delegates: int -> seq<int>,
    restricts: int -> bool,
    roles: int -> seq<Role>,
    positions: int -> set<nat>)

  const DELEGATION_STACK_SIZE: nat := 256

  ghost predicate WellFormed(w: World) {
    && (forall o :: w.mapOf(o) in w.maps)
    && forall m, k | m in w.maps && 0 <= k < |w.roles(m)| :: w.roles(m)[k].positions <= w.positions(w.roles(m)[k].def)
  }

  /** The walk at an object: what is still to be visited, and above which height of the stack nothing is followed further. */
  datatype Walker = Walker(arg: int, stack: seq<int>, restricted: Option<nat>)

  /** What comes off the stack next; nothing when it is empty or overflows. */
  function Pop(stack: seq<int>, restricted: Option<nat>): Option<Walker> {
    if stack == [] || |stack| > DELEGATION_STACK_SIZE then None
    else
      var n := |stack| - 1;
      Some(Walker(stack[n], stack[..n], if restricted.Some? && n < restricted.value then None else restricted))
  }

  /** The restriction point when a map that marks one is reached other than from the argument itself. */
  function Restriction(w: World, first: int, k: Walker): Option<nat> {
    if w.restricts(w.mapOf(k.arg)) && k.arg != first then Some(|k.stack|) else k.restricted
  }

  /** The stack after a new map: its delegates are added unless the walk is restricted here. */
  function Pushed(w: World, k: Walker, restricted: Option<nat>): seq<int> {
    if restricted.None? || |k.stack| <= restricted.value then k.stack + w.delegates(w.mapOf(k.arg)) else k.stack
  }

  /** The maps that are visited from here on, each once, in order. */
  function Walk(w: World, first: int, k: Option<Walker>, seen: set<int>): seq<int>
    decreases w.maps - seen, if k.Some? then |k.value.stack| + 1 else 0
  {
    if k.None? then []
    else
      var m := w.mapOf(k.value.arg);
      if m in seen || m !in w.maps then Walk(w, first, Pop(k.value.stack, k.value.restricted), seen)
      else
        var r := Restriction(w, first, k.value);
        Fewer(w.maps, seen, m);
        [m] + Walk(w, first, Pop(Pushed(w, k.value, r), r), seen + {m})
  }

  /**
   * A map not seen before is visited, and its delegates go on the stack: unless the walk is restricted to a lower height,
   * and then only what is there is still visited.
   */
  lemma NewMapOnWalk(w: World, first: int, arg: int, stack: seq<int>, restricted: Option<nat>, seen: set<int>)
    requires w.mapOf(arg) in w.maps && w.mapOf(arg) !in seen
    ensures var m := w.mapOf(arg); var walk := Walk(w, first, Some(Walker(arg, stack, restricted)), seen);
      && (w.restricts(m) && arg != first ==>
            walk == [m] + Walk(w, first, Pop(stack + w.delegates(m), Some(|stack|)), seen + {m}))
      && (!(w.restricts(m) && arg != first) && restricted.Some? && restricted.value < |stack| ==>
            walk == [m] + Walk(w, first, Pop(stack, restricted), seen + {m}))
      && (!(w.restricts(m) && arg != first) && !(restricted.Some? && restricted.value < |stack|) ==>
            walk == [m] + Walk(w, first, Pop(stack + w.delegates(m), restricted), seen + {m}))
  {
  }

  /**
   * The walk goes on with the last object on the stack, a restriction ending below its height; it is over when none is
   * left or there are too many.
   */
  lemma NextOnStack(w: World, first: int, stack: seq<int>, restricted: Option<nat>, seen: set<int>)
    ensures stack == [] || |stack| > 256 ==> Walk(w, first, Pop(stack, restricted), seen) == []
    ensures 0 < |stack| <= 256 ==>
      var n := |stack| - 1;
      var next := Walker(stack[n], stack[..n], if restricted.Some? && n < restricted.value then None else restricted);
      Walk(w, first, Pop(stack, restricted), seen)
        == if w.mapOf(next.arg) in seen then Walk(w, first, Pop(next.stack, next.restricted), seen) else Walk(w, first, Some(next), seen)
  {
  }

  /** The maps visited for an argument. */
  function Visited(w: World, arg: int): seq<int> {
    Walk(w, arg, Some(Walker(arg, [], None)), {})
  }

  /** Whether the map has a role for the definition at this position. */
  predicate HasRole(w: World, m: int, d: int, p: nat) {
    exists k :: 0 <= k < |w.roles(m)| && w.roles(m)[k].def == d && p in w.roles(m)[k].positions
  }

  /** Where along the walk the definition is first found at this position; the walk's length when it is not. */
  function FirstFound(w: World, walk: seq<int>, d: int, p: nat): (k: nat)
    ensures k <= |walk| && (k < |walk| ==> HasRole(w, walk[k], d, p)) && forall j | 0 <= j < k :: !HasRole(w, walk[j], d, p)
  {
    if walk == [] then 0
    else if HasRole(w, walk[0], d, p) then 0
    else
      var k := FirstFound(w, walk[1..], d, p);
      assert forall j | 0 <= j < k + 1 :: !HasRole(w, walk[j], d, p) by {
        forall j | 0 <= j < k + 1 ensures !HasRole(w, walk[j], d, p) {
          if j > 0 {
            assert walk[j] == walk[1..][j - 1];
          }
        }
      }
      k + 1
  }

  lemma FirstFoundIs(w: World, walk: seq<int>, d: int, p: nat, k: nat)
    requires k < |walk| && HasRole(w, walk[k], d, p) && forall j | 0 <= j < k :: !HasRole(w, walk[j], d, p)
    ensures FirstFound(w, walk, d, p) == k
  {
    var f := FirstFound(w, walk, d, p);
    assert f <= k;
  }

  // ---------- every map at most once ----------

  ghost predicate Unseen(w: World, ms: seq<int>, seen: set<int>) {
    (forall i | 0 <= i < |ms| :: ms[i] !in seen && ms[i] in w.maps) && forall i, j | 0 <= i < j < |ms| :: ms[i] != ms[j]
  }

  lemma UnseenMore(w: World, m: int, rest: seq<int>, seen: set<int>)
    requires m in w.maps && m !in seen && Unseen(w, rest, seen + {m})
    ensures Unseen(w, [m] + rest, seen)
  {
    forall i | 0 <= i < |rest| ensures rest[i] !in seen && rest[i] != m && rest[i] in w.maps {
      assert rest[i] !in seen + {m};
    }
  }

  lemma {:induction false} WalkDistinct(w: World, first: int, k: Option<Walker>, seen: set<int>)
    ensures Unseen(w, Walk(w, first, k, seen), seen)
    decreases w.maps - seen, if k.Some? then |k.value.stack| + 1 else 0
  {
    if k.Some? {
      var m := w.mapOf(k.value.arg);
      var ms := Walk(w, first, k, seen);
      if m in seen || m !in w.maps {
        var next := Pop(k.value.stack, k.value.restricted);
        WalkDistinct(w, first, next, seen);
        assert ms == Walk(w, first, next, seen);
      } else {
        var r := Restriction(w, first, k.value);
        var next := Pop(Pushed(w, k.value, r), r);
        Fewer(w.maps, seen, m);
        var rest := Walk(w, first, next, seen + {m});
        WalkDistinct(w, first, next, seen + {m});
        assert ms == [m] + rest;
        UnseenMore(w, m, rest, seen);
      }
    }
  }

  lemma Fewer(all: set<int>, seen: set<int>, m: int)
    requires m in all && m !in seen
    ensures all - (seen + {m}) < all - seen
  {
    assert m in all - seen && m !in all - (seen + {m});
  }
}
