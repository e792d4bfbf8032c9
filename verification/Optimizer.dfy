/** The inliner: it walks over a method's code and puts guarded callees in front of its sends. */
module Optimizer {
  import opened Opcodes
  import opened CodeVectors
  import opened Execution
  import opened EditedCode
  import opened Rewriting
  import opened Renumbering
  import opened Definedness
  import opened Returns
  import opened Inlining
  import opened InlinedCall
  import opened Guards
  import opened Sites

  /** The entry tells the truth about a send with this key and this many arguments. */
  ghost predicate EntryOk(m: Machine, e: PicEntry, key: seq<Word>, arity: nat) {
    match e
    case CompiledCallee(maps, code, registerCount, defs, running) =>
      CalleeOk(code, registerCount, arity, defs) && ClearOfReturns(code) && CalleeImplements(m, key, maps, running, code)
    case PrimitiveCallee(maps, index) => PrimitiveImplements(m, key, maps, index)
  }

  ghost predicate SendOk(m: Machine, impls: Implementations, c: seq<Word>, p: int)
    requires Fits(c, p)
  {
    IsSend(c[p]) ==> forall e | e in Called(impls, c[p + 2]) :: EntryOk(m, e, Key(Fetch(c, p)), |SendArgs(c, p)|)
  }

  ghost predicate SendsOk(m: Machine, impls: Implementations, c: seq<Word>, from: int) {
    forall p | Boundary(c, p) && from <= p < |c| :: Fits(c, p) && SendOk(m, impls, c, p)
  }

  /** What holds of the caller's code all through the inlining. */
  ghost predicate Inlinable0(m: Machine, ctx: Context, c0: seq<Word>, c: seq<Word>, n0: int, n: int) {
    && Sound(c) && Closed(c) && All(c, Within(0, n)) && n0 <= n && ctx.inputs <= n0 && SameRuns(m, ctx, c0, c, n0)
  }

  // ---------- putting a method block in keeps the code in order ----------

  lemma SameRunsTrans(m: Machine, ctx: Context, a: seq<Word>, b: seq<Word>, c: seq<Word>, n0: int, n: int)
    requires SameRuns(m, ctx, a, b, n0) && SameRuns(m, ctx, b, c, n) && n0 <= n
    ensures SameRuns(m, ctx, a, c, n0)
  {
    hide Ends;
    forall regs, regs', world, o | Agree(regs, regs', n0)
      ensures Ends(m, ctx, a, State(0, regs, world), o) <==> Ends(m, ctx, c, State(0, regs', world), o)
    {
      assert Agree(regs', regs', n);
      assert Ends(m, ctx, a, State(0, regs, world), o) <==> Ends(m, ctx, b, State(0, regs', world), o);
    }
  }

  lemma SameRunsEnds(m: Machine, ctx: Context, a: seq<Word>, b: seq<Word>, c: seq<Word>, n0: int)
    requires SameRuns(m, ctx, a, b, n0) && SameEnds(m, ctx, b, c)
    ensures SameRuns(m, ctx, a, c, n0)
  {
    hide Ends;
    forall regs, regs', world, o | Agree(regs, regs', n0)
      ensures Ends(m, ctx, a, State(0, regs, world), o) <==> Ends(m, ctx, c, State(0, regs', world), o)
    {
      assert Ends(m, ctx, a, State(0, regs, world), o) <==> Ends(m, ctx, b, State(0, regs', world), o);
    }
  }

  lemma WithinWider(c: seq<Word>, lo: int, hi: int, lo': int, hi': int)
    requires All(c, Within(lo, hi)) && lo' <= lo && hi <= hi'
    ensures All(c, Within(lo', hi'))
  {
    hide IsRegisterOperand, Fetch;
    forall p | Boundary(c, p) && p < |c|
      ensures Fits(c, p) && Within(lo', hi')(Fetch(c, p).(target := 0))
    {
      assert Within(lo, hi)(Fetch(c, p).(target := 0));
    }
  }

  /** The argument moves name only registers of the caller and argument registers of the callee, and do not jump. */
  lemma MovesInRange(args: seq<Word>, base: int, top: int)
    requires CallerArgs(args, base) && base + |args| <= top
    ensures var w := Prelude(args, base);
      Boundary(w, |w|) && All(w, Within(0, top)) && forall k | Boundary(w, k) && k < |w| :: Fits(w, k) && !CanJump(w[k])
  {
    var w := Prelude(args, base);
    PreludeShape(args, base);
    forall k | Boundary(w, k) && k < |w|
      ensures Fits(w, k) && !CanJump(w[k]) && Within(0, top)(Fetch(w, k).(target := 0))
    {
      MoveInRange(args, base, top, k);
    }
  }

  lemma MoveInRange(args: seq<Word>, base: int, top: int, k: int)
    requires CallerArgs(args, base) && base + |args| <= top && MovesOnly(Prelude(args, base)) && |Prelude(args, base)| == 3 * |args|
    requires forall g | 0 <= g < |args| :: PreludeMove(args, base, g)
    requires Boundary(Prelude(args, base), k) && k < |Prelude(args, base)|
    ensures var w := Prelude(args, base);
      Fits(w, k) && !CanJump(w[k]) && Within(0, top)(Fetch(w, k).(target := 0))
  {
    hide BaseLength, ArgLength, KnownOp, Length, Prelude;
    var w := Prelude(args, base);
    assert PreludeOp(w, k);
    var g := k / 3;
    assert PreludeMove(args, base, g);
    MoveWords(w, k, SmallintToObject(g + base), args[g]);
  }

  /** The callee's code with the argument moves in front. */
  lemma MovesInFront(b2: seq<Word>, args: seq<Word>, base: int, top: int, b3: seq<Word>)
    requires Sound(b2) && Closed(b2) && All(b2, Within(base, top)) && Spliced(b2, 0, Prelude(args, base), b3)
    requires CallerArgs(args, base) && base + |args| <= top && 0 <= base
    ensures Sound(b3) && Closed(b3) && All(b3, Within(0, top))
    ensures ReturnsClear(b2) <==> ReturnsClear(b3)
  {
    hide BaseLength, ArgLength, KnownOp, Length, Fetch, Prelude, ReturnsClear;
    var w := Prelude(args, base);
    MovesInRange(args, base, top);
    StartsInside(b2);
    WithinWider(b2, base, top, 0, top);
    SpliceSound(b2, 0, w, b3);
    SpliceClosed(b2, 0, w, b3);
    SpliceAll(b2, 0, w, b3, Within(0, top));
    if ReturnsClear(b2) {
      StillClear(b2, w, b3);
    }
    if ReturnsClear(b3) {
      BeforeClear(b2, w, b3);
    }
  }

  lemma StillClear(b2: seq<Word>, w: seq<Word>, b3: seq<Word>)
    requires Sound(b2) && Closed(b2) && Spliced(b2, 0, w, b3) && Boundary(w, |w|) && ReturnsClear(b2)
    requires forall k | Boundary(w, k) && k < |w| :: Fits(w, k) && !CanJump(w[k])
    ensures ReturnsClear(b3)
  {
    hide BaseLength, ArgLength, KnownOp, Length, Fetch, JumpParameter, Spliced, Sound, Closed;
    forall p | Boundary(b3, p) && p < |b3| && Fits(b3, p) && CanJump(b3[p])
      ensures !JumpsPastReturn(b3, p, Target(b3, p)) && !JumpsBackToReturn(b3, p, Target(b3, p))
    {
      MovedJump(b2, w, b3, p);
    }
  }

  /** Every jump of the code that has got something in front was one before, and every return is behind it. */
  lemma BeforeClear(b2: seq<Word>, w: seq<Word>, b3: seq<Word>)
    requires Sound(b2) && Closed(b2) && Spliced(b2, 0, w, b3) && Boundary(w, |w|) && ReturnsClear(b3)
    ensures ReturnsClear(b2)
  {
    hide BaseLength, ArgLength, KnownOp, Length, Fetch, JumpParameter, Spliced, Sound, Closed;
    forall p | Boundary(b2, p) && p < |b2| && Fits(b2, p) && CanJump(b2[p])
      ensures !JumpsPastReturn(b2, p, Target(b2, p)) && !JumpsBackToReturn(b2, p, Target(b2, p))
    {
      var t := Target(b2, p);
      TargetIsBoundary(b2, p);
      BehindFront(b2, w, b3, p);
      if ReturnAt(b2, t) {
        BehindFront(b2, w, b3, t);
      }
      if ReturnAt(b2, t - 2) {
        BehindFront(b2, w, b3, t - 2);
      }
    }
  }

  lemma BehindFront(b2: seq<Word>, w: seq<Word>, b3: seq<Word>, p: int)
    requires Sound(b2) && Spliced(b2, 0, w, b3) && Boundary(w, |w|) && Boundary(b2, p) && p < |b2| && Fits(b2, p)
    ensures var q := p + |w|; Boundary(b3, q) && q < |b3| && Fits(b3, q) && b3[q] == b2[p]
    ensures CanJump(b2[p]) && 0 <= Target(b2, p) ==> Target(b3, p + |w|) == Target(b2, p) + |w|
  {
    hide BaseLength, ArgLength, KnownOp, Length, Fetch, JumpParameter;
    assert Boundary(b2, |b2|);
    StartOfCode(b2);
    InsertBoundary(b2, 0, w, b3, p);
    assert |b3| == |b2| + |w|;
    SplicedInstruction(b2, 0, w, b3, p + |w|);
    FetchShows(b3, p + |w|);
    FetchShows(b2, p);
  }

  lemma MovedJump(b2: seq<Word>, w: seq<Word>, b3: seq<Word>, p: int)
    requires Sound(b2) && Closed(b2) && Spliced(b2, 0, w, b3) && Boundary(w, |w|) && ReturnsClear(b2)
    requires forall k | Boundary(w, k) && k < |w| :: Fits(w, k) && !CanJump(w[k])
    requires Boundary(b3, p) && p < |b3| && Fits(b3, p) && CanJump(b3[p])
    ensures !JumpsPastReturn(b3, p, Target(b3, p)) && !JumpsBackToReturn(b3, p, Target(b3, p))
  {
    hide BaseLength, ArgLength, KnownOp, Length, Fetch, JumpParameter;
    StartsInside(b2);
    assert Boundary(b2, |b2|);
    SplicedInstruction(b2, 0, w, b3, p);
    FetchShows(b3, p);
    if p < |w| {
      FetchShows(w, p);
    } else {
      var p0 := p - |w|;
      FetchShows(b2, p0);
      TargetIsBoundary(b2, p0);
      var t := Target(b2, p0);
      assert Target(b3, p) == t + |w|;
      MovedReturn(b2, w, b3, t + |w|);
      MovedReturn(b2, w, b3, t + |w| - 2);
    }
  }

  lemma MovedReturn(b2: seq<Word>, w: seq<Word>, b3: seq<Word>, q: int)
    requires Sound(b2) && Spliced(b2, 0, w, b3) && Boundary(w, |w|) && Boundary(b2, 0)
    ensures ReturnAt(b3, q) && |w| <= q ==> ReturnAt(b2, q - |w|)
  {
    hide BaseLength, ArgLength, KnownOp, Length, Fetch;
    if ReturnAt(b3, q) && |w| <= q {
      assert Boundary(b2, |b2|);
      SplicedInstruction(b2, 0, w, b3, q);
      FetchShows(b3, q);
      FetchShows(b2, q - |w|);
    }
  }

  /** Where the jumps of a method block go, and which registers it names. */
  lemma BlockInstruction(p: Plan, n: int, k: int)
    requires PlanOk(p, n) && Boundary(p.Block(), k) && k < |p.Block()| && All(p.b3, Within(0, p.base + p.registerCount))
    ensures Fits(p.Block(), k)
    ensures CanJump(p.Block()[k]) ==>
      (var t := Target(p.Block(), k);
       && IsSmallint(p.Block()[k + JumpParameter(p.Block()[k])])
       && (t == |p.Block()| + 4 + |p.Args()| || (0 <= t <= |p.Block()| && Boundary(p.Block(), t))))
    ensures Within(0, p.base + p.registerCount)(Fetch(p.Block(), k).(target := 0))
  {
    hide BaseLength, ArgLength, KnownOp, Length, Fetch, JumpParameter, PlanOk, Plan.Args, Plan.Block, All, CanJump, Within;
    var block, g := p.Block(), 4 + |p.Args()|;
    BlockHead(p, n);
    if k != 0 {
      InstructionEnds(block, 0, k);
      TiledRest(block, 0, g, k);
      BodyBoundary(p, k);
      InBody(p, n, k);
    }
  }

  /** The instruction at k of the block is the one at k - g of the body. */
  lemma InBody(p: Plan, n: int, k: int)
    requires PlanOk(p, n) && All(p.b3, Within(0, p.base + p.registerCount))
    requires var g := 4 + |p.Args()|; g <= k < |p.Block()| && Boundary(p.b4, k - g)
    ensures Fits(p.Block(), k)
    ensures CanJump(p.Block()[k]) ==>
      (var t := Target(p.Block(), k);
       && IsSmallint(p.Block()[k + JumpParameter(p.Block()[k])])
       && (t == |p.Block()| + 4 + |p.Args()| || (0 <= t <= |p.Block()| && Boundary(p.Block(), t))))
    ensures Within(0, p.base + p.registerCount)(Fetch(p.Block(), k).(target := 0))
  {
    hide BaseLength, ArgLength, KnownOp, Length, Fetch, JumpParameter, PlanOk, Plan.Args, Plan.Block, All, CanJump, Tiled, Within;
    var block, g := p.Block(), 4 + |p.Args()|;
    var q := k - g;
    BlockTail(p);
    var x := BlockBody(p, n, q);
    TailInstruction(block, g, p.b4, q);
    if CanJump(block[k]) && Target(p.b4, q) != |p.b4| + 4 + |p.Args()| {
      InsideOf(p.b4, Target(p.b4, q));
      BodyBoundaryBack(p, n, Target(p.b4, q));
    }
  }

  /** An instruction of b where b is the part of c from g on. */
  lemma TailInstruction(c: seq<Word>, g: nat, b: seq<Word>, q: int)
    requires g + |b| <= |c| && c[g..g + |b|] == b && Fits(b, q)
    ensures Fits(c, q + g) && c[q + g] == b[q] && Fetch(c, q + g).(target := 0) == Fetch(b, q).(target := 0)
    ensures CanJump(b[q]) ==> Target(c, q + g) == Target(b, q) + g && q + g + JumpParameter(b[q]) < |c| && q + JumpParameter(b[q]) < |b|
                              && c[q + g + JumpParameter(b[q])] == b[q + JumpParameter(b[q])]
  {
    FitsInside(b, q);
    hide BaseLength, ArgLength, KnownOp, Length, Fetch, JumpParameter, CanJump;
    SubSlice(c, g, b, q, Length(b, q));
    SameWords(b, q, c, q + g);
    CarriedSlice2(b, q, c, q + g);
    FetchShows(c, q + g);
    FetchShows(b, q);
  }

  lemma InsideOf(c: seq<Word>, t: int)
    requires Boundary(c, t)
    ensures 0 <= t <= |c|
  {
  }

  lemma CarriedSlice2(c: seq<Word>, q: int, c': seq<Word>, q': int)
    requires Fits(c, q) && 0 <= q' && q' + Length(c, q) <= |c'| && c'[q'..q' + Length(c, q)] == c[q..q + Length(c, q)]
    ensures Fits(c', q') && c'[q'] == c[q] && (CanJump(c[q]) ==> c'[q' + JumpParameter(c[q])] == c[q + JumpParameter(c[q])])
  {
    SameWords(c, q, c', q');
    var n := Length(c, q);
    SliceWord(c', q', q' + n, 0);
    SliceWord(c, q, q + n, 0);
    if CanJump(c[q]) {
      var j := JumpParameter(c[q]);
      SliceWord(c', q', q' + n, j);
      SliceWord(c, q, q + n, j);
    }
  }

  lemma HeadWithin(p: Plan, n: int)
    requires PlanOk(p, n)
    ensures Fits(p.Block(), 0) && Within(0, p.base + p.registerCount)(Fetch(p.Block(), 0).(target := 0))
  {
    PlanSend(p, n);
    assert p.Block() == MethodGuard(p.maps, |p.Args()|, |p.b4|, p.Args()) + p.b4 && n <= p.base + p.registerCount;
    hide *;
    GuardWithin(p.maps, p.Args(), |p.b4|, p.b4, n, p.base + p.registerCount);
  }

  lemma GuardWithin(maps: Word, args: seq<Word>, jump: int, body: seq<Word>, n: int, top: int)
    requires CallerArgs(args, n) && n <= top
    ensures var g := MethodGuard(maps, |args|, jump, args) + body; Fits(g, 0) && Within(0, top)(Fetch(g, 0).(target := 0))
  {
    MethodGuardShape(maps, jump, args, body);
    hide Fits, Fetch, MethodGuard;
    var ins := Fetch(MethodGuard(maps, |args|, jump, args) + body, 0).(target := 0);
    forall k | 0 <= k < |ins.args| && IsRegisterOperand(ins.op, k)
      ensures IsSmallint(ins.args[k]) && 0 <= ObjectToSmallint(ins.args[k]) < top
    {
      assert 3 <= k;
      assert ins.args[k] == args[k - 3];
    }
  }

  lemma BlockHead(p: Plan, n: int)
    requires PlanOk(p, n)
    ensures var block := p.Block(); var t := |block|;
      && Fits(block, 0) && Length(block, 0) == 4 + |p.Args()| && 4 + |p.Args()| <= |block| && Boundary(block, |block|)
      && Boundary(block, 4 + |p.Args()|)
      && CanJump(block[0]) && IsSmallint(block[JumpParameter(block[0])]) && Target(block, 0) == |block|
      && Within(0, p.base + p.registerCount)(Fetch(block, 0).(target := 0))
  {
    PlanSend(p, n);
    MethodGuardShape(p.maps, |p.b4|, p.Args(), p.b4);
    var block, g := p.Block(), 4 + |p.Args()|;
    assert 0 <= p.registerCount && Boundary(p.b4, |p.b4|);
    hide PlanOk;
    HeadWithin(p, n);
    hide BaseLength, ArgLength, KnownOp, Fetch, JumpParameter, CanJump, Within;
    BlockTail(p);
    hide Plan.Block;
    TailTiled(block, g, p.b4);
  }

  lemma TailTiled(block: seq<Word>, g: nat, b4: seq<Word>)
    requires Fits(block, 0) && Length(block, 0) == g && |block| == g + |b4| && block[g..] == b4 && Boundary(b4, |b4|) && 0 < g
    ensures Boundary(block, |block|) && Boundary(block, g)
  {
    hide BaseLength, ArgLength, KnownOp, Length, Fits;
    assert block[0 + g..|b4| + g] == b4[0..|b4|];
    TiledMove(b4, 0, |b4|, block, g);
    assert Tiled(block, g, g);
    assert Tiled(block, 0, g);
    TiledConcat(block, 0, g, |block|);
  }

  lemma BodyBoundary(p: Plan, k: int)
    requires var g := 4 + |p.Args()|; g <= k <= |p.Block()| && Tiled(p.Block(), g, k)
    ensures Boundary(p.b4, k - (4 + |p.Args()|))
  {
    hide Fits, Length;
    BlockTail(p);
    var g := 4 + |p.Args()|;
    var block := p.Block();
    SubSlice(block, g, p.b4, 0, k - g);
    assert p.b4[g + (0 - g)..k + (0 - g)] == block[g..k];
    TiledMove(block, g, k, p.b4, 0 - g);
  }

  lemma BodyBoundaryBack(p: Plan, n: int, t: int)
    requires PlanOk(p, n) && Boundary(p.b4, t)
    ensures Boundary(p.Block(), t + 4 + |p.Args()|)
  {
    hide Fits, Length, PlanOk, Plan.Args, Plan.Block;
    BlockHead(p, n);
    BlockTail(p);
    var g := 4 + |p.Args()|;
    SubSlice(p.Block(), g, p.b4, 0, t);
    assert p.Block()[0 + g..t + g] == p.b4[0..t];
    TiledMove(p.b4, 0, t, p.Block(), g);
    TiledConcat(p.Block(), 0, g, t + g);
  }

  /** The instructions of the rewritten callee. */
  lemma BlockBody(p: Plan, n: int, q: int) returns (x: int)
    requires PlanOk(p, n) && Boundary(p.b4, q) && q < |p.b4| && All(p.b3, Within(0, p.base + p.registerCount))
    ensures Fits(p.b4, q)
    ensures CanJump(p.b4[q]) ==>
      (var t := Target(p.b4, q);
       && IsSmallint(p.b4[q + JumpParameter(p.b4[q])]) && 0 <= t
       && (t == |p.b4| + 4 + |p.Args()| || Boundary(p.b4, t)))
    ensures Within(0, p.base + p.registerCount)(Fetch(p.b4, q).(target := 0))
  {
    hide BaseLength, ArgLength, KnownOp, Length, Fetch, JumpParameter, Plan.Args, Plan.Block, All, CanJump, Pos, CountReturns, Sound, Closed,
      Spliced, CalleeOk, Shifted, ExitAt, RegistersWithin, ReturnsClear, SameEnds;
    PlanSend(p, n);
    var b3, b4, out := p.b3, p.b4, 4 + |p.Args()|;
    PlanExit(p, n);
    PlanCount(p, n);
    x := BodySource(p, n, q);
    assert ReplacedAt(b3, |b3|, b4, p.Result(), out, x);
    LastPos(b3, x);
    BodyRegisters(b3, x, 0, p.base + p.registerCount);
    SoundHere(b4, q);
    FetchShows(b4, q);
    if IsReturn(b3[x]) {
      ReturnLength(b3, x);
      FitsInside(b3, x);
      ExitRegisters(b3, x, b4, q, p.Result(), out, p.base + p.registerCount);
    } else {
      BodyMoves(b3, b4, p.Result(), out, x);
      CarriedRegisters(b3, x, b4, q, 0, p.base + p.registerCount);
      if CanJump(b3[x]) {
        FetchShows(b3, x);
        TargetIsBoundary(b3, x);
        assert ReplacedAt(b3, |b3|, b4, p.Result(), out, Target(b3, x));
        LastPos(b3, Target(b3, x));
      }
    }
  }

  lemma SoundHere(c: seq<Word>, q: int)
    requires Sound(c) && Boundary(c, q) && q < |c|
    ensures SoundAt(c, q)
  {
  }

  lemma PlanCount(p: Plan, n: int)
    requires PlanOk(p, n)
    ensures |p.Args()| <= p.registerCount && 0 <= p.base
  {
  }

  lemma PlanExit(p: Plan, n: int)
    requires PlanOk(p, n)
    ensures ReplacedSoFar(p.b3, |p.b3|, p.b4, p.Result(), 4 + |p.Args()|) && Sound(p.b4)
  {
    PlanSend(p, n);
  }

  lemma BodySource(p: Plan, n: int, q: int) returns (x: int)
    requires PlanOk(p, n) && Boundary(p.b4, q) && q < |p.b4|
    ensures Boundary(p.b3, x) && x < |p.b3| && Fits(p.b3, x) && (q == Pos(p.b3, x) || (q == Pos(p.b3, x) + 3 && IsReturn(p.b3[x])))
  {
    hide BaseLength, ArgLength, KnownOp, Length, Fetch, ReplacedSoFar, Sound, Plan.Args;
    PlanSend(p, n);
    PlanExit(p, n);
    StartsInside(p.b3);
    assert CountReturns(p.b3, 0, 0) == 0;
    assert 0 <= q by { BoundaryIsTiled(p.b4, q); }
    x := RewrittenInstruction(p.b3, p.b4, p.Result(), 4 + |p.Args()|, 0, q);
  }

  lemma BodyRegisters(c: seq<Word>, x: int, lo: int, hi: int)
    requires All(c, Within(lo, hi)) && Boundary(c, x) && x < |c|
    ensures Fits(c, x) && RegistersWithin(Fetch(c, x).(target := 0), lo, hi)
  {
    hide RegistersWithin, Fetch;
    assert Within(lo, hi)(Fetch(c, x).(target := 0));
  }

  lemma CarriedRegisters(c: seq<Word>, x: int, c': seq<Word>, q: int, lo: int, hi: int)
    requires Fits(c, x) && RegistersWithin(Fetch(c, x).(target := 0), lo, hi) && Fits(c', q) && Carried(c, x, c', q, Fetch(c', q).target)
    ensures RegistersWithin(Fetch(c', q).(target := 0), lo, hi) && (CanJump(c'[q]) <==> CanJump(c[x]))
  {
    hide IsRegisterOperand;
  }

  lemma ExitRegisters(b3: seq<Word>, x: int, b4: seq<Word>, q: int, resultReg: int, out: nat, top: int)
    requires Fits(b3, x) && IsReturn(b3[x]) && x + 1 < |b3| && ExitAt(b4, Pos(b3, x), b3[x], b3[x + 1], resultReg, out)
    requires RegistersWithin(Fetch(b3, x).(target := 0), 0, top) && 0 <= resultReg < top && (q == Pos(b3, x) || q == Pos(b3, x) + 3) && Fits(b4, q)
    ensures RegistersWithin(Fetch(b4, q).(target := 0), 0, top)
    ensures CanJump(b4[q]) ==> Target(b4, q) == |b4| + out
  {
    assert Fetch(b3, x).args == [b3[x + 1]];
    if b3[x] == OP_RETURN_REGISTER {
      assert IsRegisterOperand(b3[x], 0);
    }
    hide ArgLength, Pos;
    FetchShows(b4, q);
  }

  // ---------- one insertion in the loop ----------

  /** Putting a compiled callee in keeps everything the loop relies on. */
  lemma MethodInserted(m: Machine, ctx: Context, cctx: Context, p: Plan, c0: seq<Word>, n0: int, n: int)
    requires PlanOk(p, n) && Inlinable0(m, ctx, c0, p.c0, n0, n) && Boundary(p.c0, p.i) && p.i < |p.c0|
    requires All(p.b3, Within(0, p.base + p.registerCount)) && CalleeImplements(m, Key(Fetch(p.c0, p.i)), p.maps, cctx, p.code)
    requires p.base == n
    ensures Inlinable0(m, ctx, c0, p.c, n0, n + p.registerCount)
  {
    hide BaseLength, ArgLength, KnownOp, Length, Fetch, JumpParameter, PlanOk, Plan.Args, Plan.Block, All, CanJump, SameRuns, Key, Closed;
    PlanSend(p, n);
    PlanCount(p, n);
    BlockHead(p, n);
    var top, block := n + p.registerCount, p.Block();
    PlanSpliced(p, n);
    AfterSend(p, n);
    forall k | Boundary(block, k) && k < |block|
      ensures Fits(block, k) && Within(0, top)(Fetch(block, k).(target := 0))
      ensures CanJump(block[k]) ==>
        && IsSmallint(block[k + JumpParameter(block[k])]) && 0 <= Target(block, k) + p.i < |p.c|
        && (Target(block, k) + p.i <= |p.c| ==> Boundary(p.c, Target(block, k) + p.i))
    {
      BlockInstruction(p, n, k);
      if CanJump(block[k]) && Target(block, k) != |block| + 4 + |p.Args()| {
        InsertBoundary(p.c0, p.i, block, p.c, Target(block, k));
      }
    }
    SpliceSound(p.c0, p.i, block, p.c);
    SpliceClosed(p.c0, p.i, block, p.c);
    WithinWider(p.c0, 0, n, 0, top);
    AllHolds(block, Within(0, top));
    SpliceAll(p.c0, p.i, block, p.c, Within(0, top));
    MethodRuns(m, ctx, cctx, p, c0, n0, n);
  }

  lemma AllHolds(c: seq<Word>, ok: Instr -> bool)
    requires forall k | Boundary(c, k) && k < |c| :: Fits(c, k) && ok(Fetch(c, k).(target := 0))
    ensures All(c, ok)
  {
  }

  lemma PlanSpliced(p: Plan, n: int)
    requires PlanOk(p, n)
    ensures Spliced(p.c0, p.i, p.Block(), p.c)
  {
  }

  /** The place behind the send exists, before and after. */
  lemma AfterSend(p: Plan, n: int)
    requires PlanOk(p, n) && Sound(p.c0) && Closed(p.c0) && Boundary(p.c0, p.i) && p.i < |p.c0|
    ensures p.i + |p.Block()| + 4 + |p.Args()| < |p.c| && Boundary(p.c, p.i + |p.Block()| + 4 + |p.Args()|)
    ensures Boundary(p.c, p.i + |p.Block()|) && |p.c| == |p.c0| + |p.Block()| && 0 <= p.i
  {
    hide BaseLength, ArgLength, KnownOp, Length, Fetch, JumpParameter, PlanOk, Plan.Args, Plan.Block, Sound;
    PlanSend(p, n);
    PlanSpliced(p, n);
    BlockHead(p, n);
    SplicedFits(p.c0, p.i, p.Block(), p.c);
    assert ClosedAt(p.c0, p.i);
    InstructionEnds0(p.c0, p.i);
    WholeCode(p.c0);
    InsertBoundary(p.c0, p.i, p.Block(), p.c, p.i);
    InsertBoundary(p.c0, p.i, p.Block(), p.c, p.i + Length(p.c0, p.i));
    SendFalls(p.c0, p.i);
  }

  lemma SendFalls(c: seq<Word>, i: nat)
    requires Fits(c, i) && IsSend(Fetch(c, i).op)
    ensures FallsThrough(c[i]) && IsSend(c[i])
  {
  }

  lemma WholeCode(c: seq<Word>)
    requires Sound(c)
    ensures Boundary(c, |c|)
  {
  }

  lemma MethodRuns(m: Machine, ctx: Context, cctx: Context, p: Plan, c0: seq<Word>, n0: int, n: int)
    requires PlanOk(p, n) && Inlinable0(m, ctx, c0, p.c0, n0, n) && Boundary(p.c0, p.i) && p.i < |p.c0|
    requires CalleeImplements(m, Key(Fetch(p.c0, p.i)), p.maps, cctx, p.code)
    ensures SameRuns(m, ctx, c0, p.c, n0)
  {
    hide BaseLength, ArgLength, KnownOp, Length, Fetch, JumpParameter, PlanOk, Plan.Args, Plan.Block, All, SameRuns, Key, Closed, BlockBehaves, CalleeImplements, Sound, Fits;
    PlanSend(p, n);
    PlanSpliced(p, n);
    SendFalls(p.c0, p.i);
    assert Site(ctx, p.c0, p.i, p.Block(), p.c, n);
    forall r, w ensures BlockBehaves(m, ctx, p.c, p.i, |p.Block()|, Fetch(p.c0, p.i), n, r, w) {
      MethodBlockBehaves(m, ctx, cctx, p, n, r, w);
    }
    BlockSameRuns(m, ctx, p.c0, p.i, p.Block(), p.c, n);
    SameRunsTrans(m, ctx, c0, p.c0, p.c, n0, n);
  }

  /** Putting a primitive guard in keeps everything the loop relies on. */
  lemma PrimitiveInserted(m: Machine, ctx: Context, c0: seq<Word>, b: seq<Word>, i: nat, maps: Word, index: Word, block: seq<Word>, c: seq<Word>, n0: int, n: int)
    requires Inlinable0(m, ctx, c0, b, n0, n) && Boundary(b, i) && i < |b| && Fits(b, i) && IsSend(b[i])
    requires block == PrimitiveGuard(ObjectToSmallint(b[i + 1]), maps, index, |SendArgs(b, i)|, Length(b, i), SendArgs(b, i))
    requires Spliced(b, i, block, c) && PrimitiveImplements(m, Key(Fetch(b, i)), maps, index)
    ensures Inlinable0(m, ctx, c0, c, n0, n)
  {
    hide ArgLength, KnownOp, Length, Fetch, All, SameRuns, Key, Closed, Sound, PrimitiveImplements, PrimitiveGuard, SendArgs;
    BodyRegisters(b, i, 0, n);
    SendOperands(b, i, n);
    GuardLayout(b, i, maps, index, block, n);
    WholeCode(b);
    SendEnd(b, i);
    SplicedFits(b, i, block, c);
    InsertBoundary(b, i, block, c, i + Length(b, i));
    SpliceSound(b, i, block, c);
    SpliceClosed(b, i, block, c);
    SpliceAll(b, i, block, c, Within(0, n));
    hide Fits, BaseLength, IsSend, Spliced;
    assert Site(ctx, b, i, block, c, n) by { SiteHere(ctx, c0, m, b, i, block, c, n0, n); }
    forall r, w ensures BlockBehaves(m, ctx, c, i, |block|, Fetch(b, i), n, r, w) {
      PrimitiveBlockBehaves(m, ctx, b, i, maps, index, block, c, n, r, w);
    }
    BlockSameRuns(m, ctx, b, i, block, c, n);
    SameRunsTrans(m, ctx, c0, b, c, n0, n);
  }

  lemma SiteHere(ctx: Context, c0: seq<Word>, m: Machine, b: seq<Word>, i: nat, block: seq<Word>, c: seq<Word>, n0: int, n: int)
    requires Inlinable0(m, ctx, c0, b, n0, n) && Boundary(b, i) && i < |b| && Fits(b, i) && IsSend(b[i]) && Spliced(b, i, block, c) && 0 < |block|
    ensures Site(ctx, b, i, block, c, n)
  {
  }

  lemma SendOperands(b: seq<Word>, i: nat, n: int)
    requires Fits(b, i) && IsSend(b[i]) && RegistersWithin(Fetch(b, i).(target := 0), 0, n)
    ensures IsSmallint(b[i + 1]) && 0 <= ObjectToSmallint(b[i + 1]) < n && CallerArgs(SendArgs(b, i), n)
    ensures i + BaseLength(b[i]) < |b| && Length(b, i) == 4 + |SendArgs(b, i)| && i + Length(b, i) <= |b|
    ensures RegistersWithin(Fetch(b, i), 0, n)
  {
    SendRegisters(b, i, n);
  }

  lemma SendEnd(b: seq<Word>, i: nat)
    requires Sound(b) && Closed(b) && Boundary(b, i) && i < |b| && Fits(b, i) && IsSend(b[i])
    ensures i + Length(b, i) < |b| && Boundary(b, i + Length(b, i)) && 1 <= Length(b, i)
  {
    assert ClosedAt(b, i);
    InstructionEnds0(b, i);
  }

  lemma GuardLayout(b: seq<Word>, i: nat, maps: Word, index: Word, block: seq<Word>, n: int)
    requires Fits(b, i) && IsSend(b[i]) && CallerArgs(SendArgs(b, i), n) && IsSmallint(b[i + 1]) && 0 <= ObjectToSmallint(b[i + 1]) < n
    requires block == PrimitiveGuard(ObjectToSmallint(b[i + 1]), maps, index, |SendArgs(b, i)|, Length(b, i), SendArgs(b, i))
    ensures Boundary(block, |block|) && All(block, Within(0, n)) && 0 < |block|
    ensures forall k | Boundary(block, k) && k < |block| ::
      k == 0 && Fits(block, 0) && IsSmallint(block[JumpParameter(block[0])]) && Target(block, 0) == |block| + Length(b, i) && CanJump(block[0])
  {
    var args := SendArgs(b, i);
    PrimitiveGuardShape(ObjectToSmallint(b[i + 1]), maps, index, Length(b, i), args);
    FetchShows(block, 0);
    var ins := Fetch(block, 0).(target := 0);
    forall k | 0 <= k < |ins.args| && IsRegisterOperand(ins.op, k)
      ensures IsSmallint(ins.args[k]) && 0 <= ObjectToSmallint(ins.args[k]) < n
    {
      if 5 <= k {
        assert ins.args[k] == args[k - 5];
      }
    }
    hide BaseLength, ArgLength, KnownOp, Fetch, PrimitiveGuard, Operands, RegisterLocations;
    forall k | Boundary(block, k) && k < |block|
      ensures k == 0
    {
      if 0 < k {
        InstructionEnds(block, 0, k);
      }
    }
  }

  // ---------- marking sends ----------

  /** Marking or unmarking sends keeps everything the loop relies on. */
  lemma Marked(m: Machine, ctx: Context, c0: seq<Word>, b: seq<Word>, c: seq<Word>, n0: int, n: int)
    requires Inlinable0(m, ctx, c0, b, n0, n) && Renamed(b, c)
    ensures Inlinable0(m, ctx, c0, c, n0, n) && forall p :: Boundary(c, p) <==> Boundary(b, p)
  {
    hide BaseLength, ArgLength, KnownOp, Length, SameRuns, SameEnds, Sound, Closed, All, Renamed;
    RenamedSound(b, c);
    RenamedSameEnds(m, ctx, b, c);
    SameRunsEnds(m, ctx, c0, b, c, n0);
    MarkedAll(b, c, n);
  }

  lemma MarkedAll(b: seq<Word>, c: seq<Word>, n: int)
    requires All(b, Within(0, n)) && Renamed(b, c) && forall p :: Boundary(c, p) <==> Boundary(b, p)
    ensures All(c, Within(0, n))
  {
    hide BaseLength, ArgLength, KnownOp, Length, Fetch, All, Renamed;
    forall p | Boundary(c, p) && p < |c|
      ensures Fits(c, p) && Within(0, n)(Fetch(c, p).(target := 0))
    {
      RenamedLength(b, c);
      BodyRegisters(b, p, 0, n);
      RenamedInstruction(b, c, p);
      MarkedWithin(Fetch(b, p).(target := 0), c[p], n, b[p]);
      FetchShows(b, p);
    }
    AllHolds(c, Within(0, n));
  }

  lemma RenamedLength(b: seq<Word>, c: seq<Word>)
    requires Renamed(b, c)
    ensures |c| == |b|
  {
  }

  lemma MarkedWithin(ins: Instr, op: Word, n: int, old': Word)
    requires RegistersWithin(ins, 0, n) && (op == old' || MarkOnly(old', op))
    ensures ins.op == old' ==> RegistersWithin(ins.(op := op), 0, n)
  {
    assert ins.op == old' ==> forall k :: IsRegisterOperand(op, k) <==> IsRegisterOperand(ins.op, k);
  }

  lemma MarkedSends(m: Machine, impls: Implementations, b: seq<Word>, c: seq<Word>, from: int)
    requires Renamed(b, c) && (forall p :: Boundary(c, p) <==> Boundary(b, p)) && SendsOk(m, impls, b, from)
    ensures SendsOk(m, impls, c, from)
  {
    hide BaseLength, ArgLength, KnownOp, Length, Fetch, Renamed, SendOk;
    RenamedLength(b, c);
    forall p | Boundary(c, p) && from <= p < |c|
      ensures Fits(c, p) && SendOk(m, impls, c, p)
    {
      assert SendOk(m, impls, b, p);
      RenamedInstruction(b, c, p);
      SendOkSame(m, impls, b, p, c, p);
    }
  }

  /** The same send, elsewhere or marked, is as well described by the entries. */
  lemma SendOkSame(m: Machine, impls: Implementations, b: seq<Word>, p: int, c: seq<Word>, q: int)
    requires Fits(b, p) && Fits(c, q) && Length(c, q) == Length(b, p) && SendOk(m, impls, b, p)
    requires Fetch(c, q).args == Fetch(b, p).args && (c[q] == b[p] || MarkOnly(b[p], c[q]))
    ensures SendOk(m, impls, c, q)
  {
    hide EntryOk;
    if IsSend(c[q]) {
      SendShape(b, p);
      SendShape(c, q);
      assert c[q + 2] == Fetch(c, q).args[1] && b[p + 2] == Fetch(b, p).args[1];
      assert Key(Fetch(c, q)) == Key(Fetch(b, p));
    }
  }

  lemma SendsMoved(m: Machine, impls: Implementations, b: seq<Word>, i: nat, block: seq<Word>, c: seq<Word>)
    requires SendsOk(m, impls, b, i) && Sound(b) && Boundary(b, i) && Boundary(block, |block|) && Spliced(b, i, block, c)
    ensures SendsOk(m, impls, c, i + |block|)
  {
    hide BaseLength, ArgLength, KnownOp, Length, Fetch, SendOk;
    WholeCode(b);
    forall q | Boundary(c, q) && i + |block| <= q < |c|
      ensures Fits(c, q) && SendOk(m, impls, c, q)
    {
      SplicedInstruction(b, i, block, c, q);
      var p := q - |block|;
      assert SendOk(m, impls, b, p);
      FetchShows(b, p);
      FetchShows(c, q);
      SendOkSame(m, impls, b, p, c, q);
    }
  }

  /** The start of the operation in front of opPos. */
  method OpLocationBefore(v: CodeVector, opPos: int) returns (j: nat)
    requires Sound(v.code) && Boundary(v.code, opPos) && 0 < opPos
    ensures Boundary(v.code, j) && Fits(v.code, j) && j + Length(v.code, j) == opPos
  {
    hide BaseLength, ArgLength, KnownOp, Length;
    WholeCode(v.code);
    BoundaryIsTiled(v.code, opPos);
    StartOfCode(v.code);
    j := 0;
    var i := 0;
    while i < |v.code| && i != opPos
      invariant 0 <= i <= opPos && Boundary(v.code, i)
      invariant 0 < i ==> Boundary(v.code, j) && Fits(v.code, j) && j + Length(v.code, j) == i
    {
      InstructionEnds(v.code, i, opPos);
      InstructionEnds0(v.code, i);
      j, i := i, i + Length(v.code, i);
    }
  }

  lemma StartOfCode(c: seq<Word>)
    ensures Boundary(c, 0)
  {
    assert Tiled(c, 0, 0);
  }

  /** Back to plain sends. */
  method RemoveInternalOps(v: CodeVector)
    requires Sound(v.code) && Closed(v.code)
    modifies v
    ensures Renamed(old(v.code), v.code)
    ensures forall p | Boundary(old(v.code), p) && p < |v.code| :: v.code[p] != OP_INTERNAL_SEND
  {
    hide BaseLength, ArgLength, KnownOp, Length, Closed;
    ghost var c0 := v.code;
    WholeCode(c0);
    StartOfCode(c0);
    var i := 0;
    while i < |v.code|
      invariant 0 <= i <= |v.code| == |c0| && Boundary(c0, i) && Renamed(c0, v.code) && v.code[i..] == c0[i..]
      invariant forall p | Boundary(c0, p) && p < i :: v.code[p] != OP_INTERNAL_SEND
    {
      ghost var c := v.code;
      InstructionEnds(c0, i, |c0|);
      InstructionEnds0(c0, i);
      assert c[i] == c[i..][0] == c0[i..][0] == c0[i];
      if OP_INTERNAL_SEND >= v.code[i] {
        if v.code[i] == OP_INTERNAL_SEND {
          v.code := v.code[i := OP_SEND];
        }
      }
      RenamedInstruction(c0, v.code, i);
      assert v.code[i + 1..] == c[i..][1..] == c0[i..][1..] == c0[i + 1..];
      assert v.code[i + Length(c0, i)..] == v.code[i + 1..][Length(c0, i) - 1..] == c0[i + Length(c0, i)..];
      NoneBetween(c0, i);
      assert v.code[i] != OP_INTERNAL_SEND by { SmallOps(c0, i); }
      i := i + Length(v.code, i);
    }
  }

  lemma SmallOps(c: seq<Word>, i: int)
    requires Fits(c, i)
    ensures c[i] <= OP_INTERNAL_SEND
  {
  }

  lemma NoneBetween(c: seq<Word>, i: int)
    requires Boundary(c, i) && Fits(c, i)
    ensures forall p | Boundary(c, p) && i < p :: i + Length(c, i) <= p
  {
    forall p | Boundary(c, p) && i < p
      ensures i + Length(c, i) <= p
    {
      InstructionEnds(c, i, p);
    }
  }

  lemma MarkOne(c0: seq<Word>, p: int, op: Word)
    requires Boundary(c0, p) && 0 <= p < |c0| && MarkOnly(c0[p], op)
    ensures Renamed(c0, c0[p := op])
  {
  }

  // ---------- the inliner ----------

  /** The moves that put the arguments of a send into the callee's first registers. */
  method MoveArguments(params: seq<Word>, base: int) returns (moves: seq<Word>)
    ensures moves == Prelude(params, base)
  {
    moves := [];
    for g := 0 to |params|
      invariant moves == Prelude(params[..g], base)
    {
      assert params[..g + 1][..g] == params[..g];
      moves := moves + [OP_MOVE_REGISTER, SmallintToObject(g + base), params[g]];
    }
    assert params[..|params|] == params;
  }

  /** The callee's code, ready to be put in front of the send; its jumps are aimed at what they were aimed at just when it was clear of returns. */
  method PrepareCallee(code: seq<Word>, registerCount: nat, base: nat, params: seq<Word>, resultReg: int, out: nat, ghost defs: Definitions)
    returns (body: seq<Word>)
    requires CalleeOk(code, registerCount, |params|, defs) && CallerArgs(params, base) && 0 < out
    ensures exists b1, b2, b3 ::
      BodyReady(code, registerCount, base, params, resultReg, out, b1, b2, b3, body)
      && (AllAimed(b3, body) <==> ClearOfReturns(code)) && (ReturnsClear(b3) <==> ClearOfReturns(code))
    ensures NoVariables(body) && Boundary(body, |body|)
  {
    hide BaseLength, ArgLength, KnownOp, Fetch, Closed, Sound, All, CalleeOk, SameEnds, ClearOfReturns, Prelude, GoodJumps, Length, Spliced, Edited,
      Boundary, ReplacedSoFar, ReturnsClear, CallerArgs, Within, AllAimed, StripMap, NoVariables;
    var moves := MoveArguments(params, base);
    CalleeFacts(code, registerCount, |params|, defs);
    var w := new CodeVector(code);
    OffsetRegisters(w, base, registerCount);
    ghost var b1 := w.code;
    CalleeShifted(code, b1, base, registerCount, |params|, defs);
    ghost var at := RemoveRedundantOps(w, false);
    ghost var b2 := w.code;
    CalleePrepared(code, b1, b2, base, registerCount, |params|, defs, params);
    w.InsertCode(0, moves);
    ghost var b3 := w.code;
    InsertSpliced(b2, 0, moves, b3);
    MovesInFront(b2, params, base, base + registerCount, b3);
    ChangeReturnsToJumps(w, resultReg, out);
    body := w.code;
    ReturnsExactly(b3, body, resultReg, out);
    NoneInBody(b2, params, base, b3, body, resultReg, out);
    assert BodyReady(code, registerCount, base, params, resultReg, out, b1, b2, b3, body);
  }

  lemma NoneInFront(b2: seq<Word>, args: seq<Word>, base: int, b3: seq<Word>, q: int)
    requires Sound(b2) && (forall p | Boundary(b2, p) && p < |b2| :: !IsVariableOp(b2[p])) && Spliced(b2, 0, Prelude(args, base), b3)
    requires Boundary(b3, q) && q < |b3| && 0 <= q
    ensures !IsVariableOp(b3[q])
  {
    hide BaseLength, ArgLength, KnownOp, Length, Prelude, Spliced;
    PreludeShape(args, base);
    WholeCode(b2);
    StartOfCode(b2);
    var w := Prelude(args, base);
    SplicedInstruction(b2, 0, w, b3, q);
    FetchShows(b3, q);
    if q < |w| {
      assert PreludeOp(w, q);
      FetchShows(w, q);
    } else {
      FetchShows(b2, q - |w|);
    }
  }

  /** Neither the moves nor the rewritten returns are variable instructions. */
  lemma NoneInBody(b2: seq<Word>, args: seq<Word>, base: int, b3: seq<Word>, body: seq<Word>, resultReg: int, out: int)
    requires Sound(b2) && (forall p | Boundary(b2, p) && p < |b2| :: !IsVariableOp(b2[p])) && Spliced(b2, 0, Prelude(args, base), b3)
    requires Sound(b3) && ReplacedSoFar(b3, |b3|, body, resultReg, out)
    ensures NoVariables(body) && Boundary(body, |body|)
  {
    hide BaseLength, ArgLength, KnownOp, Length, Fetch, Prelude, Spliced, Pos, CountReturns, Fits, ReplacedSoFar, Sound;
    BodySound(b3, body, resultReg, out);
    WholeCode(body);
    StartOfCode(b3);
    forall q | Boundary(body, q) && q < |body| ensures Fits(body, q) && !IsVariableOp(body[q]) {
      SoundHere(body, q);
      InsideOf(body, q);
      StartPos(b3);
      var x := RewrittenInstruction(b3, body, resultReg, out, 0, q);
      InsideOf(b3, x);
      NoneInFront(b2, args, base, b3, x);
      RewrittenOp(b3, body, resultReg, out, x, q);
    }
  }

  lemma StartPos(c: seq<Word>)
    ensures Pos(c, 0) == 0
  {
    assert CountReturns(c, 0, 0) == 0;
  }

  lemma BodySound(b3: seq<Word>, body: seq<Word>, resultReg: int, out: int)
    requires ReplacedSoFar(b3, |b3|, body, resultReg, out)
    ensures Sound(body)
  {
  }

  lemma RewrittenOp(b3: seq<Word>, body: seq<Word>, resultReg: int, out: int, x: int, q: int)
    requires ReplacedSoFar(b3, |b3|, body, resultReg, out) && Boundary(b3, x) && 0 <= x < |b3| && Fits(b3, x) && !IsVariableOp(b3[x])
    requires (q == Pos(b3, x) || (q == Pos(b3, x) + 3 && IsReturn(b3[x]))) && Fits(body, q)
    ensures !IsVariableOp(body[q])
  {
    hide BaseLength, ArgLength, KnownOp, Length, Pos, CountReturns;
    assert ReplacedAt(b3, |b3|, body, resultReg, out, x);
    LastPos(b3, x);
    FetchShows(b3, x);
    FetchShows(body, q);
  }

  /** Whole callees in front of one send: the k-th implementation of its selector, guarded. */
  method InlineCallee(v: CodeVector, i: nat, e: PicEntry, registers: nat, ghost m: Machine, ghost ctx: Context, ghost c0: seq<Word>, ghost n0: int,
                      ghost impls: Implementations)
    returns (i': nat, registers': nat)
    requires Inlinable0(m, ctx, c0, v.code, n0, registers) && 0 <= n0
    requires Boundary(v.code, i) && i < |v.code| && Fits(v.code, i) && IsSend(v.code[i]) && SendsOk(m, impls, v.code, i)
    requires EntryOk(m, e, Key(Fetch(v.code, i)), |SendArgs(v.code, i)|)
    modifies v
    ensures Inlinable0(m, ctx, c0, v.code, n0, registers') && registers' == registers + RegistersOf(e)
    ensures i <= i' < |v.code| && |v.code| - i' == |old(v.code)| - i
    ensures BlockFor(v.code, i, i', e, old(WordsAt(v.code, i)), n0, i' + old(|WordsAt(v.code, i)|))
    ensures Kept(old(v.code), v.code, i) && Tail(old(v.code), i, v.code, i')
    ensures Boundary(v.code, i') && Fits(v.code, i') && v.code[i'] == old(v.code[i]) && Fetch(v.code, i') == Fetch(old(v.code), i)
    ensures Length(v.code, i') == Length(old(v.code), i) && SendsOk(m, impls, v.code, i')
    ensures forall strict :: GuardsRight(old(v.code), i, strict) <==> GuardsRight(v.code, i', strict)
  {
    hide Inlinable0, SendsOk, CalleeOk, CalleeImplements, PrimitiveImplements, ClearOfReturns, GuardsRight, Boundary, Fits, Fetch, Length, Key, BlockFor,
      Kept, Tail;
    match e
    case CompiledCallee(maps, code, registerCount, defs, running) =>
      i' := InlineMethod(v, i, maps, code, registerCount, registers, defs, running, m, ctx, c0, n0, impls);
      registers' := registers + registerCount;
    case PrimitiveCallee(maps, index) =>
      i' := InlinePrimitive(v, i, maps, index, registers, m, ctx, c0, n0, impls);
      registers' := registers;
  }

  /** A guard and the callee's code. */
  method InlineMethod(v: CodeVector, i: nat, maps: Word, code: seq<Word>, registerCount: nat, registers: nat, ghost defs: Definitions,
                      ghost running: Context, ghost m: Machine, ghost ctx: Context, ghost c0: seq<Word>, ghost n0: int, ghost impls: Implementations)
    returns (i': nat)
    requires Inlinable0(m, ctx, c0, v.code, n0, registers) && 0 <= n0
    requires Boundary(v.code, i) && i < |v.code| && Fits(v.code, i) && IsSend(v.code[i]) && SendsOk(m, impls, v.code, i)
    requires CalleeOk(code, registerCount, |SendArgs(v.code, i)|, defs) && ClearOfReturns(code)
    requires CalleeImplements(m, Key(Fetch(v.code, i)), maps, running, code)
    modifies v
    ensures Inlinable0(m, ctx, c0, v.code, n0, registers + registerCount)
    ensures i <= i' < |v.code| && |v.code| - i' == |old(v.code)| - i
    ensures BlockFor(v.code, i, i', CompiledCallee(maps, code, registerCount, defs, running), old(WordsAt(v.code, i)), n0, i' + old(|WordsAt(v.code, i)|))
    ensures Kept(old(v.code), v.code, i) && Tail(old(v.code), i, v.code, i')
    ensures Boundary(v.code, i') && Fits(v.code, i') && v.code[i'] == old(v.code[i]) && Fetch(v.code, i') == Fetch(old(v.code), i)
    ensures Length(v.code, i') == Length(old(v.code), i) && SendsOk(m, impls, v.code, i')
    ensures forall strict :: GuardsRight(old(v.code), i, strict) <==> GuardsRight(v.code, i', strict)
  {
    hide BaseLength, ArgLength, KnownOp, Fetch, Closed, Sound, All, SameRuns, Key, SendsOk, Fits, CalleeOk, CalleeImplements, SameEnds, PrimitiveImplements,
      ClearOfReturns, Prelude, MethodGuard, PrimitiveGuard, GoodJumps, Length, Spliced, Edited, Cut, Boundary, GuardsRight, PlanOk, BodyReady,
      ReplacedSoFar, ReturnsClear, CallerArgs, Within, RegistersWithin, BlockFor, Kept, Tail, CalleeBody, NoVariables;
    ghost var b := v.code;
    Caller(m, ctx, c0, b, n0, registers, i);
    var resultReg := ObjectToSmallint(v.code[i + 1]);
    var arity := Length(v.code, i) - 4;
    var params := v.code[i + 4..i + Length(v.code, i)];
    CallerWords(m, ctx, c0, b, n0, registers, i);
    var body := PrepareCallee(code, registerCount, registers, params, resultReg, Length(v.code, i), defs);
    ghost var b1, b2, b3 :| BodyReady(code, registerCount, registers, params, resultReg, Length(v.code, i), b1, b2, b3, body)
      && (AllAimed(b3, body) <==> ClearOfReturns(code)) && (ReturnsClear(b3) <==> ClearOfReturns(code));
    var block := MethodGuard(maps, arity, |body|, params) + body;
    v.InsertCode(i, block);
    InsertSpliced(b, i, block, v.code);
    ghost var p := Plan(b, i, maps, code, registerCount, defs, registers, b1, b2, b3, body, v.code);
    PlanIsOk(p, block, resultReg, Length(b, i), registers);
    MethodInserted(m, ctx, running, p, c0, n0, registers);
    BlockHead(p, registers);
    Moved(b, i, block, v.code);
    SendsMoved(m, impls, b, i, block, v.code);
    MovedRest(b, i, block, v.code);
    InsertKeeps(b, i, block, v.code);
    KeptStart(b, v.code, i);
    BodyIs(code, registerCount, registers, WordsAt(b, i), b1, b2, b3, body);
    MethodSize(maps, arity, |body|, params);
    MethodBlock(v.code, i, CompiledCallee(maps, code, registerCount, defs, running), registers, body, WordsAt(b, i), n0, i + |block| + |WordsAt(b, i)|);
    i' := i + |block|;
  }

  lemma BodyIs(code: seq<Word>, registerCount: int, base: int, send: seq<Word>, b1: seq<Word>, b2: seq<Word>, b3: seq<Word>, body: seq<Word>)
    requires 4 <= |send| && BodyReady(code, registerCount, base, send[4..], ObjectToSmallint(send[1]), |send|, b1, b2, b3, body) && NoVariables(body)
    ensures CalleeBody(code, registerCount, base, send, body)
  {
    hide BodyReady, NoVariables;
  }

  lemma KeptStart(b: seq<Word>, c: seq<Word>, i: int)
    requires Kept(b, c, i) && Boundary(b, i)
    ensures Boundary(c, i)
  {
  }

  /** The words of the send. */
  lemma CallerWords(m: Machine, ctx: Context, c0: seq<Word>, b: seq<Word>, n0: int, n: int, i: nat)
    requires Inlinable0(m, ctx, c0, b, n0, n) && Boundary(b, i) && i < |b| && Fits(b, i) && IsSend(b[i]) && 0 <= n0
    ensures var send := WordsAt(b, i);
      4 <= |send| == Length(b, i) && i + |send| <= |b| && send[4..] == SendArgs(b, i) && send[1] == b[i + 1] && n0 <= n && IsSmallint(send[1])
  {
    hide Sound, Closed, All, SameRuns, Boundary;
    Caller(m, ctx, c0, b, n0, n, i);
    SendLength(b, i);
    var send := WordsAt(b, i);
    assert send[1] == b[i + 1];
    assert send[4..] == b[i + 4..i + Length(b, i)];
  }

  lemma PlanIsOk(p: Plan, block: seq<Word>, resultReg: int, out: int, n: int)
    requires Fits(p.c0, p.i) && IsSend(p.c0[p.i]) && RegistersWithin(Fetch(p.c0, p.i), 0, n) && 0 <= n <= p.base
    requires CalleeOk(p.code, p.registerCount, |SendArgs(p.c0, p.i)|, p.defs) && p.i + 1 < |p.c0|
    requires resultReg == ObjectToSmallint(p.c0[p.i + 1]) && out == Length(p.c0, p.i)
    requires BodyReady(p.code, p.registerCount, p.base, SendArgs(p.c0, p.i), resultReg, out, p.b1, p.b2, p.b3, p.b4) && ReturnsClear(p.b3)
    requires block == MethodGuard(p.maps, |SendArgs(p.c0, p.i)|, |p.b4|, SendArgs(p.c0, p.i)) + p.b4 && Spliced(p.c0, p.i, block, p.c)
    ensures PlanOk(p, n) && p.Block() == block && p.Args() == SendArgs(p.c0, p.i) && All(p.b3, Within(0, p.base + p.registerCount))
  {
    hide BaseLength, ArgLength, KnownOp, Fits, Fetch, Closed, Sound, All, CalleeOk, SameEnds, Prelude, MethodGuard, Length, Spliced, Shifted,
      ReplacedSoFar, ReturnsClear, Within, RegistersWithin;
  }

  /** What the send gives away of itself. */
  lemma Caller(m: Machine, ctx: Context, c0: seq<Word>, b: seq<Word>, n0: int, n: int, i: nat)
    requires Inlinable0(m, ctx, c0, b, n0, n) && Boundary(b, i) && i < |b| && Fits(b, i) && IsSend(b[i]) && 0 <= n0
    ensures Sound(b) && Closed(b) && GoodJumps(b) && Boundary(b, |b|) && 0 <= n && RegistersWithin(Fetch(b, i), 0, n)
    ensures i + 1 < |b| && i + BaseLength(b[i]) < |b| && Length(b, i) == 4 + |SendArgs(b, i)| && i + Length(b, i) <= |b|
    ensures IsSmallint(b[i + 1]) && 0 <= ObjectToSmallint(b[i + 1]) < n && CallerArgs(SendArgs(b, i), n)
    ensures b[i + 4..i + Length(b, i)] == SendArgs(b, i)
    ensures RegistersWithin(Fetch(b, i).(target := 0), 0, n)
  {
    hide BaseLength, ArgLength, KnownOp, Fetch, Closed, Sound, All, SameRuns, Length, Boundary, GoodJumps, CallerArgs, Fits, RegistersWithin;
    BodyRegisters(b, i, 0, n);
    SendOperands(b, i, n);
    WholeCode(b);
    SoundIsGood(b);
  }

  /** A guard that calls the primitive itself. */
  method InlinePrimitive(v: CodeVector, i: nat, maps: Word, index: Word, registers: nat, ghost m: Machine, ghost ctx: Context, ghost c0: seq<Word>,
                         ghost n0: int, ghost impls: Implementations)
    returns (i': nat)
    requires Inlinable0(m, ctx, c0, v.code, n0, registers) && 0 <= n0
    requires Boundary(v.code, i) && i < |v.code| && Fits(v.code, i) && IsSend(v.code[i]) && SendsOk(m, impls, v.code, i)
    requires PrimitiveImplements(m, Key(Fetch(v.code, i)), maps, index)
    modifies v
    ensures Inlinable0(m, ctx, c0, v.code, n0, registers)
    ensures i <= i' < |v.code| && |v.code| - i' == |old(v.code)| - i
    ensures BlockFor(v.code, i, i', PrimitiveCallee(maps, index), old(WordsAt(v.code, i)), n0, i' + old(|WordsAt(v.code, i)|))
    ensures Kept(old(v.code), v.code, i) && Tail(old(v.code), i, v.code, i')
    ensures Boundary(v.code, i') && Fits(v.code, i') && v.code[i'] == old(v.code[i]) && Fetch(v.code, i') == Fetch(old(v.code), i)
    ensures Length(v.code, i') == Length(old(v.code), i) && SendsOk(m, impls, v.code, i')
    ensures forall strict :: GuardsRight(old(v.code), i, strict) <==> GuardsRight(v.code, i', strict)
  {
    hide BaseLength, ArgLength, KnownOp, Fetch, Closed, Sound, All, SameRuns, Key, SendsOk, Fits, CalleeOk, CalleeImplements, SameEnds, PrimitiveImplements,
      ClearOfReturns, Prelude, MethodGuard, PrimitiveGuard, GoodJumps, Length, Spliced, Edited, Cut, Boundary, GuardsRight, PlanOk, BodyReady,
      ReplacedSoFar, ReturnsClear, CallerArgs, Within, RegistersWithin, BlockFor, Kept, Tail, CalleeBody, NoVariables;
    ghost var b := v.code;
    Caller(m, ctx, c0, b, n0, registers, i);
    var resultReg := ObjectToSmallint(v.code[i + 1]);
    var arity := Length(v.code, i) - 4;
    var params := v.code[i + 4..i + Length(v.code, i)];
    var block := PrimitiveGuard(resultReg, maps, index, arity, Length(v.code, i), params);
    GuardLayout(b, i, maps, index, block, registers);
    v.InsertCode(i, block);
    InsertSpliced(b, i, block, v.code);
    PrimitiveInserted(m, ctx, c0, b, i, maps, index, block, v.code, n0, registers);
    Moved(b, i, block, v.code);
    SendsMoved(m, impls, b, i, block, v.code);
    MovedRest(b, i, block, v.code);
    CallerWords(m, ctx, c0, b, n0, registers, i);
    InsertKeeps(b, i, block, v.code);
    KeptStart(b, v.code, i);
    PrimitiveSize(resultReg, maps, index, arity, Length(b, i), params);
    PrimitiveBlock(v.code, i, PrimitiveCallee(maps, index), WordsAt(b, i), n0);
    i' := i + |block|;
  }

  lemma MethodSize(maps: Word, arity: int, jump: int, args: seq<Word>)
    ensures |MethodGuard(maps, arity, jump, args)| == 4 + |args|
  {
  }

  lemma PrimitiveSize(resultReg: int, maps: Word, index: Word, arity: int, jump: int, args: seq<Word>)
    ensures |PrimitiveGuard(resultReg, maps, index, arity, jump, args)| == 6 + |args|
  {
  }

  lemma CalleeFacts(code: seq<Word>, registerCount: int, arity: int, defs: Definitions)
    requires CalleeOk(code, registerCount, arity, defs)
    ensures Sound(code) && Closed(code) && All(code, Within(0, registerCount))
  {
  }

  lemma InsertSpliced(b: seq<Word>, o: nat, ins: seq<Word>, c: seq<Word>)
    requires o <= |b| && Edited(b, Inserting(o, |ins|), c) && o + |ins| <= |c| && c[o..o + |ins|] == ins
    ensures Spliced(b, o, ins, c)
  {
  }

  /** The send stands, unchanged, behind what was inserted in front of it. */
  lemma Moved(b: seq<Word>, i: nat, block: seq<Word>, c: seq<Word>)
    requires Sound(b) && Boundary(b, i) && i < |b| && Fits(b, i) && IsSend(b[i]) && Spliced(b, i, block, c) && Boundary(block, |block|)
    ensures var q := i + |block|;
      && Boundary(c, q) && q < |c| && |c| == |b| + |block| && Fits(c, q) && c[q] == b[i] && Length(c, q) == Length(b, i) && Fetch(c, q) == Fetch(b, i)
  {
    hide BaseLength, ArgLength, KnownOp, Length, Fetch;
    WholeCode(b);
    InsertBoundary(b, i, block, c, i);
    assert Survives(b, Inserting(i, |block|), i);
    FetchShows(b, i);
    FetchShows(c, i + |block|);
    SendNoJump(Fetch(b, i), Fetch(c, i + |block|));
  }

  lemma SendNoJump(a: Instr, b: Instr)
    requires IsSend(a.op) && b == Retarget(a, b.target)
    ensures b == a
  {
  }

  lemma CalleeShifted(code: seq<Word>, b1: seq<Word>, base: int, registerCount: int, arity: int, defs: Definitions)
    requires CalleeOk(code, registerCount, arity, defs) && Shifted(code, b1, base, |code|)
    ensures Sound(b1) && Closed(b1) && All(b1, Within(base, base + registerCount)) && (ClearOfReturns(b1) <==> ClearOfReturns(code))
  {
    hide WritesBeforeReads, ClearOfReturns, Sound, Closed, Shifted, All;
    ShiftedSound(code, b1, base, registerCount);
    if ClearOfReturns(code) {
      ShiftedClear(code, b1, base);
    }
    if ClearOfReturns(b1) {
      ShiftedBack(code, b1, base);
      ShiftedClear(b1, code, -base);
    }
  }

  /** What has been renumbered can be renumbered back. */
  lemma ShiftedBack(c0: seq<Word>, c: seq<Word>, offset: int)
    requires Sound(c0) && Shifted(c0, c, offset, |c0|) && forall p :: Boundary(c, p) <==> Boundary(c0, p)
    ensures Shifted(c, c0, -offset, |c|)
  {
    hide BaseLength, ArgLength, KnownOp, Length, Fetch, OffsetInstr;
    forall p | Boundary(c, p) && p < |c| ensures ShiftedAt(c, c0, -offset, p) {
      assert ShiftedAt(c0, c, offset, p);
      FetchShows(c0, p);
      FetchShows(c, p);
      SameOp(Fetch(c0, p), offset);
      OffsetBack(Fetch(c0, p), offset);
    }
  }

  lemma OffsetBack(ins: Instr, offset: int)
    ensures OffsetInstr(OffsetInstr(ins, offset), -offset) == ins
  {
    var back := OffsetInstr(OffsetInstr(ins, offset), -offset);
    forall k | 0 <= k < |ins.args| ensures back.args[k] == ins.args[k] {
    }
  }

  lemma ShiftedClear(c0: seq<Word>, c: seq<Word>, offset: int)
    requires Sound(c0) && Closed(c0) && Shifted(c0, c, offset, |c0|) && ClearOfReturns(c0)
    requires forall p :: Boundary(c, p) <==> Boundary(c0, p)
    ensures ClearOfReturns(c)
  {
    hide BaseLength, ArgLength, KnownOp, Length, Fetch, OffsetInstr, Sound, Closed;
    forall p | Boundary(c, p) && Fits(c, p)
      ensures Fits(c0, p) && c[p] == c0[p] && (CanJump(c[p]) ==> Target(c, p) == Target(c0, p))
    {
      ShiftedFits(c0, c, offset, p);
    }
    forall p, r | Boundary(c, p) && p < |c| && Fits(c, p) && CanJump(c[p]) && ReturnAt(c, r)
      ensures !WillJumpPast(c, p, Target(c, p), r) && !WillJumpBack(c, p, Target(c, p), r)
    {
      var t := Target(c, p);
      assert ReturnAt(c0, r);
      ShiftedSkip(c0, c, offset, r + 2, t);
      ShiftedSkip(c0, c, offset, t, r);
      ReturnLength(c0, r);
      InstructionEnds0(c0, r);
      TargetIsBoundary(c0, p);
      assert !WillJumpPast(c0, p, t, r) && !WillJumpBack(c0, p, t, r);
    }
  }

  lemma ShiftedFits(c0: seq<Word>, c: seq<Word>, offset: int, p: int)
    requires Sound(c0) && Shifted(c0, c, offset, |c0|) && Boundary(c0, p) && Fits(c, p)
    ensures Fits(c0, p) && c[p] == c0[p] && (CanJump(c[p]) ==> Target(c, p) == Target(c0, p))
  {
    hide BaseLength, ArgLength, KnownOp, Length, Fetch, OffsetInstr;
    assert ShiftedAt(c0, c, offset, p);
    FetchShows(c0, p);
    FetchShows(c, p);
    SameOp(Fetch(c0, p), offset);
    OffsetTarget(Fetch(c0, p), offset);
  }

  lemma OffsetTarget(ins: Instr, offset: int)
    ensures OffsetInstr(ins, offset).target == ins.target
  {
  }

  lemma ShiftedSkip(c0: seq<Word>, c: seq<Word>, offset: int, a: int, b: int)
    requires Sound(c0) && Shifted(c0, c, offset, |c0|) && (forall p :: Boundary(c, p) <==> Boundary(c0, p))
    requires forall p | Boundary(c, p) && Fits(c, p) :: Fits(c0, p) && c[p] == c0[p]
    ensures Boundary(c0, a) && Skippable(c, a, b) ==> Skippable(c0, a, b)
  {
    hide BaseLength, ArgLength, KnownOp, Length, Fetch;
    if Boundary(c0, a) && Skippable(c, a, b) {
      ShiftedTiles(c0, c, offset, a, b);
      forall q | a <= q < b && Boundary(c0, q) && Fits(c0, q)
        ensures IsVariableOp(c0[q])
      {
        assert ShiftedAt(c0, c, offset, q);
        assert Boundary(c, q) && Fits(c, q);
      }
    }
  }

  lemma CalleePrepared(code: seq<Word>, b1: seq<Word>, b2: seq<Word>, base: int, registerCount: int, arity: int, defs: Definitions, args: seq<Word>)
    requires CalleeOk(code, registerCount, arity, defs) && All(b1, Within(base, base + registerCount)) && Sound(b2) && Closed(b2)
    requires (forall ok | All(b1, ok) :: All(b2, ok)) && |args| == arity
    ensures All(b2, Within(base, base + registerCount)) && GoodJumps(b2) && Boundary(b2, 0) && Boundary(b2, |b2|)
    ensures base + |args| <= base + registerCount
  {
    hide WritesBeforeReads, ClearOfReturns, All;
    SoundIsGood(b2);
    StartOfCode(b2);
    WholeCode(b2);
  }

  lemma Unmoved(m: Machine, ctx: Context, c0: seq<Word>, n0: int, n: int)
    requires Sound(c0) && Closed(c0) && All(c0, Within(0, n)) && ctx.inputs <= n0 <= n && All(c0, Within(0, n0))
    ensures SameRuns(m, ctx, c0, c0, n0)
  {
    hide Sound, Closed, StepAt, All, Run;
    StartsInside(c0);
    forall regs, regs', world, o | Agree(regs, regs', n0)
      ensures Ends(m, ctx, c0, State(0, regs, world), o) <==> Ends(m, ctx, c0, State(0, regs', world), o)
    {
      forall k: nat ensures Run(m, ctx, c0, State(0, regs, world), k) == Run(m, ctx, c0, State(0, regs', world), k) {
        SameRun(m, ctx, c0, 0, regs, regs', world, n0, k);
      }
    }
  }

  /** A run depends on no register outside those the code names. */
  lemma {:induction false} SameRun(m: Machine, ctx: Context, c: seq<Word>, pc: int, regs: Registers, regs': Registers, world: World, n: int, k: nat)
    requires Sound(c) && Closed(c) && All(c, Within(0, n)) && ctx.inputs <= n && Boundary(c, pc) && pc < |c| && Agree(regs, regs', n)
    ensures Run(m, ctx, c, State(pc, regs, world), k) == Run(m, ctx, c, State(pc, regs', world), k)
    decreases k
  {
    hide Step, BaseLength, ArgLength, KnownOp, Length, OffsetInstr, Boundary, All, Aligned, Sound, Closed, RegistersWithin;
    if k > 0 {
      RangeInstruction(c, pc, n);
      var ins, next := Fetch(c, pc), pc + Length(c, pc);
      assert Aligned(regs, regs', 0, n) by { AgreeAligned(regs, regs', n); }
      SameIns(ins);
      ShiftStep(m, ctx, ctx, ins, next, regs, regs', world, 0, n);
      AlignedAgree(Step(m, ctx, ins, next, regs, world), Step(m, ctx, ins, next, regs', world), regs', n);
      match Step(m, ctx, ins, next, regs, world)
      case Goto(t) =>
        StepStays(m, ctx, c, State(pc, regs, world));
        SameRun(m, ctx, c, t.pc, t.regs, Step(m, ctx, ins, next, regs', world).state.regs, t.world, n, k - 1);
      case _ =>
    }
  }

  lemma RangeInstruction(c: seq<Word>, p: int, n: int)
    requires Sound(c) && All(c, Within(0, n)) && Boundary(c, p) && p < |c|
    ensures Fits(c, p) && KnownOp(c[p]) && BaseLength(c[p]) <= |Fetch(c, p).args| && RegistersWithin(Fetch(c, p), 0, n) && Fetch(c, p).op == c[p]
  {
    BodyRegisters(c, p, 0, n);
  }

  lemma AgreeAligned(regs: Registers, regs': Registers, n: int)
    requires Agree(regs, regs', n)
    ensures Aligned(regs, regs', 0, n)
  {
    forall x | 0 <= x < n ensures Get(regs, x) == Get(regs', x + 0) { assert Get(regs, x) == Get(regs', x); }
  }

  /**
   * Marks the send that a guard already in the code belongs to, so that it is not inlined again.  The original asserts
   * that the guard of a primitive jumps right behind a send; when it does not this stops without success.
   */
  method LookAtGuards(v: CodeVector, i: nat, impls: Implementations, ghost m: Machine, ghost ctx: Context, ghost c0: seq<Word>, ghost n0: int, ghost n: int)
    returns (ok: bool)
    requires i < |v.code| && Boundary(v.code, i) && SendsOk(m, impls, v.code, i) && Inlinable0(m, ctx, c0, v.code, n0, n)
    modifies v
    ensures ok ==> |v.code| == |old(v.code)| && Boundary(v.code, i) && SendsOk(m, impls, v.code, i) && Inlinable0(m, ctx, c0, v.code, n0, n)
    ensures ok ==> forall strict :: GuardsRight(old(v.code), i, strict) <==> GuardsRight(v.code, i, strict)
    ensures ok ==> Fits(v.code, i) && (v.code[i] == OP_INLINE_PRIMITIVE_CHECK ==> GuardRight(v.code, i, false))
    ensures ok ==> Fits(old(v.code), i) && Looked(old(v.code), i, v.code)
    ensures ok ==> Renamed(old(v.code), v.code) && forall p :: Boundary(v.code, p) <==> Boundary(old(v.code), p)
    ensures !ok ==> !GuardsRight(old(v.code), i, true)
  {
    hide GuardsRight, GuardRight, BaseLength, ArgLength, KnownOp, Fetch, Closed, Sound, All, SameRuns, SendsOk, Length, Boundary, CanJump, JumpParameter;
    Here(v.code, i);
    if OP_INLINE_PRIMITIVE_CHECK == v.code[i] {
      // the send this guard belongs to comes just before the place it jumps to
      JumpHere(v.code, i);
      var j := i + Length(v.code, i) + (ObjectToSmallint(v.code[i + JumpParameter(v.code[i])]) + JumpAdjustment(v.code[i]));
      if j <= 0 {
        JumpsBack(v.code, i);
        return false;
      }
      var plainSendLocation := OpLocationBefore(v, j);
      LookedAt(v.code, i, plainSendLocation);
      if !(v.code[plainSendLocation] == OP_SEND || v.code[plainSendLocation] == OP_INTERNAL_SEND) {
        return false;
      }
      if OP_SEND == v.code[plainSendLocation] {
        MarkSend(m, ctx, c0, v.code, plainSendLocation, n0, n, impls, i);
        v.code := v.code[plainSendLocation := OP_INTERNAL_SEND];
      }
    }
    Here(v.code, i);
    if OP_INLINE_METHOD_CHECK == v.code[i] {
      JumpHere(v.code, i);
      var j := i + Length(v.code, i) + (ObjectToSmallint(v.code[i + JumpParameter(v.code[i])]) + JumpAdjustment(v.code[i]));
      if OP_SEND == v.code[j] {
        MarkSend(m, ctx, c0, v.code, j, n0, n, impls, i);
        v.code := v.code[j := OP_INTERNAL_SEND];
      }
    }
    Here(v.code, i);
    ok := true;
  }

  /** The first three implementations of the selector of a send, one behind the other in front of it. */
  method InlineSend(v: CodeVector, i: nat, impls: Implementations, registers: nat, ghost m: Machine, ghost ctx: Context, ghost c0: seq<Word>, ghost n0: int)
    returns (i': nat, registers': nat, ghost starts: seq<int>)
    requires i < |v.code| && Boundary(v.code, i) && SendsOk(m, impls, v.code, i) && Inlinable0(m, ctx, c0, v.code, n0, registers) && 0 <= n0
    requires v.code[i] == OP_SEND
    modifies v
    ensures i' < |v.code| && |v.code| - i' == |old(v.code)| - i && Boundary(v.code, i') && SendsOk(m, impls, v.code, i')
    ensures Inlinable0(m, ctx, c0, v.code, n0, registers') && registers <= registers' && v.code[i'] == OP_INTERNAL_SEND
    ensures forall strict :: GuardsRight(old(v.code), i, strict) <==> GuardsRight(v.code, i', strict)
    ensures Fits(old(v.code), i) && i + 2 < |old(v.code)|
    ensures var entries := Called(impls, old(v.code)[i + 2]);
      && SiteIs(v.code, starts, WordsAt(old(v.code), i), entries, n0) && starts[0] == i && starts[|starts| - 1] == i' && i <= i'
      && registers' == registers + RegistersOfFirst(entries, Taken(entries))
    ensures Kept(old(v.code), v.code, i) && Tail(old(v.code)[i := OP_INTERNAL_SEND], i, v.code, i')
  {
    hide GuardsRight, GuardRight, BaseLength, ArgLength, KnownOp, Fetch, Closed, Sound, All, SameRuns, Key, SendsOk, Length, Boundary, EntryOk,
      Kept, Tail, BlockFor, WordsAt, SiteIs, Blocks, Renamed;
    ghost var b0 := v.code;
    i', registers' := i, registers;
    Here(v.code, i');
    MarkSend(m, ctx, c0, v.code, i', n0, registers, impls, i');
    v.code := v.code[i' := OP_INTERNAL_SEND];
    Here(v.code, i');
    SelectorHere(m, impls, v.code, i');
    var selector := v.code[i' + 2];
    var commonCalledImplementations := Called(impls, selector);
    ghost var send, arity, before, b1 := Fetch(v.code, i'), |SendArgs(v.code, i')|, |v.code| - i', v.code;
    MarkedStart(b0, i, b1);
    ghost var words := WordsAt(b1, i);
    starts := [i];
    FirstBlock(b1, i, words, commonCalledImplementations, n0);
    var k := 0;
    while k < |commonCalledImplementations| && k <= 2
      invariant 0 <= i' < |v.code| && Boundary(v.code, i') && SendsOk(m, impls, v.code, i')
      invariant Inlinable0(m, ctx, c0, v.code, n0, registers') && k <= |commonCalledImplementations| && k <= 3
      invariant registers' == registers + RegistersOfFirst(commonCalledImplementations, k)
      invariant Fits(v.code, i') && v.code[i'] == OP_INTERNAL_SEND && Fetch(v.code, i') == send && |v.code| - i' == before
      invariant |SendArgs(v.code, i')| == arity && forall strict :: GuardsRight(b0, i, strict) <==> GuardsRight(v.code, i', strict)
      invariant forall e | e in commonCalledImplementations :: EntryOk(m, e, Key(send), arity)
      invariant Blocks(v.code, starts, k, i', words, commonCalledImplementations, n0) && |starts| == k + 1 && starts[0] == i && i <= i' && |b0| <= |v.code|
      invariant Kept(b0, v.code, i) && Tail(b1, i, v.code, i') && WordsAt(v.code, i') == words
    {
      ghost var b, i0 := v.code, i';
      i', registers' := InlineCallee(v, i', commonCalledImplementations[k], registers', m, ctx, c0, n0, impls);
      SameArgCount(b, i0, v.code, i');
      BlockInside(v.code, i0, i', commonCalledImplementations[k], words, n0, i' + |words|);
      OneMoreBlock(b, v.code, starts, k, i0, i', words, commonCalledImplementations, n0);
      KeptTrans(b0, b, v.code, i, i0);
      TailTrans(b1, i, b, i0, v.code, i');
      TailWords(b, i0, v.code, i');
      starts := starts + [i'];
      k := k + 1;
    }
    SiteOfBlocks(v.code, starts, i', words, WordsAt(b0, i), commonCalledImplementations, n0);
    BlocksSize(v.code, starts, k, i', words, commonCalledImplementations, n0);
  }

  lemma BlocksSize(c: seq<Word>, starts: seq<int>, k: nat, i: int, send: seq<Word>, entries: seq<PicEntry>, n: int)
    requires Blocks(c, starts, k, i, send, entries, n)
    ensures |starts| == k + 1 && starts[k] == i
  {
  }

  lemma FirstBlock(c: seq<Word>, i: int, send: seq<Word>, entries: seq<PicEntry>, n: int)
    ensures Blocks(c, [i], 0, i, send, entries, n)
  {
  }

  /** Marking the send. */
  lemma MarkedStart(b: seq<Word>, i: nat, c: seq<Word>)
    requires Sound(b) && Sound(c) && Boundary(b, i) && i < |b| && b[i] == OP_SEND && c == b[i := OP_INTERNAL_SEND]
    requires forall p :: Boundary(c, p) <==> Boundary(b, p)
    ensures Fits(b, i) && Fits(c, i) && i + 2 < |b| && c[i + 2] == b[i + 2] && Kept(b, c, i) && Tail(c, i, c, i)
    ensures |WordsAt(c, i)| == |WordsAt(b, i)| && 1 <= |WordsAt(b, i)| && WordsAt(c, i)[1..] == WordsAt(b, i)[1..]
  {
    Here(b, i);
    Here(c, i);
    MarkOne(b, i, OP_INTERNAL_SEND);
    WholeCode(c);
    SendLength(b, i);
    MarkedWords(b, i);
    hide BaseLength, ArgLength, KnownOp, Length, Fetch, Sound, Boundary, Fits, Renamed, WordsAt;
    RenamedKeeps(b, c);
    KeptLess(b, c, |b|, i);
    TailSelf(c, i);
  }

  /**
   * Inlines the commonly called implementations of every send.  When an assertion of the original would fail the
   * method stops without success: never if all guards of primitives in the code jump forward to right behind a send, and
   * always if one jumps forward to somewhere else.  Whenever it succeeds, no caller can tell the new code from the old;
   * the implementations of every plain send that no earlier guard marks are in front of it; and the method has
   * as many more registers as the compiled ones have.
   */
  method InlineCallees(v: CodeVector, registerCount: nat, impls: Implementations, ghost m: Machine, ghost ctx: Context)
    returns (ok: bool, newRegisterCount: nat)
    requires Sound(v.code) && Closed(v.code) && All(v.code, Within(0, registerCount)) && ctx.inputs <= registerCount
    requires SendsOk(m, impls, v.code, 0)
    modifies v
    ensures ok ==> SameRuns(m, ctx, old(v.code), v.code, registerCount)
    ensures ok ==> Sound(v.code) && Closed(v.code) && All(v.code, Within(0, newRegisterCount))
    ensures ok ==> forall p | Boundary(v.code, p) && p < |v.code| :: !IsVariableOp(v.code[p]) && v.code[p] != OP_INTERNAL_SEND
    ensures ok ==> forall p | PlainSend(old(v.code), p) :: Inlined(old(v.code), p, v.code, |v.code|, impls, registerCount)
    ensures ok ==> newRegisterCount == registerCount + RegistersFrom(old(v.code), impls, 0)
    ensures GuardsRight(old(v.code), 0, true) ==> ok
    ensures ok ==> GuardsRight(old(v.code), 0, false)
  {
    hide GuardsRight, GuardRight, BaseLength, ArgLength, KnownOp, Fetch, Closed, Sound, All, SameRuns, Key, SendsOk, SameEnds, Length, Boundary, CanJump,
      JumpParameter, EntryOk, Inlinable0, Progress, Looked, Renamed, Kept, Tail, SiteIs, PlainSend, Inlined, RegistersFrom, StripMap, Fits, WordsAt,
      RegistersOfFirst;
    ghost var c0, r := v.code, 0;
    newRegisterCount := registerCount;
    Unmoved(m, ctx, c0, registerCount, registerCount);
    StartOfCode(c0);
    StartInlinable(m, ctx, c0, registerCount);
    StartProgress(c0, impls, registerCount);
    var i := 0;
    while i < |v.code|
      invariant 0 <= i <= |v.code| && Boundary(v.code, i) && SendsOk(m, impls, v.code, i)
      invariant Inlinable0(m, ctx, c0, v.code, registerCount, newRegisterCount)
      invariant GuardsRight(c0, 0, true) ==> GuardsRight(v.code, i, true)
      invariant GuardsRight(v.code, i, false) ==> GuardsRight(c0, 0, false)
      invariant Progress(c0, r, r, v.code, i, impls, registerCount)
      invariant newRegisterCount + RegistersFrom(c0, impls, r) == registerCount + RegistersFrom(c0, impls, 0)
      decreases |v.code| - i
    {
      InlinableSound(m, ctx, c0, v.code, registerCount, newRegisterCount);
      Here(v.code, i);
      ghost var b := v.code;
      var looked := LookAtGuards(v, i, impls, m, ctx, c0, registerCount, newRegisterCount);
      if !looked {
        return false, newRegisterCount;
      }
      LookProgress(c0, r, b, i, v.code, impls, registerCount);
      InlinableSound(m, ctx, c0, v.code, registerCount, newRegisterCount);
      Here(v.code, i);
      RegistersNext(c0, impls, r);
      if OP_SEND == v.code[i] {
        i, newRegisterCount, r := InlineOne(v, i, impls, newRegisterCount, m, ctx, c0, registerCount, r);
      } else {
        FitsHere(c0, r);
        PassProgress(c0, r, v.code, i, impls, registerCount);
        r := r + Length(c0, r);
        Onward(m, impls, v.code, i);
        Passed(v.code, i);
        i := i + Length(v.code, i);
      }
    }
    ghost var c1 := v.code;
    NoneLeft(c1, i, false);
    ProgressDone(c0, r, c1, i, impls, registerCount);
    InlinableSound(m, ctx, c0, c1, registerCount, newRegisterCount);
    ghost var at := RemoveRedundantOps(v, false);
    SameRunsEnds(m, ctx, c0, c1, v.code, registerCount);
    ghost var c2 := v.code;
    RemoveInternalOps(v);
    IsInlinable(m, ctx, c0, c1, c2, registerCount, newRegisterCount);
    Marked(m, ctx, c0, c2, v.code, registerCount, newRegisterCount);
    InlinableSound(m, ctx, c0, v.code, registerCount, newRegisterCount);
    Unmarked(c2, v.code);
    RenamedKeeps(c2, v.code);
    RenamedSize(c2, v.code);
    StripInlined(c0, c1, c2, at, v.code, impls, registerCount);
    AllInlined(c0, v.code, impls, registerCount);
    ok := true;
  }

  /** One plain send, with its blocks, and on. */
  method InlineOne(v: CodeVector, i: nat, impls: Implementations, registers: nat, ghost m: Machine, ghost ctx: Context, ghost c0: seq<Word>, ghost n0: nat,
                   ghost r: int)
    returns (i': nat, registers': nat, ghost r': int)
    requires i < |v.code| && Boundary(v.code, i) && SendsOk(m, impls, v.code, i) && Inlinable0(m, ctx, c0, v.code, n0, registers)
    requires v.code[i] == OP_SEND && Fits(c0, r) && Progress(c0, r, r + Length(c0, r), v.code, i, impls, n0)
    modifies v
    ensures i' <= |v.code| && |v.code| - i' < |old(v.code)| - i && Boundary(v.code, i') && SendsOk(m, impls, v.code, i')
    ensures Inlinable0(m, ctx, c0, v.code, n0, registers') && Progress(c0, r', r', v.code, i', impls, n0) && r' == r + Length(c0, r)
    ensures GuardsRight(old(v.code), i, true) ==> GuardsRight(v.code, i', true)
    ensures GuardsRight(v.code, i', false) ==> GuardsRight(old(v.code), i, false)
    ensures registers' + RegistersFrom(c0, impls, r') == registers + RegistersFrom(c0, impls, r)
  {
    hide GuardsRight, GuardRight, BaseLength, ArgLength, KnownOp, Fetch, Closed, Sound, All, SameRuns, Key, SendsOk, SameEnds, Length, Boundary, CanJump,
      JumpParameter, EntryOk, Inlinable0, Progress, Renamed, Kept, Tail, SiteIs, PlainSend, RegistersFrom, Fits, WordsAt, RegistersOfFirst;
    ghost var c := v.code;
    FitsHere(c0, r);
    InlinableSound(m, ctx, c0, c, n0, registers);
    MarkSend(m, ctx, c0, c, i, n0, registers, impls, i);
    MarkOne(c, i, OP_INTERNAL_SEND);
    Here(c, i);
    ghost var starts;
    i', registers', starts := InlineSend(v, i, impls, registers, m, ctx, c0, n0);
    InlinableSound(m, ctx, c0, v.code, n0, registers');
    SiteSize(v.code, starts, WordsAt(c, i), Called(impls, c[i + 2]), n0);
    SendProgress(c0, r, c, i, v.code, i', starts, impls, n0);
    ProgressInside(c0, r, c, i, impls, n0);
    RegistersNext(c0, impls, r);
    Here(v.code, i');
    TailLength(c, i, v.code, i');
    Onward(m, impls, v.code, i');
    Passed(v.code, i');
    i' := i' + Length(v.code, i');
    r' := r + Length(c0, r);
  }

  lemma ProgressInside(c0: seq<Word>, r: int, c: seq<Word>, i: int, impls: Implementations, n: int)
    requires Fits(c0, r) && Progress(c0, r, r + Length(c0, r), c, i, impls, n)
    ensures 0 <= r < |c0|
  {
  }

  lemma TailLength(b: seq<Word>, i: nat, c: seq<Word>, j: int)
    requires Sound(b) && i < |b| && Fits(b, i) && b[i] == OP_SEND && Boundary(b, i) && Tail(b[i := OP_INTERNAL_SEND], i, c, j)
    requires forall p :: Boundary(b[i := OP_INTERNAL_SEND], p) <==> Boundary(b, p)
    ensures Fits(c, j) && Length(c, j) == Length(b, i)
  {
    var bm := b[i := OP_INTERNAL_SEND];
    MarkOne(b, i, OP_INTERNAL_SEND);
    RenamedInstruction(b, bm, i);
    assert TailAt(bm, i, c, j);
  }

  lemma StartInlinable(m: Machine, ctx: Context, c: seq<Word>, n: nat)
    requires Sound(c) && Closed(c) && All(c, Within(0, n)) && ctx.inputs <= n && SameRuns(m, ctx, c, c, n)
    ensures Inlinable0(m, ctx, c, c, n, n)
  {
  }

  lemma InlinableSound(m: Machine, ctx: Context, c0: seq<Word>, c: seq<Word>, n0: int, n: int)
    requires Inlinable0(m, ctx, c0, c, n0, n)
    ensures Sound(c) && Closed(c) && Boundary(c, |c|) && All(c, Within(0, n)) && n0 <= n && SameRuns(m, ctx, c0, c, n0)
  {
  }

  lemma IsInlinable(m: Machine, ctx: Context, c0: seq<Word>, b: seq<Word>, c: seq<Word>, n0: int, n: int)
    requires Inlinable0(m, ctx, c0, b, n0, n) && Sound(c) && Closed(c) && All(c, Within(0, n)) && SameRuns(m, ctx, c0, c, n0)
    ensures Inlinable0(m, ctx, c0, c, n0, n)
  {
  }

  lemma ProgressDone(c0: seq<Word>, r: int, c: seq<Word>, i: int, impls: Implementations, n: int)
    requires Progress(c0, r, r, c, i, impls, n) && i == |c|
    ensures r == |c0| && Passed0(c0, |c0|, c, |c|, impls, n) && RegistersFrom(c0, impls, r) == 0
  {
  }

  lemma AllInlined(c0: seq<Word>, c: seq<Word>, impls: Implementations, n: int)
    requires Passed0(c0, |c0|, c, |c|, impls, n)
    ensures forall p | PlainSend(c0, p) :: Inlined(c0, p, c, |c|, impls, n)
  {
    hide Inlined;
  }

  lemma Here(c: seq<Word>, i: int)
    requires Sound(c) && Boundary(c, i) && i < |c|
    ensures 0 <= i && Fits(c, i) && 1 <= Length(c, i) && i + Length(c, i) <= |c| && i + BaseLength(c[i]) < |c|
  {
    assert SoundAt(c, i);
  }

  lemma JumpHere(c: seq<Word>, i: int)
    requires Sound(c) && Closed(c) && Boundary(c, i) && i < |c| && Fits(c, i)
    requires c[i] == OP_INLINE_PRIMITIVE_CHECK || c[i] == OP_INLINE_METHOD_CHECK
    ensures i + JumpParameter(c[i]) < |c| && CanJump(c[i])
    ensures var j := i + Length(c, i) + (ObjectToSmallint(c[i + JumpParameter(c[i])]) + JumpAdjustment(c[i]));
      0 <= j < |c| && Boundary(c, j) && j == Target(c, i)
  {
    TargetIsBoundary(c, i);
  }

  lemma MarkSend(m: Machine, ctx: Context, c0: seq<Word>, b: seq<Word>, p: int, n0: int, n: int, impls: Implementations, i: int)
    requires Inlinable0(m, ctx, c0, b, n0, n) && Boundary(b, p) && 0 <= p < |b| && b[p] == OP_SEND && SendsOk(m, impls, b, i)
    requires Boundary(b, i) && 0 <= i < |b|
    ensures forall strict :: GuardsRight(b, i, strict) <==> GuardsRight(b[p := OP_INTERNAL_SEND], i, strict)
    ensures Fits(b, i) && GuardRight(b, i, false) ==> Fits(b[p := OP_INTERNAL_SEND], i) && GuardRight(b[p := OP_INTERNAL_SEND], i, false)
    ensures Inlinable0(m, ctx, c0, b[p := OP_INTERNAL_SEND], n0, n) && SendsOk(m, impls, b[p := OP_INTERNAL_SEND], i)
    ensures forall q :: Boundary(b[p := OP_INTERNAL_SEND], q) <==> Boundary(b, q)
  {
    hide SendsOk, Renamed, Boundary, GuardsRight, GuardRight, Fits;
    MarkOne(b, p, OP_INTERNAL_SEND);
    Marked(m, ctx, c0, b, b[p := OP_INTERNAL_SEND], n0, n);
    MarkedRest(b, b[p := OP_INTERNAL_SEND], i);
    MarkedSends(m, impls, b, b[p := OP_INTERNAL_SEND], i);
  }

  lemma SelectorHere(m: Machine, impls: Implementations, c: seq<Word>, i: int)
    requires Boundary(c, i) && 0 <= i < |c| && Fits(c, i) && IsSend(c[i]) && SendsOk(m, impls, c, i)
    ensures i + 2 < |c| && forall e | e in Called(impls, c[i + 2]) :: EntryOk(m, e, Key(Fetch(c, i)), |SendArgs(c, i)|)
  {
    hide EntryOk;
    assert SendOk(m, impls, c, i);
  }

  lemma SameArgCount(b: seq<Word>, i: nat, c: seq<Word>, j: nat)
    requires Fits(b, i) && IsSend(b[i]) && Fits(c, j) && IsSend(c[j]) && Length(c, j) == Length(b, i)
    ensures |SendArgs(c, j)| == |SendArgs(b, i)|
  {
    SendShape(b, i);
    SendShape(c, j);
  }

  lemma Onward(m: Machine, impls: Implementations, c: seq<Word>, i: int)
    requires Sound(c) && Boundary(c, i) && 0 <= i < |c| && SendsOk(m, impls, c, i)
    ensures Fits(c, i) && 1 <= Length(c, i) && i + Length(c, i) <= |c| && Boundary(c, i + Length(c, i)) && SendsOk(m, impls, c, i + Length(c, i))
    ensures i + BaseLength(c[i]) < |c|
  {
    hide SendOk;
    Here(c, i);
    InstructionEnds0(c, i);
  }

  lemma Unmarked(c2: seq<Word>, c: seq<Word>)
    requires Renamed(c2, c) && (forall p :: Boundary(c, p) <==> Boundary(c2, p))
    requires forall p | Boundary(c2, p) && p < |c2| :: !IsVariableOp(c2[p])
    requires forall p | Boundary(c2, p) && p < |c| :: c[p] != OP_INTERNAL_SEND
    ensures forall p | Boundary(c, p) && p < |c| :: !IsVariableOp(c[p]) && c[p] != OP_INTERNAL_SEND
  {
    forall p | Boundary(c, p) && p < |c|
      ensures !IsVariableOp(c[p]) && c[p] != OP_INTERNAL_SEND
    {
      BoundaryIsTiled(c, p);
    }
  }
}
