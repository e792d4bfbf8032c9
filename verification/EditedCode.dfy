/** How an edited code vector relates to the original: layout, jump targets, and what its runs do. */
module EditedCode {
  import opened Wrappers
  import opened Opcodes
  import opened CodeVectors
  import opened Execution

  /** Code the optimizer can handle: whole instructions, and every jump goes to one of them or past the end. */
  ghost predicate Sound(code: seq<Word>) {
    Boundary(code, |code|) && forall p | Boundary(code, p) && p < |code| :: SoundAt(code, p)
  }

  ghost predicate SoundAt(code: seq<Word>, p: int) {
    Fits(code, p) && (CanJump(code[p]) ==>
      && IsSmallint(code[p + JumpParameter(code[p])]) && 0 <= Target(code, p)
      && (Target(code, p) <= |code| ==> Boundary(code, Target(code, p))))
  }

  predicate FallsThrough(op: Word) {
    op != OP_JUMP_TO && op != OP_RETURN_REGISTER && op != OP_RETURN_VALUE && op != OP_RETURN_FROM && op != OP_RESUME
  }

  /** Control never leaves the code except by returning. */
  ghost predicate Closed(code: seq<Word>) {
    0 < |code| && forall p | Boundary(code, p) && p < |code| :: ClosedAt(code, p)
  }

  ghost predicate ClosedAt(code: seq<Word>, p: int) {
    Fits(code, p) && (FallsThrough(code[p]) ==> p + Length(code, p) < |code|)
    && (CanJump(code[p]) ==> Target(code, p) < |code|)
  }

  lemma SoundIsGood(code: seq<Word>)
    requires Sound(code)
    ensures GoodJumps(code)
  {
    forall p | Boundary(code, p) && p < |code|
      ensures Fits(code, p) && (CanJump(code[p]) ==> IsSmallint(code[p + JumpParameter(code[p])]) && 0 <= Target(code, p))
    {
      assert SoundAt(code, p);
    }
  }

  /** Fetch shows the opcode, the length and the target. */
  lemma FetchShows(code: seq<Word>, p: int)
    requires Fits(code, p)
    ensures Fetch(code, p).op == code[p] && |Fetch(code, p).args| == Length(code, p) - 1
    ensures CanJump(code[p]) ==> Fetch(code, p).target == Target(code, p)
  {
  }

  // ---------- layout after an insertion ----------

  /** c is c0 with ins put in at o. */
  ghost predicate Spliced(c0: seq<Word>, o: nat, ins: seq<Word>, c: seq<Word>) {
    o <= |c0| && Edited(c0, Inserting(o, |ins|), c) && c[o..o + |ins|] == ins
  }

  lemma {:induction false} PrefixCarried(c0: seq<Word>, e: Edit, c: seq<Word>, p: int)
    requires Edited(c0, e, c) && Boundary(c0, e.at) && Boundary(c0, p) && p <= e.at <= |c0| && e.at <= |c|
    ensures Boundary(c, p)
  {
    TilesCarried(c0, e, c, 0, p, 0);
  }

  /** A stretch of surviving instructions that all move by d stays a stretch of instructions. */
  lemma {:induction false} TilesCarried(c0: seq<Word>, e: Edit, c: seq<Word>, a: int, b: int, d: int)
    requires Edited(c0, e, c) && Boundary(c0, a) && Tiled(c0, a, b) && 0 <= a + d && b + d <= |c|
    requires a == b || (b <= e.at && d == 0)
      || ((if e.Inserting? then e.at else e.at + e.size) <= a && d == e.Moved(a) - a && (e.Deleting? ==> e.at < a))
    ensures Tiled(c, a + d, b + d)
    decreases b - a
  {
    hide BaseLength, ArgLength, KnownOp, Length, Edited;
    if a < b {
      InstructionEnds0(c0, a);
      SizeCarried(c0, e, c, a);
      TilesCarried(c0, e, c, a + Length(c0, a), b, d);
    }
  }

  lemma SizeCarried(c0: seq<Word>, e: Edit, c: seq<Word>, a: int)
    requires Edited(c0, e, c) && Survives(c0, e, a)
    ensures Fits(c, e.Moved(a)) && Length(c, e.Moved(a)) == Length(c0, a)
  {
    hide BaseLength, ArgLength, KnownOp, Length, Fetch;
    assert Carried(c0, a, c, e.Moved(a), e.MovedTarget(a, Fetch(c0, a).target));
  }

  lemma InstructionEnds0(code: seq<Word>, p: int)
    requires Boundary(code, p) && Fits(code, p)
    ensures Boundary(code, p + Length(code, p)) && Length(code, p) >= 1
  {
    assert Tiled(code, p + Length(code, p), p + Length(code, p));
    TiledConcat(code, 0, p, p + Length(code, p));
  }

  /** The instruction boundaries after an insertion: the old ones, split at the insertion point, and the new code's. */
  lemma InsertBoundary(c0: seq<Word>, o: nat, ins: seq<Word>, c: seq<Word>, p: int)
    requires Spliced(c0, o, ins, c)
    requires Boundary(c0, o) && Boundary(c0, |c0|) && Boundary(ins, |ins|)
    ensures Boundary(c0, p) && p <= o ==> Boundary(c, p)
    ensures Boundary(ins, p) ==> Boundary(c, o + p)
    ensures Boundary(c0, p) && o <= p ==> Boundary(c, p + |ins|)
  {
    hide Fits, Length, Boundary;
    var e := Inserting(o, |ins|);
    BoundaryIsTiled(c0, o); BoundaryIsTiled(c0, p); BoundaryIsTiled(ins, p); BoundaryIsTiled(ins, |ins|); BoundaryIsTiled(c0, |c0|);
    if Boundary(c0, p) && p <= o {
      PrefixCarried(c0, e, c, p);
    }
    PrefixCarried(c0, e, c, o);
    BoundaryIsTiled(c, o);
    if Boundary(ins, p) {
      assert c[0 + o..p + o] == c[o..o + |ins|][..p] == ins[0..p];
      TiledMove(ins, 0, p, c, o);
      TiledConcat(c, 0, o, o + p);
      BoundaryIsTiled(c, o + p);
    }
    assert c[0 + o..|ins| + o] == ins[0..|ins|];
    TiledMove(ins, 0, |ins|, c, o);
    TiledConcat(c, 0, o, o + |ins|);
    if Boundary(c0, p) && o <= p {
      TiledRest(c0, 0, o, p);
      TilesCarried(c0, e, c, o, p, |ins|);
      TiledConcat(c, 0, o + |ins|, p + |ins|);
      BoundaryIsTiled(c, p + |ins|);
    }
  }

  lemma BoundaryIsTiled(c: seq<Word>, p: int)
    ensures Boundary(c, p) <==> Tiled(c, 0, p)
    ensures Boundary(c, p) ==> 0 <= p <= |c|
  {
  }

  /** There are no other boundaries. */
  lemma InsertBoundaryOnly(c0: seq<Word>, o: nat, ins: seq<Word>, c: seq<Word>, q: int)
    requires Spliced(c0, o, ins, c)
    requires Boundary(c0, o) && Boundary(c0, |c0|) && Boundary(ins, |ins|) && Boundary(c, q)
    ensures q < o ==> Boundary(c0, q)
    ensures o <= q < o + |ins| ==> Boundary(ins, q - o)
    ensures o + |ins| <= q ==> Boundary(c0, q - |ins|)
  {
    hide Fits, Length, BaseLength, ArgLength, KnownOp;
    assert |c| == |c0| + |ins|;
    if q < o {
      OnlyBoundary(c0, Inserting(o, |ins|), c, 0, q, o, 0);
    } else {
      InsertBoundary(c0, o, ins, c, o);
      TiledRest(c, 0, o, q);
      if q < o + |ins| {
        assert ins[0..q - o] == c[o..o + |ins|][..q - o] == c[o..q];
        TiledMove(c, o, q, ins, 0 - o);
      } else {
        TiledRest(c, 0, o + |ins|, q);
        TiledRest(c0, 0, o, |c0|);
        OnlyBoundary(c0, Inserting(o, |ins|), c, o, q - |ins|, |c0|, |ins|);
      }
    }
  }

  /** Within a carried stretch the boundaries are those of the original. */
  lemma {:induction false} OnlyBoundary(c0: seq<Word>, e: Edit, c: seq<Word>, a: int, q: int, b: int, d: int)
    requires Edited(c0, e, c) && Boundary(c0, a) && Tiled(c0, a, b) && a <= q <= b && 0 <= a + d && b + d <= |c|
    requires a == b || (b <= e.at && d == 0)
      || ((if e.Inserting? then e.at else e.at + e.size) <= a && d == e.Moved(a) - a && (e.Deleting? ==> e.at < a))
    requires Tiled(c, a + d, q + d)
    ensures Boundary(c0, q)
    decreases q - a
  {
    hide BaseLength, ArgLength, KnownOp;
    if a < q {
      InstructionEnds0(c0, a);
      assert Survives(c0, e, a);
      assert Carried(c0, a, c, e.Moved(a), e.MovedTarget(a, Fetch(c0, a).target));
      OnlyBoundary(c0, e, c, a + Length(c0, a), q, b, d);
    }
  }

  // ---------- layout after a deletion ----------

  /** c is c0 without the instruction that takes up [o, o + m). */
  ghost predicate Cut(c0: seq<Word>, o: nat, m: nat, c: seq<Word>) {
    && 0 < m && o + m <= |c0| && Edited(c0, Deleting(o, m), c)
    && Boundary(c0, o) && Boundary(c0, o + m) && Boundary(c0, |c0|) && Fits(c0, o) && Length(c0, o) == m
  }

  lemma CutBoundary(c0: seq<Word>, o: nat, m: nat, c: seq<Word>, p: int)
    requires Cut(c0, o, m, c) && Boundary(c0, p)
    ensures p <= o ==> Boundary(c, p)
    ensures o + m <= p ==> Boundary(c, p - m)
  {
    hide Fits, Length, BaseLength, ArgLength, KnownOp;
    assert |c| == |c0| - m;
    PrefixCarried(c0, Deleting(o, m), c, o);
    if p <= o {
      PrefixCarried(c0, Deleting(o, m), c, p);
    } else if o + m <= p {
      TiledRest(c0, 0, o + m, p);
      TilesCarried(c0, Deleting(o, m), c, o + m, p, 0 - m);
      TiledConcat(c, 0, o, p - m);
    }
  }

  lemma CutBoundaryOnly(c0: seq<Word>, o: nat, m: nat, c: seq<Word>, q: int)
    requires Cut(c0, o, m, c) && Boundary(c, q)
    ensures q < o ==> Boundary(c0, q)
    ensures o <= q ==> Boundary(c0, q + m)
  {
    hide Fits, Length, BaseLength, ArgLength, KnownOp;
    assert |c| == |c0| - m;
    if q < o {
      OnlyBoundary(c0, Deleting(o, m), c, 0, q, o, 0);
    } else {
      CutBoundary(c0, o, m, c, o);
      TiledRest(c, 0, o, q);
      TiledRest(c0, 0, o + m, |c0|);
      OnlyBoundary(c0, Deleting(o, m), c, o + m, q + m, |c0|, 0 - m);
    }
  }

  /** Every instruction of the code, apart from where it jumps, meets a condition. */
  ghost predicate All(code: seq<Word>, ok: Instr -> bool) {
    forall p | Boundary(code, p) && p < |code| :: Fits(code, p) && ok(Fetch(code, p).(target := 0))
  }

  /** The instruction at q of the shortened code, and where it was. */
  lemma CutInstruction(c0: seq<Word>, o: nat, m: nat, c: seq<Word>, q: int) returns (p: int)
    requires Cut(c0, o, m, c) && Boundary(c, q) && q < |c| && Sound(c0)
    ensures p == if q < o then q else q + m
    ensures Boundary(c0, p) && p < |c0| && p != o && SoundAt(c0, p)
    ensures Carried(c0, p, c, q, Deleting(o, m).MovedTarget(p, Fetch(c0, p).target))
    ensures p + Length(c0, p) <= |c0|
  {
    hide BaseLength, ArgLength, KnownOp, Length;
    assert |c| == |c0| - m;
    CutBoundaryOnly(c0, o, m, c, q);
    p := if q < o then q else q + m;
    assert SoundAt(c0, p);
    assert Survives(c0, Deleting(o, m), p);
  }

  lemma CutSound(c0: seq<Word>, o: nat, m: nat, c: seq<Word>)
    requires Cut(c0, o, m, c) && Sound(c0)
    ensures Sound(c)
  {
    hide BaseLength, ArgLength, KnownOp, Length;
    CutBoundary(c0, o, m, c, |c0|);
    assert |c| == |c0| - m;
    forall q | Boundary(c, q) && q < |c|
      ensures SoundAt(c, q)
    {
      var p := CutInstruction(c0, o, m, c, q);
      FetchShows(c, q);
      FetchShows(c0, p);
      if CanJump(c[q]) {
        var t := Target(c0, p);
        if t <= |c0| {
          if o < t {
            InstructionEnds(c0, o, t);
          }
          CutBoundary(c0, o, m, c, t);
        }
      }
    }
  }

  /** Deleting an instruction that control falls through does not open the code. */
  lemma CutClosed(c0: seq<Word>, o: nat, m: nat, c: seq<Word>)
    requires Cut(c0, o, m, c) && Sound(c0) && Closed(c0) && FallsThrough(c0[o])
    ensures Closed(c)
  {
    hide BaseLength, ArgLength, KnownOp, Length;
    assert |c| == |c0| - m;
    assert ClosedAt(c0, o);
    forall q | Boundary(c, q) && q < |c|
      ensures ClosedAt(c, q)
    {
      var p := CutInstruction(c0, o, m, c, q);
      FetchShows(c, q);
      FetchShows(c0, p);
      assert ClosedAt(c0, p);
      if p < o {
        InstructionEnds(c0, p, o);
      }
      if CanJump(c[q]) && o < Target(c0, p) {
        InstructionEnds(c0, o, Target(c0, p));
      }
    }
  }

  lemma CutAll(c0: seq<Word>, o: nat, m: nat, c: seq<Word>, ok: Instr -> bool)
    requires Cut(c0, o, m, c) && Sound(c0) && All(c0, ok)
    ensures All(c, ok)
  {
    hide BaseLength, ArgLength, KnownOp, Length;
    forall q | Boundary(c, q) && q < |c|
      ensures Fits(c, q) && ok(Fetch(c, q).(target := 0))
    {
      var p := CutInstruction(c0, o, m, c, q);
      assert Fetch(c, q).(target := 0) == Fetch(c0, p).(target := 0);
    }
  }

  // ---------- deleting an instruction that does nothing ----------

  /** Where a run of the original is in the shortened code. */
  function CutPc(o: nat, m: nat, p: int): int {
    if p <= o then p else p - m
  }

  /** One step of an instruction that stays: the shortened code makes the same step. */
  lemma CutStep(m: Machine, ctx: Context, c0: seq<Word>, o: nat, n: nat, c: seq<Word>, s: State)
    requires Cut(c0, o, n, c) && Sound(c0) && Closed(c0)
    requires Boundary(c0, s.pc) && s.pc < |c0| && s.pc != o
    ensures var s' := s.(pc := CutPc(o, n, s.pc));
            match StepAt(m, ctx, c0, s)
            case Goto(t) => StepAt(m, ctx, c, s') == Goto(t.(pc := CutPc(o, n, t.pc))) && Boundary(c0, t.pc) && t.pc < |c0|
            case r => StepAt(m, ctx, c, s') == r
  {
    hide BaseLength, ArgLength, KnownOp, Length, Step, CanJump, JumpParameter, Tiled, Boundary;
    var p := s.pc;
    assert SoundAt(c0, p) && ClosedAt(c0, p);
    InstructionEnds0(c0, p);
    if p < o {
      InstructionEnds(c0, p, o);
    } else {
      InstructionEnds(c0, o, p);
    }
    assert Survives(c0, Deleting(o, n), p);
    FetchShows(c0, p);
    FetchShows(c, CutPc(o, n, p));
    var ins := Fetch(c0, p);
    var next := p + Length(c0, p);
    assert Fetch(c, CutPc(o, n, p)) == Retarget(ins, CutPc(o, n, ins.target));
    StepMoves(m, ctx, ins, next, CutPc(o, n, ins.target), CutPc(o, n, next), s.regs, s.world);
  }

  /** A step depends on where the instruction is and jumps only through where it goes. */
  lemma StepMoves(m: Machine, ctx: Context, ins: Instr, next: int, target': int, next': int, regs: Registers, world: World)
    ensures var ins' := Retarget(ins, target');
            match Step(m, ctx, ins, next, regs, world)
            case Goto(t) =>
              || (t.pc == next && FallsThrough(ins.op) && Step(m, ctx, ins', next', regs, world) == Goto(t.(pc := next')))
              || (t.pc == ins.target && CanJump(ins.op) && Step(m, ctx, ins', next', regs, world) == Goto(t.(pc := target')))
            case r => Step(m, ctx, ins', next', regs, world) == r
  {
    if CanJump(ins.op) {
      JumpMoves(m, ctx, ins, next, target', next', regs, world);
    } else {
      StepOnMoves(m, ctx, ins, next, next', regs, world);
    }
  }

  lemma JumpMoves(m: Machine, ctx: Context, ins: Instr, next: int, target': int, next': int, regs: Registers, world: World)
    requires CanJump(ins.op)
    ensures var ins' := Retarget(ins, target');
            match Step(m, ctx, ins, next, regs, world)
            case Goto(t) =>
              || (t.pc == next && FallsThrough(ins.op) && Step(m, ctx, ins', next', regs, world) == Goto(t.(pc := next')))
              || (t.pc == ins.target && Step(m, ctx, ins', next', regs, world) == Goto(t.(pc := target')))
            case r => Step(m, ctx, ins', next', regs, world) == r
  {
    SameEffect(m, ctx, ins, Retarget(ins, target'), regs, world);
    hide EffectOf, GuardArgs, Key, ReadOperands, MapsMatch;
  }

  lemma StepOnMoves(m: Machine, ctx: Context, ins: Instr, next: int, next': int, regs: Registers, world: World)
    requires !CanJump(ins.op)
    ensures match Step(m, ctx, ins, next, regs, world)
            case Goto(t) => t.pc == next && FallsThrough(ins.op) && Step(m, ctx, ins, next', regs, world) == Goto(t.(pc := next'))
            case r => Step(m, ctx, ins, next', regs, world) == r
  {
    hide EffectOf, GuardArgs, Key, ReadOperands, MapsMatch;
  }

  lemma SameEffect(m: Machine, ctx: Context, ins: Instr, ins': Instr, regs: Registers, world: World)
    requires ins' == ins.(target := ins'.target)
    ensures EffectOf(m, ctx, ins', regs, world) == EffectOf(m, ctx, ins, regs, world)
    ensures GuardArgs(ins', 3, regs) == GuardArgs(ins, 3, regs) && GuardArgs(ins', 5, regs) == GuardArgs(ins, 5, regs)
  {
    SameReads(ins, ins', 0);
    assert Key(ins') == Key(ins);
    SameGuard(ins, ins', 3, regs);
    SameGuard(ins, ins', 5, regs);
  }

  lemma SameGuard(ins: Instr, ins': Instr, first: nat, regs: Registers)
    requires ins'.args == ins.args
    ensures GuardArgs(ins', first, regs) == GuardArgs(ins, first, regs)
  {
    var xs, ys := GuardArgs(ins', first, regs), GuardArgs(ins, first, regs);
    forall k | 0 <= k < |xs|
      ensures xs[k] == ys[k]
    {
      assert Arg(ins', first + k) == Arg(ins, first + k);
      assert xs[k] == Get(regs, Arg(ins', first + k)) && ys[k] == Get(regs, Arg(ins, first + k));
    }
  }

  lemma {:induction false} SameReads(ins: Instr, ins': Instr, k: nat)
    requires ins' == ins.(target := ins'.target)
    ensures ReadOperands(ins', k) == ReadOperands(ins, k)
    decreases |ins.args| - k
  {
    if k < |ins.args| {
      SameReads(ins, ins', k + 1);
    }
  }

  /** The instruction that goes away only moves on. */
  lemma SkipStep(m: Machine, ctx: Context, c0: seq<Word>, o: nat, n: nat, c: seq<Word>, s: State)
    requires Cut(c0, o, n, c) && Closed(c0) && IsVariableOp(c0[o]) && s.pc == o
    ensures StepAt(m, ctx, c0, s) == Goto(s.(pc := o + n)) && o < o + n < |c0|
    ensures CutPc(o, n, o + n) == CutPc(o, n, o) == o
  {
    assert ClosedAt(c0, o);
    FetchShows(c0, o);
  }

  lemma {:induction false} CutForward(m: Machine, ctx: Context, c0: seq<Word>, o: nat, n: nat, c: seq<Word>, s: State, k: nat)
    requires Cut(c0, o, n, c) && Sound(c0) && Closed(c0) && IsVariableOp(c0[o])
    requires Boundary(c0, s.pc) && s.pc < |c0| && Run(m, ctx, c0, s, k).Some?
    ensures Run(m, ctx, c, s.(pc := CutPc(o, n, s.pc)), k) == Run(m, ctx, c0, s, k)
    decreases k
  {
    hide Step, StepAt, Sound, Closed, Cut, Boundary;
    if s.pc == o {
      SkipStep(m, ctx, c0, o, n, c, s);
      CutRest(c0, o, n, c);
      CutForward(m, ctx, c0, o, n, c, s.(pc := o + n), k - 1);
      assert s.(pc := o + n).(pc := CutPc(o, n, o + n)) == s.(pc := CutPc(o, n, s.pc));
      MoreFuel(m, ctx, c, s.(pc := o), k - 1, k);
    } else {
      CutStep(m, ctx, c0, o, n, c, s);
      match StepAt(m, ctx, c0, s)
      case Goto(t) => CutForward(m, ctx, c0, o, n, c, t, k - 1);
      case _ =>
    }
  }

  lemma CutRest(c0: seq<Word>, o: nat, n: nat, c: seq<Word>)
    requires Cut(c0, o, n, c)
    ensures Boundary(c0, o + n)
  {
  }

  lemma {:induction false} CutBackward(m: Machine, ctx: Context, c0: seq<Word>, o: nat, n: nat, c: seq<Word>, s: State, k: nat)
    requires Cut(c0, o, n, c) && Sound(c0) && Closed(c0) && IsVariableOp(c0[o])
    requires Boundary(c0, s.pc) && s.pc < |c0| && Run(m, ctx, c, s.(pc := CutPc(o, n, s.pc)), k).Some?
    ensures Run(m, ctx, c0, s, 2 * k + 1) == Run(m, ctx, c, s.(pc := CutPc(o, n, s.pc)), k)
    ensures s.pc != o ==> Run(m, ctx, c0, s, 2 * k) == Run(m, ctx, c0, s, 2 * k + 1)
    decreases k, s.pc == o
  {
    hide Step, StepAt, Sound, Closed, Cut, Boundary;
    if s.pc == o {
      SkipStep(m, ctx, c0, o, n, c, s);
      CutRest(c0, o, n, c);
      assert s.(pc := o + n).(pc := CutPc(o, n, o + n)) == s.(pc := CutPc(o, n, s.pc));
      CutBackward(m, ctx, c0, o, n, c, s.(pc := o + n), k);
    } else {
      CutStep(m, ctx, c0, o, n, c, s);
      match StepAt(m, ctx, c0, s) {
        case Goto(t) => CutBackward(m, ctx, c0, o, n, c, t, k - 1);
        case _ =>
      }
      if Run(m, ctx, c0, s, 2 * k).Some? {
        MoreFuel(m, ctx, c0, s, 2 * k, 2 * k + 1);
      }
    }
  }

  /** From the same registers the two codes end alike. */
  ghost predicate SameEnds(m: Machine, ctx: Context, code: seq<Word>, code': seq<Word>) {
    forall regs, world, o ::
      Ends(m, ctx, code, State(0, regs, world), o) <==> Ends(m, ctx, code', State(0, regs, world), o)
  }

  /** Deleting a variable instruction changes no run. */
  lemma CutSameEnds(m: Machine, ctx: Context, c0: seq<Word>, o: nat, n: nat, c: seq<Word>)
    requires Cut(c0, o, n, c) && Sound(c0) && Closed(c0) && IsVariableOp(c0[o])
    ensures SameEnds(m, ctx, c0, c)
  {
    forall regs, world, x
      ensures Ends(m, ctx, c0, State(0, regs, world), x) <==> Ends(m, ctx, c, State(0, regs, world), x)
    {
      hide StepAt, Sound, Closed, Cut, Run;
      var s := State(0, regs, world);
      assert Boundary(c0, 0) && 0 < |c0|;
      assert s.(pc := CutPc(o, n, 0)) == s;
      if Ends(m, ctx, c0, s, x) {
        var k: nat :| Run(m, ctx, c0, s, k) == Some(x);
        CutForward(m, ctx, c0, o, n, c, s, k);
      }
      if Ends(m, ctx, c, s, x) {
        var k: nat :| Run(m, ctx, c, s, k) == Some(x);
        CutBackward(m, ctx, c0, o, n, c, s, k);
      }
    }
  }

  // ---------- replacing an instruction: a deletion and an insertion at the same place ----------

  lemma CarriedTrans(a: seq<Word>, p: int, b: seq<Word>, q: int, t: int, c: seq<Word>, r: int, u: int)
    requires Fits(a, p) && Carried(a, p, b, q, t) && Carried(b, q, c, r, u)
    ensures Carried(a, p, c, r, u)
  {
    hide BaseLength, ArgLength, KnownOp, Length;
    FetchShows(a, p);
    FetchShows(b, q);
    FetchShows(c, r);
  }

  /** An instruction inserted with others keeps its words; its target is counted from its new place. */
  lemma InsertedInstruction(c0: seq<Word>, o: nat, ins: seq<Word>, c: seq<Word>, k: int)
    requires Spliced(c0, o, ins, c) && Boundary(ins, k) && Fits(ins, k)
    ensures Carried(ins, k, c, o + k, Fetch(ins, k).target + o)
  {
    hide BaseLength, ArgLength, KnownOp;
    var n := Length(ins, k);
    SubSlice(c, o, ins, k, n);
    SameWords(ins, k, c, o + k);
    if CanJump(ins[k]) {
      var j := JumpParameter(ins[k]);
      SliceWord(c, o + k, o + k + n, j);
      SliceWord(ins, k, k + n, j);
    }
  }

  /** The instruction at q after an insertion: one of the old ones, carried along, or one of the inserted ones. */
  lemma SplicedInstruction(c0: seq<Word>, o: nat, ins: seq<Word>, c: seq<Word>, q: int)
    requires Spliced(c0, o, ins, c) && Boundary(c0, o) && Boundary(ins, |ins|) && Boundary(c0, |c0|)
    requires Boundary(c, q) && q < |c|
    ensures o <= q < o + |ins| ==>
      (Boundary(ins, q - o) && Fits(ins, q - o) && Carried(ins, q - o, c, q, Fetch(ins, q - o).target + o))
    ensures q < o || o + |ins| <= q ==>
      (var p := if q < o then q else q - |ins|;
       && Boundary(c0, p) && p < |c0| && Fits(c0, p)
       && Carried(c0, p, c, q, Inserting(o, |ins|).MovedTarget(p, Fetch(c0, p).target)))
  {
    hide BaseLength, ArgLength, KnownOp, Length, Fetch;
    assert |c| == |c0| + |ins|;
    InsertBoundaryOnly(c0, o, ins, c, q);
    if o <= q < o + |ins| {
      InstructionEnds(ins, q - o, |ins|);
      InsertedInstruction(c0, o, ins, c, q - o);
    } else {
      var p := if q < o then q else q - |ins|;
      InstructionEnds(c0, p, |c0|);
      assert Survives(c0, Inserting(o, |ins|), p);
    }
  }

  /** An insertion into sound code is sound when the inserted jumps land on instructions or past the end. */
  lemma SpliceSound(c0: seq<Word>, o: nat, ins: seq<Word>, c: seq<Word>)
    requires Spliced(c0, o, ins, c) && Sound(c0) && Boundary(c0, o) && Boundary(ins, |ins|)
    requires forall k | Boundary(ins, k) && k < |ins| :: Fits(ins, k) && (CanJump(ins[k]) ==>
               && IsSmallint(ins[k + JumpParameter(ins[k])]) && 0 <= Target(ins, k) + o
               && (Target(ins, k) + o <= |c| ==> Boundary(c, Target(ins, k) + o)))
    ensures Sound(c)
  {
    hide BaseLength, ArgLength, KnownOp, Length;
    assert |c| == |c0| + |ins|;
    InsertBoundary(c0, o, ins, c, |c0|);
    forall q | Boundary(c, q) && q < |c|
      ensures SoundAt(c, q)
    {
      SplicedInstruction(c0, o, ins, c, q);
      FetchShows(c, q);
      if o <= q < o + |ins| {
        FetchShows(ins, q - o);
      } else {
        var p := if q < o then q else q - |ins|;
        assert SoundAt(c0, p);
        FetchShows(c0, p);
        if CanJump(c[q]) && Target(c0, p) <= |c0| {
          InsertBoundary(c0, o, ins, c, Target(c0, p));
        }
      }
    }
  }

  /** An insertion in front of an instruction keeps the code closed when the inserted jumps stay inside. */
  lemma SpliceClosed(c0: seq<Word>, o: nat, ins: seq<Word>, c: seq<Word>)
    requires Spliced(c0, o, ins, c) && Sound(c0) && Closed(c0) && Boundary(c0, o) && o < |c0| && Boundary(ins, |ins|)
    requires forall k | Boundary(ins, k) && k < |ins| && Fits(ins, k) && CanJump(ins[k]) :: Target(ins, k) + o < |c|
    ensures Closed(c)
  {
    hide BaseLength, ArgLength, KnownOp, Length;
    assert |c| == |c0| + |ins|;
    assert Boundary(c0, |c0|);
    InsertBoundary(c0, o, ins, c, |c0|);
    forall q | Boundary(c, q) && q < |c|
      ensures ClosedAt(c, q)
    {
      SplicedInstruction(c0, o, ins, c, q);
      FetchShows(c, q);
      if o <= q < o + |ins| {
        FetchShows(ins, q - o);
        InstructionEnds(ins, q - o, |ins|);
      } else {
        var p := if q < o then q else q - |ins|;
        assert ClosedAt(c0, p);
        FetchShows(c0, p);
      }
    }
  }

  lemma SpliceAll(c0: seq<Word>, o: nat, ins: seq<Word>, c: seq<Word>, ok: Instr -> bool)
    requires Spliced(c0, o, ins, c) && Sound(c0) && Boundary(c0, o) && Boundary(ins, |ins|) && All(c0, ok) && All(ins, ok)
    ensures All(c, ok)
  {
    hide BaseLength, ArgLength, KnownOp, Length;
    assert Boundary(c0, |c0|);
    forall q | Boundary(c, q) && q < |c|
      ensures Fits(c, q) && ok(Fetch(c, q).(target := 0))
    {
      SplicedInstruction(c0, o, ins, c, q);
      FetchShows(c, q);
      if o <= q < o + |ins| {
        assert Fetch(c, q).(target := 0) == Fetch(ins, q - o).(target := 0);
      } else {
        var p := if q < o then q else q - |ins|;
        assert Fetch(c, q).(target := 0) == Fetch(c0, p).(target := 0);
      }
    }
  }

  // ---------- sends and their marks ----------

  /** The same code, but some sends are marked or unmarked. */
  ghost predicate Renamed(c0: seq<Word>, c: seq<Word>) {
    |c| == |c0| && forall q | 0 <= q < |c| :: c[q] == c0[q] || (Boundary(c0, q) && MarkOnly(c0[q], c[q]))
  }

  predicate MarkOnly(a: Word, b: Word) {
    (a == OP_SEND || a == OP_INTERNAL_SEND) && (b == OP_SEND || b == OP_INTERNAL_SEND)
  }

  ghost predicate RenamedAt(c0: seq<Word>, c: seq<Word>, p: int)
    requires Fits(c0, p)
  {
    Fits(c, p) && Length(c, p) == Length(c0, p) && Fetch(c, p) == Fetch(c0, p).(op := c[p]) && (c[p] == c0[p] || MarkOnly(c0[p], c[p]))
  }

  lemma RenamedInstruction(c0: seq<Word>, c: seq<Word>, p: int)
    requires Renamed(c0, c) && Boundary(c0, p) && Fits(c0, p)
    ensures RenamedAt(c0, c, p)
  {
    var n := Length(c0, p);
    forall q | p < q < p + n
      ensures c[q] == c0[q]
    {
      if Boundary(c0, q) {
        InstructionEnds(c0, p, q);
      }
    }
    assert c[p + 1..p + n] == c0[p + 1..p + n];
  }

  lemma {:induction false} RenamedTiles(c0: seq<Word>, c: seq<Word>, a: int, b: int)
    requires Renamed(c0, c) && Sound(c0) && Boundary(c0, a)
    ensures Tiled(c0, a, b) <==> Tiled(c, a, b)
    decreases b - a
  {
    hide BaseLength, ArgLength, KnownOp;
    if 0 <= a < b <= |c0| {
      assert SoundAt(c0, a);
      RenamedInstruction(c0, c, a);
      InstructionEnds0(c0, a);
      RenamedTiles(c0, c, a + Length(c0, a), b);
    }
  }

  lemma RenamedSound(c0: seq<Word>, c: seq<Word>)
    requires Renamed(c0, c) && Sound(c0) && Closed(c0)
    ensures Sound(c) && Closed(c) && forall p :: Boundary(c, p) <==> Boundary(c0, p)
  {
    hide BaseLength, ArgLength, KnownOp, Length;
    forall p ensures Boundary(c, p) <==> Boundary(c0, p) { RenamedTiles(c0, c, 0, p); }
    forall p | Boundary(c, p) && p < |c|
      ensures SoundAt(c, p) && ClosedAt(c, p)
    {
      assert SoundAt(c0, p) && ClosedAt(c0, p);
      RenamedInstruction(c0, c, p);
      RenamedJump(c0, c, p);
      FetchShows(c0, p);
      FetchShows(c, p);
    }
  }

  lemma RenamedJump(c0: seq<Word>, c: seq<Word>, p: int)
    requires Renamed(c0, c) && Boundary(c0, p) && Fits(c0, p)
    ensures CanJump(c0[p]) ==> c[p] == c0[p] && c[p + JumpParameter(c0[p])] == c0[p + JumpParameter(c0[p])]
    ensures CanJump(c[p]) <==> CanJump(c0[p])
    ensures FallsThrough(c[p]) <==> FallsThrough(c0[p])
  {
    if CanJump(c0[p]) {
      var q := p + JumpParameter(c0[p]);
      if Boundary(c0, q) {
        InstructionEnds(c0, p, q);
      }
    }
  }

  /** Marking a send changes nothing that the machine does. */
  lemma RenamedStep(m: Machine, ctx: Context, ins: Instr, op: Word, next: int, regs: Registers, world: World)
    requires op == ins.op || MarkOnly(ins.op, op)
    ensures Step(m, ctx, ins.(op := op), next, regs, world) == Step(m, ctx, ins, next, regs, world)
  {
    if op != ins.op {
      var ins' := ins.(op := op);
      RenamedReads(ins, op, 0);
      assert Key(ins') == Key(ins);
    }
  }

  lemma {:induction false} RenamedReads(ins: Instr, op: Word, k: nat)
    requires MarkOnly(ins.op, op)
    ensures ReadOperands(ins.(op := op), k) == ReadOperands(ins, k)
    decreases |ins.args| - k
  {
    if k < |ins.args| {
      RenamedReads(ins, op, k + 1);
    }
  }

  lemma {:induction false} RenamedRun(m: Machine, ctx: Context, c0: seq<Word>, c: seq<Word>, s: State, k: nat)
    requires Renamed(c0, c) && Sound(c0) && Closed(c0) && Boundary(c0, s.pc) && s.pc < |c0|
    ensures Run(m, ctx, c, s, k) == Run(m, ctx, c0, s, k)
    decreases k
  {
    hide Step, BaseLength, ArgLength, KnownOp, Length, Fetch, CanJump, JumpParameter, Tiled, Boundary;
    if k > 0 {
      assert SoundAt(c0, s.pc) && ClosedAt(c0, s.pc);
      RenamedInstruction(c0, c, s.pc);
      var ins, next := Fetch(c0, s.pc), s.pc + Length(c0, s.pc);
      FetchShows(c0, s.pc);
      RenamedStep(m, ctx, ins, c[s.pc], next, s.regs, s.world);
      InstructionEnds0(c0, s.pc);
      StepMoves(m, ctx, ins, next, ins.target, next, s.regs, s.world);
      match Step(m, ctx, ins, next, s.regs, s.world)
      case Goto(t) => RenamedRun(m, ctx, c0, c, t, k - 1);
      case _ =>
    }
  }

  lemma RenamedSameEnds(m: Machine, ctx: Context, c0: seq<Word>, c: seq<Word>)
    requires Renamed(c0, c) && Sound(c0) && Closed(c0)
    ensures SameEnds(m, ctx, c0, c)
  {
    hide Sound, Closed, StepAt, Run, Renamed;
    ClosedStart(c0);
    forall regs, world, o
      ensures Ends(m, ctx, c0, State(0, regs, world), o) <==> Ends(m, ctx, c, State(0, regs, world), o)
    {
      forall k: nat ensures Run(m, ctx, c, State(0, regs, world), k) == Run(m, ctx, c0, State(0, regs, world), k) {
        RenamedRun(m, ctx, c0, c, State(0, regs, world), k);
      }
    }
  }

  lemma ClosedStart(c: seq<Word>)
    requires Closed(c)
    ensures Boundary(c, 0) && 0 < |c|
  {
    assert Tiled(c, 0, 0);
  }
}
