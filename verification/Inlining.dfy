/** Putting guarded code in front of a send changes no run of the caller. */
module Inlining {
  import opened Wrappers
  import opened Opcodes
  import opened CodeVectors
  import opened Execution
  import opened EditedCode
  import opened Rewriting
  import opened Renumbering

  predicate IsSend(op: Word) {
    op == OP_SEND || op == OP_INTERNAL_SEND
  }

  /** k steps lead from s to t. */
  ghost predicate Leads(m: Machine, ctx: Context, c: seq<Word>, s: State, k: nat, t: State)
    decreases k
  {
    if k == 0 then t == s
    else StepAt(m, ctx, c, s).Goto? && Leads(m, ctx, c, StepAt(m, ctx, c, s).state, k - 1, t)
  }

  lemma {:induction false} LeadsRun(m: Machine, ctx: Context, c: seq<Word>, s: State, k: nat, t: State, j: nat)
    requires Leads(m, ctx, c, s, k, t)
    ensures Run(m, ctx, c, s, k + j) == Run(m, ctx, c, t, j)
    decreases k
  {
    hide StepAt;
    if k > 0 {
      LeadsRun(m, ctx, c, StepAt(m, ctx, c, s).state, k - 1, t, j);
    }
  }

  lemma {:induction false} LeadsTrans(m: Machine, ctx: Context, c: seq<Word>, s: State, k: nat, t: State, j: nat, u: State)
    requires Leads(m, ctx, c, s, k, t) && Leads(m, ctx, c, t, j, u)
    ensures Leads(m, ctx, c, s, k + j, u)
    decreases k
  {
    hide StepAt;
    if k > 0 {
      LeadsTrans(m, ctx, c, StepAt(m, ctx, c, s).state, k - 1, t, j, u);
    }
  }

  /** A run that ends has made more steps than any that only lead on. */
  lemma LeadsBefore(m: Machine, ctx: Context, c: seq<Word>, s: State, k: nat, t: State, fuel: nat)
    requires Leads(m, ctx, c, s, k, t) && Run(m, ctx, c, s, fuel).Some?
    ensures k < fuel && Run(m, ctx, c, t, fuel - k) == Run(m, ctx, c, s, fuel)
  {
    hide StepAt, Leads;
    if fuel <= k {
      MoreFuel(m, ctx, c, s, fuel, k);
      LeadsRun(m, ctx, c, s, k, t, 0);
    } else {
      LeadsRun(m, ctx, c, s, k, t, fuel - k);
    }
  }

  /** The registers below n after the result register has been set to v. */
  ghost predicate ResultSet(regs: Registers, regs': Registers, n: int, result: int, v: Value) {
    Agree(regs[result := v], regs', n)
  }

  ghost predicate LeadsTo(m: Machine, ctx: Context, c: seq<Word>, s: State, k: nat, pc: int, regs: Registers, world: World) {
    0 < k && Leads(m, ctx, c, s, k, State(pc, regs, world))
  }

  /** From s control comes to `after`, and no register below n and nothing outside the frame has changed. */
  ghost predicate PassesOn(m: Machine, ctx: Context, c: seq<Word>, s: State, after: int, n: int) {
    exists k: nat, regs :: LeadsTo(m, ctx, c, s, k, after, regs, s.world) && Agree(s.regs, regs, n)
  }

  /** From s control comes to `after` with the result v in its register and the other registers below n unchanged. */
  ghost predicate Delivers(m: Machine, ctx: Context, c: seq<Word>, s: State, after: int, n: int, result: int, v: Value, world: World) {
    exists k: nat, regs :: LeadsTo(m, ctx, c, s, k, after, regs, world) && ResultSet(s.regs, regs, n, result, v)
  }

  /**
   * What guarded code at i, in front of the send ins, does: it goes on to the send with the caller's
   * registers untouched, or it does to them what the send would do and goes on behind the send.
   */
  ghost predicate BlockBehaves(m: Machine, ctx: Context, c: seq<Word>, i: int, size: int, ins: Instr, n: int, regs: Registers, world: World) {
    var s := State(i, regs, world);
    || PassesOn(m, ctx, c, s, i + size, n)
    || (match EffectOf(m, ctx, ins, regs, world)
        case Returned(v, w) => Delivers(m, ctx, c, s, i + size + 1 + |ins.args|, n, Arg(ins, 0), v, w)
        case Signalled(v, w) => Ends(m, ctx, c, s, Signal(v, w))
        case Never => forall o :: !Ends(m, ctx, c, s, o))
  }

  /** Where execution of the caller may be in the code with the block: at the block when it is at the send. */
  predicate SameSpot(i: int, size: int, p: int, p': int) {
    p' == (if p < i then p else p + size) || (p == i && p' == i)
  }

  /** A caller that the optimizer handles, with a send at i, and the same with guarded code in front of the send. */
  ghost predicate Site(ctx: Context, c0: seq<Word>, i: nat, block: seq<Word>, c: seq<Word>, n: int) {
    && Sound(c0) && Closed(c0) && All(c0, Within(0, n)) && ctx.inputs <= n
    && Spliced(c0, i, block, c) && 0 < |block|
    && Boundary(c0, i) && i < |c0| && Fits(c0, i) && IsSend(c0[i])
  }

  /** One step of the caller outside the block. */
  lemma SiteStep(m: Machine, ctx: Context, c0: seq<Word>, i: nat, block: seq<Word>, c: seq<Word>, n: int, p: int,
                 regs: Registers, regs': Registers, world: World)
    requires Site(ctx, c0, i, block, c, n) && Boundary(c0, p) && p < |c0| && Agree(regs, regs', n)
    ensures var p' := if p < i then p else p + |block|;
      match StepAt(m, ctx, c0, State(p, regs, world))
      case Goto(t) =>
        (var r := StepAt(m, ctx, c, State(p', regs', world));
         && r.Goto? && SameSpot(i, |block|, t.pc, r.state.pc) && r.state.world == t.world && Agree(t.regs, r.state.regs, n)
         && Boundary(c0, t.pc) && t.pc < |c0|)
      case r => StepAt(m, ctx, c, State(p', regs', world)) == r
  {
    hide BaseLength, ArgLength, KnownOp, Length, Step, All, AsksForContext, OffsetInstr, Site, Operands, RegistersWithin, Sound, Closed;
    var e := Inserting(i, |block|);
    SiteCode(ctx, c0, i, block, c, n);
    SiteInstruction(ctx, c0, i, block, c, n, p);
    var p' := e.Moved(p);
    var ins, next := Fetch(c0, p), p + Length(c0, p);
    SameIns(ins);
    assert Aligned(regs, regs', 0, n) by {
      forall x | 0 <= x < n ensures Get(regs, x) == Get(regs', x + 0) { assert Get(regs, x) == Get(regs', x); }
    }
    ShiftStep(m, ctx, ctx, ins, next, regs, regs', world, 0, n);
    StepStays(m, ctx, c0, State(p, regs, world));
    FetchShows(c, p');
    FetchShows(c0, p);
    var target' := e.MovedTarget(p, ins.target);
    StepMoves(m, ctx, ins, next, target', p' + Length(c0, p), regs', world);
    if p < i {
      InstructionEnds(c0, p, i);
    }
    AlignedAgree(Step(m, ctx, ins, next, regs, world), Step(m, ctx, ins, next, regs', world), regs', n);
  }

  lemma SameIns(ins: Instr)
    ensures OffsetInstr(ins, 0) == ins
  {
    hide IsRegisterOperand;
    assert OffsetInstr(ins, 0).args == ins.args;
  }

  lemma AlignedAgree(r: StepResult, r': StepResult, regs: Registers, n: int)
    requires StepsAligned(r, r', regs, 0, n)
    ensures r.Goto? ==> r'.Goto? && Agree(r.state.regs, r'.state.regs, n)
  {
    if r.Goto? {
      forall x | 0 <= x < n ensures Get(r.state.regs, x) == Get(r'.state.regs, x) {
        assert Get(r.state.regs, x) == Get(r'.state.regs, x + 0);
      }
    }
  }

  lemma SiteCode(ctx: Context, c0: seq<Word>, i: nat, block: seq<Word>, c: seq<Word>, n: int)
    requires Site(ctx, c0, i, block, c, n)
    ensures Sound(c0) && Closed(c0) && Boundary(c0, i) && i < |c0| && ctx.inputs <= n
  {
  }

  lemma SiteInstruction(ctx: Context, c0: seq<Word>, i: nat, block: seq<Word>, c: seq<Word>, n: int, p: int)
    requires Site(ctx, c0, i, block, c, n) && Boundary(c0, p) && p < |c0|
    ensures Fits(c0, p) && KnownOp(c0[p]) && BaseLength(c0[p]) <= |Fetch(c0, p).args| && RegistersWithin(Fetch(c0, p), 0, n)
    ensures var e := Inserting(i, |block|);
      Carried(c0, p, c, e.Moved(p), e.MovedTarget(p, Fetch(c0, p).target))
  {
    assert SoundAt(c0, p);
    hide BaseLength, IsRegisterOperand, AsksForContext, Closed;
    var ins := Fetch(c0, p).(target := 0);
    assert Within(0, n)(ins);
    assert Survives(c0, Inserting(i, |block|), p);
  }

  /** The send itself, as a step of the caller. */
  lemma SendStep(m: Machine, ctx: Context, c0: seq<Word>, i: nat, regs: Registers, world: World)
    requires Fits(c0, i) && IsSend(c0[i])
    ensures var ins := Fetch(c0, i);
      StepAt(m, ctx, c0, State(i, regs, world)) == Deliver(ins, i + Length(c0, i), regs, EffectOf(m, ctx, ins, regs, world))
      && DestOperand(ins.op) == 0 && Length(c0, i) == 1 + |ins.args| && !AsksForContext(ins.op)
  {
  }

  /** A send asks nothing of registers the caller does not own. */
  lemma SendAgrees(m: Machine, ctx: Context, c0: seq<Word>, i: nat, block: seq<Word>, c: seq<Word>, n: int,
                   regs: Registers, regs': Registers, world: World)
    requires Site(ctx, c0, i, block, c, n) && Agree(regs, regs', n)
    ensures EffectOf(m, ctx, Fetch(c0, i), regs, world) == EffectOf(m, ctx, Fetch(c0, i), regs', world)
    ensures 0 <= Arg(Fetch(c0, i), 0) < n
  {
    hide ArgLength, KnownOp, Length, All, AsksForContext, Step;
    SiteInstruction(ctx, c0, i, block, c, n, i);
    var ins := Fetch(c0, i);
    assert IsRegisterOperand(ins.op, 0);
    assert Aligned(regs, regs', 0, n) by {
      forall x | 0 <= x < n ensures Get(regs, x) == Get(regs', x + 0) { assert Get(regs, x) == Get(regs', x); }
    }
    SameIns(ins);
    ShiftedReads(ins, 0, n, regs, regs', 0);
  }

  /** Every run of the caller that ends, ends the same with the block in place. */
  lemma {:induction false} SiteForward(m: Machine, ctx: Context, c0: seq<Word>, i: nat, block: seq<Word>, c: seq<Word>, n: int,
                                       p: int, p': int, regs: Registers, regs': Registers, world: World, k: nat)
    requires Site(ctx, c0, i, block, c, n) && Boundary(c0, p) && p < |c0| && SameSpot(i, |block|, p, p') && Agree(regs, regs', n)
    requires forall r, w :: BlockBehaves(m, ctx, c, i, |block|, Fetch(c0, i), n, r, w)
    requires Run(m, ctx, c0, State(p, regs, world), k).Some?
    ensures Ends(m, ctx, c, State(p', regs', world), Run(m, ctx, c0, State(p, regs, world), k).value)
    decreases k, p' == i
  {
    hide StepAt, Site, EffectOf, Fetch, Fits, Length, Agree, Boundary;
    var s, s' := State(p, regs, world), State(p', regs', world);
    SiteFacts(ctx, c0, i, block, c, n);
    if p == i && p' == i {
      assert BlockBehaves(m, ctx, c, i, |block|, Fetch(c0, i), n, regs', world);
      SendStep(m, ctx, c0, i, regs, world);
      SendAgrees(m, ctx, c0, i, block, c, n, regs, regs', world);
      if PassesOn(m, ctx, c, s', i + |block|, n) {
        var after := i + |block|;
        var j: nat, r :| LeadsTo(m, ctx, c, s', j, after, r, world) && Agree(regs', r, n);
        AgreeTrans(regs, regs', r, n);
        SiteForward(m, ctx, c0, i, block, c, n, i, i + |block|, regs, r, world, k);
        LeadsEnds(m, ctx, c, s', j, State(i + |block|, r, world), Run(m, ctx, c0, s, k).value);
      } else {
        match EffectOf(m, ctx, Fetch(c0, i), regs, world)
        case Returned(v, w) =>
          var after, result := i + |block| + 1 + |Fetch(c0, i).args|, Arg(Fetch(c0, i), 0);
          var j: nat, r :| LeadsTo(m, ctx, c, s', j, after, r, w) && ResultSet(regs', r, n, result, v);
          var t := State(i + Length(c0, i), regs[Arg(Fetch(c0, i), 0) := v], w);
          assert StepAt(m, ctx, c0, s) == Goto(t);
          StepStays(m, ctx, c0, s);
          SetAgree(regs, regs', r, n, Arg(Fetch(c0, i), 0), v);
          SiteForward(m, ctx, c0, i, block, c, n, t.pc, t.pc + |block|, t.regs, r, w, k - 1);
          LeadsEnds(m, ctx, c, s', j, State(t.pc + |block|, r, w), Run(m, ctx, c0, s, k).value);
        case Signalled(v, w) =>
        case Never =>
      }
    } else {
      SiteStep(m, ctx, c0, i, block, c, n, p, regs, regs', world);
      match StepAt(m, ctx, c0, s)
      case Goto(t) =>
        var t' := StepAt(m, ctx, c, s').state;
        SiteForward(m, ctx, c0, i, block, c, n, t.pc, t'.pc, t.regs, t'.regs, t.world, k - 1);
        assert Leads(m, ctx, c, t', 0, t');
        LeadsEnds(m, ctx, c, s', 1, t', Run(m, ctx, c0, s, k).value);
      case Done(o) =>
        assert Run(m, ctx, c, s', 1) == Some(o);
      case Stuck =>
    }
  }

  lemma SiteFacts(ctx: Context, c0: seq<Word>, i: nat, block: seq<Word>, c: seq<Word>, n: int)
    requires Site(ctx, c0, i, block, c, n)
    ensures Sound(c0) && Closed(c0) && Fits(c0, i) && IsSend(c0[i]) && Boundary(c0, i) && i < |c0| && 0 < |block|
    ensures Length(c0, i) == 1 + |Fetch(c0, i).args| >= 1
  {
  }

  lemma LeadsEnds(m: Machine, ctx: Context, c: seq<Word>, s: State, k: nat, t: State, o: Outcome)
    requires Leads(m, ctx, c, s, k, t) && Ends(m, ctx, c, t, o)
    ensures Ends(m, ctx, c, s, o)
  {
    var j: nat :| Run(m, ctx, c, t, j) == Some(o);
    LeadsRun(m, ctx, c, s, k, t, j);
  }

  lemma AgreeTrans(a: Registers, b: Registers, c: Registers, n: int)
    requires Agree(a, b, n) && Agree(b, c, n)
    ensures Agree(a, c, n)
  {
    forall x | 0 <= x < n ensures Get(a, x) == Get(c, x) { assert Get(a, x) == Get(b, x); }
  }

  lemma SetAgree(regs: Registers, regs': Registers, r: Registers, n: int, x: int, v: Value)
    requires Agree(regs, regs', n) && ResultSet(regs', r, n, x, v)
    ensures Agree(regs[x := v], r, n)
  {
    forall y | 0 <= y < n ensures Get(regs[x := v], y) == Get(r, y) {
      assert Get(regs'[x := v], y) == Get(r, y) && Get(regs, y) == Get(regs', y);
    }
  }

  /** And the code with the block ends only as the caller would. */
  lemma {:induction false} SiteBackward(m: Machine, ctx: Context, c0: seq<Word>, i: nat, block: seq<Word>, c: seq<Word>, n: int,
                                        p: int, p': int, regs: Registers, regs': Registers, world: World, k: nat)
    requires Site(ctx, c0, i, block, c, n) && Boundary(c0, p) && p < |c0| && SameSpot(i, |block|, p, p') && Agree(regs, regs', n)
    requires forall r, w :: BlockBehaves(m, ctx, c, i, |block|, Fetch(c0, i), n, r, w)
    requires Run(m, ctx, c, State(p', regs', world), k).Some?
    ensures Ends(m, ctx, c0, State(p, regs, world), Run(m, ctx, c, State(p', regs', world), k).value)
    decreases k
  {
    hide StepAt, Site, EffectOf, Fetch, Fits, Length, Agree, Boundary;
    var s, s' := State(p, regs, world), State(p', regs', world);
    var o := Run(m, ctx, c, s', k).value;
    SiteFacts(ctx, c0, i, block, c, n);
    if p == i && p' == i {
      assert BlockBehaves(m, ctx, c, i, |block|, Fetch(c0, i), n, regs', world);
      SendStep(m, ctx, c0, i, regs, world);
      SendAgrees(m, ctx, c0, i, block, c, n, regs, regs', world);
      if PassesOn(m, ctx, c, s', i + |block|, n) {
        var after := i + |block|;
        var j: nat, r :| LeadsTo(m, ctx, c, s', j, after, r, world) && Agree(regs', r, n);
        AgreeTrans(regs, regs', r, n);
        LeadsBefore(m, ctx, c, s', j, State(i + |block|, r, world), k);
        SiteBackward(m, ctx, c0, i, block, c, n, i, i + |block|, regs, r, world, k - j);
      } else {
        match EffectOf(m, ctx, Fetch(c0, i), regs, world)
        case Returned(v, w) =>
          var after, result := i + |block| + 1 + |Fetch(c0, i).args|, Arg(Fetch(c0, i), 0);
          var j: nat, r :| LeadsTo(m, ctx, c, s', j, after, r, w) && ResultSet(regs', r, n, result, v);
          var t := State(i + Length(c0, i), regs[Arg(Fetch(c0, i), 0) := v], w);
          assert StepAt(m, ctx, c0, s) == Goto(t);
          StepStays(m, ctx, c0, s);
          SetAgree(regs, regs', r, n, Arg(Fetch(c0, i), 0), v);
          LeadsBefore(m, ctx, c, s', j, State(t.pc + |block|, r, w), k);
          SiteBackward(m, ctx, c0, i, block, c, n, t.pc, t.pc + |block|, t.regs, r, w, k - j);
          assert Leads(m, ctx, c0, t, 0, t);
          LeadsEnds(m, ctx, c0, s, 1, t, o);
        case Signalled(v, w) =>
          var j: nat :| Run(m, ctx, c, s', j) == Some(Signal(v, w));
          MoreFuel(m, ctx, c, s', j, j + k);
          MoreFuel(m, ctx, c, s', k, j + k);
          assert Run(m, ctx, c0, s, 1) == Some(o);
        case Never =>
          assert Ends(m, ctx, c, s', o);
      }
    } else {
      SiteStep(m, ctx, c0, i, block, c, n, p, regs, regs', world);
      match StepAt(m, ctx, c0, s)
      case Goto(t) =>
        var t' := StepAt(m, ctx, c, s').state;
        SiteBackward(m, ctx, c0, i, block, c, n, t.pc, t'.pc, t.regs, t'.regs, t.world, k - 1);
        assert Leads(m, ctx, c0, t, 0, t);
        LeadsEnds(m, ctx, c0, s, 1, t, o);
      case Done(o') =>
        assert Run(m, ctx, c0, s, 1) == Some(o');
      case Stuck =>
    }
  }

  /** Guarded code that behaves like the send it stands in front of changes no run of the caller. */
  lemma BlockSameRuns(m: Machine, ctx: Context, c0: seq<Word>, i: nat, block: seq<Word>, c: seq<Word>, n: int)
    requires Site(ctx, c0, i, block, c, n)
    requires forall r, w :: BlockBehaves(m, ctx, c, i, |block|, Fetch(c0, i), n, r, w)
    ensures SameRuns(m, ctx, c0, c, n)
  {
    hide StepAt, Site, Run, BlockBehaves, Fetch, Agree;
    SiteFacts(ctx, c0, i, block, c, n);
    assert Boundary(c0, 0) && SameSpot(i, |block|, 0, 0);
    forall regs, regs', world, o | Agree(regs, regs', n)
      ensures Ends(m, ctx, c0, State(0, regs, world), o) <==> Ends(m, ctx, c, State(0, regs', world), o)
    {
      if Ends(m, ctx, c0, State(0, regs, world), o) {
        var k: nat :| Run(m, ctx, c0, State(0, regs, world), k) == Some(o);
        SiteForward(m, ctx, c0, i, block, c, n, 0, 0, regs, regs', world, k);
      }
      if Ends(m, ctx, c, State(0, regs', world), o) {
        var k: nat :| Run(m, ctx, c, State(0, regs', world), k) == Some(o);
        SiteBackward(m, ctx, c0, i, block, c, n, 0, 0, regs, regs', world, k);
      }
    }
  }
}
