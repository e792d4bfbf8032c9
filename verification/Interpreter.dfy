/** The interpreter's registers and stack, and the operations that push and cut activations. */
module Interpreters {
  import opened Wrappers
  import opened Activations
  import opened TableSizes

  /** What applying a closure needs to know of its method. */
  datatype Shape = Shape(heapAllocate: bool, inputs: nat, locals: nat, registers: nat)

  /** How a return went on: it started an ensure handler, or it cut the stack. */
  datatype Returned = NotLive | Exited | Started | Cut

  /** The local variables of a new frame: the arguments and then nil, when they are on the stack at all; registers hold anything. */
  ghost predicate InitialRegs(shape: Shape, args: seq<Cell>, nil: Cell, regs: seq<Cell>) {
    && |regs| == (if shape.heapAllocate then 0 else shape.locals) + shape.registers
    && (!shape.heapAllocate && |args| <= shape.locals ==>
          regs[..|args|] == args && forall k | |args| <= k < shape.locals :: regs[k] == nil)
  }

  class Interpreter {
    var stack: array<Cell>
    var stackPointer: nat
    var framePointer: nat
    var codePointer: int
    var ensureHandlers: int
    var closure: Cell
    var lexicalContext: Cell
    const nil: Cell
    const ensureMarker: Cell
    const shapeOf: Cell -> Shape
    /** The activations that the array holds. */
    ghost var frames: seq<Frame>

    ghost predicate Laid()
      reads this, stack
    {
      && 0 < stack.Length && stackPointer <= stack.Length
      && stack[..stackPointer] == Flat(frames) && frames != [] && WellFormed(frames)
      && framePointer == Fp(frames) && ensureHandlers == Head(frames)
    }

    ghost predicate Valid()
      reads this, stack
    {
      Laid() && closure == Last(frames).closure && lexicalContext == Last(frames).context
    }

    /** interpreter_grow_stack: the stack's size doubles until it is at least the minimum. */
    method GrowStack(minimum: nat)
      requires 0 < stack.Length && stackPointer <= stack.Length
      modifies this`stack
      ensures fresh(stack) && minimum <= stack.Length
      ensures exists k: nat | 1 <= k :: stack.Length == old(stack.Length) * Pow2(k) && (k == 1 || old(stack.Length) * Pow2(k - 1) < minimum)
      ensures stack[..stackPointer] == old(stack[..stackPointer])
      ensures forall k | stackPointer <= k < stack.Length :: stack[k] == nil
    {
      var stackSize := 2 * stack.Length;
      ghost var k: nat := 1;
      assert Pow2(0) == 1;
      while stackSize < minimum
        invariant 1 <= k && stackSize == stack.Length * Pow2(k) && stackSize > 0 && (k == 1 || stack.Length * Pow2(k - 1) < minimum)
        decreases minimum - stackSize
      {
        stackSize, k := 2 * stackSize, k + 1;
        assert stack.Length * (2 * Pow2(k - 1)) == 2 * (stack.Length * Pow2(k - 1));
      }
      var newStack := new Cell[stackSize](i => nil);
      forall i | 0 <= i < stackPointer {
        newStack[i] := stack[i];
      }
      stack := newStack;
    }

    /** interpreter_stack_allocate. */
    method StackAllocate(n: nat)
      requires 0 < stack.Length && stackPointer <= stack.Length
      modifies this`stack, this`stackPointer
      ensures stackPointer == old(stackPointer) + n <= stack.Length && 0 < stack.Length
      ensures stack[..old(stackPointer)] == old(stack[..stackPointer])
      ensures if old(stackPointer) + n <= old(stack.Length) then stack == old(stack) else fresh(stack)
    {
      if stackPointer + n > stack.Length {
        GrowStack(stackPointer + n);
      }
      stackPointer := stackPointer + n;
    }

    /** interpreter_stack_push. */
    method StackPush(value: Cell)
      requires 0 < stack.Length && stackPointer <= stack.Length
      modifies this`stack, this`stackPointer, stack
      ensures stackPointer == old(stackPointer) + 1 <= stack.Length && 0 < stack.Length
      ensures stack[..stackPointer] == old(stack[..stackPointer]) + [value]
      ensures if old(stackPointer < stack.Length) then stack == old(stack) else fresh(stack)
    {
      if stackPointer == stack.Length {
        GrowStack(0);
      }
      stack[stackPointer] := value;
      stackPointer := stackPointer + 1;
    }

    /** A store into a register of the running activation. */
    method SetRegister(r: nat, value: Cell)
      requires Valid() && r < |Last(frames).regs|
      modifies this`frames, stack
      ensures Valid() && frames == SetReg(old(frames), Dest(|old(frames)| - 1, r), value)
    {
      hide Flat, Fp, Head, Len, RegPos;
      ghost var d := Dest(|frames| - 1, r);
      SetRegFlat(frames, d, value);
      RegPosTop(frames, r);
      stack[framePointer + r] := value;
      StoredWord(stack, stackPointer, framePointer + r, old(stack[..stackPointer]), value);
      frames := SetReg(frames, d, value);
      SetRegWellFormed(old(frames), d, value);
    }

    /** The words of a new frame are written into the room that was allocated for it. */
    method FillFrame(fp: nat, header: seq<Cell>, args: seq<Cell>, nils: nat, copy: bool)
      requires |header| == FRAME_SIZE <= fp <= stackPointer <= stack.Length
      requires copy ==> fp + |args| + nils <= stackPointer
      modifies stack
      ensures stack[..fp - FRAME_SIZE] == old(stack[..fp - FRAME_SIZE]) && stack[fp - FRAME_SIZE..fp] == header
      ensures copy ==> stack[fp..fp + |args|] == args && forall k | fp + |args| <= k < fp + |args| + nils :: stack[k] == nil
    {
      if copy {
        forall j | 0 <= j < |args| {
          stack[fp + j] := args[j];
        }
      }
      forall j | 0 <= j < FRAME_SIZE {
        stack[fp - FRAME_SIZE + j] := header[j];
      }
      if copy {
        forall j | |args| <= j < |args| + nils {
          stack[fp + j] := nil;
        }
      }
    }

    /** interpreter_apply_to_arity_with_optionals, for the number of inputs the method takes and no optional arguments. */
    method ApplyTo(c: Cell, args: seq<Cell>, context: Cell, resultStackPointer: nat, ghost dest: Dest)
      requires Laid() && |args| == shapeOf(c).inputs <= shapeOf(c).locals
      requires DestOk(frames, dest, |frames|) && resultStackPointer == RegPos(frames, dest)
      modifies this, stack
      ensures Valid() && codePointer == 0 && (stack == old(stack) || fresh(stack))
      ensures frames == old(frames) + [Frame(c, if shapeOf(c).heapAllocate then context else nil, old(codePointer), dest, Last(frames).regs, Nothing)]
      ensures InitialRegs(shapeOf(c), args, nil, Last(frames).regs)
    {
      hide Flat, Fp, Head, Len, RegPos, WellFormed, Header, InitialRegs;
      var shape := shapeOf(c);
      var newFp := stackPointer + FRAME_SIZE;
      var beforeCallStackPointer := stackPointer;
      var newContext := if shape.heapAllocate then context else nil;
      StackAllocate(FRAME_SIZE + (if shape.heapAllocate then 0 else shape.locals) + shape.registers);
      var header := [Int(beforeCallStackPointer), Int(resultStackPointer), Int(codePointer), c, newContext, Int(framePointer)];
      FillFrame(newFp, header, args, shape.locals - |args|, !shape.heapAllocate);
      ghost var f := Frame(c, newContext, codePointer, dest, stack[newFp..stackPointer], Nothing);
      NewFrame(frames, f);
      HeaderIs(frames, f);
      ThreeParts(stack, beforeCallStackPointer, newFp, stackPointer);
      framePointer := newFp;
      closure := c;
      lexicalContext := newContext;
      codePointer := 0;
      frames := frames + [f];
      InitialFrame(stack, newFp, stackPointer, shape, args, nil);
    }

    /** prim_ensure: applies the body and puts the handler at the head of the chain, above the body's registers. */
    method Ensure(body: Cell, handler: Cell, context: Cell, resultStackPointer: nat, ghost dest: Dest)
      requires Valid() && shapeOf(body).inputs == 0
      requires DestOk(frames, dest, |frames|) && resultStackPointer == RegPos(frames, dest)
      modifies this, stack
      ensures Valid() && codePointer == 0 && (stack == old(stack) || fresh(stack))
      ensures frames == old(frames) + [Frame(body, if shapeOf(body).heapAllocate then context else nil, old(codePointer), dest,
                                             Last(frames).regs, Armed(handler))]
      ensures InitialRegs(shapeOf(body), [], nil, Last(frames).regs)
    {
      hide Flat, Fp, Head, Len, RegPos, WellFormed;
      ApplyTo(body, [], context, resultStackPointer, dest);
      ghost var f := Last(frames).(ensure := Armed(handler));
      HandlerOnTop(frames, handler);
      StackPush(Int(ensureHandlers));
      StackPush(handler);
      ensureHandlers := stackPointer - 2;
      frames := Front(frames) + [f];
    }

    /** Six words are pushed, one after the other. */
    method PushSix(a: Cell, b: Cell, c: Cell, d: Cell, e: Cell, f: Cell)
      requires 0 < stack.Length && stackPointer <= stack.Length
      modifies this`stack, this`stackPointer, stack
      ensures stackPointer == old(stackPointer) + 6 <= stack.Length && 0 < stack.Length
      ensures stack[..stackPointer] == old(stack[..stackPointer]) + [a] + [b] + [c] + [d] + [e] + [f]
      ensures stack == old(stack) || fresh(stack)
    {
      StackPush(a);
      StackPush(b);
      StackPush(c);
      StackPush(d);
      StackPush(e);
      StackPush(f);
    }

    /** The six words of a frame that only resumes: it runs the ensure marker and goes on at the return instruction. */
    method PushMarker(resultStackPointer: nat, prevCodePointer: int, ghost dest: Dest)
      requires Laid() && DestOk(frames, dest, |frames|) && resultStackPointer == RegPos(frames, dest)
      modifies this`stack, this`stackPointer, this`codePointer, this`framePointer, this`frames, stack
      ensures Laid() && codePointer == 0 && (stack == old(stack) || fresh(stack))
      ensures frames == old(frames) + [Frame(ensureMarker, nil, prevCodePointer, dest, [], Nothing)]
    {
      hide Flat, Fp, Head, Len, RegPos, WellFormed, Header;
      ghost var f, low := Frame(ensureMarker, nil, prevCodePointer, dest, [], Nothing), stack[..stackPointer];
      NewFrame(frames, f);
      FlatLength(frames);
      SixWords(low, frames, f);
      PushSix(Int(stackPointer), Int(resultStackPointer), Int(prevCodePointer), ensureMarker, nil, Int(framePointer));
      codePointer := 0;
      framePointer := stackPointer;
      frames := frames + [f];
    }

    /** interpreter_return_result: returns from the running activation, or from the one of a lexically enclosing context. */
    method ReturnResult(contextDepth: nat, targetContext: Cell, targetFramePointer: nat, result: Option<Cell>, prevCodePointer: int,
                        handlerContext: Cell, ghost t: nat) returns (r: Returned)
      requires Valid() && 0 < t < |frames|
      requires contextDepth == 0 ==> t == |frames| - 1
      requires contextDepth > 0 ==> targetFramePointer == Fp(frames[..t + 1]) && targetContext == frames[t].context
      requires forall j | t <= j < |frames| && frames[j].ensure.Armed? :: shapeOf(frames[j].ensure.handler).inputs == 0
      modifies this, stack
      ensures Valid() && (stack == old(stack) || fresh(stack))
      ensures r == if old(AnyArmed(frames, t)) then Started else Cut
      ensures r == Started ==> HandlerStarted(this, Stored(old(frames), t, result), t, prevCodePointer, handlerContext, frames) && codePointer == 0
      ensures r == Cut ==> frames == Stored(old(frames), t, result)[..t] && codePointer == old(frames[t].cp)
    {
      hide Flat, Fp, Head, Len, RegPos, WellFormed, AnyArmed, HandlerStarted, Header;
      HeaderAt(frames, t);
      TargetFp(frames, t);
      HeaderWords(stack[..stackPointer], Len(frames[..t]), frames[..t], frames[t]);
      DestAt(frames, t);
      var fp: nat := framePointer;
      if contextDepth > 0 {
        fp := targetFramePointer;
        if fp > stackPointer || stack[fp - 2] != targetContext {
          return NotLive;
        }
      }
      var resultStackPointer := CellPos(stack[fp - 5]);
      StoreResult(resultStackPointer, result, t);
      HeadAbove(frames, t);
      StoredArmed(old(frames), t, result);
      HeaderAt(frames, t);
      if fp <= ensureHandlers {
        StartHandler(t, resultStackPointer, prevCodePointer, handlerContext);
        return Started;
      }
      r := CutTo(fp, t);
    }

    /** The result is stored before any handler runs. */
    method StoreResult(resultStackPointer: nat, result: Option<Cell>, ghost t: nat)
      requires Valid() && 0 < t < |frames| && resultStackPointer == RegPos(frames, frames[t].dest)
      modifies this`frames, stack
      ensures Valid() && frames == Stored(old(frames), t, result)
      ensures Fp(frames[..t + 1]) == Fp(old(frames)[..t + 1]) && RegPos(frames, frames[t].dest) == resultStackPointer
    {
      hide Flat, Fp, Head, Len, RegPos, WellFormed;
      DestAt(frames, t);
      if result.Some? {
        SetRegFlat(frames, frames[t].dest, result.value);
        stack[resultStackPointer] := result.value;
        StoredWord(stack, stackPointer, resultStackPointer, old(stack[..stackPointer]), result.value);
        frames := SetReg(frames, frames[t].dest, result.value);
        SetRegWellFormed(old(frames), old(frames[t].dest), result.value);
        SetRegPlaces(old(frames), old(frames[t].dest), result.value, t);
      }
    }

    /** The innermost handler leaves the chain and runs on top of everything, above a frame that resumes. */
    method StartHandler(ghost t: nat, resultStackPointer: nat, prevCodePointer: int, context: Cell)
      requires Valid() && 0 < t < |frames| && AnyArmed(frames, t) && resultStackPointer == RegPos(frames, frames[t].dest)
      requires forall j | t <= j < |frames| && frames[j].ensure.Armed? :: shapeOf(frames[j].ensure.handler).inputs == 0
      modifies this, stack
      ensures Valid() && codePointer == 0 && (stack == old(stack) || fresh(stack))
      ensures HandlerStarted(this, old(frames), t, prevCodePointer, context, frames)
    {
      hide Flat, Fp, Head, Len, RegPos;
      InnermostAbove(frames, t);
      HeadWords(frames);
      SpendFlat(frames);
      ghost var j, dest := Innermost(frames), frames[t].dest;
      SpendWellFormed(frames, j);
      var ensureHandler := stack[ensureHandlers + 1];
      assert ensureHandler == Flat(frames)[ensureHandlers + 1];
      assert stack[ensureHandlers] == Flat(frames)[ensureHandlers];
      ensureHandlers := CellPos(stack[ensureHandlers]);
      frames := Spend(frames, j);
      PushMarker(resultStackPointer, prevCodePointer, dest);
      RegPosLow(Spend(old(frames), j), frames, dest);
      ApplyTo(ensureHandler, [], context, resultStackPointer, dest);
    }

    /** The frames from t on go away and the interpreter is as it was before the call that made frame t. */
    method CutTo(fp: nat, ghost t: nat) returns (r: Returned)
      requires Valid() && 0 < t < |frames| && fp == Fp(frames[..t + 1]) && !AnyArmed(frames, t)
      modifies this`stackPointer, this`framePointer, this`codePointer, this`lexicalContext, this`closure, this`frames
      ensures r == Cut && Valid() && frames == old(frames)[..t] && codePointer == old(frames[t].cp)
    {
      hide Flat, Fp, Head, Len, RegPos, WellFormed, AnyArmed, Header, Front;
      ghost var fs, words := frames, stack[..stackPointer];
      FlatPrefix(fs, t);
      HeadCut(fs, t);
      CallerFrame(fs, t);
      FrameWords(fs, t);
      CallerBase(fs, t);
      FrameWords(fs, t - 1);
      stackPointer := CellPos(stack[fp - 6]);
      framePointer := CellPos(stack[fp - 1]);
      if framePointer < FRAME_SIZE {
        return Exited;
      }
      codePointer := CellPos(stack[fp - 4]);
      lexicalContext := stack[framePointer - 2];
      closure := stack[framePointer - 3];
      frames := frames[..t];
      assert stack[..stackPointer] == words[..stackPointer];
      r := Cut;
    }
  }

  lemma CallerBase(fs: seq<Frame>, t: nat)
    requires 0 < t < |fs|
    ensures fs[..t - 1 + 1] == fs[..t] && FRAME_SIZE <= Fp(fs[..t]) <= Len(fs[..t])
  {
    assert Front(fs[..t]) == fs[..t - 1];
  }

  /** The header words of frame k, counted from its frame pointer. */
  lemma FrameWords(fs: seq<Frame>, k: nat)
    requires k < |fs|
    ensures var fp := Fp(fs[..k + 1]); var words := Flat(fs);
      && fp == Len(fs[..k]) + FRAME_SIZE <= |words|
      && words[fp - 6] == Int(Len(fs[..k])) && words[fp - 5] == Int(RegPos(fs[..k], fs[k].dest)) && words[fp - 4] == Int(fs[k].cp)
      && words[fp - 3] == fs[k].closure && words[fp - 2] == fs[k].context && words[fp - 1] == Int(Fp(fs[..k]))
  {
    hide Flat, Fp, Head, Len, RegPos, Header;
    HeaderAt(fs, k);
    HeaderWords(Flat(fs), Len(fs[..k]), fs[..k], fs[k]);
  }

  /** object_to_smallint. */
  function CellPos(c: Cell): int {
    match c
    case Int(v) => v
    case Obj(id) => id
  }

  /** The frames with the result of frame t's activation in place. */
  function Stored(fs: seq<Frame>, t: nat, result: Option<Cell>): seq<Frame>
    requires t < |fs|
  {
    if result.Some? && DestOk(fs, fs[t].dest, |fs|) then SetReg(fs, fs[t].dest, result.value) else fs
  }

  /** The innermost armed handler has been started: it is spent, and on top are a frame that resumes and the handler's. */
  ghost predicate HandlerStarted(i: Interpreter, fs: seq<Frame>, t: nat, prevCodePointer: int, context: Cell, gs: seq<Frame>)
    requires t < |fs|
  {
    && AnyArmed(fs, 0) && Innermost(fs) >= t && gs != []
    && var j := Innermost(fs);
       var h := fs[j].ensure.handler;
       && gs == Spend(fs, j) + [Frame(i.ensureMarker, i.nil, prevCodePointer, fs[t].dest, [], Nothing),
                                Frame(h, if i.shapeOf(h).heapAllocate then context else i.nil, 0, fs[t].dest, Last(gs).regs, Nothing)]
       && InitialRegs(i.shapeOf(h), [], i.nil, Last(gs).regs)
  }

  // ---------- words and places ----------

  lemma StoredWord(stack: array<Cell>, n: nat, p: nat, before: seq<Cell>, v: Cell)
    requires p < n <= stack.Length && |before| == n && stack[p] == v
    requires forall k | 0 <= k < n && k != p :: stack[k] == before[k]
    ensures stack[..n] == before[p := v]
  {
  }

  lemma RegPosTop(fs: seq<Frame>, r: nat)
    requires fs != []
    ensures RegPos(fs, Dest(|fs| - 1, r)) == Fp(fs) + r
  {
    assert fs[..|fs|] == fs;
  }

  lemma SetRegWellFormed(fs: seq<Frame>, d: Dest, v: Cell)
    requires WellFormed(fs) && DestOk(fs, d, |fs|)
    ensures WellFormed(SetReg(fs, d, v))
  {
    var gs := SetReg(fs, d, v);
    forall k | 0 < k < |gs| ensures DestOk(gs, gs[k].dest, k) {
      assert DestOk(fs, fs[k].dest, k);
    }
  }

  /** A new frame's words, above those of the others. */
  lemma NewFrame(fs: seq<Frame>, f: Frame)
    requires WellFormed(fs) && DestOk(fs, f.dest, |fs|) && f.ensure.Nothing?
    ensures Flat(fs + [f]) == Flat(fs) + Header(fs, f) + f.regs
    ensures Fp(fs + [f]) == Len(fs) + FRAME_SIZE && Head(fs + [f]) == Head(fs) && WellFormed(fs + [f])
  {
    hide Flat, Len, Fp, Head, Header, RegPos;
    var gs := fs + [f];
    assert Front(gs) == fs && Last(gs) == f;
    TopFrame(gs);
    assert f.regs + Pair(f.ensure, Head(fs)) == f.regs;
    hide *;
    assert WellFormed(gs) by { MoreWellFormed(fs, f); }
  }

  lemma MoreWellFormed(fs: seq<Frame>, f: Frame)
    requires WellFormed(fs) && DestOk(fs, f.dest, |fs|)
    ensures WellFormed(fs + [f])
  {
    forall k | 0 < k < |fs + [f]| ensures DestOk(fs + [f], (fs + [f])[k].dest, k) {
      assert k < |fs| ==> DestOk(fs, fs[k].dest, k);
    }
  }

  lemma SixWords(low: seq<Cell>, fs: seq<Frame>, f: Frame)
    ensures low + [Int(Len(fs))] + [Int(RegPos(fs, f.dest))] + [Int(f.cp)] + [f.closure] + [f.context] + [Int(Fp(fs))]
         == low + Header(fs, f) + []
  {
    hide Len, RegPos, Fp;
  }

  lemma HeaderIs(fs: seq<Frame>, f: Frame)
    ensures Header(fs, f) == [Int(Len(fs)), Int(RegPos(fs, f.dest)), Int(f.cp), f.closure, f.context, Int(Fp(fs))]
  {
  }

  lemma ThreeParts(stack: array<Cell>, a: nat, b: nat, c: nat)
    requires a <= b <= c <= stack.Length
    ensures stack[..c] == stack[..a] + stack[a..b] + stack[b..c]
  {
  }

  lemma InitialFrame(stack: array<Cell>, fp: nat, sp: nat, shape: Shape, args: seq<Cell>, nil: Cell)
    requires fp <= sp <= stack.Length && sp - fp == (if shape.heapAllocate then 0 else shape.locals) + shape.registers
    requires |args| <= shape.locals
    requires !shape.heapAllocate ==> stack[fp..fp + |args|] == args && forall k | fp + |args| <= k < fp + shape.locals :: stack[k] == nil
    ensures InitialRegs(shape, args, nil, stack[fp..sp])
  {
    var regs := stack[fp..sp];
    if !shape.heapAllocate {
      assert regs[..|args|] == stack[fp..fp + |args|];
      forall k | |args| <= k < shape.locals ensures regs[k] == nil {
        assert stack[fp + k] == nil;
      }
    }
  }

  /** Arming the top frame's handler puts its two words above the frame. */
  lemma HandlerOnTop(fs: seq<Frame>, handler: Cell)
    requires fs != [] && WellFormed(fs) && Last(fs).ensure.Nothing?
    ensures var gs := Front(fs) + [Last(fs).(ensure := Armed(handler))];
      && Flat(gs) == Flat(fs) + [Int(Head(fs))] + [handler] && Fp(gs) == Fp(fs) && Head(gs) == |Flat(fs)| && WellFormed(gs)
  {
    hide Flat, Len, Fp, Head, Header, Pair, RegPos;
    var gs := Front(fs) + [Last(fs).(ensure := Armed(handler))];
    assert Front(gs) == Front(fs);
    TopFrame(fs);
    TopFrame(gs);
    SameLengths(Front(fs), Front(gs));
    SameHeader(Front(fs), Front(gs), Last(fs), Last(gs));
    PairWords(handler, Head(Front(fs)));
    AppendPair(Flat(Front(fs)), Header(Front(fs), Last(fs)), Last(fs).regs, [Int(Head(fs)), handler]);
    FlatLength(fs);
    hide WellFormed;
    assert WellFormed(gs) by { ArmedWellFormed(fs, gs); }
  }

  lemma FlatLength(fs: seq<Frame>)
    ensures |Flat(fs)| == Len(fs)
  {
  }

  lemma ArmedWellFormed(fs: seq<Frame>, gs: seq<Frame>)
    requires WellFormed(fs) && |fs| == |gs| && forall k | 0 <= k < |fs| :: gs[k] == fs[k].(ensure := gs[k].ensure)
    ensures WellFormed(gs)
  {
    forall k | 0 < k < |gs| ensures DestOk(gs, gs[k].dest, k) {
      assert DestOk(fs, fs[k].dest, k);
    }
  }

  lemma PairWords(handler: Cell, head: int)
    ensures Pair(Nothing, head) == [] && Pair(Armed(handler), head) == [Int(head), handler]
  {
  }

  lemma AppendPair(a: seq<Cell>, b: seq<Cell>, c: seq<Cell>, d: seq<Cell>)
    requires |d| == 2
    ensures a + (b + (c + d)) == a + (b + (c + [])) + [d[0]] + [d[1]]
  {
  }

  /** The words of a header, one by one. */
  lemma HeaderWords(words: seq<Cell>, b: nat, low: seq<Frame>, f: Frame)
    requires b + FRAME_SIZE <= |words| && words[b..b + FRAME_SIZE] == Header(low, f)
    ensures words[b] == Int(Len(low)) && words[b + 1] == Int(RegPos(low, f.dest)) && words[b + 2] == Int(f.cp)
    ensures words[b + 3] == f.closure && words[b + 4] == f.context && words[b + 5] == Int(Fp(low))
  {
    var h := words[b..b + FRAME_SIZE];
    assert h[0] == words[b] && h[1] == words[b + 1] && h[2] == words[b + 2] && h[3] == words[b + 3] && h[4] == words[b + 4] && h[5] == words[b + 5];
  }

  lemma TargetFp(fs: seq<Frame>, t: nat)
    requires t < |fs|
    ensures Fp(fs[..t + 1]) == Len(fs[..t]) + FRAME_SIZE && Fp(fs[..t + 1]) <= Len(fs) && Fp(fs) <= Len(fs)
    ensures t == |fs| - 1 ==> Fp(fs[..t + 1]) == Fp(fs)
    ensures forall d: Dest | d.frame < t :: RegPos(fs[..t], d) == RegPos(fs, d)
  {
    hide Len, Fp, RegPos;
    var g := fs[..t + 1];
    assert Front(g) == fs[..t] && fs[..|fs|] == fs;
    TopLengths(g);
    TopLengths(fs);
    LenMonotone(fs, t);
    forall d: Dest | d.frame < t ensures RegPos(fs[..t], d) == RegPos(fs, d) {
      assert fs[..t][..t] == fs[..t];
      RegPosLow(fs[..t], fs, d);
    }
  }

  lemma RegPosLow(fs: seq<Frame>, gs: seq<Frame>, d: Dest)
    requires |fs| <= |gs| && gs[..|fs|] == fs && d.frame < |fs|
    ensures RegPos(gs, d) == RegPos(fs, d)
  {
    assert gs[..d.frame + 1] == fs[..d.frame + 1];
  }

  lemma SetRegPlaces(fs: seq<Frame>, d: Dest, v: Cell, t: nat)
    requires DestOk(fs, d, |fs|) && t < |fs|
    ensures var gs := SetReg(fs, d, v);
      Fp(gs[..t + 1]) == Fp(fs[..t + 1]) && forall e :: RegPos(gs, e) == RegPos(fs, e)
  {
    var gs := SetReg(fs, d, v);
    assert SameLayout(fs, gs);
    SameLengths(fs, gs);
    assert forall k | 0 <= k <= t :: fs[..t + 1][k] == fs[k] && gs[..t + 1][k] == gs[k];
    SameLengths(fs[..t + 1], gs[..t + 1]);
  }

  lemma DestAt(fs: seq<Frame>, t: nat)
    requires WellFormed(fs) && 0 < t < |fs|
    ensures DestOk(fs, fs[t].dest, t)
  {
  }

  lemma StoredArmed(fs: seq<Frame>, t: nat, result: Option<Cell>)
    requires t < |fs|
    ensures var gs := Stored(fs, t, result);
      |gs| == |fs| && (AnyArmed(gs, t) <==> AnyArmed(fs, t)) && forall k | 0 <= k < |fs| :: gs[k] == fs[k].(regs := gs[k].regs)
  {
    var gs := Stored(fs, t, result);
    if AnyArmed(fs, t) {
      var j :| t <= j < |fs| && fs[j].ensure.Armed?;
      assert gs[j].ensure.Armed?;
    }
    if AnyArmed(gs, t) {
      var j :| t <= j < |gs| && gs[j].ensure.Armed?;
      assert fs[j].ensure.Armed?;
    }
  }

  lemma InnermostAbove(fs: seq<Frame>, t: nat)
    requires AnyArmed(fs, t)
    ensures AnyArmed(fs, 0) && Innermost(fs) >= t
  {
    var j :| t <= j < |fs| && fs[j].ensure.Armed?;
    assert AnyArmed(fs, 0);
  }

  lemma SpendWellFormed(fs: seq<Frame>, j: nat)
    requires WellFormed(fs) && j < |fs| && fs[j].ensure.Armed?
    ensures WellFormed(Spend(fs, j))
  {
    var gs := Spend(fs, j);
    forall k | 0 < k < |gs| ensures DestOk(gs, gs[k].dest, k) {
      assert DestOk(fs, fs[k].dest, k);
    }
  }

  /** With no armed handler from t on, the chain of the frames below is the whole chain. */
  lemma {:induction false} HeadCut(fs: seq<Frame>, t: nat)
    requires t <= |fs| && !AnyArmed(fs, t)
    ensures Head(fs[..t]) == Head(fs)
  {
    if t == |fs| {
      assert fs[..t] == fs;
    } else {
      assert !fs[|fs| - 1].ensure.Armed?;
      forall j | t <= j < |Front(fs)| ensures !Front(fs)[j].ensure.Armed? {
        assert fs[j].ensure.Nothing? || fs[j].ensure.Spent?;
      }
      HeadCut(Front(fs), t);
      assert Front(fs)[..t] == fs[..t];
    }
  }

  lemma CallerFrame(fs: seq<Frame>, t: nat)
    requires WellFormed(fs) && 0 < t < |fs|
    ensures WellFormed(fs[..t]) && fs[..t] != [] && Last(fs[..t]) == fs[t - 1]
    ensures Fp(fs[..t]) == Len(fs[..t - 1]) + FRAME_SIZE && Len(fs[..t]) <= Len(fs)
  {
    var gs := fs[..t];
    assert Front(gs) == fs[..t - 1];
    LenMonotone(fs, t);
    forall k | 0 < k < |gs| ensures DestOk(gs, gs[k].dest, k) {
      assert DestOk(fs, fs[k].dest, k);
    }
  }
}
