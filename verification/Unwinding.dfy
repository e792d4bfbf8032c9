/** Runs of the interpreter's stack machine: what calls restore, and when ensure handlers run. */
module Unwinding {
  import opened Wrappers
  import opened Activations
  import opened Interpreters

  /** What runs in a new frame: a closure, its context and the first contents of its registers. */
  datatype Callee = Callee(closure: Cell, context: Cell, regs: seq<Cell>)

  datatype Machine = Machine(frames: seq<Frame>, cp: int, marker: Cell, nil: Cell)

  datatype Action =
    | Store(reg: nat, value: Cell)
    | Jump(pc: int)
    | Call(callee: Callee, reg: nat)
    | CallEnsure(callee: Callee, reg: nat, handler: Cell)
    | Return(target: nat, result: Option<Cell>, here: int, started: Callee)

  ghost predicate Enabled(m: Machine, a: Action) {
    && m.frames != [] && WellFormed(m.frames)
    && match a
       case Store(r, _) => r < |Last(m.frames).regs|
       case Jump(_) => true
       case Call(_, r) => r < |Last(m.frames).regs|
       case CallEnsure(_, r, _) => r < |Last(m.frames).regs|
       case Return(t, _, _, _) => 0 < t < |m.frames|
  }

  function Entered(m: Machine, callee: Callee, reg: nat, ensure: Ensure): Frame
    requires m.frames != []
  {
    Frame(callee.closure, callee.context, m.cp, Dest(|m.frames| - 1, reg), callee.regs, ensure)
  }

  function Marker(m: Machine, d: Dest, here: int): Frame {
    Frame(m.marker, m.nil, here, d, [], Nothing)
  }

  /** What every operation of the interpreter does to the frames and the code pointer. */
  ghost function Next(m: Machine, a: Action): Machine
    requires Enabled(m, a)
  {
    match a
    case Store(r, v) => m.(frames := SetReg(m.frames, Dest(|m.frames| - 1, r), v))
    case Jump(pc) => m.(cp := pc)
    case Call(callee, r) => m.(frames := m.frames + [Entered(m, callee, r, Nothing)], cp := 0)
    case CallEnsure(callee, r, h) => m.(frames := m.frames + [Entered(m, callee, r, Armed(h))], cp := 0)
    case Return(t, result, here, started) =>
      var fs := Stored(m.frames, t, result);
      if AnyArmed(fs, t) then Begun(m.(frames := fs), t, here, started)
      else m.(frames := fs[..t], cp := m.frames[t].cp)
  }

  /** The innermost handler is started. */
  ghost function Begun(m: Machine, t: nat, here: int, started: Callee): Machine
    requires t < |m.frames| && AnyArmed(m.frames, t)
  {
    InnermostAbove(m.frames, t);
    var j := Innermost(m.frames);
    m.(frames := Spend(m.frames, j) + [Marker(m, m.frames[t].dest, here),
                                       Frame(m.frames[j].ensure.handler, started.context, 0, m.frames[t].dest, started.regs, Nothing)],
       cp := 0)
  }

  /** The interpreter's return is the machine's. */
  lemma ReturnIsNext(i: Interpreter, fs: seq<Frame>, cp: int, t: nat, result: Option<Cell>, here: int, context: Cell, gs: seq<Frame>)
    requires WellFormed(fs) && 0 < t < |fs| && HandlerStarted(i, Stored(fs, t, result), t, here, context, gs)
    ensures var m := Machine(fs, cp, i.ensureMarker, i.nil);
      var a := Return(t, result, here, Callee(Last(gs).closure, Last(gs).context, Last(gs).regs));
      Next(m, a) == m.(frames := gs, cp := 0)
  {
    var ss := Stored(fs, t, result);
    assert ss[Innermost(ss)].ensure.Armed?;
    assert AnyArmed(ss, t);
    StoredArmed(fs, t, result);
  }

  // ---------- every run ----------

  /** A machine with a history: registrations are numbered; the numbers of the armed ones go with the armed frames. */
  datatype History = History(m: Machine, armed: seq<nat>, started: seq<nat>, count: nat)

  /** The armed frames, from the bottom. */
  ghost function ArmedFrames(fs: seq<Frame>): seq<nat> {
    if fs == [] then []
    else ArmedFrames(Front(fs)) + if Last(fs).ensure.Armed? then [|fs| - 1] else []
  }

  ghost predicate Enabled2(x: History, a: Action) {
    Enabled(x.m, a) && (a.Return? && AnyArmed(x.m.frames, a.target) ==> x.armed != [])
  }

  ghost function NextHistory(x: History, a: Action): History
    requires Enabled2(x, a)
  {
    var m := Next(x.m, a);
    if a.CallEnsure? then History(m, x.armed + [x.count], x.started, x.count + 1)
    else if a.Return? && AnyArmed(x.m.frames, a.target) then
      History(m, x.armed[..|x.armed| - 1], x.started + [x.armed[|x.armed| - 1]], x.count)
    else x.(m := m)
  }

  /** Every registration is either still armed, in the order of the frames, or was started, once. */
  ghost predicate Orderly(x: History) {
    && x.m.frames != [] && WellFormed(x.m.frames) && |x.armed| == |ArmedFrames(x.m.frames)|
    && (forall i, j | 0 <= i < j < |x.armed| :: x.armed[i] < x.armed[j])
    && (forall i, j | 0 <= i < j < |x.started| :: x.started[i] != x.started[j])
    && (forall k: nat :: k < x.count <==> (k in x.armed || k in x.started))
    && (forall k | k in x.armed :: k !in x.started)
  }

  lemma {:induction false} ArmedFramesAre(fs: seq<Frame>)
    ensures forall j | j in ArmedFrames(fs) :: j < |fs| && fs[j].ensure.Armed?
    ensures forall j: nat | j < |fs| && fs[j].ensure.Armed? :: j in ArmedFrames(fs)
    ensures AnyArmed(fs, 0) <==> ArmedFrames(fs) != []
    ensures AnyArmed(fs, 0) ==> ArmedFrames(fs)[|ArmedFrames(fs)| - 1] == Innermost(fs)
  {
    if fs != [] {
      ArmedFramesAre(Front(fs));
      forall j: nat | j < |fs| && fs[j].ensure.Armed? ensures j in ArmedFrames(fs) {
        if j < |fs| - 1 {
          assert Front(fs)[j].ensure.Armed?;
        }
      }
      forall j | j in ArmedFrames(fs) ensures j < |fs| && fs[j].ensure.Armed? {
        if j in ArmedFrames(Front(fs)) {
          assert Front(fs)[j] == fs[j];
        }
      }
      if AnyArmed(fs, 0) && !Last(fs).ensure.Armed? {
        var j := Innermost(fs);
        assert Front(fs)[j].ensure.Armed?;
      }
    }
  }

  /** Which frames are armed does not depend on anything else in them. */
  lemma {:induction false} SameArmed(fs: seq<Frame>, gs: seq<Frame>)
    requires |fs| == |gs| && forall k | 0 <= k < |fs| :: fs[k].ensure.Armed? == gs[k].ensure.Armed?
    ensures ArmedFrames(fs) == ArmedFrames(gs)
  {
    if fs != [] {
      assert forall k | 0 <= k < |Front(fs)| :: Front(fs)[k] == fs[k] && Front(gs)[k] == gs[k];
      SameArmed(Front(fs), Front(gs));
    }
  }

  lemma {:induction false} SpentArmed(fs: seq<Frame>)
    requires AnyArmed(fs, 0)
    ensures |ArmedFrames(Spend(fs, Innermost(fs)))| == |ArmedFrames(fs)| - 1
  {
    var j := Innermost(fs);
    var gs := Spend(fs, j);
    if j == |fs| - 1 {
      assert Front(gs) == Front(fs);
    } else {
      assert Front(fs)[j].ensure.Armed?;
      assert Innermost(Front(fs)) == j && Front(gs) == Spend(Front(fs), j) by { assert Front(fs)[..j] == fs[..j]; }
      SpentArmed(Front(fs));
    }
  }

  lemma {:induction false} CutArmed(fs: seq<Frame>, t: nat)
    requires t <= |fs| && !AnyArmed(fs, t)
    ensures ArmedFrames(fs[..t]) == ArmedFrames(fs)
  {
    if t == |fs| {
      assert fs[..t] == fs;
    } else {
      assert !fs[|fs| - 1].ensure.Armed?;
      forall j | t <= j < |Front(fs)| ensures !Front(fs)[j].ensure.Armed? {
        assert !fs[j].ensure.Armed?;
      }
      CutArmed(Front(fs), t);
      assert Front(fs)[..t] == fs[..t];
    }
  }

  lemma OneMoreFrame(fs: seq<Frame>, f: Frame)
    ensures ArmedFrames(fs + [f]) == ArmedFrames(fs) + if f.ensure.Armed? then [|fs|] else []
  {
    assert Front(fs + [f]) == fs;
  }

  lemma NextWellFormed(m: Machine, a: Action)
    requires Enabled(m, a)
    ensures Next(m, a).frames != [] && WellFormed(Next(m, a).frames)
  {
    var fs := m.frames;
    match a {
      case Store(r, v) => SetRegWellFormed(fs, Dest(|fs| - 1, r), v);
      case Jump(_) =>
      case Call(callee, r) => MoreWellFormed(fs, Entered(m, callee, r, Nothing));
      case CallEnsure(callee, r, h) => MoreWellFormed(fs, Entered(m, callee, r, Armed(h)));
      case Return(t, result, here, started) =>
        StoredWellFormed(fs, t, result);
        if AnyArmed(Stored(fs, t, result), t) {
          BegunWellFormed(m.(frames := Stored(fs, t, result)), t, here, started);
        } else {
          CutWellFormed(Stored(fs, t, result), t);
        }
    }
  }

  lemma StoredWellFormed(fs: seq<Frame>, t: nat, result: Option<Cell>)
    requires WellFormed(fs) && 0 < t < |fs|
    ensures WellFormed(Stored(fs, t, result)) && |Stored(fs, t, result)| == |fs|
  {
    if result.Some? {
      assert DestOk(fs, fs[t].dest, t);
      SetRegWellFormed(fs, fs[t].dest, result.value);
    }
  }

  lemma BegunWellFormed(m: Machine, t: nat, here: int, started: Callee)
    requires WellFormed(m.frames) && 0 < t < |m.frames| && AnyArmed(m.frames, t)
    ensures WellFormed(Begun(m, t, here, started).frames)
  {
    var gs := m.frames;
    InnermostAbove(gs, t);
    var j := Innermost(gs);
    SpendWellFormed(gs, j);
    var hs, d := Spend(gs, j), gs[t].dest;
    assert DestOk(gs, gs[t].dest, t);
    hide WellFormed, AnyArmed;
    var f1, f2 := Marker(m, d, here), Frame(gs[j].ensure.handler, started.context, 0, d, started.regs, Nothing);
    MoreWellFormed(hs, f1);
    MoreWellFormed(hs + [f1], f2);
    assert hs + [f1] + [f2] == hs + [f1, f2];
  }

  lemma CutWellFormed(fs: seq<Frame>, t: nat)
    requires WellFormed(fs) && t <= |fs|
    ensures WellFormed(fs[..t])
  {
    forall k | 0 < k < |fs[..t]| ensures DestOk(fs[..t], fs[..t][k].dest, k) {
      assert DestOk(fs, fs[k].dest, k);
    }
  }

  /**
   * Every step keeps the order: a return that starts a handler starts the one registered last among those still
   * armed, which is at or above the target; a return that cuts leaves no registration behind that has not been started.
   */
  lemma StepIsOrderly(x: History, a: Action)
    requires Orderly(x) && Enabled(x.m, a)
    ensures Enabled2(x, a) && Orderly(NextHistory(x, a))
    ensures a.Return? && AnyArmed(x.m.frames, a.target) ==> ArmedFrames(x.m.frames)[|x.armed| - 1] >= a.target
    ensures a.Return? && !AnyArmed(x.m.frames, a.target) ==>
              forall i | 0 <= i < |x.armed| :: ArmedFrames(x.m.frames)[i] < a.target
  {
    hide WellFormed, AnyArmed;
    var fs := x.m.frames;
    NextWellFormed(x.m, a);
    match a {
      case Store(r, v) => SameArmed(fs, Next(x.m, a).frames);
      case Jump(_) =>
      case Call(callee, r) => OneMoreFrame(fs, Entered(x.m, callee, r, Nothing));
      case CallEnsure(callee, r, h) =>
        OneMoreFrame(fs, Entered(x.m, callee, r, Armed(h)));
        RegisterOrderly(x, NextHistory(x, a));
      case Return(t, result, here, started) =>
        if AnyArmed(fs, t) {
          StartIsOrderly(x, a);
        } else {
          CutIsOrderly(x, a);
        }
    }
  }

  lemma StartIsOrderly(x: History, a: Action)
    requires Orderly(x) && Enabled(x.m, a) && a.Return? && AnyArmed(x.m.frames, a.target)
    requires Next(x.m, a).frames != [] && WellFormed(Next(x.m, a).frames)
    ensures x.armed != [] && Orderly(NextHistory(x, a)) && ArmedFrames(x.m.frames)[|x.armed| - 1] >= a.target
  {
    hide WellFormed;
    var fs, t := x.m.frames, a.target;
    var gs := Stored(fs, t, a.result);
    ArmedFramesAre(fs);
    StoredArmed(fs, t, a.result);
    SameArmed(fs, gs);
    InnermostAbove(fs, t);
    InnermostAbove(gs, t);
    SpentArmed(gs);
    HandlerFrames(x.m.(frames := gs), t, a.here, a.started);
    hide Stored, ArmedFrames, AnyArmed;
    StartOrderly(x, NextHistory(x, a));
  }

  lemma CutIsOrderly(x: History, a: Action)
    requires Orderly(x) && Enabled(x.m, a) && a.Return? && !AnyArmed(x.m.frames, a.target)
    requires Next(x.m, a).frames != [] && WellFormed(Next(x.m, a).frames)
    ensures Orderly(NextHistory(x, a)) && forall i | 0 <= i < |x.armed| :: ArmedFrames(x.m.frames)[i] < a.target
  {
    hide WellFormed, ArmedFrames, AnyArmed, Stored;
    var fs, t := x.m.frames, a.target;
    CutFrames(fs, t, a.result);
    SameOrderly(x, NextHistory(x, a));
  }

  lemma CutFrames(fs: seq<Frame>, t: nat, result: Option<Cell>)
    requires t < |fs| && !AnyArmed(fs, t)
    ensures var gs := Stored(fs, t, result); |gs| == |fs| && !AnyArmed(gs, t) && ArmedFrames(gs[..t]) == ArmedFrames(fs)
    ensures forall i | 0 <= i < |ArmedFrames(fs)| :: ArmedFrames(fs)[i] < t
  {
    var gs := Stored(fs, t, result);
    ArmedFramesAre(fs);
    StoredArmed(fs, t, result);
    SameArmed(fs, gs);
    CutArmed(gs, t);
    hide ArmedFrames, Stored;
    forall i | 0 <= i < |ArmedFrames(fs)| ensures ArmedFrames(fs)[i] < t {
      assert ArmedFrames(fs)[i] in ArmedFrames(fs);
    }
  }

  lemma SameOrderly(x: History, y: History)
    requires Orderly(x) && y == x.(m := y.m) && y.m.frames != [] && WellFormed(y.m.frames) && |x.armed| == |ArmedFrames(y.m.frames)|
    ensures Orderly(y)
  {
  }

  lemma HandlerFrames(m: Machine, t: nat, here: int, started: Callee)
    requires t < |m.frames| && AnyArmed(m.frames, t) && AnyArmed(m.frames, 0)
    ensures ArmedFrames(Begun(m, t, here, started).frames) == ArmedFrames(Spend(m.frames, Innermost(m.frames)))
  {
    InnermostAbove(m.frames, t);
    var hs, d := Spend(m.frames, Innermost(m.frames)), m.frames[t].dest;
    var f1, f2 := Marker(m, d, here), Frame(m.frames[Innermost(m.frames)].ensure.handler, started.context, 0, d, started.regs, Nothing);
    OneMoreFrame(hs, f1);
    OneMoreFrame(hs + [f1], f2);
    assert hs + [f1] + [f2] == hs + [f1, f2];
  }

  lemma RegisterOrderly(x: History, y: History)
    requires Orderly(x) && y == History(y.m, x.armed + [x.count], x.started, x.count + 1)
    requires y.m.frames != [] && WellFormed(y.m.frames) && |y.armed| == |ArmedFrames(y.m.frames)|
    ensures Orderly(y)
  {
    hide WellFormed, ArmedFrames;
    forall i, j | 0 <= i < j < |y.armed| ensures y.armed[i] < y.armed[j] {
      assert x.armed[i] in x.armed;
    }
    assert x.count !in x.started;
    forall k: nat ensures k in y.armed <==> k in x.armed || k == x.count {
    }
  }

  lemma StartOrderly(x: History, y: History)
    requires Orderly(x) && x.armed != [] && y == History(y.m, x.armed[..|x.armed| - 1], x.started + [x.armed[|x.armed| - 1]], x.count)
    requires y.m.frames != [] && WellFormed(y.m.frames) && |y.armed| == |ArmedFrames(y.m.frames)|
    ensures Orderly(y)
  {
    var n := |x.armed| - 1;
    var last := x.armed[n];
    assert last in x.armed && last !in x.started;
    forall k: nat ensures k in x.armed <==> k in y.armed || k == last {
      if k in x.armed && k != last {
        var i :| 0 <= i < |x.armed| && x.armed[i] == k;
        assert y.armed[i] == k;
      }
    }
    forall k | k in y.armed ensures k !in y.started {
      var i :| 0 <= i < n && y.armed[i] == k;
      assert x.armed[i] < x.armed[n];
      assert k in x.armed;
    }
  }

  ghost predicate IsHistory(xs: seq<History>, acts: seq<Action>) {
    && |xs| == |acts| + 1
    && forall i | 0 <= i < |acts| :: Enabled(xs[i].m, acts[i]) && Enabled2(xs[i], acts[i]) && xs[i + 1] == NextHistory(xs[i], acts[i])
  }

  /** No run starts a handler twice, and none loses one: what was registered is armed in a live frame or has been started. */
  lemma {:induction false} EveryRunIsOrderly(xs: seq<History>, acts: seq<Action>, i: nat)
    requires IsHistory(xs, acts) && Orderly(xs[0]) && i < |xs|
    ensures Orderly(xs[i])
  {
    if i > 0 {
      EveryRunIsOrderly(xs, acts, i - 1);
      StepIsOrderly(xs[i - 1], acts[i - 1]);
    }
  }

  // ---------- what a call restores ----------

  /** The machines that a list of actions goes through. */
  ghost predicate IsRun(ms: seq<Machine>, acts: seq<Action>) {
    |ms| == |acts| + 1 && forall i | 0 <= i < |acts| :: Enabled(ms[i], acts[i]) && ms[i + 1] == Next(ms[i], acts[i])
  }

  /** While frame n runs or has others run for it, every return is from a frame above it. */
  predicate StaysAbove(acts: seq<Action>, n: nat) {
    forall i | 0 <= i < |acts| && acts[i].Return? :: acts[i].target > n
  }

  /** The frames below n are as in fs; frame n may have other values in its registers; results go to frame n or above. */
  ghost predicate Keeps(fs: seq<Frame>, gs: seq<Frame>, n: nat) {
    && n < |fs| && n < |gs| && gs[..n] == fs[..n] && gs[n] == fs[n].(regs := gs[n].regs)
    && forall k | n < k < |gs| :: gs[k].dest.frame >= n
  }

  lemma StepKeeps(fs: seq<Frame>, m: Machine, a: Action, n: nat)
    requires Enabled(m, a) && Keeps(fs, m.frames, n) && (a.Return? ==> a.target > n)
    ensures Keeps(fs, Next(m, a).frames, n)
  {
    match a {
      case Store(r, v) =>
        hide WellFormed;
      case Jump(_) =>
      case Call(callee, r) => PushKeeps(fs, m.frames, [Entered(m, callee, r, Nothing)], n);
      case CallEnsure(callee, r, h) => PushKeeps(fs, m.frames, [Entered(m, callee, r, Armed(h))], n);
      case Return(t, result, here, started) => ReturnKeeps(fs, m, t, result, here, started, n);
    }
  }

  lemma PushKeeps(fs: seq<Frame>, gs: seq<Frame>, more: seq<Frame>, n: nat)
    requires Keeps(fs, gs, n) && forall k | 0 <= k < |more| :: more[k].dest.frame >= n
    ensures Keeps(fs, gs + more, n)
  {
    assert (gs + more)[..n] == gs[..n];
  }

  lemma ReturnKeeps(fs: seq<Frame>, m: Machine, t: nat, result: Option<Cell>, here: int, started: Callee, n: nat)
    requires Enabled(m, Return(t, result, here, started)) && Keeps(fs, m.frames, n) && t > n
    ensures Keeps(fs, Next(m, Return(t, result, here, started)).frames, n)
  {
    var gs := m.frames;
    assert DestOk(gs, gs[t].dest, t);
    hide WellFormed;
    var ss := Stored(gs, t, result);
    StoredKeeps(fs, gs, t, result, n);
    if AnyArmed(ss, t) {
      InnermostAbove(ss, t);
      var hs := Spend(ss, Innermost(ss));
      SpendKeeps(fs, ss, Innermost(ss), n);
      var d := ss[t].dest;
      PushKeeps(fs, hs, [Marker(m, d, here), Frame(ss[Innermost(ss)].ensure.handler, started.context, 0, d, started.regs, Nothing)], n);
    } else {
      assert ss[..t][..n] == ss[..n];
    }
  }

  lemma StoredKeeps(fs: seq<Frame>, gs: seq<Frame>, t: nat, result: Option<Cell>, n: nat)
    requires Keeps(fs, gs, n) && n < t < |gs|
    ensures Keeps(fs, Stored(gs, t, result), n)
  {
    StoredArmed(gs, t, result);
    var ss := Stored(gs, t, result);
    assert ss[..n] == gs[..n];
  }

  lemma SpendKeeps(fs: seq<Frame>, gs: seq<Frame>, j: nat, n: nat)
    requires Keeps(fs, gs, n) && n < j < |gs| && gs[j].ensure.Armed?
    ensures Keeps(fs, Spend(gs, j), n)
  {
    assert Spend(gs, j)[..n] == gs[..n];
  }

  lemma {:induction false} RunKeeps(fs: seq<Frame>, ms: seq<Machine>, acts: seq<Action>, n: nat, i: nat)
    requires IsRun(ms, acts) && StaysAbove(acts, n) && Keeps(fs, ms[0].frames, n) && i < |ms|
    ensures Keeps(fs, ms[i].frames, n) && ms[i].marker == ms[0].marker && ms[i].nil == ms[0].nil
  {
    if i > 0 {
      RunKeeps(fs, ms, acts, n, i - 1);
      StepKeeps(fs, ms[i - 1], acts[i - 1], n);
    }
  }

  /**
   * A call, whatever its activation and those above it do, and its return: the caller's frames, its place in the code,
   * and with them the stack, frame and code pointers, the closure and the context are as before; only the result is new.
   */
  lemma CallRestores(m: Machine, callee: Callee, reg: nat, ms: seq<Machine>, acts: seq<Action>, v: Cell, here: int, unused: Callee)
    requires Enabled(m, Call(callee, reg)) && IsRun(ms, acts) && ms[0] == Next(m, Call(callee, reg)) && StaysAbove(acts, |m.frames|)
    requires WellFormed(ms[|acts|].frames) && !AnyArmed(ms[|acts|].frames, |m.frames|)
    ensures Enabled(ms[|acts|], Return(|m.frames|, Some(v), here, unused))
    ensures Next(ms[|acts|], Return(|m.frames|, Some(v), here, unused))
         == m.(frames := SetReg(m.frames, Dest(|m.frames| - 1, reg), v))
  {
    var n, fs0 := |m.frames|, ms[0].frames;
    assert Keeps(fs0, fs0, n);
    RunKeeps(fs0, ms, acts, n, |acts|);
    var gs, d := ms[|acts|].frames, Dest(n - 1, reg);
    assert fs0[..n] == m.frames && gs[..n] == m.frames;
    assert gs[n].dest == d && gs[n].cp == m.cp && gs[n - 1] == gs[..n][n - 1];
    StoredArmed(gs, n, Some(v));
    assert SetReg(gs, d, v)[..n] == SetReg(m.frames, d, v);
  }

  // ---------- a return that has handlers to run ----------

  /** One handler's activation: what it is started with, what it does, and the value it returns. */
  datatype HandlerRun = HandlerRun(started: Callee, ms: seq<Machine>, acts: seq<Action>, value: Cell, unused: Callee)

  /** The armed handlers of the frames from t on, innermost first. */
  ghost function HandlersFrom(fs: seq<Frame>, t: nat): seq<Cell> {
    if |fs| <= t then []
    else (if Last(fs).ensure.Armed? then [Last(fs).ensure.handler] else []) + HandlersFrom(Front(fs), t)
  }

  /** From m, where a return to t is executed, a handler is started, runs, returns, and the machine m' resumes at the return. */
  ghost predicate RunsHandler(m: Machine, t: nat, v: Cell, here: int, r: HandlerRun, h: Cell, m': Machine) {
    && Enabled(m, Return(t, Some(v), here, r.started)) && AnyArmed(m.frames, t)
    && var m1 := Next(m, Return(t, Some(v), here, r.started));
       var n := |m1.frames| - 1;
       && IsRun(r.ms, r.acts) && r.ms[0] == m1 && StaysAbove(r.acts, n) && h == Last(m1.frames).closure
       && var m2 := r.ms[|r.acts|];
          && Enabled(m2, Return(n, Some(r.value), 0, r.unused)) && !AnyArmed(m2.frames, n)
          && var m3 := Next(m2, Return(n, Some(r.value), 0, r.unused));
             && Enabled(m3, Return(n - 1, None, 0, r.unused)) && !AnyArmed(m3.frames, n - 1)
             && m' == Next(m3, Return(n - 1, None, 0, r.unused))
  }

  /** The return to t, executed again after each handler, until the stack is cut. */
  ghost predicate Completes(m: Machine, t: nat, v: Cell, here: int, runs: seq<HandlerRun>, handlers: seq<Cell>, last: Machine, unused: Callee)
    decreases |runs|
  {
    && |runs| == |handlers|
    && if runs == [] then
         Enabled(m, Return(t, Some(v), here, unused)) && !AnyArmed(m.frames, t) && last == Next(m, Return(t, Some(v), here, unused))
       else
         exists m' :: RunsHandler(m, t, v, here, runs[0], handlers[0], m') && Completes(m', t, v, here, runs[1..], handlers[1..], last, unused)
  }

  lemma {:induction false} SameHandlers(fs: seq<Frame>, gs: seq<Frame>, t: nat)
    requires |fs| == |gs| && forall k | t <= k < |fs| :: fs[k].ensure == gs[k].ensure
    ensures HandlersFrom(fs, t) == HandlersFrom(gs, t)
  {
    hide HandlersFrom;
    HandlersLast(fs, t);
    HandlersLast(gs, t);
    if |fs| > t {
      assert forall k | t <= k < |Front(fs)| :: Front(fs)[k] == fs[k] && Front(gs)[k] == gs[k];
      SameHandlers(Front(fs), Front(gs), t);
    }
  }

  lemma HandlersLast(fs: seq<Frame>, t: nat)
    ensures |fs| <= t ==> HandlersFrom(fs, t) == []
    ensures |fs| > t ==> HandlersFrom(fs, t) == (if Last(fs).ensure.Armed? then [Last(fs).ensure.handler] else []) + HandlersFrom(Front(fs), t)
  {
  }

  lemma {:induction false} SpentHandlers(fs: seq<Frame>, t: nat)
    requires AnyArmed(fs, t)
    ensures AnyArmed(fs, 0) && Innermost(fs) >= t
    ensures HandlersFrom(fs, t) == [fs[Innermost(fs)].ensure.handler] + HandlersFrom(Spend(fs, Innermost(fs)), t)
  {
    InnermostAbove(fs, t);
    var j := Innermost(fs);
    if j == |fs| - 1 {
      assert Front(Spend(fs, j)) == Front(fs);
    } else {
      assert Front(fs)[j].ensure.Armed? && AnyArmed(Front(fs), t);
      SpentHandlers(Front(fs), t);
      SpendFront(fs, j);
      HandlersTop(fs, t);
      HandlersTop(Spend(fs, j), t);
      hide HandlersFrom;
    }
  }

  lemma HandlersTop(fs: seq<Frame>, t: nat)
    requires |fs| > t && !Last(fs).ensure.Armed?
    ensures HandlersFrom(fs, t) == HandlersFrom(Front(fs), t)
  {
    assert [] + HandlersFrom(Front(fs), t) == HandlersFrom(Front(fs), t);
  }

  lemma SpendFront(fs: seq<Frame>, j: nat)
    requires AnyArmed(fs, 0) && j == Innermost(fs) && j < |fs| - 1
    ensures AnyArmed(Front(fs), 0) && Innermost(Front(fs)) == j && Front(Spend(fs, j)) == Spend(Front(fs), j)
    ensures Last(Spend(fs, j)) == Last(fs) && Front(fs)[j] == fs[j]
  {
    assert Front(fs)[j].ensure.Armed?;
    assert Front(fs)[..j] == fs[..j];
  }

  lemma {:induction false} NoHandlers(fs: seq<Frame>, t: nat)
    requires !AnyArmed(fs, t)
    ensures HandlersFrom(fs, t) == []
  {
    if |fs| > t {
      assert !fs[|fs| - 1].ensure.Armed?;
      forall j | t <= j < |Front(fs)| ensures !Front(fs)[j].ensure.Armed? {
        assert !fs[j].ensure.Armed?;
      }
      NoHandlers(Front(fs), t);
    }
  }

  /** The handler that runs is the innermost one; afterwards the frames are as before but for its being spent and the result cell. */
  lemma HandlerRestores(m: Machine, t: nat, v: Cell, here: int, r: HandlerRun, h: Cell, m': Machine)
    requires RunsHandler(m, t, v, here, r, h, m')
    ensures AnyArmed(Stored(m.frames, t, Some(v)), 0)
    ensures var ss := Stored(m.frames, t, Some(v)); var d := m.frames[t].dest;
      && h == ss[Innermost(ss)].ensure.handler && DestOk(ss, d, t) && m'.cp == here && m'.marker == m.marker && m'.nil == m.nil
      && m'.frames == SetReg(Spend(ss, Innermost(ss)), d, r.value)
  {
    var fs := m.frames;
    var ss, d := Stored(fs, t, Some(v)), fs[t].dest;
    assert DestOk(fs, d, t);
    StoredArmed(fs, t, Some(v));
    InnermostAbove(ss, t);
    var m1 := Next(m, Return(t, Some(v), here, r.started));
    var n, hs := |m1.frames| - 1, Spend(ss, Innermost(ss));
    assert m1.frames[..n - 1] == hs && ss[t].dest == d;
    assert Keeps(m1.frames, m1.frames, n);
    RunKeeps(m1.frames, r.ms, r.acts, n, |r.acts|);
    var m2 := r.ms[|r.acts|];
    ResultThroughMarker(m1, m2, n, d, r.value, here, r.unused, hs);
  }

  /** The handler's return stores its result in the cell of the interrupted return, and the marker's stores nothing. */
  lemma ResultThroughMarker(m1: Machine, m2: Machine, n: nat, d: Dest, value: Cell, here: int, unused: Callee, hs: seq<Frame>)
    requires Keeps(m1.frames, m2.frames, n) && |m1.frames| == n + 1 && n > 1 && m1.frames[..n - 1] == hs && DestOk(hs, d, n - 1)
    requires m1.frames[n].dest == d && m1.frames[n].cp == 0 && m1.frames[n - 1] == Marker(m1, d, here)
    requires Enabled(m2, Return(n, Some(value), 0, unused)) && !AnyArmed(m2.frames, n)
    ensures var m3 := Next(m2, Return(n, Some(value), 0, unused));
      Enabled(m3, Return(n - 1, None, 0, unused)) && !AnyArmed(m3.frames, n - 1) ==>
        Next(m3, Return(n - 1, None, 0, unused)) == m2.(frames := SetReg(hs, d, value), cp := here)
  {
    var gs := m2.frames;
    assert gs[n].dest == d && gs[n - 1] == gs[..n][n - 1] == m1.frames[..n][n - 1];
    assert gs[..n - 1] == gs[..n][..n - 1] == m1.frames[..n][..n - 1] == hs;
    StoredArmed(gs, n, Some(value));
    var m3 := Next(m2, Return(n, Some(value), 0, unused));
    assert gs[d.frame] == gs[..n - 1][d.frame];
    assert m3.frames == SetReg(gs, d, value)[..n];
    assert m3.frames[n - 1] == gs[n - 1];
    assert SetReg(gs, d, value)[..n][..n - 1] == SetReg(hs, d, value);
  }

  /**
   * A return to a live frame starts each handler that is armed at or above that frame exactly once, innermost first, and
   * no other; then the stack is cut: the caller's frames are as they were, but for the result.
   */
  lemma {:induction false} ReturnCompletes(m: Machine, t: nat, v: Cell, here: int, runs: seq<HandlerRun>, handlers: seq<Cell>, last: Machine,
                                           unused: Callee)
    requires Completes(m, t, v, here, runs, handlers, last, unused)
    ensures 0 < t < |m.frames| && DestOk(m.frames, m.frames[t].dest, t)
    ensures handlers == HandlersFrom(m.frames, t)
    ensures last.frames == SetReg(m.frames, m.frames[t].dest, v)[..t] && last.cp == m.frames[t].cp
    decreases |runs|
  {
    var fs := m.frames;
    hide HandlersFrom, RunsHandler;
    if runs == [] {
      NothingToRun(m, t, v, here, unused);
    } else {
      var m' :| RunsHandler(m, t, v, here, runs[0], handlers[0], m') && Completes(m', t, v, here, runs[1..], handlers[1..], last, unused);
      OneHandlerLess(m, t, v, here, runs[0], handlers[0], m');
      ReturnCompletes(m', t, v, here, runs[1..], handlers[1..], last, unused);
      assert handlers == [handlers[0]] + handlers[1..];
    }
  }

  /** Handlers run, one after the other, each time the return to t is executed again; it need not be over. */
  ghost predicate Reruns(m: Machine, t: nat, v: Cell, here: int, runs: seq<HandlerRun>, handlers: seq<Cell>, last: Machine)
    decreases |runs|
  {
    && |runs| == |handlers|
    && if runs == [] then last == m
       else exists m' :: RunsHandler(m, t, v, here, runs[0], handlers[0], m') && Reruns(m', t, v, here, runs[1..], handlers[1..], last)
  }

  /**
   * The return cannot go on for ever: however often it has been executed again, what ran are the first of the armed
   * handlers, and it starts another one exactly when there are more of them.
   */
  lemma {:induction false} RerunsEnd(m: Machine, t: nat, v: Cell, here: int, runs: seq<HandlerRun>, handlers: seq<Cell>, last: Machine)
    requires Reruns(m, t, v, here, runs, handlers, last)
    ensures HandlersFrom(m.frames, t) == handlers + HandlersFrom(last.frames, t) && |runs| <= |HandlersFrom(m.frames, t)|
    ensures AnyArmed(last.frames, t) <==> |runs| < |HandlersFrom(m.frames, t)|
    ensures |last.frames| == |m.frames| && (runs != [] ==> last.cp == here)
    decreases |runs|
  {
    hide HandlersFrom, RunsHandler, AnyArmed, Stored, SetReg, Spend, Innermost, DestOk;
    if runs == [] {
      SomeHandler(m.frames, t);
      assert handlers + HandlersFrom(last.frames, t) == HandlersFrom(m.frames, t);
    } else {
      var m' :| RunsHandler(m, t, v, here, runs[0], handlers[0], m') && Reruns(m', t, v, here, runs[1..], handlers[1..], last);
      OneHandlerLess(m, t, v, here, runs[0], handlers[0], m');
      HandlerRestores(m, t, v, here, runs[0], handlers[0], m');
      RerunsEnd(m', t, v, here, runs[1..], handlers[1..], last);
      assert handlers == [handlers[0]] + handlers[1..];
      SomeHandler(last.frames, t);
    }
  }

  lemma SomeHandler(fs: seq<Frame>, t: nat)
    ensures AnyArmed(fs, t) <==> |HandlersFrom(fs, t)| > 0
  {
    if AnyArmed(fs, t) {
      SpentHandlers(fs, t);
    } else {
      NoHandlers(fs, t);
    }
  }

  lemma NothingToRun(m: Machine, t: nat, v: Cell, here: int, unused: Callee)
    requires Enabled(m, Return(t, Some(v), here, unused)) && !AnyArmed(m.frames, t)
    ensures DestOk(m.frames, m.frames[t].dest, t) && HandlersFrom(m.frames, t) == []
    ensures var last := Next(m, Return(t, Some(v), here, unused));
      last.frames == SetReg(m.frames, m.frames[t].dest, v)[..t] && last.cp == m.frames[t].cp
  {
    assert DestOk(m.frames, m.frames[t].dest, t);
    StoredArmed(m.frames, t, Some(v));
    NoHandlers(m.frames, t);
  }

  /** After a handler's run the return has the same target, the same result cell and one handler less to run. */
  lemma OneHandlerLess(m: Machine, t: nat, v: Cell, here: int, r: HandlerRun, h: Cell, m': Machine)
    requires RunsHandler(m, t, v, here, r, h, m')
    ensures 0 < t < |m.frames| && DestOk(m.frames, m.frames[t].dest, t) && |m'.frames| == |m.frames|
    ensures HandlersFrom(m.frames, t) == [h] + HandlersFrom(m'.frames, t)
    ensures m'.frames[t].dest == m.frames[t].dest && m'.frames[t].cp == m.frames[t].cp && DestOk(m'.frames, m.frames[t].dest, t)
    ensures SetReg(m'.frames, m.frames[t].dest, v)[..t] == SetReg(m.frames, m.frames[t].dest, v)[..t]
  {
    var fs := m.frames;
    var d, ss := fs[t].dest, Stored(fs, t, Some(v));
    HandlerRestores(m, t, v, here, r, h, m');
    assert DestOk(fs, d, t);
    hide *;
    OneSpent(fs, ss, t, d, v, r.value, h, m'.frames);
  }

  /** Whatever was stored in the result cell before, and whichever handler above is spent, the frames below end up alike. */
  lemma OneSpent(fs: seq<Frame>, ss: seq<Frame>, t: nat, d: Dest, v: Cell, w: Cell, h: Cell, gs: seq<Frame>)
    requires 0 < t < |fs| && DestOk(fs, d, t) && d == fs[t].dest && ss == Stored(fs, t, Some(v)) && AnyArmed(fs, t) && AnyArmed(ss, 0)
    requires DestOk(ss, d, t) && h == ss[Innermost(ss)].ensure.handler && gs == SetReg(Spend(ss, Innermost(ss)), d, w)
    ensures |gs| == |fs| && HandlersFrom(fs, t) == [h] + HandlersFrom(gs, t)
    ensures gs[t].dest == fs[t].dest && gs[t].cp == fs[t].cp && DestOk(gs, fs[t].dest, t)
    ensures SetReg(gs, fs[t].dest, v)[..t] == SetReg(fs, fs[t].dest, v)[..t]
  {
    hide HandlersFrom, Innermost;
    StoredArmed(fs, t, Some(v));
    var j := Innermost(ss);
    SpentHandlers(ss, t);
    SameHandlers(fs, ss, t);
    StoreKeeps(Spend(ss, j), d, w);
    SpendChangesOne(ss, j);
    SameHandlers(Spend(ss, j), gs, t);
    LastResult(fs, t, d, v, w, j);
    StillDest(fs, gs, t);
  }

  lemma StoreKeeps(fs: seq<Frame>, d: Dest, v: Cell)
    requires DestOk(fs, d, |fs|)
    ensures |SetReg(fs, d, v)| == |fs|
    ensures forall k | 0 <= k < |fs| :: var f := SetReg(fs, d, v)[k]; f == fs[k].(regs := f.regs) && |f.regs| == |fs[k].regs|
  {
  }

  lemma SpendChangesOne(fs: seq<Frame>, j: nat)
    requires j < |fs| && fs[j].ensure.Armed?
    ensures |Spend(fs, j)| == |fs| && forall k | 0 <= k < |fs| :: Spend(fs, j)[k] == fs[k].(ensure := Spend(fs, j)[k].ensure)
  {
  }

  lemma StillDest(fs: seq<Frame>, gs: seq<Frame>, t: nat)
    requires t < |fs| && |gs| == |fs| && DestOk(fs, fs[t].dest, t) && forall k | 0 <= k < |fs| :: |gs[k].regs| == |fs[k].regs|
    ensures DestOk(gs, fs[t].dest, t)
  {
  }

  lemma LastResult(fs: seq<Frame>, t: nat, d: Dest, v: Cell, w: Cell, j: nat)
    requires DestOk(fs, d, t) && t <= j < |fs| && t < |fs|
    requires SetReg(fs, d, v)[j].ensure.Armed?
    ensures SetReg(SetReg(Spend(SetReg(fs, d, v), j), d, w), d, v)[..t] == SetReg(fs, d, v)[..t]
  {
    var a, b := SetReg(SetReg(Spend(SetReg(fs, d, v), j), d, w), d, v)[..t], SetReg(fs, d, v)[..t];
    forall k | 0 <= k < t ensures a[k] == b[k] {
      if k == d.frame {
        assert fs[k].regs[d.reg := v][d.reg := w][d.reg := v] == fs[k].regs[d.reg := v];
      }
    }
  }
}
