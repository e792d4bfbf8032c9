/** The interpreter's stack: one array that holds all activation frames and, threaded through them, the chain of ensure handlers. */
module Activations {

  /** A stack word: a tagged integer or a reference to an object. */
  datatype Cell = Int(value: int) | Obj(id: int)

  /** The result of an activation goes into this register of that frame. */
  datatype Dest = Dest(frame: nat, reg: nat)

  /** A handler stays armed until a return starts it; its two words remain on the stack with the link they had. */
  datatype Ensure = Nothing | Armed(handler: Cell) | Spent(handler: Cell, link: int)

  /** One activation: the word at cp-4 is where its caller goes on; `regs` are its local variables and registers. */
  datatype Frame = Frame(closure: Cell, context: Cell, cp: int, dest: Dest, regs: seq<Cell>, ensure: Ensure)

  const FRAME_SIZE: nat := 6

  function Front(fs: seq<Frame>): seq<Frame>
    requires fs != []
  {
    fs[..|fs| - 1]
  }

  function Last(fs: seq<Frame>): Frame
    requires fs != []
  {
    fs[|fs| - 1]
  }

  function PairSize(e: Ensure): nat {
    if e.Nothing? then 0 else 2
  }

  /** How many words the frames take. */
  function Len(fs: seq<Frame>): nat {
    if fs == [] then 0 else Len(Front(fs)) + FRAME_SIZE + |Last(fs).regs| + PairSize(Last(fs).ensure)
  }

  /** The frame pointer when the last of these frames is running. */
  function Fp(fs: seq<Frame>): nat {
    if fs == [] then 0 else Len(Front(fs)) + FRAME_SIZE
  }

  /** Where the innermost armed handler's pair of words is; 0 when there is none. */
  function Head(fs: seq<Frame>): nat {
    if fs == [] then 0
    else if Last(fs).ensure.Armed? then Fp(fs) + |Last(fs).regs|
    else Head(Front(fs))
  }

  /** Where a register is in the array. */
  function RegPos(fs: seq<Frame>, d: Dest): nat {
    if d.frame < |fs| then Fp(fs[..d.frame + 1]) + d.reg else 0
  }

  function Header(fs: seq<Frame>, f: Frame): (r: seq<Cell>)
    ensures |r| == FRAME_SIZE
  {
    [Int(Len(fs)), Int(RegPos(fs, f.dest)), Int(f.cp), f.closure, f.context, Int(Fp(fs))]
  }

  /** An ensure handler's words: a link to the next outer one, and the handler. */
  function Pair(e: Ensure, head: int): seq<Cell> {
    match e
    case Nothing => []
    case Armed(h) => [Int(head), h]
    case Spent(h, link) => [Int(link), h]
  }

  /** What the array holds: frame after frame, from the bottom. */
  function Flat(fs: seq<Frame>): (r: seq<Cell>)
    ensures |r| == Len(fs)
  {
    if fs == [] then []
    else Flat(Front(fs)) + Header(Front(fs), Last(fs)) + Last(fs).regs + Pair(Last(fs).ensure, Head(Front(fs)))
  }

  /** Results go to registers of frames further down. */
  ghost predicate WellFormed(fs: seq<Frame>) {
    forall k | 0 < k < |fs| :: DestOk(fs, fs[k].dest, k)
  }

  predicate DestOk(fs: seq<Frame>, d: Dest, k: nat) {
    d.frame < k && d.frame < |fs| && d.reg < |fs[d.frame].regs|
  }

  function SetReg(fs: seq<Frame>, d: Dest, v: Cell): seq<Frame>
    requires DestOk(fs, d, |fs|)
  {
    fs[d.frame := fs[d.frame].(regs := fs[d.frame].regs[d.reg := v])]
  }

  /** Some frame from t on still has its handler armed. */
  ghost predicate AnyArmed(fs: seq<Frame>, t: nat) {
    exists j :: t <= j < |fs| && fs[j].ensure.Armed?
  }

  /** The innermost frame with an armed handler. */
  function Innermost(fs: seq<Frame>): (j: nat)
    requires AnyArmed(fs, 0)
    ensures j < |fs| && fs[j].ensure.Armed? && forall k | j < k < |fs| :: !fs[k].ensure.Armed?
  {
    if Last(fs).ensure.Armed? then |fs| - 1
    else
      assert AnyArmed(Front(fs), 0) by {
        var j :| 0 <= j < |fs| && fs[j].ensure.Armed?;
        assert Front(fs)[j].ensure.Armed?;
      }
      Innermost(Front(fs))
  }

  /** Frame j's handler is taken off the chain. */
  function Spend(fs: seq<Frame>, j: nat): seq<Frame>
    requires j < |fs| && fs[j].ensure.Armed?
  {
    fs[j := fs[j].(ensure := Spent(fs[j].ensure.handler, Head(fs[..j])))]
  }

  // ---------- layout ----------

  lemma {:induction false} LenMonotone(fs: seq<Frame>, k: nat)
    requires k <= |fs|
    ensures Len(fs[..k]) <= Len(fs) && (k < |fs| ==> Fp(fs[..k + 1]) <= Fp(fs) && Fp(fs[..k + 1]) + |fs[k].regs| <= Len(fs))
  {
    if k == |fs| {
      assert fs[..k] == fs;
    } else if k == |fs| - 1 {
      assert fs[..k + 1] == fs;
    } else {
      assert Front(fs)[..k] == fs[..k] && Front(fs)[..k + 1] == fs[..k + 1];
      LenMonotone(Front(fs), k);
    }
  }

  /** The top frame's words, behind those of the frames below. */
  lemma TopFrame(fs: seq<Frame>)
    requires fs != []
    ensures var rest := Last(fs).regs + Pair(Last(fs).ensure, Head(Front(fs)));
      Flat(fs) == Flat(Front(fs)) + (Header(Front(fs), Last(fs)) + rest)
      && Flat(fs) == Flat(Front(fs)) + Header(Front(fs), Last(fs)) + rest
    ensures Fp(fs) == Len(Front(fs)) + FRAME_SIZE && Len(fs) == Fp(fs) + |Last(fs).regs| + PairSize(Last(fs).ensure)
    ensures Head(fs) == if Last(fs).ensure.Armed? then Fp(fs) + |Last(fs).regs| else Head(Front(fs))
  {
    TopLengths(fs);
    hide Len, Fp, Head, Header, Pair, RegPos;
    Associates(Flat(Front(fs)), Header(Front(fs), Last(fs)), Last(fs).regs, Pair(Last(fs).ensure, Head(Front(fs))));
  }

  lemma TopLengths(fs: seq<Frame>)
    requires fs != []
    ensures Fp(fs) == Len(Front(fs)) + FRAME_SIZE && Len(fs) == Fp(fs) + |Last(fs).regs| + PairSize(Last(fs).ensure)
    ensures Head(fs) == if Last(fs).ensure.Armed? then Fp(fs) + |Last(fs).regs| else Head(Front(fs))
  {
  }

  lemma Associates(a: seq<Cell>, b: seq<Cell>, c: seq<Cell>, d: seq<Cell>)
    ensures a + b + c + d == a + b + (c + d) && a + b + c + d == a + (b + (c + d))
  {
  }

  /** Lower frames are laid out the same whatever is above them. */
  lemma {:induction false} FlatPrefix(fs: seq<Frame>, k: nat)
    requires k <= |fs|
    ensures Len(fs[..k]) <= Len(fs) && Flat(fs)[..Len(fs[..k])] == Flat(fs[..k])
  {
    if k == |fs| {
      assert fs[..k] == fs;
    } else {
      assert Front(fs)[..k] == fs[..k];
      FlatPrefix(Front(fs), k);
      assert Flat(fs)[..Len(Front(fs))] == Flat(Front(fs));
      assert Flat(fs)[..Len(fs[..k])] == Flat(Front(fs))[..Len(fs[..k])];
    }
  }

  /** The words of the k-th frame's header. */
  lemma HeaderAt(fs: seq<Frame>, k: nat)
    requires k < |fs|
    ensures Len(fs[..k]) + FRAME_SIZE == Fp(fs[..k + 1]) <= |Flat(fs)|
    ensures Flat(fs)[Len(fs[..k])..Fp(fs[..k + 1])] == Header(fs[..k], fs[k])
  {
    hide Flat, Len, Fp, Head, Header, Pair;
    var g := fs[..k + 1];
    FlatPrefix(fs, k + 1);
    assert Front(g) == fs[..k] && Last(g) == fs[k];
    TopFrame(g);
    var a := Len(fs[..k]);
    Middle(Flat(fs[..k]), Header(fs[..k], fs[k]), fs[k].regs + Pair(fs[k].ensure, Head(fs[..k])));
    SliceOfPrefix(Flat(fs), Len(g), a, a + FRAME_SIZE);
  }

  lemma SliceOfPrefix(c: seq<Cell>, n: nat, lo: nat, hi: nat)
    requires lo <= hi <= n <= |c|
    ensures c[..n][lo..hi] == c[lo..hi]
  {
  }

  lemma Middle(a: seq<Cell>, b: seq<Cell>, c: seq<Cell>)
    ensures (a + b + c)[|a|..|a| + |b|] == b
  {
  }

  lemma UpdateMiddle(a: seq<Cell>, b: seq<Cell>, c: seq<Cell>, i: nat, v: Cell)
    requires i < |b|
    ensures (a + b + c)[|a| + i := v] == a + b[i := v] + c
  {
  }

  lemma UpdateFirst(a: seq<Cell>, c: seq<Cell>, i: nat, v: Cell)
    requires i < |a|
    ensures (a + c)[i := v] == a[i := v] + c
  {
  }

  /** The chain's head is at or above a frame exactly when some handler of that frame or above is armed. */
  lemma {:induction false} HeadAbove(fs: seq<Frame>, t: nat)
    requires t < |fs|
    ensures Fp(fs[..t + 1]) <= Head(fs) <==> AnyArmed(fs, t)
  {
    LenMonotone(fs, t);
    if Last(fs).ensure.Armed? {
      assert fs[|fs| - 1].ensure.Armed?;
    } else if t == |fs| - 1 {
      assert fs[..t + 1] == fs;
      HeadBelow(Front(fs));
    } else {
      assert Front(fs)[..t + 1] == fs[..t + 1];
      HeadAbove(Front(fs), t);
      if AnyArmed(fs, t) {
        var j :| t <= j < |fs| && fs[j].ensure.Armed?;
        assert Front(fs)[j].ensure.Armed?;
      }
      if AnyArmed(Front(fs), t) {
        var j :| t <= j < |Front(fs)| && Front(fs)[j].ensure.Armed?;
        assert fs[j].ensure.Armed?;
      }
    }
  }

  /** The chain's head never lies above the stack pointer. */
  lemma {:induction false} HeadBelow(fs: seq<Frame>)
    ensures Head(fs) <= Len(fs) && (AnyArmed(fs, 0) ==> Head(fs) + 2 <= Len(fs)) && (!AnyArmed(fs, 0) ==> Head(fs) == 0)
  {
    if fs != [] {
      HeadBelow(Front(fs));
      if !Last(fs).ensure.Armed? {
        if AnyArmed(fs, 0) {
          var j :| 0 <= j < |fs| && fs[j].ensure.Armed?;
          assert Front(fs)[j].ensure.Armed?;
        }
        if AnyArmed(Front(fs), 0) {
          var j :| 0 <= j < |Front(fs)| && Front(fs)[j].ensure.Armed?;
          assert fs[j].ensure.Armed?;
        }
      } else {
        assert fs[|fs| - 1].ensure.Armed?;
      }
    }
  }

  /** What is found at the head of the chain. */
  lemma {:induction false} HeadWords(fs: seq<Frame>)
    requires AnyArmed(fs, 0)
    ensures var j := Innermost(fs);
      && Head(fs) + 1 < |Flat(fs)| && Head(fs) == Head(fs[..j + 1])
      && Flat(fs)[Head(fs)] == Int(Head(fs[..j])) && Flat(fs)[Head(fs) + 1] == fs[j].ensure.handler
  {
    var j := Innermost(fs);
    if Last(fs).ensure.Armed? {
      assert fs[..j + 1] == fs && fs[..j] == Front(fs);
      ArmedWords(fs);
    } else {
      assert Front(fs)[j].ensure.Armed?;
      assert Innermost(Front(fs)) == j;
      hide Flat, Len, Fp, Head, Header, Pair, Innermost;
      assert Front(fs)[..j + 1] == fs[..j + 1] && Front(fs)[..j] == fs[..j];
      HeadWords(Front(fs));
      UnarmedWords(fs);
    }
  }

  /** The top frame has no armed handler: what is at the head is what is there without that frame. */
  lemma UnarmedWords(fs: seq<Frame>)
    requires fs != [] && !Last(fs).ensure.Armed? && Head(Front(fs)) + 1 < |Flat(Front(fs))|
    ensures Head(fs) == Head(Front(fs)) && Head(fs) + 1 < |Flat(fs)|
    ensures Flat(fs)[Head(fs)] == Flat(Front(fs))[Head(fs)] && Flat(fs)[Head(fs) + 1] == Flat(Front(fs))[Head(fs) + 1]
  {
    TopFrame(fs);
  }

  lemma ArmedWords(fs: seq<Frame>)
    requires fs != [] && Last(fs).ensure.Armed?
    ensures Head(fs) + 2 == |Flat(fs)|
    ensures Flat(fs)[Head(fs)] == Int(Head(Front(fs))) && Flat(fs)[Head(fs) + 1] == Last(fs).ensure.handler
  {
    TopFrame(fs);
    assert Pair(Last(fs).ensure, Head(Front(fs))) == [Int(Head(Front(fs))), Last(fs).ensure.handler];
    hide Flat, Len, Fp, Head, Header, Pair;
  }

  /** Two lists of frames with the same layout. */
  ghost predicate SameLayout(fs: seq<Frame>, gs: seq<Frame>) {
    && |fs| == |gs|
    && forall k | 0 <= k < |fs| :: |fs[k].regs| == |gs[k].regs| && PairSize(fs[k].ensure) == PairSize(gs[k].ensure)
  }

  lemma {:induction false} SameLengths(fs: seq<Frame>, gs: seq<Frame>)
    requires SameLayout(fs, gs)
    ensures Len(fs) == Len(gs) && Fp(fs) == Fp(gs) && forall d :: RegPos(fs, d) == RegPos(gs, d)
  {
    if fs != [] {
      forall k | 0 <= k < |Front(fs)| ensures Front(fs)[k] == fs[k] && Front(gs)[k] == gs[k] {
      }
      SameLengths(Front(fs), Front(gs));
    }
    forall d ensures RegPos(fs, d) == RegPos(gs, d) {
      if d.frame + 1 < |fs| {
        assert forall k | 0 <= k <= d.frame :: fs[..d.frame + 1][k] == fs[k] && gs[..d.frame + 1][k] == gs[k];
        SameLengths(fs[..d.frame + 1], gs[..d.frame + 1]);
      } else if d.frame + 1 == |fs| {
        assert fs[..d.frame + 1] == fs && gs[..d.frame + 1] == gs;
      }
    }
  }

  lemma SameFronts(fs: seq<Frame>, gs: seq<Frame>)
    requires SameLayout(fs, gs) && fs != [] && gs != []
    ensures SameLayout(Front(fs), Front(gs)) && Len(Front(fs)) == Len(Front(gs)) && Fp(Front(fs)) == Fp(Front(gs))
    ensures forall d :: RegPos(Front(fs), d) == RegPos(Front(gs), d)
  {
    forall k | 0 <= k < |Front(fs)| ensures Front(fs)[k] == fs[k] && Front(gs)[k] == gs[k] {
    }
    SameLengths(Front(fs), Front(gs));
  }

  /** A word changes in the frames below, and the top frame is the same. */
  lemma LowerWord(fs: seq<Frame>, gs: seq<Frame>, p: nat, v: Cell)
    requires SameLayout(fs, gs) && fs != [] && gs != [] && Last(gs) == Last(fs) && p < |Flat(Front(fs))|
    requires Flat(Front(gs)) == Flat(Front(fs))[p := v] && Head(Front(gs)) == Head(Front(fs))
    ensures p < |Flat(fs)| && Flat(gs) == Flat(fs)[p := v] && Head(gs) == Head(fs)
  {
    hide Flat, Len, Fp, Head, Header, Pair, RegPos;
    TopFrame(fs);
    TopFrame(gs);
    SameFronts(fs, gs);
    SameHeader(Front(fs), Front(gs), Last(fs), Last(gs));
    UpdateFirst(Flat(Front(fs)), Header(Front(fs), Last(fs)) + (Last(fs).regs + Pair(Last(fs).ensure, Head(Front(fs)))), p, v);
  }

  /** Writing a register changes one word of the array and neither a frame's place nor the chain. */
  lemma {:induction false} SetRegFlat(fs: seq<Frame>, d: Dest, v: Cell)
    requires DestOk(fs, d, |fs|)
    ensures RegPos(fs, d) < |Flat(fs)| && Flat(SetReg(fs, d, v)) == Flat(fs)[RegPos(fs, d) := v]
    ensures Head(SetReg(fs, d, v)) == Head(fs) && Fp(SetReg(fs, d, v)) == Fp(fs) && Len(SetReg(fs, d, v)) == Len(fs)
  {
    hide Flat, Len, Fp, Head, Header, Pair, RegPos;
    var gs := SetReg(fs, d, v);
    assert SameLayout(fs, gs);
    SameLengths(fs, gs);
    if d.frame == |fs| - 1 {
      SetTopFlat(fs, d.reg, v);
    } else {
      assert Front(gs) == SetReg(Front(fs), d, v);
      SetRegFlat(Front(fs), d, v);
      RegPosPrefix(fs, d);
      LowerWord(fs, gs, RegPos(fs, d), v);
    }
  }

  lemma RegPosPrefix(fs: seq<Frame>, d: Dest)
    requires d.frame + 1 < |fs|
    ensures RegPos(Front(fs), d) == RegPos(fs, d)
  {
    assert Front(fs)[..d.frame + 1] == fs[..d.frame + 1];
  }

  lemma SetTopFlat(fs: seq<Frame>, r: nat, v: Cell)
    requires fs != [] && r < |Last(fs).regs|
    ensures var gs := SetReg(fs, Dest(|fs| - 1, r), v);
      Fp(fs) + r < |Flat(fs)| && Flat(gs) == Flat(fs)[Fp(fs) + r := v] && Head(gs) == Head(fs)
      && RegPos(fs, Dest(|fs| - 1, r)) == Fp(fs) + r
  {
    var gs := SetReg(fs, Dest(|fs| - 1, r), v);
    assert Front(gs) == Front(fs) && fs[..|fs|] == fs;
    TopFrame(fs);
    TopFrame(gs);
    SameHeader(Front(fs), Front(fs), Last(fs), Last(gs));
    hide Flat, Len, Fp, Head, Header, Pair;
    var low, pair := Flat(Front(fs)) + Header(Front(fs), Last(fs)), Pair(Last(fs).ensure, Head(Front(fs)));
    assert low + (Last(fs).regs + pair) == low + Last(fs).regs + pair;
    UpdateMiddle(low, Last(fs).regs, pair, r, v);
    assert low + (Last(gs).regs + pair) == low + Last(gs).regs + pair;
  }

  lemma SameHeader(fs: seq<Frame>, gs: seq<Frame>, f: Frame, g: Frame)
    requires Len(fs) == Len(gs) && Fp(fs) == Fp(gs) && forall d :: RegPos(fs, d) == RegPos(gs, d)
    requires g.closure == f.closure && g.context == f.context && g.cp == f.cp && g.dest == f.dest
    ensures Header(gs, g) == Header(fs, f)
  {
  }

  /** Taking the innermost handler off the chain changes no word, only the head. */
  lemma {:induction false} SpendFlat(fs: seq<Frame>)
    requires AnyArmed(fs, 0)
    ensures var j := Innermost(fs);
      Flat(Spend(fs, j)) == Flat(fs) && Head(Spend(fs, j)) == Head(fs[..j]) && Fp(Spend(fs, j)) == Fp(fs)
      && forall d :: RegPos(Spend(fs, j), d) == RegPos(fs, d)
  {
    hide Flat, Len, Fp, Head, Header, Pair, RegPos;
    var j := Innermost(fs);
    var gs := Spend(fs, j);
    assert SameLayout(fs, gs);
    SameLengths(fs, gs);
    if j == |fs| - 1 {
      SpendTop(fs);
    } else {
      assert Front(fs)[j].ensure.Armed?;
      assert Innermost(Front(fs)) == j;
      assert Front(fs)[..j] == fs[..j] && Front(gs) == Spend(Front(fs), j);
      SpendFlat(Front(fs));
      SpendBelow(fs, gs);
    }
  }

  lemma SpendTop(fs: seq<Frame>)
    requires fs != [] && Last(fs).ensure.Armed?
    ensures var gs := Spend(fs, |fs| - 1);
      Flat(gs) == Flat(fs) && Head(gs) == Head(fs[..|fs| - 1])
  {
    var gs := Spend(fs, |fs| - 1);
    assert Front(gs) == Front(fs) == fs[..|fs| - 1];
    TopFrame(fs);
    TopFrame(gs);
    SameHeader(Front(fs), Front(gs), Last(fs), Last(gs));
    assert Pair(Last(gs).ensure, Head(Front(gs))) == Pair(Last(fs).ensure, Head(Front(fs)));
    hide Flat, Len, Fp, Head, Header, Pair;
  }

  lemma SpendBelow(fs: seq<Frame>, gs: seq<Frame>)
    requires SameLayout(fs, gs) && fs != [] && gs != [] && Last(gs) == Last(fs) && !Last(fs).ensure.Armed?
    requires Flat(Front(gs)) == Flat(Front(fs))
    ensures Flat(gs) == Flat(fs) && Head(gs) == Head(Front(gs))
  {
    hide Flat, Len, Fp, Head, Header, RegPos;
    TopFrame(fs);
    TopFrame(gs);
    SameFronts(fs, gs);
    SameHeader(Front(fs), Front(gs), Last(fs), Last(gs));
    assert Pair(Last(fs).ensure, Head(Front(fs))) == Pair(Last(gs).ensure, Head(Front(gs)));
  }
}
