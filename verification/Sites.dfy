/** Where the inliner has been: which sends it passes over, and what is in front of the others. */
module Sites {
  import opened Opcodes
  import opened CodeVectors
  import opened Execution
  import opened EditedCode
  import opened Rewriting
  import opened Definedness
  import opened Returns
  import opened Inlining
  import opened InlinedCall
  import opened Guards

  /** What an inline cache knows of one callee of a selector: the argument maps and what runs for them. */
  datatype PicEntry =
    | CompiledCallee(maps: Word, code: seq<Word>, registerCount: nat, defs: Definitions, running: Context)
    | PrimitiveCallee(maps: Word, index: Word)

  /** The commonly called implementations of each selector. */
  type Implementations = map<Word, seq<PicEntry>>

  function Called(impls: Implementations, selector: Word): seq<PicEntry> {
    if selector in impls then impls[selector] else []
  }

  // ---------- instructions that stay ----------

  /** The same instruction, wherever it is and wherever it jumps; a send may be marked. */
  predicate Alike(x: Instr, y: Instr) {
    x.args == y.args && (x.op == y.op || (IsSend(x.op) && IsSend(y.op)))
  }

  ghost predicate SameAt(b: seq<Word>, p: int, c: seq<Word>, q: int) {
    Fits(b, p) && Boundary(c, q) && Fits(c, q) && Length(c, q) == Length(b, p) && Alike(Fetch(b, p), Fetch(c, q))
  }

  /** The instructions before hi are where they were, and still jump there, or as much further as there is more code behind hi. */
  ghost predicate Kept(b: seq<Word>, c: seq<Word>, hi: int) {
    && (forall p | Boundary(b, p) && p <= hi :: Boundary(c, p))
    && forall p | Boundary(b, p) && p < hi && p < |b| :: KeptAt(b, p, c, hi)
  }

  ghost predicate KeptAt(b: seq<Word>, p: int, c: seq<Word>, hi: int) {
    SameAt(b, p, c, p) && (CanJump(b[p]) ==> c[p] == b[p] && Target(c, p) == FurtherBy(Target(b, p), hi, |c| - |b|))
  }

  function FurtherBy(t: int, hi: int, d: int): int {
    if t <= hi then t else t + d
  }

  /** The instructions from i on are from j on. */
  ghost predicate Tail(b: seq<Word>, i: int, c: seq<Word>, j: int) {
    && Boundary(b, i) && Boundary(c, j) && |b| - i == |c| - j
    && forall p | Boundary(b, p) && i <= p < |b| :: TailAt(b, p, c, p - i + j)
  }

  ghost predicate TailAt(b: seq<Word>, p: int, c: seq<Word>, q: int) {
    SameAt(b, p, c, q) && c[q] == b[p] && (CanJump(b[p]) ==> SameWay(p, Target(b, p), q, Target(c, q)))
  }

  lemma SameAtTrans(a: seq<Word>, p: int, b: seq<Word>, q: int, c: seq<Word>, r: int)
    requires SameAt(a, p, b, q) && SameAt(b, q, c, r)
    ensures SameAt(a, p, c, r)
  {
    hide BaseLength, ArgLength, KnownOp, Length, Fetch;
  }

  lemma KeptTrans(a: seq<Word>, b: seq<Word>, c: seq<Word>, hi: int, hi': int)
    requires Kept(a, b, hi) && Kept(b, c, hi') && |a| <= |b| && hi' - hi == |b| - |a|
    ensures Kept(a, c, hi)
  {
    hide BaseLength, ArgLength, KnownOp, Length, Fetch, SameAt, Target;
    forall p | Boundary(a, p) && p < hi && p < |a| ensures KeptAt(a, p, c, hi) {
      assert KeptAt(a, p, b, hi) && KeptAt(b, p, c, hi');
      SameAtTrans(a, p, b, p, c, p);
    }
  }

  lemma TailSelf(b: seq<Word>, i: int)
    requires Boundary(b, i) && Boundary(b, |b|)
    ensures Tail(b, i, b, i)
  {
    hide BaseLength, ArgLength, KnownOp, Length, Fetch;
    forall p | Boundary(b, p) && i <= p < |b| ensures TailAt(b, p, b, p) {
      InstructionEnds(b, p, |b|);
    }
  }

  lemma TailTrans(a: seq<Word>, i: int, b: seq<Word>, j: int, c: seq<Word>, k: int)
    requires Tail(a, i, b, j) && Tail(b, j, c, k)
    ensures Tail(a, i, c, k)
  {
    hide BaseLength, ArgLength, KnownOp, Length, Fetch, CanJump, Target;
    forall p | Boundary(a, p) && i <= p < |a| ensures TailAt(a, p, c, p - i + k) {
      var q, r := p - i + j, p - i + k;
      assert TailAt(a, p, b, q) && TailAt(b, q, c, r);
      SameAtTrans(a, p, b, q, c, r);
    }
  }

  /** Code put in leaves what is before it and what is behind it. */
  lemma InsertKeeps(b: seq<Word>, i: nat, block: seq<Word>, c: seq<Word>)
    requires Sound(b) && Boundary(b, i) && Boundary(block, |block|) && Spliced(b, i, block, c)
    ensures Kept(b, c, i) && Tail(b, i, c, i + |block|)
  {
    hide BaseLength, ArgLength, KnownOp, Length, Fetch, Spliced, Boundary, Fits, Sound;
    MovedSize(b, i, block, c);
    forall p | Boundary(b, p) && p <= i ensures Boundary(c, p) {
      InsertBoundary(b, i, block, c, p);
    }
    forall p | Boundary(b, p) && p < i && p < |b| ensures KeptAt(b, p, c, i) {
      SplicedInstruction(b, i, block, c, p);
      CarriedSame(b, p, c, p, Inserting(i, |block|).MovedTarget(p, Fetch(b, p).target));
    }
    InsertBoundary(b, i, block, c, i);
    forall p | Boundary(b, p) && i <= p < |b| ensures TailAt(b, p, c, p + |block|) {
      InsertBoundary(b, i, block, c, p);
      SplicedInstruction(b, i, block, c, p + |block|);
      CarriedSame(b, p, c, p + |block|, Inserting(i, |block|).MovedTarget(p, Fetch(b, p).target));
    }
  }

  lemma CarriedSame(b: seq<Word>, p: int, c: seq<Word>, q: int, t: int)
    requires Fits(b, p) && Carried(b, p, c, q, t) && Boundary(c, q)
    ensures SameAt(b, p, c, q) && c[q] == b[p]
    ensures CanJump(b[p]) ==> Target(b, p) == Fetch(b, p).target && Target(c, q) == t
  {
    FetchShows(b, p);
    FetchShows(c, q);
    hide BaseLength, ArgLength, KnownOp, Length, Fetch;
  }

  /** Marking sends leaves everything. */
  lemma RenamedKeeps(b: seq<Word>, c: seq<Word>)
    requires Renamed(b, c) && Sound(b) && forall p :: Boundary(c, p) <==> Boundary(b, p)
    ensures Kept(b, c, |b|)
  {
    hide BaseLength, ArgLength, KnownOp, Length, Fetch, Renamed, Boundary;
    RenamedSize(b, c);
    forall p | Boundary(b, p) && p < |b| ensures KeptAt(b, p, c, |b|) {
      RenamedSame(b, c, p);
    }
  }

  lemma RenamedSame(b: seq<Word>, c: seq<Word>, p: int)
    requires Renamed(b, c) && Sound(b) && Boundary(b, p) && p < |b| && Boundary(c, p)
    ensures SameAt(b, p, c, p) && (c[p] == b[p] || MarkOnly(b[p], c[p]))
    ensures CanJump(b[p]) ==> c[p] == b[p] && Target(c, p) == Target(b, p)
  {
    assert SoundAt(b, p);
    RenamedInstruction(b, c, p);
    FetchShows(b, p);
    FetchShows(c, p);
    hide BaseLength, ArgLength, KnownOp, Length, Fetch, Renamed, Boundary;
  }

  // ---------- which sends are marked ----------

  /** The guard at g has the send at p behind it, as the walk sees it: its jump leads right behind the send, or to it. */
  ghost predicate Marks(c: seq<Word>, g: int, p: int) {
    && 0 <= g < p && Boundary(c, g) && Fits(c, g) && Fits(c, p)
    && ((c[g] == OP_INLINE_PRIMITIVE_CHECK && Target(c, g) == p + Length(c, p)) || (c[g] == OP_INLINE_METHOD_CHECK && Target(c, g) == p))
  }

  /** A plain send that no earlier guard marks. */
  ghost predicate PlainSend(c: seq<Word>, p: int) {
    Boundary(c, p) && p < |c| && Fits(c, p) && c[p] == OP_SEND && !exists g :: Marks(c, g, p)
  }

  ghost predicate MarkedBy(c: seq<Word>, seen: int, p: int) {
    exists g :: g < seen && Marks(c, g, p)
  }

  /** From r on the original code is ahead at i, with the sends marked that belong to the guards before seen. */
  ghost predicate Ahead(c0: seq<Word>, r: int, seen: int, c: seq<Word>, i: int) {
    && Boundary(c0, r) && Boundary(c, i) && |c0| - r == |c| - i
    && forall p | Boundary(c0, p) && r <= p < |c0| :: AheadAt(c0, p, seen, c, p - r + i)
  }

  ghost predicate AheadAt(c0: seq<Word>, p: int, seen: int, c: seq<Word>, q: int) {
    && SameAt(c0, p, c, q) && (CanJump(c0[p]) ==> SameWay(p, Target(c0, p), q, Target(c, q)))
    && if c0[p] == OP_SEND then c[q] == (if MarkedBy(c0, seen, p) then OP_INTERNAL_SEND else OP_SEND) else c[q] == c0[p]
  }

  lemma AheadAtFirst(c: seq<Word>)
    requires Sound(c)
    ensures Ahead(c, 0, 0, c, 0)
  {
    hide BaseLength, ArgLength, KnownOp, Length, Fetch;
    assert Tiled(c, 0, 0);
    forall p | Boundary(c, p) && 0 <= p < |c| ensures AheadAt(c, p, 0, c, p) {
      assert SoundAt(c, p);
      assert !MarkedBy(c, 0, p);
    }
  }

  /** What the walk has done when it has looked at the instruction at i. */
  ghost predicate Looked(c: seq<Word>, i: int, c': seq<Word>)
    requires Fits(c, i)
  {
    if c[i] == OP_INLINE_PRIMITIVE_CHECK then exists l :: EndsAt(c, l, Target(c, i)) && IsSend(c[l]) && c' == c[l := OP_INTERNAL_SEND]
    else if c[i] == OP_INLINE_METHOD_CHECK then
      0 <= Target(c, i) < |c| && c' == if c[Target(c, i)] == OP_SEND then c[Target(c, i) := OP_INTERNAL_SEND] else c
    else c' == c
  }

  /** The next instruction ahead. */
  lemma NextAhead(c0: seq<Word>, r: int, seen: int, c: seq<Word>, i: int)
    requires Ahead(c0, r, seen, c, i) && 0 <= i < |c| && Boundary(c, |c|)
    ensures 0 <= r < |c0| && Boundary(c0, r) && AheadAt(c0, r, seen, c, i) && Length(c0, r) >= 1
    ensures Boundary(c0, r + Length(c0, r)) && Boundary(c, i + Length(c0, r)) && i + Length(c0, r) <= |c|
    ensures forall p | Boundary(c0, p) && r < p :: r + Length(c0, r) <= p
  {
    hide BaseLength, ArgLength, KnownOp, Length, Fetch;
    BoundaryIsTiled(c0, r);
    assert AheadAt(c0, r, seen, c, i);
    InstructionEnds0(c0, r);
    InstructionEnds0(c, i);
    BoundaryIsTiled(c, i + Length(c, i));
    forall p | Boundary(c0, p) && r < p ensures r + Length(c0, r) <= p {
      InstructionEnds(c0, r, p);
    }
  }

  /** Looking at one guard marks the send that belongs to it, if it is ahead, and no other one. */
  lemma LookAhead(c0: seq<Word>, r: int, c: seq<Word>, i: int, c': seq<Word>)
    requires Ahead(c0, r, r, c, i) && 0 <= i < |c| && Boundary(c, |c|) && Fits(c, i) && Looked(c, i, c') && Sound(c)
    requires Renamed(c, c') && forall p :: Boundary(c', p) <==> Boundary(c, p)
    ensures 0 <= r < |c0| && Fits(c0, r) && Ahead(c0, r, r + Length(c0, r), c', i)
  {
    hide BaseLength, ArgLength, KnownOp, Length, Fetch, Renamed, Looked, AheadAt, Boundary, Fits;
    NextAhead(c0, r, r, c, i);
    RenamedSize(c, c');
    AheadFits(c0, r, r, c, i);
    FitsHere(c0, r);
    forall p | Boundary(c0, p) && r <= p < |c0| ensures AheadAt(c0, p, r + Length(c0, r), c', p - r + i) {
      assert AheadAt(c0, p, r, c, p - r + i);
      LookAheadAt(c0, r, c, i, c', p);
    }
  }

  lemma AheadFits(c0: seq<Word>, p: int, seen: int, c: seq<Word>, q: int)
    requires AheadAt(c0, p, seen, c, q)
    ensures Fits(c0, p) && Fits(c, q) && Boundary(c, q) && Length(c, q) == Length(c0, p) && (c[q] == c0[p] || MarkOnly(c0[p], c[q]))
    ensures CanJump(c0[p]) ==> c[q] == c0[p] && SameWay(p, Target(c0, p), q, Target(c, q))
  {
    hide BaseLength, ArgLength, KnownOp, Length, Fetch, MarkedBy;
  }

  lemma FitsHere(c: seq<Word>, p: int)
    requires Fits(c, p)
    ensures 0 <= p < |c| && p + BaseLength(c[p]) < |c|
  {
  }

  lemma RenamedSize(c: seq<Word>, c': seq<Word>)
    requires Renamed(c, c')
    ensures |c'| == |c|
  {
  }

  /** The guards before the one at r and the one at r mark what those before the next instruction mark. */
  lemma OneMoreGuard(c0: seq<Word>, r: int, p: int)
    requires Boundary(c0, r) && 0 <= r && Fits(c0, r)
    ensures MarkedBy(c0, r + Length(c0, r), p) <==> MarkedBy(c0, r, p) || Marks(c0, r, p)
  {
    hide BaseLength, ArgLength, KnownOp, Length;
    InstructionEnds0(c0, r);
    if MarkedBy(c0, r + Length(c0, r), p) {
      var g :| g < r + Length(c0, r) && Marks(c0, g, p);
      if r < g {
        InstructionEnds(c0, r, g);
      }
    }
  }

  lemma LookAheadAt(c0: seq<Word>, r: int, c: seq<Word>, i: int, c': seq<Word>, p: int)
    requires 0 <= r && Boundary(c0, r) && 0 <= i && Boundary(c, i) && AheadAt(c0, r, r, c, i) && Boundary(c0, p) && r <= p < |c0|
    requires AheadAt(c0, p, r, c, p - r + i) && Fits(c, i) && Fits(c0, r) && Looked(c, i, c') && Sound(c) && i < |c| && p - r + i < |c|
    requires Renamed(c, c') && forall q :: Boundary(c', q) <==> Boundary(c, q)
    ensures AheadAt(c0, p, r + Length(c0, r), c', p - r + i)
  {
    hide BaseLength, ArgLength, KnownOp, Length, Fetch, Renamed, Boundary, Fits, Alike, Sound;
    var q := p - r + i;
    OneMoreGuard(c0, r, p);
    AheadFits(c0, p, r, c, q);
    RenamedSame(c, c', q);
    SameAtTrans(c0, p, c, q, c', q);
    LookedOp(c0, r, c, i, c', p);
  }

  /** Which word is at the instruction for p after the look. */
  lemma LookedOp(c0: seq<Word>, r: int, c: seq<Word>, i: int, c': seq<Word>, p: int)
    requires 0 <= r && Boundary(c0, r) && 0 <= i && Boundary(c, i) && AheadAt(c0, r, r, c, i) && Boundary(c0, p) && r <= p < |c0|
    requires AheadAt(c0, p, r, c, p - r + i) && Fits(c, i) && Fits(c0, r) && Looked(c, i, c') && p - r + i < |c| && |c'| == |c| && i < |c|
    ensures Fits(c0, p)
    ensures c'[p - r + i] == if c0[p] == OP_SEND && Marks(c0, r, p) then OP_INTERNAL_SEND else c[p - r + i]
  {
    hide BaseLength, ArgLength, KnownOp, Length, Fetch, Boundary;
    var q := p - r + i;
    AheadFits(c0, r, r, c, i);
    AheadFits(c0, p, r, c, q);
    if c[i] == OP_INLINE_PRIMITIVE_CHECK {
      var l :| EndsAt(c, l, Target(c, i)) && IsSend(c[l]) && c' == c[l := OP_INTERNAL_SEND];
      if q == l {
        EndsForward(c, i, l);
      } else if Marks(c0, r, p) {
        InstructionEnds0(c0, p);
        assert c0[r] == OP_INLINE_PRIMITIVE_CHECK && CanJump(c0[r]);
        assert Target(c0, r) == p + Length(c0, p) && r < Target(c0, r);
        assert Target(c, i) == q + Length(c, q);
        TwoEnds(c, l, q, Target(c, i));
      }
    }
  }

  lemma EndsForward(c: seq<Word>, i: int, l: int)
    requires Fits(c, i) && Boundary(c, i) && Boundary(c, l) && Fits(c, l) && i <= l && IsSend(c[l]) && c[i] == OP_INLINE_PRIMITIVE_CHECK
    ensures i < l < l + Length(c, l)
  {
    InstructionEnds0(c, l);
  }

  lemma TwoEnds(c: seq<Word>, l: int, q: int, t: int)
    requires EndsAt(c, l, t) && EndsAt(c, q, t)
    ensures l == q
  {
    hide BaseLength, ArgLength, KnownOp, Length;
    if l < q {
      InstructionEnds(c, l, q);
      InstructionEnds0(c, q);
    } else if q < l {
      InstructionEnds(c, q, l);
      InstructionEnds0(c, l);
    }
  }

  /** The walk goes on behind the instruction at i, which has become the one at i'. */
  lemma AheadOnward(c0: seq<Word>, r: int, seen: int, c: seq<Word>, i: int, cm: seq<Word>, c': seq<Word>, i': int)
    requires Ahead(c0, r, seen, c, i) && 0 <= i < |c| && Sound(c) && Boundary(c, |c|)
    requires cm == c || cm == c[i := OP_INTERNAL_SEND]
    requires Renamed(c, cm) && (forall p :: Boundary(cm, p) <==> Boundary(c, p)) && Tail(cm, i, c', i')
    ensures 0 <= r < |c0| && Fits(c0, r) && Ahead(c0, r + Length(c0, r), seen, c', i' + Length(c0, r))
  {
    hide BaseLength, ArgLength, KnownOp, Length, Fetch, Renamed, AheadAt, Boundary, Fits, Sound, TailAt;
    NextAhead(c0, r, seen, c, i);
    RenamedSize(c, cm);
    AheadFits(c0, r, seen, c, i);
    FitsHere(c0, r);
    var n := Length(c0, r);
    TailBoundary(cm, i, c', i', i + n);
    forall p | Boundary(c0, p) && r + n <= p < |c0| ensures AheadAt(c0, p, seen, c', p - (r + n) + (i' + n)) {
      var q := p - r + i;
      assert AheadAt(c0, p, seen, c, q);
      AheadFits(c0, p, seen, c, q);
      assert Boundary(cm, q) && i <= q < |cm|;
      assert TailAt(cm, q, c', q - i + i');
      AheadMoved(c0, p, seen, c, q, cm, c', q - i + i');
    }
  }

  lemma TailBoundary(b: seq<Word>, i: int, c: seq<Word>, j: int, p: int)
    requires Tail(b, i, c, j) && Boundary(b, p) && i <= p && Boundary(b, |b|) && Boundary(b, i)
    ensures Boundary(c, p - i + j)
    decreases p - i
  {
    hide BaseLength, ArgLength, KnownOp, Length, Fetch;
    if i < p {
      BoundaryIsTiled(b, p);
      BoundaryIsTiled(b, i);
      InstructionEnds(b, i, p);
      InstructionEnds0(b, i);
      assert TailAt(b, i, c, j);
      InstructionEnds0(c, j);
      TailOf(b, i, c, j);
      TailBoundary(b, i + Length(b, i), c, j + Length(b, i), p);
    }
  }

  lemma TailOf(b: seq<Word>, i: int, c: seq<Word>, j: int)
    requires Tail(b, i, c, j) && Boundary(b, i) && Fits(b, i)
    ensures Tail(b, i + Length(b, i), c, j + Length(b, i))
  {
    hide BaseLength, ArgLength, KnownOp, Length, Fetch;
    InstructionEnds0(b, i);
    BoundaryIsTiled(b, i);
    FitsHere(b, i);
    assert TailAt(b, i, c, j);
    InstructionEnds0(c, j);
    forall p | Boundary(b, p) && i + Length(b, i) <= p < |b| ensures TailAt(b, p, c, p - i + j) {
    }
  }

  lemma AheadMoved(c0: seq<Word>, p: int, seen: int, c: seq<Word>, q: int, cm: seq<Word>, c': seq<Word>, q': int)
    requires AheadAt(c0, p, seen, c, q) && Boundary(c, q) && 0 <= q < |c| && q < |cm| && cm[q] == c[q] && TailAt(cm, q, c', q')
    requires Renamed(c, cm) && Sound(c) && Boundary(cm, q)
    ensures AheadAt(c0, p, seen, c', q')
  {
    hide BaseLength, ArgLength, KnownOp, Length, Fetch, Renamed, Boundary, Fits, Alike, Sound, MarkedBy, Target;
    RenamedSame(c, cm, q);
    SameAtTrans(c0, p, c, q, cm, q);
    SameAtTrans(c0, p, cm, q, c', q');
    AheadFits(c0, p, seen, c, q);
  }

  // ---------- what is put in front of a send ----------

  /** The words of the instruction at p. */
  function WordsAt(c: seq<Word>, p: int): seq<Word>
    requires Fits(c, p)
  {
    c[p..p + Length(c, p)]
  }

  /** The code w is in c, from a on. */
  ghost predicate Holds(c: seq<Word>, a: int, w: seq<Word>) {
    Boundary(w, |w|) && Boundary(c, a) && forall q | Boundary(w, q) && q < |w| :: SameAt(w, q, c, a + q)
  }

  ghost predicate NoVariables(w: seq<Word>) {
    forall q | Boundary(w, q) && q < |w| :: Fits(w, q) && !IsVariableOp(w[q])
  }

  /** What a callee's code becomes: renumbered from base on, without variable instructions, with the argument moves, with its returns rewritten. */
  ghost predicate BodyReady(code: seq<Word>, registerCount: int, base: int, args: seq<Word>, resultReg: int, out: int,
                            b1: seq<Word>, b2: seq<Word>, b3: seq<Word>, b4: seq<Word>) {
    && Shifted(code, b1, base, |code|) && Sound(b2) && Closed(b2) && Sound(b3) && Closed(b3)
    && (exists at :: StripMap(b1, b2, at))
    && (forall ok | All(b1, ok) :: All(b2, ok)) && (forall m, ctx :: SameEnds(m, ctx, b1, b2))
    && Spliced(b2, 0, Prelude(args, base), b3) && ReplacedSoFar(b3, |b3|, b4, resultReg, out)
    && All(b3, Within(0, base + registerCount))
  }

  ghost predicate CalleeBody(code: seq<Word>, registerCount: int, base: int, send: seq<Word>, body: seq<Word>)
    requires 4 <= |send|
  {
    NoVariables(body) && exists b1, b2, b3 :: BodyReady(code, registerCount, base, send[4..], ObjectToSmallint(send[1]), |send|, b1, b2, b3, body)
  }

  /**
   * From a up to b there is a guard with the entry's maps and the arguments of the send. The guard of a compiled callee
   * jumps to b, and the callee's code is behind it, in registers from n on; that of a primitive jumps behind the send.
   */
  ghost predicate BlockFor(c: seq<Word>, a: int, b: int, e: PicEntry, send: seq<Word>, n: int, after: int) {
    && 4 <= |send| && 0 <= a && a + |send| <= b < |c| && Boundary(c, a) && Fits(c, a) && Boundary(c, b)
    && match e
       case CompiledCallee(maps, code, registerCount, _, _) =>
         && c[a] == OP_INLINE_METHOD_CHECK && c[a + 1] == maps && c[a + 2] == SmallintToObject(|send| - 4)
         && c[a + 4..a + |send|] == send[4..] && Length(c, a) == |send| && Target(c, a) == b
         && exists base, body :: n <= base && CalleeBody(code, registerCount, base, send, body) && b == a + |send| + |body| && Holds(c, a + |send|, body)
       case PrimitiveCallee(maps, index) =>
         && b == a + 2 + |send| && c[a] == OP_INLINE_PRIMITIVE_CHECK && c[a + 1] == send[1] && c[a + 2] == maps && c[a + 3] == index
         && c[a + 4] == SmallintToObject(|send| - 4) && c[a + 6..b] == send[4..] && Length(c, a) == b - a && Target(c, a) == after
  }

  ghost predicate SendIs(c: seq<Word>, s: int, send: seq<Word>) {
    4 <= |send| && Boundary(c, s) && Fits(c, s) && IsSend(c[s]) && Length(c, s) == |send| && c[s + 1..s + |send|] == send[1..]
  }

  /** The blocks of the first three entries, one right behind the other, and the send right behind them. */
  ghost predicate SiteIs(c: seq<Word>, starts: seq<int>, send: seq<Word>, entries: seq<PicEntry>, n: int) {
    && |starts| == Taken(entries) + 1 && SendIs(c, starts[Taken(entries)], send)
    && forall k | 0 <= k < Taken(entries) :: BlockFor(c, starts[k], starts[k + 1], entries[k], send, n, starts[Taken(entries)] + |send|)
  }

  function Taken(entries: seq<PicEntry>): (r: nat)
    ensures r <= |entries|
  {
    if |entries| <= 3 then |entries| else 3
  }

  /** An instruction that stays keeps its words, but for the jump and the mark. */
  lemma SameWordAt(b: seq<Word>, p: int, c: seq<Word>, q: int)
    requires SameAt(b, p, c, q)
    ensures 0 <= p && 0 <= q && 1 <= Length(b, p) && p + Length(b, p) <= |b| && q + Length(b, p) <= |c| && (IsSend(b[p]) <==> IsSend(c[q]))
    ensures !IsSend(b[p]) ==> c[q] == b[p]
    ensures forall j | q < j < q + Length(b, p) && !(CanJump(b[p]) && j - q == JumpParameter(b[p])) :: c[j] == b[j - q + p]
  {
    FetchShows(b, p);
    FetchShows(c, q);
    hide BaseLength, ArgLength, KnownOp, Length;
    var x, y, n := Fetch(b, p), Fetch(c, q), Length(b, p);
    forall j | q < j < q + n && !(CanJump(b[p]) && j - q == JumpParameter(b[p])) ensures c[j] == b[j - q + p] {
      assert x.args[j - q - 1] == b[p + 1..p + n][j - q - 1] == b[j - q + p];
      assert y.args[j - q - 1] == c[q + 1..q + n][j - q - 1] == c[j];
    }
  }

  lemma SameWordsFrom(b: seq<Word>, p: int, c: seq<Word>, q: int, lo: nat)
    requires SameAt(b, p, c, q) && 1 <= lo <= Length(b, p) && (CanJump(b[p]) ==> JumpParameter(b[p]) < lo)
    ensures 0 <= p && 0 <= q && p + Length(b, p) <= |b| && q + Length(b, p) <= |c|
    ensures c[q + lo..q + Length(b, p)] == b[p + lo..p + Length(b, p)]
  {
    SameWordAt(b, p, c, q);
    hide BaseLength, ArgLength, KnownOp, Length, Fetch, Fits, Boundary;
    var n := Length(b, p);
    var x, y := c[q + lo..q + n], b[p + lo..p + n];
    forall k | 0 <= k < n - lo ensures x[k] == y[k] {
      assert x[k] == c[q + lo + k];
    }
  }

  // ---------- a block stays where it is when code is put in behind it ----------

  lemma KeptHolds(b: seq<Word>, c: seq<Word>, hi: int, a: int, w: seq<Word>)
    requires Kept(b, c, hi) && Holds(b, a, w) && a + |w| <= hi <= |b|
    ensures Holds(c, a, w)
  {
    hide BaseLength, ArgLength, KnownOp, Length, Fetch, Alike;
    forall q | Boundary(w, q) && q < |w| ensures SameAt(w, q, c, a + q) {
      assert SameAt(w, q, b, a + q);
      assert KeptAt(b, a + q, c, hi);
      SameAtTrans(w, q, b, a + q, c, a + q);
    }
  }

  lemma KeptBlock(b: seq<Word>, c: seq<Word>, hi: int, x: int, y: int, e: PicEntry, send: seq<Word>, n: int, after: int)
    requires Kept(b, c, hi) && BlockFor(b, x, y, e, send, n, after) && y <= hi <= |b| && y < |c|
    ensures BlockFor(c, x, y, e, send, n, FurtherBy(after, hi, |c| - |b|))
  {
    hide BaseLength, ArgLength, KnownOp, Length, Fetch, CalleeBody, Holds, Boundary, Fits, Target;
    assert KeptAt(b, x, c, hi);
    BlockMoved(b, x, y, c, x, e, send, n, after);
    assert y - x + x == y;
    match e
    case CompiledCallee(maps, code, registerCount, _, _) =>
      var base, body :| n <= base && CalleeBody(code, registerCount, base, send, body) && y == x + |send| + |body| && Holds(b, x + |send|, body);
      KeptHolds(b, c, hi, x + |send|, body);
    case _ =>
  }

  /** The words of the guard of a block, where the guard is now. */
  lemma BlockMoved(b: seq<Word>, x: int, y: int, c: seq<Word>, x': int, e: PicEntry, send: seq<Word>, n: int, after: int)
    requires BlockFor(b, x, y, e, send, n, after) && SameAt(b, x, c, x')
    ensures Fits(c, x') && Boundary(c, x') && 0 <= x' && x' + Length(c, x') <= |c| && Length(c, x') == Length(b, x)
    ensures e.CompiledCallee? ==> Length(b, x) == |send| && c[x'] == OP_INLINE_METHOD_CHECK && c[x' + 1] == e.maps
                                  && c[x' + 2] == SmallintToObject(|send| - 4) && c[x' + 4..x' + |send|] == send[4..]
    ensures e.PrimitiveCallee? ==> Length(b, x) == |send| + 2 && c[x'] == OP_INLINE_PRIMITIVE_CHECK && c[x' + 1] == send[1] && c[x' + 2] == e.maps
                                   && c[x' + 3] == e.index && c[x' + 4] == SmallintToObject(|send| - 4) && c[x' + 6..x' + 2 + |send|] == send[4..]
  {
    hide BaseLength, ArgLength, KnownOp, Length, Fetch, CalleeBody, Holds, Boundary, Fits, Alike, Target;
    SameFits(b, x, c, x');
    SameWordAt(b, x, c, x');
    SameWordsFrom(b, x, c, x', if e.CompiledCallee? then 4 else 6);
  }

  lemma SameFits(b: seq<Word>, p: int, c: seq<Word>, q: int)
    requires SameAt(b, p, c, q)
    ensures Fits(c, q) && Boundary(c, q) && Length(c, q) == Length(b, p) && 0 <= q && q + Length(c, q) <= |c| && q + BaseLength(c[q]) < |c|
    ensures 0 <= p && p + Length(b, p) <= |b| && p + BaseLength(b[p]) < |b|
  {
  }

  lemma KeptSend(b: seq<Word>, c: seq<Word>, hi: int, s: int, send: seq<Word>)
    requires Kept(b, c, hi) && SendIs(b, s, send) && s + |send| <= hi <= |b|
    ensures SendIs(c, s, send) && s + |send| <= |c|
  {
    hide BaseLength, ArgLength, KnownOp, Length, Fetch, Boundary, Fits;
    FitsHere(b, s);
    assert KeptAt(b, s, c, hi);
    SendMoved(b, s, c, s, send);
  }

  lemma SendMoved(b: seq<Word>, s: int, c: seq<Word>, t: int, send: seq<Word>)
    requires SendIs(b, s, send) && SameAt(b, s, c, t)
    ensures SendIs(c, t, send) && 0 <= t && t + |send| <= |c|
  {
    hide BaseLength, ArgLength, KnownOp, Length, Fetch, Boundary, Fits, Alike;
    SameFits(b, s, c, t);
    SameWordAt(b, s, c, t);
    SameWordsFrom(b, s, c, t, 1);
  }

  lemma {:induction false} KeptSite(b: seq<Word>, c: seq<Word>, hi: int, starts: seq<int>, send: seq<Word>, entries: seq<PicEntry>, n: int)
    requires Kept(b, c, hi) && SiteIs(b, starts, send, entries, n) && starts[Taken(entries)] + |send| <= hi <= |b|
    ensures SiteIs(c, starts, send, entries, n)
  {
    hide BlockFor, SendIs, Kept, Fits;
    var after := starts[Taken(entries)] + |send|;
    KeptSend(b, c, hi, starts[Taken(entries)], send);
    SendThere(c, starts[Taken(entries)], send);
    forall k | 0 <= k < Taken(entries) ensures BlockFor(c, starts[k], starts[k + 1], entries[k], send, n, after) {
      StartsRise(b, starts, send, entries, n, k + 1);
      KeptBlock(b, c, hi, starts[k], starts[k + 1], entries[k], send, n, after);
    }
  }

  lemma SendThere(c: seq<Word>, s: int, send: seq<Word>)
    requires SendIs(c, s, send)
    ensures 4 <= |send| && 0 <= s && s + |send| <= |c|
  {
  }

  lemma {:induction false} StartsRise(b: seq<Word>, starts: seq<int>, send: seq<Word>, entries: seq<PicEntry>, n: int, k: nat)
    requires SiteIs(b, starts, send, entries, n) && k <= Taken(entries)
    ensures starts[k] <= starts[Taken(entries)]
    decreases Taken(entries) - k
  {
    if k < Taken(entries) {
      assert BlockFor(b, starts[k], starts[k + 1], entries[k], send, n, starts[Taken(entries)] + |send|);
      hide BlockFor, SendIs;
      StartsRise(b, starts, send, entries, n, k + 1);
    }
  }

  // ---------- a block as it is put in ----------

  lemma HoldsHere(c: seq<Word>, a: nat, w: seq<Word>)
    requires Boundary(c, a) && Boundary(w, |w|) && a + |w| <= |c| && c[a..a + |w|] == w
    ensures Holds(c, a, w)
  {
    hide BaseLength, ArgLength, KnownOp, Length, Fetch, Fits, Boundary;
    forall q | Boundary(w, q) && q < |w| ensures SameAt(w, q, c, a + q) {
      HeldInstruction(c, a, w, q);
    }
  }

  lemma HeldInstruction(c: seq<Word>, a: nat, w: seq<Word>, q: int)
    requires Boundary(c, a) && Boundary(w, |w|) && a + |w| <= |c| && c[a..a + |w|] == w && Boundary(w, q) && q < |w|
    ensures SameAt(w, q, c, a + q)
  {
    hide BaseLength, ArgLength, KnownOp, Length, Fetch, Fits;
    BoundaryIsTiled(w, q);
    InstructionEnds(w, q, |w|);
    FitsInside(w, q);
    assert c[0 + a..q + a] == c[a..a + |w|][..q] == w[0..q];
    TiledMove(w, 0, q, c, a);
    TiledConcat(c, 0, a, a + q);
    SubSlice(c, a, w, q, Length(w, q));
    SameWords(w, q, c, a + q);
    FetchShows(w, q);
    FetchShows(c, a + q);
  }

  /** The guard and the code of a compiled callee, in front of the send that they are for. */
  lemma MethodBlock(c: seq<Word>, i: nat, e: PicEntry, base: int, body: seq<Word>, send: seq<Word>, n: int, after: int)
    requires e.CompiledCallee? && 4 <= |send| && n <= base && Boundary(body, |body|) && CalleeBody(e.code, e.registerCount, base, send, body)
    requires var block := MethodGuard(e.maps, |send| - 4, |body|, send[4..]) + body;
      i + |block| < |c| && c[i..i + |block|] == block && Boundary(c, i) && Boundary(c, i + |block|)
    ensures BlockFor(c, i, i + |send| + |body|, e, send, n, after)
  {
    hide BaseLength, ArgLength, KnownOp, Length, Fetch, CalleeBody, Holds, Boundary, Fits, Target;
    var args := send[4..];
    var block := MethodGuard(e.maps, |args|, |body|, args) + body;
    HeadCarried(c, i, block, e.maps, args, |body|, body);
    InstructionEnds0(c, i);
    FetchShows(c, i);
    assert c[i] == c[i..i + |block|][0] && c[i + 1] == c[i..i + |block|][1] && c[i + 2] == c[i..i + |block|][2];
    assert block[4..|send|] == args;
    SubSlice(c, i, block, 4, |args|);
    assert c[i + |send|..i + |send| + |body|] == c[i..i + |block|][|send|..] == body;
    HoldsHere(c, i + |send|, body);
  }

  /** The guard of a primitive, in front of the send that it is for. */
  lemma PrimitiveBlock(c: seq<Word>, i: nat, e: PicEntry, send: seq<Word>, n: int)
    requires e.PrimitiveCallee? && 4 <= |send| && IsSmallint(send[1])
    requires var block := PrimitiveGuard(ObjectToSmallint(send[1]), e.maps, e.index, |send| - 4, |send|, send[4..]);
      i + |block| < |c| && c[i..i + |block|] == block && Boundary(c, i) && Boundary(c, i + |block|)
    ensures BlockFor(c, i, i + |send| + 2, e, send, n, i + |send| + 2 + |send|)
  {
    hide BaseLength, ArgLength, KnownOp, Length, Fetch, Boundary, Fits, Target;
    var args := send[4..];
    var block := PrimitiveGuard(ObjectToSmallint(send[1]), e.maps, e.index, |args|, |send|, args);
    PrimitiveGuardShape(ObjectToSmallint(send[1]), e.maps, e.index, |send|, args);
    SameWords(block, 0, c, i);
    FetchShows(c, i);
    FitsHere(block, 0);
    assert c[i] == c[i..i + |block|][0] && c[i + 1] == c[i..i + |block|][1] && c[i + 2] == c[i..i + |block|][2];
    assert c[i + 3] == c[i..i + |block|][3] && c[i + 4] == c[i..i + |block|][4];
    assert c[i + 6..i + |block|] == c[i..i + |block|][6..] == args;
  }

  // ---------- the sends that have been passed ----------

  /** In front of every plain send before r there is what belongs there; all that is before i. */
  ghost predicate Passed0(c0: seq<Word>, r: int, c: seq<Word>, i: int, impls: Implementations, n: int) {
    forall p | PlainSend(c0, p) && p < r :: Inlined(c0, p, c, i, impls, n)
  }

  ghost predicate Inlined(c0: seq<Word>, p: int, c: seq<Word>, i: int, impls: Implementations, n: int)
    requires PlainSend(c0, p)
  {
    p + 2 < |c0| && exists starts :: SiteIs(c, starts, WordsAt(c0, p), Called(impls, c0[p + 2]), n) && EndsBy(starts, WordsAt(c0, p), i)
  }

  predicate EndsBy(starts: seq<int>, send: seq<Word>, i: int) {
    0 < |starts| && starts[|starts| - 1] + |send| <= i
  }

  lemma KeptInlined(c0: seq<Word>, r: int, b: seq<Word>, i: int, c: seq<Word>, impls: Implementations, n: int)
    requires Passed0(c0, r, b, i, impls, n) && Kept(b, c, i) && i <= |b|
    ensures Passed0(c0, r, c, i, impls, n)
  {
    hide SiteIs, Kept;
    forall p | PlainSend(c0, p) && p < r ensures Inlined(c0, p, c, i, impls, n) {
      assert Inlined(c0, p, b, i, impls, n);
      var send, entries := WordsAt(c0, p), Called(impls, c0[p + 2]);
      var starts :| SiteIs(b, starts, send, entries, n) && EndsBy(starts, send, i);
      SiteSize(b, starts, send, entries, n);
      KeptSite(b, c, i, starts, send, entries, n);
    }
  }

  lemma SiteSize(c: seq<Word>, starts: seq<int>, send: seq<Word>, entries: seq<PicEntry>, n: int)
    requires SiteIs(c, starts, send, entries, n)
    ensures |starts| == Taken(entries) + 1
  {
  }

  /** The instruction at r passed: if it is a plain send, then with what belongs in front of it. */
  lemma PassedOne(c0: seq<Word>, r: int, c: seq<Word>, i: int, i': int, impls: Implementations, n: int)
    requires Boundary(c0, r) && 0 <= r < |c0| && Fits(c0, r) && Passed0(c0, r, c, i, impls, n) && i <= i'
    requires PlainSend(c0, r) ==> Inlined(c0, r, c, i', impls, n)
    ensures Passed0(c0, r + Length(c0, r), c, i', impls, n)
  {
    hide SiteIs, BaseLength, ArgLength, KnownOp, Length, Marks;
    forall p | PlainSend(c0, p) && p < r + Length(c0, r) ensures Inlined(c0, p, c, i', impls, n) {
      if r < p {
        InstructionEnds(c0, r, p);
      } else if p < r {
        assert Inlined(c0, p, c, i, impls, n);
        var send, entries := WordsAt(c0, p), Called(impls, c0[p + 2]);
        var starts :| SiteIs(c, starts, send, entries, n) && EndsBy(starts, send, i);
        assert EndsBy(starts, send, i');
      }
    }
  }

  /** Plain sends are those found plain, with the words that they have in the original. */
  lemma FoundPlain(c0: seq<Word>, r: int, c: seq<Word>, i: int)
    requires Boundary(c0, r) && 0 <= r < |c0| && Fits(c0, r) && AheadAt(c0, r, r + Length(c0, r), c, i)
    ensures Fits(c, i) && (c[i] == OP_SEND <==> PlainSend(c0, r))
    ensures c[i] == OP_SEND ==> WordsAt(c, i) == WordsAt(c0, r) && r + 2 < |c0| && i + 2 < |c| && c[i + 2] == c0[r + 2]
  {
    AheadFits(c0, r, r + Length(c0, r), c, i);
    FitsHere(c0, r);
    InstructionEnds0(c0, r);
    assert MarkedBy(c0, r + Length(c0, r), r) <==> exists g :: Marks(c0, g, r);
    if c[i] == OP_SEND {
      SendLength(c0, r);
      hide BaseLength, ArgLength, KnownOp, Length, Fetch, Boundary, Fits, Marks, Alike;
      SameWordsFrom(c0, r, c, i, 1);
      SameFits(c0, r, c, i);
      assert WordsAt(c, i) == [c[i]] + c[i + 1..i + Length(c0, r)];
      assert WordsAt(c0, r) == [c0[r]] + c0[r + 1..r + Length(c0, r)];
      assert WordsAt(c, i)[2] == WordsAt(c0, r)[2];
    }
  }

  lemma SendLength(c: seq<Word>, p: int)
    requires Fits(c, p) && IsSend(c[p])
    ensures 4 <= Length(c, p) && !CanJump(c[p]) && p + Length(c, p) <= |c|
  {
  }

  // ---------- the registers of the callees put in ----------

  function RegistersOf(e: PicEntry): nat {
    if e.CompiledCallee? then e.registerCount else 0
  }

  function RegistersOfFirst(entries: seq<PicEntry>, k: nat): nat
    requires k <= |entries|
  {
    if k == 0 then 0 else RegistersOfFirst(entries, k - 1) + RegistersOf(entries[k - 1])
  }

  /** The registers of all callees that are put in front of the plain sends from p on. */
  ghost function RegistersFrom(c: seq<Word>, impls: Implementations, p: int): nat
    decreases |c| - p
  {
    if 0 <= p < |c| && Fits(c, p) then
      (if PlainSend(c, p) && p + 2 < |c| then RegistersOfFirst(Called(impls, c[p + 2]), Taken(Called(impls, c[p + 2]))) else 0)
      + RegistersFrom(c, impls, p + Length(c, p))
    else 0
  }

  // ---------- without the variable instructions ----------

  /** An instruction that is no variable instruction is still there. */
  lemma StripKeeps(b: seq<Word>, c: seq<Word>, at: map<int, int>, p: int)
    requires StripMap(b, c, at) && Boundary(b, p) && p < |b| && !IsVariableOp(b[p])
    ensures p in at && Fits(b, p) && p + Length(b, p) in at && at[p + Length(b, p)] == at[p] + Length(b, p) && SameAt(b, p, c, at[p])
    ensures CanJump(b[p]) && Boundary(b, Target(b, p)) ==> Target(b, p) in at && c[at[p]] == b[p] && Target(c, at[p]) == at[Target(b, p)]
  {
    hide BaseLength, ArgLength, KnownOp, Length, Fetch, Target;
    assert StripAt(b, p, c, at);
    assert Fetch(b, p).args == Fetch(c, at[p]).args;
  }

  /** Code that holds no variable instructions is still in one piece. */
  lemma {:induction false} StripHolds(b: seq<Word>, c: seq<Word>, at: map<int, int>, a: int, w: seq<Word>, x: int, y: int)
    requires StripMap(b, c, at) && Holds(b, a, w) && NoVariables(w) && Boundary(w, x) && Tiled(w, x, y) && a + x in at
    ensures a + y in at && at[a + y] == at[a + x] + y - x
    ensures forall q | Boundary(w, q) && x <= q < y && q < |w| :: SameAt(w, q, c, at[a + x] + q - x)
    decreases y - x
  {
    hide BaseLength, ArgLength, KnownOp, Length, Fetch, Boundary, Fits, Alike, StripMap;
    if x < y {
      InstructionEnds0(w, x);
      BoundaryIsTiled(w, x);
      TiledInside(w, x, y);
      assert SameAt(w, x, b, a + x);
      HeldPlain(b, a, w, x);
      StripKeeps(b, c, at, a + x);
      SameAtTrans(w, x, b, a + x, c, at[a + x]);
      StripHolds(b, c, at, a, w, x + Length(w, x), y);
      forall q | Boundary(w, q) && x <= q < y && q < |w| ensures SameAt(w, q, c, at[a + x] + q - x) {
        if x < q {
          InstructionEnds(w, x, q);
        }
      }
    }
  }

  lemma TiledInside(w: seq<Word>, x: int, y: int)
    requires Tiled(w, x, y) && x < y
    ensures Fits(w, x) && Tiled(w, x + Length(w, x), y) && 0 <= x < |w| && y <= |w|
  {
  }

  lemma HeldPlain(b: seq<Word>, a: int, w: seq<Word>, x: int)
    requires SameAt(w, x, b, a + x) && NoVariables(w) && Boundary(w, x) && x < |w|
    ensures Boundary(b, a + x) && 0 <= a + x < |b| && !IsVariableOp(b[a + x]) && Length(b, a + x) == Length(w, x)
  {
    FetchShows(w, x);
    FetchShows(b, a + x);
    hide BaseLength, ArgLength, KnownOp, Length, Fetch, Boundary;
  }

  lemma StripBlock(b: seq<Word>, c: seq<Word>, at: map<int, int>, x: int, y: int, e: PicEntry, send: seq<Word>, n: int, after: int)
    requires StripMap(b, c, at) && BlockFor(b, x, y, e, send, n, after) && y in at && at[y] < |c| && Boundary(b, after) && after in at
    ensures x in at && BlockFor(c, at[x], at[y], e, send, n, at[after])
  {
    hide BaseLength, ArgLength, KnownOp, Length, Fetch, CalleeBody, Holds, Boundary, Fits, StripMap, Target;
    StripKeeps(b, c, at, x);
    BlockMoved(b, x, y, c, at[x], e, send, n, after);
    StripBoundary(b, c, at, y);
    match e
    case CompiledCallee(maps, code, registerCount, _, _) =>
      var base, body :| n <= base && CalleeBody(code, registerCount, base, send, body) && y == x + |send| + |body| && Holds(b, x + |send|, body);
      StripBody(b, c, at, x + |send|, body, code, registerCount, base, send);
    case _ =>
  }

  lemma StripBoundary(b: seq<Word>, c: seq<Word>, at: map<int, int>, p: int)
    requires StripMap(b, c, at) && Boundary(b, p)
    ensures p in at && Boundary(c, at[p])
  {
  }

  lemma StripBody(b: seq<Word>, c: seq<Word>, at: map<int, int>, a: int, body: seq<Word>, code: seq<Word>, registerCount: int, base: int, send: seq<Word>)
    requires StripMap(b, c, at) && 4 <= |send| && CalleeBody(code, registerCount, base, send, body) && Holds(b, a, body)
    ensures a in at && a + |body| in at && at[a + |body|] == at[a] + |body| && Holds(c, at[a], body)
  {
    hide BaseLength, ArgLength, KnownOp, Length, Fetch, BodyReady, StripMap, Fits;
    StripBoundary(b, c, at, a);
    assert Tiled(body, 0, 0);
    StripHolds(b, c, at, a, body, 0, |body|);
    forall q | Boundary(body, q) && q < |body| ensures SameAt(body, q, c, at[a] + q) {
      BoundaryIsTiled(body, q);
    }
  }

  lemma StripSite(b: seq<Word>, c: seq<Word>, at: map<int, int>, starts: seq<int>, send: seq<Word>, entries: seq<PicEntry>, n: int) returns (starts': seq<int>)
    requires StripMap(b, c, at) && SiteIs(b, starts, send, entries, n)
    ensures SiteIs(c, starts', send, entries, n)
  {
    hide BlockFor, StripMap, Boundary, Fits;
    var t := Taken(entries);
    var after := starts[t] + |send|;
    StripSend(b, c, at, starts[t], send);
    starts' := seq(|starts|, k requires 0 <= k < |starts| => if starts[k] in at then at[starts[k]] else 0);
    StripStarts(b, c, at, starts, send, entries, n, 0);
    forall k | 0 <= k < t ensures BlockFor(c, starts'[k], starts'[k + 1], entries[k], send, n, starts'[t] + |send|) {
      StripStarts(b, c, at, starts, send, entries, n, k + 1);
      StripBlock(b, c, at, starts[k], starts[k + 1], entries[k], send, n, after);
    }
  }

  /** The send, and what is behind it. */
  lemma StripSend(b: seq<Word>, c: seq<Word>, at: map<int, int>, s: int, send: seq<Word>)
    requires StripMap(b, c, at) && SendIs(b, s, send)
    ensures s in at && SendIs(c, at[s], send) && at[s] < |c| && s + |send| in at && Boundary(b, s + |send|) && at[s + |send|] == at[s] + |send|
  {
    SendIsPlain(b, s, send);
    hide StripMap, BaseLength, ArgLength, KnownOp, Length, Fetch, Boundary, Fits;
    StripKeeps(b, c, at, s);
    SendMoved(b, s, c, at[s], send);
    InstructionEnds0(b, s);
  }

  lemma SendIsPlain(b: seq<Word>, s: int, send: seq<Word>)
    requires SendIs(b, s, send)
    ensures Boundary(b, s) && 0 <= s < |b| && !IsVariableOp(b[s])
  {
  }

  /** All starts stay inside the code. */
  lemma {:induction false} StripStarts(b: seq<Word>, c: seq<Word>, at: map<int, int>, starts: seq<int>, send: seq<Word>, entries: seq<PicEntry>, n: int, k: nat)
    requires StripMap(b, c, at) && SiteIs(b, starts, send, entries, n) && k <= Taken(entries)
    ensures starts[k] in at && at[starts[k]] < |c|
    decreases Taken(entries) - k
  {
    hide StripMap, Boundary, Fits;
    var t := Taken(entries);
    StripSend(b, c, at, starts[t], send);
    if k < t {
      StripStarts(b, c, at, starts, send, entries, n, k + 1);
      var after := starts[t] + |send|;
      assert BlockFor(b, starts[k], starts[k + 1], entries[k], send, n, after);
      hide BlockFor;
      StripBlock(b, c, at, starts[k], starts[k + 1], entries[k], send, n, after);
      BlockInside(c, at[starts[k]], at[starts[k + 1]], entries[k], send, n, at[after]);
    }
  }

  lemma BlockInside(c: seq<Word>, a: int, b: int, e: PicEntry, send: seq<Word>, n: int, after: int)
    requires BlockFor(c, a, b, e, send, n, after)
    ensures 0 <= a < b < |c|
  {
  }

  /** What is in front of the plain sends is still in front of them when variable instructions and marks have gone. */
  lemma StripInlined(c0: seq<Word>, b: seq<Word>, c: seq<Word>, at: map<int, int>, c': seq<Word>, impls: Implementations, n: int)
    requires Passed0(c0, |c0|, b, |b|, impls, n) && StripMap(b, c, at) && Kept(c, c', |c|)
    ensures Passed0(c0, |c0|, c', |c|, impls, n)
  {
    hide SiteIs, Kept, StripMap;
    forall p | PlainSend(c0, p) && p < |c0| ensures Inlined(c0, p, c', |c|, impls, n) {
      assert Inlined(c0, p, b, |b|, impls, n);
      var send, entries := WordsAt(c0, p), Called(impls, c0[p + 2]);
      var starts :| SiteIs(b, starts, send, entries, n) && EndsBy(starts, send, |b|);
      var starts' := StripSite(b, c, at, starts, send, entries, n);
      SiteSize(c, starts', send, entries, n);
      SiteEnd(c, starts', send, entries, n);
      KeptSite(c, c', |c|, starts', send, entries, n);
      assert EndsBy(starts', send, |c|);
    }
  }

  lemma SiteEnd(c: seq<Word>, starts: seq<int>, send: seq<Word>, entries: seq<PicEntry>, n: int)
    requires SiteIs(c, starts, send, entries, n)
    ensures |starts| == Taken(entries) + 1 && starts[Taken(entries)] + |send| <= |c|
  {
  }

  // ---------- one step of the walk ----------

  /** Up to r the walk over c0 is done, and has come to i; seen is one behind r while it is at the instruction there. */
  ghost predicate Progress(c0: seq<Word>, r: int, seen: int, c: seq<Word>, i: int, impls: Implementations, n: int) {
    0 <= i <= |c| && Boundary(c, |c|) && Ahead(c0, r, seen, c, i) && Passed0(c0, r, c, i, impls, n)
  }

  lemma StartProgress(c: seq<Word>, impls: Implementations, n: int)
    requires Sound(c)
    ensures Progress(c, 0, 0, c, 0, impls, n)
  {
    hide Inlined, Ahead;
    AheadAtFirst(c);
    forall p | PlainSend(c, p) ensures 0 <= p {
      BoundaryIsTiled(c, p);
    }
  }

  lemma KeptLess(b: seq<Word>, c: seq<Word>, hi: int, lo: int)
    requires Kept(b, c, hi) && lo <= hi && |c| == |b|
    ensures Kept(b, c, lo)
  {
    hide SameAt, Target;
    forall p | Boundary(b, p) && p < lo && p < |b| ensures KeptAt(b, p, c, lo) {
      assert KeptAt(b, p, c, hi);
    }
  }

  lemma LookProgress(c0: seq<Word>, r: int, c: seq<Word>, i: int, c': seq<Word>, impls: Implementations, n: int)
    requires Progress(c0, r, r, c, i, impls, n) && i < |c| && Fits(c, i) && Looked(c, i, c') && Sound(c)
    requires Renamed(c, c') && forall p :: Boundary(c', p) <==> Boundary(c, p)
    ensures 0 <= r < |c0| && Fits(c0, r) && Progress(c0, r, r + Length(c0, r), c', i, impls, n)
  {
    hide BaseLength, ArgLength, KnownOp, Length, Fits, Renamed, Looked, Ahead, Boundary, Passed0, Kept, Sound;
    LookAhead(c0, r, c, i, c');
    RenamedSize(c, c');
    RenamedKeeps(c, c');
    KeptLess(c, c', |c|, i);
    KeptInlined(c0, r, c, i, c', impls, n);
  }

  /** An instruction that is no plain send is passed over. */
  lemma PassProgress(c0: seq<Word>, r: int, c: seq<Word>, i: int, impls: Implementations, n: int)
    requires Fits(c0, r) && Progress(c0, r, r + Length(c0, r), c, i, impls, n) && i < |c| && Fits(c, i) && Sound(c) && c[i] != OP_SEND
    ensures !PlainSend(c0, r) && Length(c, i) == Length(c0, r)
    ensures Progress(c0, r + Length(c0, r), r + Length(c0, r), c, i + Length(c, i), impls, n)
  {
    var seen := r + Length(c0, r);
    hide BaseLength, ArgLength, KnownOp, Length, Fits, Ahead, Boundary, Passed0, Sound, AheadAt, PlainSend, Tail;
    NextAhead(c0, r, seen, c, i);
    FoundPlain(c0, r, c, i);
    AheadFits(c0, r, seen, c, i);
    AheadBoundary(c0, r, seen, c, i);
    TailSelf(c, i);
    SameCode(c);
    AheadOnward(c0, r, seen, c, i, c, c, i);
    PassedOne(c0, r, c, i, i + Length(c, i), impls, n);
  }

  lemma AheadBoundary(c0: seq<Word>, r: int, seen: int, c: seq<Word>, i: int)
    requires Ahead(c0, r, seen, c, i)
    ensures Boundary(c, i) && Boundary(c0, r)
  {
  }

  lemma SameCode(c: seq<Word>)
    ensures Renamed(c, c)
  {
  }

  /** Behind a plain send and its blocks the walk goes on. */
  lemma SendAhead(c0: seq<Word>, r: int, c: seq<Word>, i: int, c': seq<Word>, i': int, impls: Implementations, n: int)
    requires Fits(c0, r) && Progress(c0, r, r + Length(c0, r), c, i, impls, n) && i < |c| && Fits(c, i) && Sound(c) && c[i] == OP_SEND && i + 2 < |c|
    requires var cm := c[i := OP_INTERNAL_SEND]; Renamed(c, cm) && (forall p :: Boundary(cm, p) <==> Boundary(c, p)) && Tail(cm, i, c', i')
    ensures PlainSend(c0, r) && r + 2 < |c0| && c0[r + 2] == c[i + 2] && Length(c, i) == Length(c0, r) && WordsAt(c, i) == WordsAt(c0, r)
    ensures Ahead(c0, r + Length(c0, r), r + Length(c0, r), c', i' + Length(c, i)) && i' + Length(c, i) <= |c'| && 0 <= r < |c0| && Boundary(c0, r)
    ensures 0 <= i' + Length(c, i)
  {
    hide BaseLength, ArgLength, KnownOp, Length, Fits, Ahead, Boundary, Passed0, Sound, AheadAt, PlainSend, Tail, Renamed, WordsAt, Progress, IsSend,
      Called, Inlined, MarkOnly;
    FitsHere(c0, r);
    var seen := r + Length(c0, r);
    ProgressAhead(c0, r, seen, c, i, impls, n);
    NextAhead(c0, r, seen, c, i);
    FoundPlain(c0, r, c, i);
    AheadSize(c0, r, seen, c, i);
    AheadOnward(c0, r, seen, c, i, c[i := OP_INTERNAL_SEND], c', i');
    AheadInside(c0, seen, seen, c', i' + Length(c0, r));
  }

  lemma ProgressAhead(c0: seq<Word>, r: int, seen: int, c: seq<Word>, i: int, impls: Implementations, n: int)
    requires Progress(c0, r, seen, c, i, impls, n)
    ensures 0 <= i <= |c| && Boundary(c, |c|) && Ahead(c0, r, seen, c, i)
  {
  }

  lemma AheadSize(c0: seq<Word>, r: int, seen: int, c: seq<Word>, i: int)
    requires AheadAt(c0, r, seen, c, i)
    ensures Fits(c, i) && Fits(c0, r) && Length(c, i) == Length(c0, r)
  {
    hide Length, BaseLength, ArgLength, KnownOp, Fetch;
  }

  lemma ProgressPassed(c0: seq<Word>, r: int, seen: int, c: seq<Word>, i: int, impls: Implementations, n: int)
    requires Progress(c0, r, seen, c, i, impls, n)
    ensures 0 <= i <= |c| && Passed0(c0, r, c, i, impls, n)
  {
  }

  lemma IsProgress(c0: seq<Word>, r: int, seen: int, c: seq<Word>, i: int, impls: Implementations, n: int)
    requires 0 <= i <= |c| && Boundary(c, |c|) && Ahead(c0, r, seen, c, i) && Passed0(c0, r, c, i, impls, n)
    ensures Progress(c0, r, seen, c, i, impls, n)
  {
  }

  /** A plain send is passed over when its blocks are in front of it. */
  lemma SendProgress(c0: seq<Word>, r: int, c: seq<Word>, i: int, c': seq<Word>, i': int, starts: seq<int>, impls: Implementations, n: int)
    requires Fits(c0, r) && Progress(c0, r, r + Length(c0, r), c, i, impls, n) && i < |c| && Fits(c, i) && Sound(c) && c[i] == OP_SEND && i + 2 < |c|
    requires SiteIs(c', starts, WordsAt(c, i), Called(impls, c[i + 2]), n) && 0 < |starts| && starts[|starts| - 1] == i' && i <= i'
    requires var cm := c[i := OP_INTERNAL_SEND]; Renamed(c, cm) && (forall p :: Boundary(cm, p) <==> Boundary(c, p)) && Tail(cm, i, c', i')
    requires Kept(c, c', i) && Boundary(c', |c'|)
    ensures PlainSend(c0, r) && r + 2 < |c0| && c0[r + 2] == c[i + 2] && Length(c, i) == Length(c0, r)
    ensures Progress(c0, r + Length(c0, r), r + Length(c0, r), c', i' + Length(c, i), impls, n)
  {
    hide BaseLength, ArgLength, KnownOp, Length, Fits, Ahead, Boundary, Passed0, Sound, AheadAt, PlainSend, Tail, SiteIs, Kept, Renamed, Inlined, WordsAt,
      Progress, Taken, Called;
    SendAhead(c0, r, c, i, c', i', impls, n);
    FitsHere(c0, r);
    FitsHere(c, i);
    ProgressPassed(c0, r, r + Length(c0, r), c, i, impls, n);
    KeptInlined(c0, r, c, i, c', impls, n);
    SiteInlined(c0, r, c, i, c', i', starts, impls, n);
    WordsSize(c, i);
    PassedOne(c0, r, c', i, i' + Length(c, i), impls, n);
    IsProgress(c0, r + Length(c0, r), r + Length(c0, r), c', i' + Length(c, i), impls, n);
  }

  lemma SiteInlined(c0: seq<Word>, r: int, c: seq<Word>, i: int, c': seq<Word>, i': int, starts: seq<int>, impls: Implementations, n: int)
    requires PlainSend(c0, r) && Fits(c, i) && r + 2 < |c0| && 0 <= i && i + 2 < |c| && c[i + 2] == c0[r + 2] && WordsAt(c, i) == WordsAt(c0, r)
    requires SiteIs(c', starts, WordsAt(c, i), Called(impls, c[i + 2]), n) && 0 < |starts| && starts[|starts| - 1] == i'
    ensures Inlined(c0, r, c', i' + Length(c, i), impls, n)
  {
    hide SiteIs, Fits, Length, BaseLength, ArgLength, KnownOp;
    WordsSize(c, i);
    FitsHere(c, i);
    assert EndsBy(starts, WordsAt(c0, r), i' + Length(c, i));
  }

  lemma AheadInside(c0: seq<Word>, r: int, seen: int, c: seq<Word>, i: int)
    requires Ahead(c0, r, seen, c, i)
    ensures 0 <= i <= |c|
  {
    BoundaryIsTiled(c, i);
  }

  lemma WordsSize(c: seq<Word>, i: int)
    requires Fits(c, i)
    ensures |WordsAt(c, i)| == Length(c, i) && 1 <= Length(c, i) && WordsAt(c, i)[0] == c[i]
  {
  }

  lemma RegistersNext(c: seq<Word>, impls: Implementations, p: int)
    requires 0 <= p < |c| && Fits(c, p)
    ensures RegistersFrom(c, impls, p) == RegistersFrom(c, impls, p + Length(c, p))
       + if PlainSend(c, p) && p + 2 < |c| then RegistersOfFirst(Called(impls, c[p + 2]), Taken(Called(impls, c[p + 2]))) else 0
  {
    hide BaseLength, ArgLength, KnownOp, Length, Fits, PlainSend;
  }

  // ---------- the blocks of one send, as they are put in ----------

  /** A send that stays keeps its words. */
  lemma TailWords(b: seq<Word>, i: int, c: seq<Word>, j: int)
    requires Tail(b, i, c, j) && 0 <= i < |b| && Fits(b, i) && IsSend(b[i])
    ensures Fits(c, j) && WordsAt(c, j) == WordsAt(b, i)
  {
    assert TailAt(b, i, c, j);
    SendLength(b, i);
    hide BaseLength, ArgLength, KnownOp, Length, Fetch, Boundary, Fits, Alike;
    SameFits(b, i, c, j);
    SameWordsFrom(b, i, c, j, 1);
    assert WordsAt(c, j) == [c[j]] + c[j + 1..j + Length(b, i)];
    assert WordsAt(b, i) == [b[i]] + b[i + 1..i + Length(b, i)];
  }

  /** The blocks so far, for a send that is at i. */
  ghost predicate Blocks(c: seq<Word>, starts: seq<int>, k: nat, i: int, send: seq<Word>, entries: seq<PicEntry>, n: int) {
    && |starts| == k + 1 && k <= |entries| && starts[k] == i && (forall j | 0 <= j <= k :: starts[j] <= i)
    && forall j | 0 <= j < k :: BlockFor(c, starts[j], starts[j + 1], entries[j], send, n, i + |send|)
  }

  lemma OneMoreBlock(b: seq<Word>, c: seq<Word>, starts: seq<int>, k: nat, i: int, i': int, send: seq<Word>, entries: seq<PicEntry>, n: int)
    requires Blocks(b, starts, k, i, send, entries, n) && k < |entries| && Kept(b, c, i) && i <= |b| && i < i' < |c| && |c| - |b| == i' - i
    requires BlockFor(c, i, i', entries[k], send, n, i' + |send|) && 1 <= |send|
    ensures Blocks(c, starts + [i'], k + 1, i', send, entries, n)
  {
    hide BlockFor, Kept;
    forall j | 0 <= j < k ensures BlockFor(c, starts[j], starts[j + 1], entries[j], send, n, i' + |send|) {
      KeptBlock(b, c, i, starts[j], starts[j + 1], entries[j], send, n, i + |send|);
    }
  }

  lemma BodySend(code: seq<Word>, registerCount: int, base: int, send: seq<Word>, send': seq<Word>, body: seq<Word>)
    requires 4 <= |send| == |send'| && send'[4..] == send[4..] && send'[1] == send[1] && CalleeBody(code, registerCount, base, send, body)
    ensures CalleeBody(code, registerCount, base, send', body)
  {
    hide BodyReady, NoVariables;
  }

  /** Whether the send is marked does not matter. */
  lemma BlockSend(c: seq<Word>, a: int, b: int, e: PicEntry, send: seq<Word>, send': seq<Word>, n: int, after: int)
    requires BlockFor(c, a, b, e, send, n, after) && |send'| == |send| && 1 <= |send| && send'[1..] == send[1..]
    ensures BlockFor(c, a, b, e, send', n, after)
  {
    assert 4 <= |send|;
    assert send'[1] == send'[1..][0] && send[1] == send[1..][0];
    assert send'[4..] == send'[1..][3..] && send[4..] == send[1..][3..];
    hide *;
    if e.CompiledCallee? {
      CompiledSend(c, a, b, e, send, send', n, after);
    } else {
      PrimitiveSend(c, a, b, e, send, send', n, after);
    }
  }

  lemma PrimitiveSend(c: seq<Word>, a: int, b: int, e: PicEntry, send: seq<Word>, send': seq<Word>, n: int, after: int)
    requires e.PrimitiveCallee? && BlockFor(c, a, b, e, send, n, after) && 4 <= |send| && |send'| == |send| && send'[1] == send[1] && send'[4..] == send[4..]
    ensures BlockFor(c, a, b, e, send', n, after)
  {
    hide Fits, Boundary, Length, BaseLength, ArgLength, KnownOp;
  }

  lemma CompiledSend(c: seq<Word>, a: int, b: int, e: PicEntry, send: seq<Word>, send': seq<Word>, n: int, after: int)
    requires e.CompiledCallee? && BlockFor(c, a, b, e, send, n, after) && 4 <= |send| && |send'| == |send| && send'[1] == send[1] && send'[4..] == send[4..]
    ensures BlockFor(c, a, b, e, send', n, after)
  {
    hide CalleeBody, Holds, Fits, Boundary, Length, BaseLength, ArgLength, KnownOp;
    var base, body :| n <= base && CalleeBody(e.code, e.registerCount, base, send, body) && b == a + |send| + |body| && Holds(c, a + |send|, body);
    BodySend(e.code, e.registerCount, base, send, send', body);
  }

  lemma SiteOfBlocks(c: seq<Word>, starts: seq<int>, i: int, send: seq<Word>, send': seq<Word>, entries: seq<PicEntry>, n: int)
    requires Blocks(c, starts, Taken(entries), i, send, entries, n) && Boundary(c, i) && Fits(c, i) && IsSend(c[i]) && WordsAt(c, i) == send
    requires |send'| == |send| && send'[1..] == send[1..]
    ensures SiteIs(c, starts, send', entries, n)
  {
    SendLength(c, i);
    WordsSize(c, i);
    hide BaseLength, ArgLength, KnownOp, Length, Boundary, Fits, BlockFor;
    assert c[i + 1..i + |send|] == WordsAt(c, i)[1..];
    forall k | 0 <= k < Taken(entries) ensures BlockFor(c, starts[k], starts[k + 1], entries[k], send', n, i + |send|) {
      BlockSend(c, starts[k], starts[k + 1], entries[k], send, send', n, i + |send|);
    }
  }

  /** Marking a send changes its first word only. */
  lemma MarkedWords(c: seq<Word>, i: int)
    requires 0 <= i < |c| && Fits(c, i) && c[i] == OP_SEND && Fits(c[i := OP_INTERNAL_SEND], i)
    ensures var cm := c[i := OP_INTERNAL_SEND];
      |WordsAt(cm, i)| == |WordsAt(c, i)| && 1 <= |WordsAt(c, i)| && WordsAt(cm, i)[1..] == WordsAt(c, i)[1..]
  {
    var cm := c[i := OP_INTERNAL_SEND];
    assert Length(cm, i) == Length(c, i) >= 1;
    assert cm[i + 1..i + Length(c, i)] == c[i + 1..i + Length(c, i)];
  }
}
