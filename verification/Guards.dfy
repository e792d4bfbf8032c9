/** The guards of primitives that a method's code has already when the inliner starts; it asserts that each jumps right behind a send. */
module Guards {
  import opened Opcodes
  import opened CodeVectors
  import opened Execution
  import opened EditedCode
  import opened Rewriting
  import opened Inlining

  /** The instruction in front of t is a send. */
  ghost predicate BehindSend(c: seq<Word>, t: int) {
    exists l :: EndsAt(c, l, t) && IsSend(c[l])
  }

  ghost predicate EndsAt(c: seq<Word>, l: int, t: int) {
    0 <= l < |c| && Boundary(c, l) && Fits(c, l) && l + Length(c, l) == t
  }

  /** A guard at p that jumps forward jumps right behind a send; when strict, it does jump forward. */
  ghost predicate GuardRight(c: seq<Word>, p: int, strict: bool)
    requires Fits(c, p)
  {
    c[p] == OP_INLINE_PRIMITIVE_CHECK ==> if p < Target(c, p) then BehindSend(c, Target(c, p)) else !strict
  }

  ghost predicate GuardsRight(c: seq<Word>, from: int, strict: bool) {
    forall p | Boundary(c, p) && from <= p < |c| :: Fits(c, p) && GuardRight(c, p, strict)
  }

  /** A jump forward goes as far, one that does not does not. */
  predicate SameWay(p: int, t: int, q: int, u: int) {
    (p < t <==> q < u) && (p < t ==> u - q == t - p)
  }

  /** The same instructions from i on as from j on, but that sends may be marked and jumps go elsewhere that go back. */
  ghost predicate SameRest(b: seq<Word>, i: int, c: seq<Word>, j: int) {
    && Boundary(b, i) && Boundary(c, j) && |b| - i == |c| - j
    && forall p | Boundary(b, p) && i <= p < |b| :: SameHere(b, p, c, p - i + j)
  }

  ghost predicate SameHere(b: seq<Word>, p: int, c: seq<Word>, q: int) {
    && Fits(b, p) && Boundary(c, q) && Fits(c, q) && Length(c, q) == Length(b, p) && (IsSend(b[p]) ==> IsSend(c[q]))
    && (b[p] == OP_INLINE_PRIMITIVE_CHECK <==> c[q] == OP_INLINE_PRIMITIVE_CHECK)
    && (b[p] == OP_INLINE_PRIMITIVE_CHECK ==> SameWay(p, Target(b, p), q, Target(c, q)))
  }

  lemma EndsInRest(b: seq<Word>, i: int, p: int, l: int, t: int)
    requires Boundary(b, p) && i <= p < t && EndsAt(b, l, t)
    ensures i <= l
  {
    hide BaseLength, ArgLength, KnownOp, Length;
    if l < p {
      InstructionEnds(b, l, p);
    }
  }

  lemma BehindHere(b: seq<Word>, i: int, c: seq<Word>, j: int, p: int, t: int)
    requires SameRest(b, i, c, j) && Boundary(b, p) && i <= p < t && BehindSend(b, t)
    ensures BehindSend(c, t - i + j)
  {
    hide BaseLength, ArgLength, KnownOp, Length, Boundary;
    var l :| EndsAt(b, l, t) && IsSend(b[l]);
    EndsInRest(b, i, p, l, t);
    assert SameHere(b, l, c, l - i + j);
    assert EndsAt(c, l - i + j, t - i + j);
  }

  /** A right guard stays right. */
  lemma RightHere(b: seq<Word>, i: int, c: seq<Word>, j: int, p: int, strict: bool)
    requires SameRest(b, i, c, j) && Boundary(b, p) && i <= p < |b| && Fits(b, p) && GuardRight(b, p, strict)
    ensures Fits(c, p - i + j) && GuardRight(c, p - i + j, strict)
  {
    hide BaseLength, ArgLength, KnownOp, Length, Boundary, BehindSend;
    assert SameHere(b, p, c, p - i + j);
    if b[p] == OP_INLINE_PRIMITIVE_CHECK && p < Target(b, p) {
      BehindHere(b, i, c, j, p, Target(b, p));
    }
  }

  lemma RestRight(b: seq<Word>, i: int, c: seq<Word>, j: int, strict: bool)
    requires SameRest(b, i, c, j) && SameRest(c, j, b, i) && GuardsRight(b, i, strict)
    ensures GuardsRight(c, j, strict)
  {
    hide BaseLength, ArgLength, KnownOp, Length, Boundary, GuardRight;
    forall q | Boundary(c, q) && j <= q < |c| ensures Fits(c, q) && GuardRight(c, q, strict) {
      assert SameHere(c, q, b, q - j + i);
      RestAt(c, j, b, i, q);
      RightHere(b, i, c, j, q - j + i, strict);
    }
  }

  lemma RestAt(b: seq<Word>, i: int, c: seq<Word>, j: int, p: int)
    requires SameRest(b, i, c, j) && Boundary(b, p) && i <= p < |b|
    ensures Boundary(c, p - i + j) && Fits(c, p - i + j) && p - i + j < |c|
  {
    assert SameHere(b, p, c, p - i + j);
  }

  lemma RestSame(b: seq<Word>, i: int, c: seq<Word>, j: int)
    requires SameRest(b, i, c, j) && SameRest(c, j, b, i)
    ensures forall strict :: GuardsRight(b, i, strict) <==> GuardsRight(c, j, strict)
  {
    hide SameRest, GuardsRight;
    forall strict ensures GuardsRight(b, i, strict) <==> GuardsRight(c, j, strict) {
      if GuardsRight(b, i, strict) {
        RestRight(b, i, c, j, strict);
      }
      if GuardsRight(c, j, strict) {
        RestRight(c, j, b, i, strict);
      }
    }
  }

  // ---------- what the inliner does ----------

  /** Marking sends changes no guard. */
  lemma MarkedRest(b: seq<Word>, c: seq<Word>, i: int)
    requires Renamed(b, c) && Sound(b) && Boundary(b, i) && 0 <= i < |b| && forall p :: Boundary(c, p) <==> Boundary(b, p)
    ensures forall strict :: GuardsRight(b, i, strict) <==> GuardsRight(c, i, strict)
    ensures i < |c| && (Fits(b, i) && GuardRight(b, i, false) ==> Fits(c, i) && GuardRight(c, i, false))
  {
    hide BaseLength, ArgLength, KnownOp, Length, Fits, Boundary, GuardsRight, Fetch, Renamed;
    assert |c| == |b| by { MarkedSize(b, c); }
    forall p | Boundary(b, p) && i <= p < |b| ensures SameHere(b, p, c, p) && SameHere(c, p, b, p) {
      MarkedHere(b, c, p);
    }
    RestSame(b, i, c, i);
    if Fits(b, i) && GuardRight(b, i, false) {
      RightHere(b, i, c, i, i, false);
    }
  }

  lemma MarkedSize(b: seq<Word>, c: seq<Word>)
    requires Renamed(b, c)
    ensures |c| == |b|
  {
  }

  lemma MarkedHere(b: seq<Word>, c: seq<Word>, p: int)
    requires Renamed(b, c) && Sound(b) && Boundary(b, p) && p < |b| && Boundary(c, p)
    ensures SameHere(b, p, c, p) && SameHere(c, p, b, p)
  {
    assert SoundAt(b, p);
    hide BaseLength, ArgLength, KnownOp, Length, Fits, Boundary, Renamed, Fetch;
    RenamedInstruction(b, c, p);
    FetchShows(b, p);
    FetchShows(c, p);
  }

  /** Code put in front of a send changes no guard behind it. */
  lemma MovedRest(b: seq<Word>, i: nat, block: seq<Word>, c: seq<Word>)
    requires Sound(b) && Boundary(b, i) && Boundary(block, |block|) && Spliced(b, i, block, c)
    ensures forall strict :: GuardsRight(b, i, strict) <==> GuardsRight(c, i + |block|, strict)
  {
    hide BaseLength, ArgLength, KnownOp, Length, Fits, Boundary, GuardsRight, Fetch, Spliced, Sound;
    var d := |block|;
    MovedSize(b, i, block, c);
    InsertBoundary(b, i, block, c, i);
    forall p | Boundary(b, p) && i <= p < |b| ensures SameHere(b, p, c, p + d) {
      InsertBoundary(b, i, block, c, p);
      MovedHere(b, i, block, c, p + d);
    }
    forall q | Boundary(c, q) && i + d <= q < |c| ensures SameHere(c, q, b, q - d) {
      MovedHere(b, i, block, c, q);
    }
    RestSame(b, i, c, i + d);
  }

  lemma MovedSize(b: seq<Word>, i: nat, block: seq<Word>, c: seq<Word>)
    requires Sound(b) && Spliced(b, i, block, c)
    ensures |c| == |b| + |block| && Boundary(b, |b|)
  {
  }

  lemma MovedHere(b: seq<Word>, i: nat, block: seq<Word>, c: seq<Word>, q: int)
    requires Boundary(b, |b|) && Boundary(b, i) && Boundary(block, |block|) && Spliced(b, i, block, c)
    requires Boundary(c, q) && i + |block| <= q < |c|
    ensures SameHere(b, q - |block|, c, q) && SameHere(c, q, b, q - |block|)
  {
    hide BaseLength, ArgLength, KnownOp, Length, Fits, Boundary, Spliced, Fetch;
    SplicedInstruction(b, i, block, c, q);
    FetchShows(b, q - |block|);
    FetchShows(c, q);
  }

  // ---------- one step of the walk ----------

  /** There is one instruction in front of t. */
  lemma OneBefore(c: seq<Word>, l: int, t: int)
    requires EndsAt(c, l, t)
    ensures BehindSend(c, t) <==> IsSend(c[l])
  {
    hide BaseLength, ArgLength, KnownOp, Length;
    if BehindSend(c, t) {
      var k :| EndsAt(c, k, t) && IsSend(c[k]);
      if k < l {
        InstructionEnds(c, k, l);
        InstructionEnds0(c, l);
      } else if l < k {
        InstructionEnds(c, l, k);
        InstructionEnds0(c, k);
      }
    }
  }

  /** The guards from i on are the one at i, if there is one, and those behind it. */
  lemma OneGuard(c: seq<Word>, i: int, strict: bool)
    requires Sound(c) && Boundary(c, i) && 0 <= i < |c| && Fits(c, i)
    ensures GuardsRight(c, i, strict) <==> GuardRight(c, i, strict) && GuardsRight(c, i + Length(c, i), strict)
  {
    hide BaseLength, ArgLength, KnownOp, Length, GuardRight, Sound;
    InstructionEnds0(c, i);
    forall p | Boundary(c, p) && i < p < |c| ensures i + Length(c, i) <= p {
      InstructionEnds(c, i, p);
    }
  }

  /** The walk goes on behind the instruction at i, when the guard there has been looked at. */
  lemma Passed(c: seq<Word>, i: int)
    requires Sound(c) && Boundary(c, i) && 0 <= i < |c| && Fits(c, i) && (c[i] == OP_INLINE_PRIMITIVE_CHECK ==> GuardRight(c, i, false))
    ensures GuardsRight(c, i, true) ==> GuardsRight(c, i + Length(c, i), true)
    ensures GuardsRight(c, i + Length(c, i), false) ==> GuardsRight(c, i, false)
  {
    hide BaseLength, ArgLength, KnownOp, Length, GuardsRight, Sound;
    OneGuard(c, i, true);
    OneGuard(c, i, false);
  }

  /** The guard at i, with the instruction at l in front of where it jumps. */
  lemma LookedAt(c: seq<Word>, i: int, l: int)
    requires Sound(c) && Boundary(c, i) && 0 <= i < |c| && Fits(c, i) && c[i] == OP_INLINE_PRIMITIVE_CHECK && EndsAt(c, l, Target(c, i))
    ensures IsSend(c[l]) ==> GuardRight(c, i, false)
    ensures !IsSend(c[l]) ==> !GuardsRight(c, i, true)
  {
    hide BaseLength, ArgLength, KnownOp, Length, GuardsRight, Sound;
    OneBefore(c, l, Target(c, i));
    OneGuard(c, i, true);
  }

  lemma JumpsBack(c: seq<Word>, i: int)
    requires Sound(c) && Boundary(c, i) && 0 <= i < |c| && Fits(c, i) && c[i] == OP_INLINE_PRIMITIVE_CHECK && Target(c, i) <= i
    ensures !GuardsRight(c, i, true)
  {
    hide BaseLength, ArgLength, KnownOp, Length, GuardsRight, Sound;
    OneGuard(c, i, true);
  }

  lemma NoneLeft(c: seq<Word>, i: int, strict: bool)
    requires |c| <= i
    ensures GuardsRight(c, i, strict)
  {
  }
}
