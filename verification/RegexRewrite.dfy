/** `re_match_2` rewrites each `maybe_pop_jump` it executes, in the program itself, and the rewriting outlives the
    call. It changes nothing: it only remembers a decision that depends on the program alone. */
module RegexRewrite {
  import opened RegexSyntax
  import opened RegexCode
  import opened RegexMachine
  import opened RegexJumps

  function Decided(c: seq<byte>, i: nat): byte {
    if CanPop(c, i) then POP_FAILURE_JUMP else JUMP
  }

  /** `cur` is the program `c`, some of whose `maybe_pop_jump` instructions have been decided. */
  ghost predicate Variant(c: seq<byte>, cur: seq<byte>) {
    && |cur| == |c|
    && forall i | 0 <= i < |c| ::
      cur[i] == c[i] || (SweepTo(c, 0, i) && c[i] == MAYBE_POP_JUMP && cur[i] == Decided(c, i))
  }

  /** The program after one turn of the machine on it. */
  function Rewritten(cur: seq<byte>, m: Machine): seq<byte> {
    if m.p < |cur| && cur[m.p] == MAYBE_POP_JUMP then cur[m.p := Decided(cur, m.p)] else cur
  }

  ghost predicate OnBoundary(c: seq<byte>, p: nat) {
    p <= |c| && SweepTo(c, 0, p)
  }

  /** The machine and all its failure points are at instruction boundaries. */
  ghost predicate OnBoundaries(c: seq<byte>, m: Machine) {
    && OnBoundary(c, m.p)
    && forall i | 0 <= i < |m.stack| :: m.stack[i].place.Place? ==> OnBoundary(c, m.stack[i].place.p)
  }

  /** Opcodes other than the rewritten ones read the same everywhere. */
  lemma SameOpcode(c: seq<byte>, cur: seq<byte>, i: int)
    requires Variant(c, cur)
    ensures |cur| == |c|
    ensures B(cur, i) == B(c, i) || (B(c, i) == MAYBE_POP_JUMP && (B(cur, i) == POP_FAILURE_JUMP || B(cur, i) == JUMP))
  {
  }

  /** The bytes inside an instruction are never rewritten. */
  lemma SameOperand(c: seq<byte>, cur: seq<byte>, p: nat, i: nat)
    requires Variant(c, cur) && SweepTo(c, 0, p) && p < |c| && p < i < p + Len(c, p)
    ensures B(cur, i) == B(c, i)
  {
    if i < |c| && cur[i] != c[i] { NoBoundaryInside(c, 0, p, i); }
  }

  lemma SameTarget(c: seq<byte>, cur: seq<byte>, p: nat)
    requires Variant(c, cur) && SweepTo(c, 0, p) && p < |c| && Len(c, p) >= 3
    ensures Target(cur, p) == Target(c, p) && Extract(cur, p + 1) == Extract(c, p + 1)
  {
    SameOperand(c, cur, p, p + 1);
    SameOperand(c, cur, p, p + 2);
  }

  lemma NextBoundary(c: seq<byte>, p: nat)
    requires WellJumping(c) && SweepTo(c, 0, p) && p < |c|
    ensures p + Len(c, p) <= |c| && SweepTo(c, 0, p + Len(c, p)) && InstrIn(c, 0, |c|, p)
  {
    assert InstrOk(c, 0, |c|, p);
    SweepOne(c, p, p + Len(c, p));
    SweepTrans(c, 0, p, p + Len(c, p));
  }

  lemma {:induction false} SameSkip(c: seq<byte>, cur: seq<byte>, p: nat)
    requires WellJumping(c) && Variant(c, cur) && SweepTo(c, 0, p) && p <= |c|
    ensures SkipGroups(cur, p) == SkipGroups(c, p) && SkipGroups(c, p) <= |c| && SweepTo(c, 0, SkipGroups(c, p))
    decreases |c| - p
  {
    SameOpcode(c, cur, p);
    if p < |c| && p + 2 < |c| && (c[p] == START_MEMORY || c[p] == STOP_MEMORY) {
      NextBoundary(c, p);
      SameSkip(c, cur, p + 3);
    }
  }

  /** The decision does not depend on what has been decided. */
  lemma {:induction false} SameDecision(c: seq<byte>, cur: seq<byte>, p: nat)
    requires WellJumping(c) && Variant(c, cur) && SweepTo(c, 0, p) && p < |c| && c[p] == MAYBE_POP_JUMP
    ensures CanPop(cur, p) == CanPop(c, p)
  {
    hide SweepTo, WellJumping, Variant, SkipGroups, NarrowedMapHas, Extract;
    NextBoundary(c, p);
    SameTarget(c, cur, p);
    SameSkip(c, cur, p + 3);
    var q, h := SkipGroups(c, p + 3), Target(c, p);
    SameOpcode(c, cur, q);
    NextBoundary(c, h);
    SameOpcode(c, cur, h + 3);
    if q < |c| && c[q] == EXACTN {
      NextBoundary(c, q);
      SameOperand(c, cur, q, q + 2);
      if h + 3 < |c| { SameBodyTest(c, cur, h + 3, B(c, q + 2)); }
    }
  }

  lemma {:induction false} SameBodyTest(c: seq<byte>, cur: seq<byte>, p: nat, ch: byte)
    requires WellJumping(c) && Variant(c, cur) && SweepTo(c, 0, p) && p < |c|
    ensures c[p] == EXACTN ==> B(cur, p + 2) == B(c, p + 2)
    ensures c[p] == CHARSET || c[p] == CHARSET_NOT ==> NarrowedMapHas(cur, p + 1, ch) == NarrowedMapHas(c, p + 1, ch)
  {
    NextBoundary(c, p);
    if c[p] == EXACTN { SameOperand(c, cur, p, p + 2); }
    if c[p] == CHARSET || c[p] == CHARSET_NOT {
      SameOperand(c, cur, p, p + 1);
      if ch < (8 * B(c, p + 1)) % 256 { SameOperand(c, cur, p, p + 2 + ch / 8); }
    }
  }

  lemma SameLoopEnd(c: seq<byte>, cur: seq<byte>, p: nat)
    requires WellJumping(c) && Variant(c, cur) && SweepTo(c, 0, p)
    ensures IsLoopEnd(cur, p) == IsLoopEnd(c, p)
  {
    if p < |c| && JUMP <= c[p] <= DUMMY_FAILURE_JUMP {
      SameTarget(c, cur, p);
      SameOpcode(c, cur, Target(c, p));
    } else {
      SameOpcode(c, cur, p);
    }
  }

  lemma {:induction false} SameBacktrack(c: seq<byte>, cur: seq<byte>, m: Machine)
    requires WellJumping(c) && Variant(c, cur)
    requires forall i | 0 <= i < |m.stack| :: m.stack[i].place.Place? ==> OnBoundary(c, m.stack[i].place.p)
    ensures Backtrack(cur, m) == Backtrack(c, m)
    ensures Backtrack(c, m).Running? ==> OnBoundaries(c, Backtrack(c, m).m)
    decreases |m.stack|
  {
    if m.stack != [] {
      var x := m.stack[|m.stack| - 1];
      if x.place.Place? { SameLoopEnd(c, cur, x.place.p); }
      if x.place.Nowhere? || IsLoopEnd(c, x.place.p) { SameBacktrack(c, cur, Popped(m)); }
    }
  }

  /** Where a jump leads. */
  lemma JumpLands(c: seq<byte>, p: nat)
    requires WellJumping(c) && SweepTo(c, 0, p) && p < |c| && JUMP <= c[p] <= DUMMY_FAILURE_JUMP
    ensures 0 <= Target(c, p) && OnBoundary(c, Target(c, p))
  {
    NextBoundary(c, p);
  }

  lemma {:induction false} SameLeaf(f: Flags, t: seq<byte>, c: seq<byte>, cur: seq<byte>, m: Machine)
    requires WellJumping(c) && Variant(c, cur) && OnBoundaries(c, m) && m.p < |c|
    requires c[m.p] == EXACTN || c[m.p] == ANYCHAR || c[m.p] == CHARSET || c[m.p] == CHARSET_NOT
    ensures Step(f, t, cur, m) == Step(f, t, c, m)
    ensures Step(f, t, c, m).Running? ==> OnBoundaries(c, Step(f, t, c, m).m)
  {
    hide SweepTo, Backtrack, InstrOk, WellJumping, Variant;
    var p := m.p;
    SameOpcode(c, cur, p);
    NextBoundary(c, p);
    SameBacktrack(c, cur, m);
    if c[p] != ANYCHAR { SameBytes(c, cur, p); }
  }

  lemma {:induction false} SameBytes(c: seq<byte>, cur: seq<byte>, p: nat)
    requires Variant(c, cur) && SweepTo(c, 0, p) && p < |c| && Len(c, p) == 2 + B(c, p + 1) && p + Len(c, p) <= |c|
    ensures B(cur, p + 1) == B(c, p + 1) && cur[p + 2..p + Len(c, p)] == c[p + 2..p + Len(c, p)]
  {
    hide SweepTo;
    SameOperand(c, cur, p, p + 1);
    forall i | p + 2 <= i < p + Len(c, p)
      ensures cur[i] == c[i]
    {
      SameOperand(c, cur, p, i);
    }
  }

  lemma {:induction false} SameStop(c: seq<byte>, cur: seq<byte>, m: Machine)
    requires WellJumping(c) && Variant(c, cur) && OnBoundaries(c, m) && m.p < |c| && c[m.p] == STOP_MEMORY
    ensures StepStop(cur, m) == StepStop(c, m)
    ensures StepStop(c, m).Running? ==> OnBoundaries(c, StepStop(c, m).m)
  {
    var p := m.p;
    NextBoundary(c, p);
    SameOperand(c, cur, p, p + 1);
    SameOpcode(c, cur, p - 2);
    var r := B(c, p + 1);
    var m' := Closed(m, r);
    assert m'.stack == m.stack;
    if p + 3 < |c| {
      SameLoopsBack(c, cur, p + 3, r);
      if LoopsBackTo(c, p + 3, r) {
        var exit := Target(c, Target(c, p + 3));
        SameBacktrack(c, cur, Push(m', Place(exit, m.d)));
      }
    }
  }

  lemma {:induction false} SameLoopsBack(c: seq<byte>, cur: seq<byte>, q: nat, r: nat)
    requires WellJumping(c) && Variant(c, cur) && SweepTo(c, 0, q) && q < |c|
    ensures LoopsBackTo(cur, q, r) == LoopsBackTo(c, q, r)
    ensures LoopsBackTo(c, q, r) ==>
              Target(cur, Target(cur, q)) == Target(c, Target(c, q)) && Target(c, Target(c, q)) >= 0
              && OnBoundary(c, Target(c, Target(c, q)))
  {
    SameOpcode(c, cur, q);
    if JUMP <= c[q] <= DUMMY_FAILURE_JUMP {
      SameTarget(c, cur, q);
      JumpLands(c, q);
      var h := Target(c, q);
      SameOpcode(c, cur, h);
      SameOpcode(c, cur, h + 3);
      if h < |c| && c[h] == ON_FAILURE_JUMP {
        SameTarget(c, cur, h);
        JumpLands(c, h);
        NextBoundary(c, h);
        if h + 3 < |c| && c[h + 3] == START_MEMORY { SameOperand(c, cur, h + 3, h + 4); }
      }
    }
  }

  lemma {:induction false} SameOnFailure(c: seq<byte>, cur: seq<byte>, m: Machine)
    requires WellJumping(c) && Variant(c, cur) && OnBoundaries(c, m) && m.p < |c| && c[m.p] == ON_FAILURE_JUMP
    ensures StepOnFailure(cur, m) == StepOnFailure(c, m)
    ensures StepOnFailure(c, m).Running? ==> OnBoundaries(c, StepOnFailure(c, m).m)
  {
    var p := m.p;
    NextBoundary(c, p);
    SameTarget(c, cur, p);
    JumpLands(c, p);
    SameOpcode(c, cur, p + 3);
    if p + 3 < |c| && c[p + 3] == START_MEMORY {
      SameOperand(c, cur, p + 3, p + 4);
      SameOperand(c, cur, p + 3, p + 5);
    }
  }

  /** One turn on the rewritten program is one turn on the original. */
  lemma {:induction false} SameStep(f: Flags, t: seq<byte>, c: seq<byte>, cur: seq<byte>, m: Machine)
    requires WellJumping(c) && Variant(c, cur) && OnBoundaries(c, m)
    ensures Step(f, t, cur, m) == Step(f, t, c, m)
    ensures Step(f, t, c, m).Running? ==> OnBoundaries(c, Step(f, t, c, m).m)
    ensures Variant(c, Rewritten(cur, m))
  {
    if m.p == |c| {
      SameEnd(t, c, cur, m);
    } else if m.p < |c| {
      var op := c[m.p];
      NextBoundary(c, m.p);
      SameOpcode(c, cur, m.p);
      if op == EXACTN || op == ANYCHAR || op == CHARSET || op == CHARSET_NOT {
        SameLeaf(f, t, c, cur, m);
      } else if op == START_MEMORY {
        SameOperand(c, cur, m.p, m.p + 1);
      } else if op == STOP_MEMORY {
        SameStop(c, cur, m);
      } else if op == ON_FAILURE_JUMP {
        SameOnFailure(c, cur, m);
      } else if JUMP <= op <= DUMMY_FAILURE_JUMP {
        SameTarget(c, cur, m.p);
        JumpLands(c, m.p);
        if op == MAYBE_POP_JUMP { SameDecision(c, cur, m.p); }
      }
    }
  }

  lemma {:induction false} SameEnd(t: seq<byte>, c: seq<byte>, cur: seq<byte>, m: Machine)
    requires WellJumping(c) && Variant(c, cur) && OnBoundaries(c, m)
    ensures AtEnd(t, cur, m) == AtEnd(t, c, m)
    ensures AtEnd(t, c, m).Running? ==> OnBoundaries(c, AtEnd(t, c, m).m)
  {
    SameBacktrack(c, cur, m);
    SameBacktrack(c, cur, m.(best := Best(m.d)));
  }

  // ---- Whole runs ----

  /** The outcome and the program after at most `n` turns, the program being rewritten on the way. */
  function RunRewriting(f: Flags, t: seq<byte>, cur: seq<byte>, m: Machine, n: nat): (seq<byte>, Outcome)
    decreases n
  {
    if n == 0 then (cur, Running(m))
    else
      var o := Step(f, t, cur, m);
      if o.Running? then RunRewriting(f, t, Rewritten(cur, m), o.m, n - 1) else (Rewritten(cur, m), o)
  }

  /** Any run on a program that earlier runs have rewritten has the outcome of a run on the program as compiled. */
  lemma {:induction false} RewritingIsInvisible(f: Flags, t: seq<byte>, c: seq<byte>, cur: seq<byte>, m: Machine, n: nat)
    requires WellJumping(c) && Variant(c, cur) && OnBoundaries(c, m)
    ensures RunRewriting(f, t, cur, m, n).1 == Run(f, t, c, m, n)
    ensures Variant(c, RunRewriting(f, t, cur, m, n).0)
    decreases n
  {
    if n > 0 {
      SameStep(f, t, c, cur, m);
      var o := Step(f, t, c, m);
      if o.Running? { RewritingIsInvisible(f, t, c, Rewritten(cur, m), o.m, n - 1); }
    }
  }
}
