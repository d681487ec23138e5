/** Every jump of a finished program, intervals included, lands on an instruction or on the end, and every
    `set_number_at` points at the count of its own `succeed_n` or `jump_n`. */
module RegexJumps {
  import opened RegexSyntax
  import opened RegexCode

  predicate IsJump(op: byte) {
    JUMP <= op <= DUMMY_FAILURE_JUMP || op == SUCCEED_N || op == JUMP_N
  }

  /** The instruction at `q` refers only to instructions of the stretch `lo..hi`. */
  ghost predicate InstrIn(c: seq<byte>, lo: nat, hi: nat, q: nat)
    requires q < |c| && hi <= |c|
  {
    && (IsJump(c[q]) ==> lo <= Target(c, q) <= hi && SweepTo(c, lo, Target(c, q)))
    && (c[q] == SET_NUMBER_AT ==> CountOfOwnLoop(c, lo, hi, q))
    && (c[q] == MAYBE_POP_JUMP ==> B(c, Target(c, q)) == ON_FAILURE_JUMP)
    && (c[q] == EXACTN ==> B(c, q + 1) > 0)
  }

  /** `set_number_at` at `q` writes the count of the `succeed_n` right after it, or of the `jump_n` that leads
      back to the `succeed_n` two instructions on and that this `succeed_n` jumps past. */
  ghost predicate CountOfOwnLoop(c: seq<byte>, lo: nat, hi: nat, q: nat)
    requires q < |c| && hi <= |c|
  {
    var i := Target(c, q) - 3;
    && lo <= i < hi && SweepTo(c, lo, i)
    && ((i == q + 5 && c[i] == SUCCEED_N)
        || (c[i] == JUMP_N && Target(c, i) == q + 10
            && lo <= q + 10 < hi && SweepTo(c, lo, q + 10)
            && c[q + 10] == SUCCEED_N && Target(c, q + 10) == i + 5))
  }

  ghost predicate InstrOk(c: seq<byte>, lo: nat, hi: nat, q: nat)
    requires hi <= |c|
  {
    q < hi ==> q + Len(c, q) <= hi && InstrIn(c, lo, hi, q)
  }

  lemma Widen(c: seq<byte>, lo: nat, lo': nat, hi': nat, hi: nat, q: nat)
    requires lo <= lo' <= hi' <= hi <= |c| && q < hi'
    requires SweepTo(c, lo, lo') && InstrOk(c, lo', hi', q)
    ensures InstrOk(c, lo, hi, q)
  {
    if IsJump(c[q]) { SweepTrans(c, lo, lo', Target(c, q)); }
    if c[q] == SET_NUMBER_AT {
      SweepTrans(c, lo, lo', Target(c, q) - 3);
      if SweepTo(c, lo', q + 10) { SweepTrans(c, lo, lo', q + 10); }
    }
  }

  // ---- Boundaries of each construct, by the lengths of its parts ----

  lemma JmpSweep(c: seq<byte>, p: nat, op: byte, n: int)
    requires At(c, p, Jmp(op, n)) && JUMP <= op <= DUMMY_FAILURE_JUMP
    ensures p + 3 <= |c| && c[p] == op && Len(c, p) == 3 && SweepTo(c, p, p + 3)
  {
    AtIndex(c, p, Jmp(op, n), 0);
    SweepOne(c, p, p + 3);
  }

  lemma Op2Sweep(c: seq<byte>, p: nat, op: byte, n: int, k: int)
    requires At(c, p, Op2(op, n, k)) && SUCCEED_N <= op <= SET_NUMBER_AT
    ensures p + 5 <= |c| && c[p] == op && Len(c, p) == 5 && SweepTo(c, p, p + 5)
  {
    AtIndex(c, p, Op2(op, n, k), 0);
    SweepOne(c, p, p + 5);
  }

  lemma MemorySweep(c: seq<byte>, p: nat, op: byte, x: byte, y: byte)
    requires At(c, p, [op, x, y]) && (op == START_MEMORY || op == STOP_MEMORY)
    ensures p + 3 <= |c| && c[p] == op && Len(c, p) == 3 && SweepTo(c, p, p + 3)
  {
    AtIndex(c, p, [op, x, y], 0);
    AtIndex(c, p, [op, x, y], 2);
    SweepOne(c, p, p + 3);
  }

  /** A group: its head, `na` bytes of body, perhaps a dummy failure point, its tail. */
  lemma GroupSweep(c: seq<byte>, p: nat, x: byte, y: byte, na: nat, alts: bool)
    requires At(c, p, [START_MEMORY, x, y]) && SweepTo(c, p + 3, p + 3 + na)
    requires At(c, p + 3 + na, if alts then [PUSH_DUMMY_FAILURE] else [])
    requires At(c, p + 3 + na + (if alts then 1 else 0), [STOP_MEMORY, x, y])
    ensures var m, e := p + 3 + na, p + 3 + na + if alts then 1 else 0;
      && e + 3 <= |c| && c[p] == START_MEMORY && Len(c, p) == 3 && c[e] == STOP_MEMORY && Len(c, e) == 3
      && SweepTo(c, p, p + 3) && SweepTo(c, p, m) && SweepTo(c, p, e) && SweepTo(c, p, e + 3)
      && (alts ==> c[m] == PUSH_DUMMY_FAILURE && Len(c, m) == 1)
  {
    var m, e := p + 3 + na, p + 3 + na + if alts then 1 else 0;
    MemorySweep(c, p, START_MEMORY, x, y);
    MemorySweep(c, e, STOP_MEMORY, x, y);
    if alts { AtIndex(c, m, [PUSH_DUMMY_FAILURE], 0); SweepOne(c, m, e); }
    SweepTrans(c, p, p + 3, m);
    SweepTrans(c, p, m, e);
    SweepTrans(c, p, e, e + 3);
  }

  /** An alternative of `na` bytes between its two jumps, and `nb` bytes of further alternatives. */
  lemma AltSweep(c: seq<byte>, p: nat, na: nat, nb: nat, past: nat)
    requires At(c, p, Jmp(ON_FAILURE_JUMP, na + 3)) && At(c, p + 3 + na, Jmp(JUMP_PAST_ALT, past))
    requires SweepTo(c, p + 3, p + 3 + na) && SweepTo(c, p + 6 + na, p + 6 + na + nb)
    ensures var m := p + 3 + na;
      && m + 3 <= |c| && c[p] == ON_FAILURE_JUMP && Len(c, p) == 3 && c[m] == JUMP_PAST_ALT && Len(c, m) == 3
      && SweepTo(c, p, p + 3) && SweepTo(c, p, m) && SweepTo(c, p, m + 3) && SweepTo(c, p, m + 3 + nb)
  {
    var m := p + 3 + na;
    JmpSweep(c, p, ON_FAILURE_JUMP, na + 3);
    JmpSweep(c, m, JUMP_PAST_ALT, past);
    SweepTrans(c, p, p + 3, m);
    SweepTrans(c, p, m, m + 3);
    SweepTrans(c, p, m + 3, m + 3 + nb);
  }

  /** The on_failure_jump of a repetition at `h`, `n` bytes of body, perhaps the jump back. */
  lemma LoopSweep(c: seq<byte>, h: nat, n: nat, many: bool)
    requires At(c, h, Jmp(ON_FAILURE_JUMP, n + if many then 3 else 0)) && SweepTo(c, h + 3, h + 3 + n)
    requires many ==> At(c, h + 3 + n, Jmp(MAYBE_POP_JUMP, -(n + 6)))
    ensures var m := h + 3 + n;
      && h + 3 <= |c| && c[h] == ON_FAILURE_JUMP && Len(c, h) == 3 && SweepTo(c, h, h + 3) && SweepTo(c, h, m)
      && (many ==> m + 3 <= |c| && c[m] == MAYBE_POP_JUMP && Len(c, m) == 3)
      && SweepTo(c, h, if many then m + 3 else m)
  {
    var m := h + 3 + n;
    JmpSweep(c, h, ON_FAILURE_JUMP, n + if many then 3 else 0);
    SweepTrans(c, h, h + 3, m);
    if many {
      JmpSweep(c, m, MAYBE_POP_JUMP, -(n + 6));
      SweepTrans(c, h, m, m + 3);
    }
  }

  /** Where the parts of an interval's code lie; `h` is the address of its body. */
  lemma IntervalParts(c: seq<byte>, p: nat, code: seq<byte>, lo: nat, hi: nat) returns (h: nat)
    requires At(c, p, IntervalCode(code, lo, hi))
    ensures h == p + (if hi == 0 then 3 else if hi == 1 then 10 else 15)
    ensures At(c, h, code) && p + |IntervalCode(code, lo, hi)| == h + |code| + if hi > 1 then 5 else 0
    ensures hi == 0 ==> At(c, p, Jmp(JUMP, |code|))
    ensures hi == 1 ==> At(c, p, Op2(SET_NUMBER_AT, 5, lo)) && At(c, p + 5, Op2(SUCCEED_N, |code| + 2, lo))
    ensures hi > 1 ==>
      && At(c, p, Op2(SET_NUMBER_AT, |code| + 15, hi - 1))
      && At(c, p + 5, Op2(SET_NUMBER_AT, 5, lo)) && At(c, p + 10, Op2(SUCCEED_N, |code| + 7, lo))
      && At(c, h + |code|, Op2(JUMP_N, -(|code| + 8), hi - 1))
  {
    h := p + (if hi == 0 then 3 else if hi == 1 then 10 else 15);
    if hi == 0 {
      AtConcat(c, p, Jmp(JUMP, |code|), code);
    } else if hi == 1 {
      var s1, s2 := Op2(SET_NUMBER_AT, 5, lo), Op2(SUCCEED_N, |code| + 2, lo);
      AtConcat(c, p, s1 + s2, code);
      AtConcat(c, p, s1, s2);
    } else {
      var s0, s1, s2 := Op2(SET_NUMBER_AT, |code| + 15, hi - 1), Op2(SET_NUMBER_AT, 5, lo), Op2(SUCCEED_N, |code| + 7, lo);
      AtConcat(c, p, s0 + s1 + s2 + code, Op2(JUMP_N, -(|code| + 8), hi - 1));
      AtConcat(c, p, s0 + s1 + s2, code);
      AtConcat(c, p, s0 + s1, s2);
      AtConcat(c, p, s0, s1);
    }
  }

  /** The boundaries of an interval's code, and what its heads refer to. */
  lemma IntervalSweep(c: seq<byte>, p: nat, code: seq<byte>, lo: nat, hi: nat, h: nat)
    requires At(c, p, IntervalCode(code, lo, hi))
    requires h == p + (if hi == 0 then 3 else if hi == 1 then 10 else 15)
    requires SweepTo(c, h, h + |code|)
    ensures SweepTo(c, p, h) && SweepTo(c, p, h + |code|)
    ensures SweepTo(c, p, p + |IntervalCode(code, lo, hi)|) && p + |IntervalCode(code, lo, hi)| <= |c|
    ensures hi == 0 ==> c[p] == JUMP && Len(c, p) == 3
    ensures hi == 1 ==>
      && c[p] == SET_NUMBER_AT && Len(c, p) == 5 && c[p + 5] == SUCCEED_N && Len(c, p + 5) == 5 && SweepTo(c, p, p + 5)
    ensures hi > 1 ==>
      && c[p] == SET_NUMBER_AT && c[p + 5] == SET_NUMBER_AT && c[p + 10] == SUCCEED_N && c[h + |code|] == JUMP_N
      && Len(c, p) == 5 && Len(c, p + 5) == 5 && Len(c, p + 10) == 5 && Len(c, h + |code|) == 5
      && SweepTo(c, p, p + 5) && SweepTo(c, p, p + 10)
  {
    var _ := IntervalParts(c, p, code, lo, hi);
    AtFits(c, p, IntervalCode(code, lo, hi));
    if hi == 0 {
      JmpSweep(c, p, JUMP, |code|);
    } else if hi == 1 {
      Op2Sweep(c, p, SET_NUMBER_AT, 5, lo);
      Op2Sweep(c, p + 5, SUCCEED_N, |code| + 2, lo);
      SweepTrans(c, p, p + 5, h);
    } else {
      Op2Sweep(c, p, SET_NUMBER_AT, |code| + 15, hi - 1);
      Op2Sweep(c, p + 5, SET_NUMBER_AT, 5, lo);
      Op2Sweep(c, p + 10, SUCCEED_N, |code| + 7, lo);
      Op2Sweep(c, h + |code|, JUMP_N, -(|code| + 8), hi - 1);
      SweepTrans(c, p, p + 5, p + 10);
      SweepTrans(c, p, p + 10, h);
    }
    SweepTrans(c, p, h, h + |code|);
    if hi > 1 { SweepTrans(c, p, h + |code|, h + |code| + 5); }
  }

  // ---- The code of a pattern is a run of complete instructions ----

  lemma LeafSweep(c: seq<byte>, p: nat, r: Re)
    requires Sized(r) && At(c, p, Code(r)) && (r.Lit? || r.Any? || r.Set?)
    ensures p < |c| && Len(c, p) == |Code(r)| && p + |Code(r)| <= |c| && SweepTo(c, p, p + |Code(r)|)
    ensures c[p] == EXACTN || c[p] == ANYCHAR || c[p] == CHARSET || c[p] == CHARSET_NOT
    ensures c[p] == EXACTN ==> B(c, p + 1) > 0
  {
    AtIndex(c, p, Code(r), 0);
    if !r.Any? { AtIndex(c, p, Code(r), 1); }
    SweepOne(c, p, p + |Code(r)|);
  }

  lemma {:induction false} CodeSweep(c: seq<byte>, p: nat, r: Re)
    requires Sized(r) && At(c, p, Code(r))
    ensures SweepTo(c, p, p + |Code(r)|)
    decreases r, 1
  {
    match r
    case Eps =>
    case Skip(_) =>
    case Lit(_) => LeafSweep(c, p, r);
    case Any => LeafSweep(c, p, r);
    case Set(_, _) => LeafSweep(c, p, r);
    case Cat(_, _) => CatWhole(c, p, r);
    case Group(_, _, _) => GroupWhole(c, p, r);
    case Alt(_, _) => AltWhole(c, p, r);
    case Rep(_, _) => var _ := RepWhole(c, p, r);
    case Interval(_, _, _) => IntervalWhole(c, p, r);
  }

  lemma {:induction false} CatWhole(c: seq<byte>, p: nat, r: Re)
    requires r.Cat? && Sized(r) && At(c, p, Code(r))
    ensures SweepTo(c, p, p + |Code(r)|)
    decreases r, 0
  {
    hide At, SweepTo;
    AtConcat(c, p, Code(r.a), Code(r.b));
    CodeSweep(c, p, r.a);
    CodeSweep(c, p + |Code(r.a)|, r.b);
    SweepTrans(c, p, p + |Code(r.a)|, p + |Code(r)|);
  }

  lemma {:induction false} GroupWhole(c: seq<byte>, p: nat, r: Re)
    requires r.Group? && Sized(r) && At(c, p, Code(r))
    ensures var m := p + 3 + |Code(r.body)|; var e := m + if r.body.Alt? then 1 else 0;
      && p + |Code(r)| == e + 3 <= |c| && c[p] == START_MEMORY && Len(c, p) == 3 && c[e] == STOP_MEMORY && Len(c, e) == 3
      && SweepTo(c, p, p + 3) && SweepTo(c, p, m) && SweepTo(c, p, e) && SweepTo(c, p, e + 3)
      && (r.body.Alt? ==> c[m] == PUSH_DUMMY_FAILURE && Len(c, m) == 1)
      && At(c, p + 3, Code(r.body))
    decreases r, 0
  {
    hide At, SweepTo;
    GroupParts(c, p, r.n, r.inner, r.body);
    CodeSweep(c, p + 3, r.body);
    GroupSweep(c, p, r.n % 256, r.inner % 256, |Code(r.body)|, r.body.Alt?);
  }

  lemma {:induction false} AltWhole(c: seq<byte>, p: nat, r: Re)
    requires r.Alt? && Sized(r) && At(c, p, Code(r))
    ensures var m := p + 3 + |Code(r.a)|;
      && p + |Code(r)| == m + 3 + |Code(r.b)| <= |c|
      && c[p] == ON_FAILURE_JUMP && Len(c, p) == 3 && c[m] == JUMP_PAST_ALT && Len(c, m) == 3
      && SweepTo(c, p, p + 3) && SweepTo(c, p, m) && SweepTo(c, p, m + 3) && SweepTo(c, p, m + 3 + |Code(r.b)|)
      && At(c, p + 3, Code(r.a)) && At(c, m + 3, Code(r.b))
    decreases r, 0
  {
    hide At, SweepTo, Code;
    AtFits(c, p, Code(r));
    AltParts(c, p, r.a, r.b);
    CodeSweep(c, p + 3, r.a);
    CodeSweep(c, p + 6 + |Code(r.a)|, r.b);
    AltSweep(c, p, |Code(r.a)|, |Code(r.b)|, PastAlt(r.b));
  }

  /** `h` is the address of the on_failure_jump. */
  lemma {:induction false} RepWhole(c: seq<byte>, p: nat, r: Re) returns (h: nat)
    requires r.Rep? && Sized(r) && At(c, p, Code(r))
    ensures var m := h + 3 + |Code(r.body)|;
      && h == (if ZeroOk(r.ops) then p else p + 3) && p + |Code(r)| == (if ManyOk(r.ops) then m + 3 else m) <= |c|
      && (!ZeroOk(r.ops) ==> c[p] == DUMMY_FAILURE_JUMP && Len(c, p) == 3)
      && c[h] == ON_FAILURE_JUMP && Len(c, h) == 3
      && (ManyOk(r.ops) ==> c[m] == MAYBE_POP_JUMP && Len(c, m) == 3)
      && SweepTo(c, p, h) && SweepTo(c, p, h + 3) && SweepTo(c, p, m) && SweepTo(c, p, p + |Code(r)|)
      && At(c, h + 3, Code(r.body))
    decreases r, 0
  {
    hide At, SweepTo, RepCode;
    h := RepParts(c, p, Code(r.body), ZeroOk(r.ops), ManyOk(r.ops));
    CodeSweep(c, h + 3, r.body);
    RepSweep(c, p, Code(r.body), ZeroOk(r.ops), ManyOk(r.ops), h);
  }

  lemma RepSweep(c: seq<byte>, p: nat, code: seq<byte>, zero: bool, many: bool, h: nat)
    requires At(c, p, RepCode(code, zero, many)) && h == if zero then p else p + 3
    requires SweepTo(c, h + 3, h + 3 + |code|)
    ensures var m := h + 3 + |code|;
      && p + |RepCode(code, zero, many)| == (if many then m + 3 else m) <= |c|
      && (!zero ==> c[p] == DUMMY_FAILURE_JUMP && Len(c, p) == 3)
      && c[h] == ON_FAILURE_JUMP && Len(c, h) == 3
      && (many ==> c[m] == MAYBE_POP_JUMP && Len(c, m) == 3)
      && SweepTo(c, p, h) && SweepTo(c, p, h + 3) && SweepTo(c, p, m) && SweepTo(c, p, if many then m + 3 else m)
  {
    AtFits(c, p, RepCode(code, zero, many));
    SweepRefl(c, p);
    hide At, SweepTo;
    var h' := RepParts(c, p, code, zero, many);
    LoopSweep(c, h, |code|, many);
    if !zero { JmpSweep(c, p, DUMMY_FAILURE_JUMP, 3); }
    SweepTrans(c, p, h, h + 3);
    SweepTrans(c, p, h, h + 3 + |code|);
    if many { SweepTrans(c, p, h, h + 6 + |code|); }
  }

  lemma {:induction false} IntervalWhole(c: seq<byte>, p: nat, r: Re)
    requires r.Interval? && Sized(r) && At(c, p, Code(r))
    ensures SweepTo(c, p, p + |Code(r)|)
    ensures var h := p + (if r.hi == 0 then 3 else if r.hi == 1 then 10 else 15);
      SweepTo(c, h, h + |Code(r.body)|) && At(c, h, Code(r.body))
    decreases r, 0
  {
    hide At, SweepTo, IntervalCode;
    var h := IntervalParts(c, p, Code(r.body), r.lo, r.hi);
    CodeSweep(c, h, r.body);
    IntervalSweep(c, p, Code(r.body), r.lo, r.hi, h);
  }

  // ---- Every instruction of the code of a pattern refers to instructions of that code ----

  lemma {:induction false} JumpsStayInside(c: seq<byte>, p: nat, r: Re, q: nat)
    requires Sized(r) && At(c, p, Code(r)) && |Code(r)| < 32768
    requires SweepTo(c, p, q) && q < p + |Code(r)|
    ensures InstrOk(c, p, p + |Code(r)|, q)
    decreases r, 1
  {
    match r
    case Eps =>
    case Skip(_) =>
    case Lit(_) => SingleInstr(c, p, r, q);
    case Any => SingleInstr(c, p, r, q);
    case Set(_, _) => SingleInstr(c, p, r, q);
    case Cat(_, _) => CatJumps(c, p, r, q);
    case Group(_, _, _) => GroupJumps(c, p, r, q);
    case Alt(_, _) => AltJumps(c, p, r, q);
    case Rep(_, _) => RepJumps(c, p, r, q);
    case Interval(_, _, _) => IntervalJumps(c, p, r, q);
  }

  lemma SingleInstr(c: seq<byte>, p: nat, r: Re, q: nat)
    requires Sized(r) && At(c, p, Code(r)) && (r.Lit? || r.Any? || r.Set?)
    requires SweepTo(c, p, q) && q < p + |Code(r)|
    ensures InstrOk(c, p, p + |Code(r)|, q)
  {
    LeafSweep(c, p, r);
    SweepRefl(c, p);
      NoBoundaryInside(c, p, p, q);
  }

  lemma {:induction false} CatJumps(c: seq<byte>, p: nat, r: Re, q: nat)
    requires r.Cat? && Sized(r) && At(c, p, Code(r)) && |Code(r)| < 32768
    requires SweepTo(c, p, q) && q < p + |Code(r)|
    ensures InstrOk(c, p, p + |Code(r)|, q)
    decreases r, 0
  {
    AtFits(c, p, Code(r));
    SweepRefl(c, p);
    hide At, SweepTo;
    AtConcat(c, p, Code(r.a), Code(r.b));
    var m, e := p + |Code(r.a)|, p + |Code(r)|;
    CodeSweep(c, p, r.a);
    if q < m {
      JumpsStayInside(c, p, r.a, q);
      Widen(c, p, p, m, e, q);
    } else {
      SweepOrder(c, p, m, q);
      JumpsStayInside(c, m, r.b, q);
      Widen(c, p, m, e, e, q);
    }
  }

  lemma {:induction false} GroupJumps(c: seq<byte>, p: nat, r: Re, q: nat)
    requires r.Group? && Sized(r) && At(c, p, Code(r)) && |Code(r)| < 32768
    requires SweepTo(c, p, q) && q < p + |Code(r)|
    ensures InstrOk(c, p, p + |Code(r)|, q)
    decreases r, 0
  {
    hide At, SweepTo;
    GroupWhole(c, p, r);
    var m := p + 3 + |Code(r.body)|;
    var e := m + if r.body.Alt? then 1 else 0;
    if p + 3 <= q < m {
      SweepOrder(c, p, p + 3, q);
      JumpsStayInside(c, p + 3, r.body, q);
      Widen(c, p, p + 3, m, e + 3, q);
    } else {
      SweepRefl(c, p);
      NoBoundaryInside(c, p, p, q);
      NoBoundaryInside(c, p, e, q);
    }
  }

  lemma {:induction false} AltJumps(c: seq<byte>, p: nat, r: Re, q: nat)
    requires r.Alt? && Sized(r) && At(c, p, Code(r)) && |Code(r)| < 32768
    requires SweepTo(c, p, q) && q < p + |Code(r)|
    ensures InstrOk(c, p, p + |Code(r)|, q)
    decreases r, 0
  {
    hide At, SweepTo;
    AltWhole(c, p, r);
    var m, e := p + 3 + |Code(r.a)|, p + |Code(r)|;
    if p + 3 <= q < m {
      SweepOrder(c, p, p + 3, q);
      JumpsStayInside(c, p + 3, r.a, q);
      Widen(c, p, p + 3, m, e, q);
    } else if m + 3 <= q {
      SweepOrder(c, p, m + 3, q);
      JumpsStayInside(c, m + 3, r.b, q);
      Widen(c, p, m + 3, e, e, q);
    } else {
      SweepRefl(c, p);
      NoBoundaryInside(c, p, p, q);
      NoBoundaryInside(c, p, m, q);
      AltHeadsOk(c, p, r, q);
    }
  }

  lemma AltHeadsOk(c: seq<byte>, p: nat, r: Re, q: nat)
    requires r.Alt? && Sized(r) && At(c, p, Code(r)) && |Code(r)| < 32768
    requires q == p || q == p + 3 + |Code(r.a)|
    ensures InstrOk(c, p, p + |Code(r)|, q)
  {
    hide At, SweepTo, Extract;
    AltParts(c, p, r.a, r.b);
    AltWhole(c, p, r);
    var m := p + 3 + |Code(r.a)|;
    if q == p {
      JmpAt(c, p, ON_FAILURE_JUMP, |Code(r.a)| + 3);
    } else {
      JmpAt(c, m, JUMP_PAST_ALT, PastAlt(r.b));
      PastAltIsBoundary(c, m + 3, r.b);
      SweepTrans(c, p, m + 3, m + 3 + PastAlt(r.b));
    }
  }

  lemma PastAltIsBoundary(c: seq<byte>, p: nat, b: Re)
    requires Sized(b) && At(c, p, Code(b))
    ensures SweepTo(c, p, p + PastAlt(b))
  {
    hide At, SweepTo;
    if b.Alt? { AltWhole(c, p, b); } else { CodeSweep(c, p, b); }
  }

  lemma {:induction false} RepJumps(c: seq<byte>, p: nat, r: Re, q: nat)
    requires r.Rep? && Sized(r) && At(c, p, Code(r)) && |Code(r)| < 32768
    requires SweepTo(c, p, q) && q < p + |Code(r)|
    ensures InstrOk(c, p, p + |Code(r)|, q)
    decreases r, 0
  {
    hide At, SweepTo, Code, InstrOk;
    var h := RepWhole(c, p, r);
    var m, e := h + 3 + |Code(r.body)|, p + |Code(r)|;
    if h + 3 <= q < m {
      SweepOrder(c, p, h + 3, q);
      JumpsStayInside(c, h + 3, r.body, q);
      Widen(c, p, h + 3, m, e, q);
    } else {
      SweepRefl(c, p);
      NoBoundaryInside(c, p, p, q);
      NoBoundaryInside(c, p, h, q);
      if ManyOk(r.ops) { NoBoundaryInside(c, p, m, q); }
      RepHeadsOk(c, p, r, q, h);
    }
  }

  lemma RepHeadsOk(c: seq<byte>, p: nat, r: Re, q: nat, h: nat)
    requires r.Rep? && Sized(r) && At(c, p, Code(r)) && |Code(r)| < 32768
    requires h == if ZeroOk(r.ops) then p else p + 3
    requires q == p || q == h || (ManyOk(r.ops) && q == h + 3 + |Code(r.body)|)
    ensures InstrOk(c, p, p + |Code(r)|, q)
  {
    hide At, SweepTo, Extract;
    var _ := RepWhole(c, p, r);
    var _ := RepParts(c, p, Code(r.body), ZeroOk(r.ops), ManyOk(r.ops));
    if q == h {
      JmpAt(c, h, ON_FAILURE_JUMP, |Code(r.body)| + if ManyOk(r.ops) then 3 else 0);
    } else if q == p {
      JmpAt(c, p, DUMMY_FAILURE_JUMP, 3);
    } else {
      JmpAt(c, q, MAYBE_POP_JUMP, -(|Code(r.body)| + 6));
    }
  }

  lemma {:induction false} IntervalJumps(c: seq<byte>, p: nat, r: Re, q: nat)
    requires r.Interval? && Sized(r) && At(c, p, Code(r)) && |Code(r)| < 32768
    requires SweepTo(c, p, q) && q < p + |Code(r)|
    ensures InstrOk(c, p, p + |Code(r)|, q)
    decreases r, 0
  {
    hide At, SweepTo;
    var code := Code(r.body);
    IntervalWhole(c, p, r);
    var h := IntervalParts(c, p, code, r.lo, r.hi);
    IntervalSweep(c, p, code, r.lo, r.hi, h);
    if h <= q < h + |code| {
      SweepOrder(c, p, h, q);
      JumpsStayInside(c, h, r.body, q);
      Widen(c, p, h, h + |code|, p + |Code(r)|, q);
    } else {
      IntervalHeads(c, p, code, r.lo, r.hi, h, q);
    }
  }

  /** Outside its body, the boundaries of an interval's code are its heads and its `jump_n`. */
  lemma IntervalHeads(c: seq<byte>, p: nat, code: seq<byte>, lo: nat, hi: nat, h: nat, q: nat)
    requires At(c, p, IntervalCode(code, lo, hi)) && |IntervalCode(code, lo, hi)| < 32768
    requires h == p + (if hi == 0 then 3 else if hi == 1 then 10 else 15)
    requires SweepTo(c, h, h + |code|)
    requires SweepTo(c, p, q) && q < p + |IntervalCode(code, lo, hi)| && !(h <= q < h + |code|)
    ensures InstrOk(c, p, p + |IntervalCode(code, lo, hi)|, q)
  {
    SweepRefl(c, p);
    hide At, SweepTo, Extract;
    var _ := IntervalParts(c, p, code, lo, hi);
    IntervalSweep(c, p, code, lo, hi, h);
    if hi == 0 {
      SweepRefl(c, p);
      NoBoundaryInside(c, p, p, q);
      JmpAt(c, p, JUMP, |code|);
    } else {
      SweepRefl(c, p);
      NoBoundaryInside(c, p, p, q);
      NoBoundaryInside(c, p, p + 5, q);
      if hi > 1 {
        NoBoundaryInside(c, p, p + 10, q);
        NoBoundaryInside(c, p, h + |code|, q);
      }
      IntervalTargets(c, p, code, lo, hi, h);
    }
  }

  /** What the heads of an interval refer to. */
  lemma IntervalTargets(c: seq<byte>, p: nat, code: seq<byte>, lo: nat, hi: nat, h: nat)
    requires At(c, p, IntervalCode(code, lo, hi)) && hi >= 1 && |IntervalCode(code, lo, hi)| < 32768
    requires h == p + (if hi == 1 then 10 else 15)
    ensures hi == 1 ==> Target(c, p) == p + 8 && Target(c, p + 5) == h + |code|
    ensures hi > 1 ==>
      && Target(c, p) == h + |code| + 3 && Target(c, p + 5) == p + 13
      && Target(c, p + 10) == h + |code| + 5 && Target(c, h + |code|) == p + 10
  {
    var _ := IntervalParts(c, p, code, lo, hi);
    hide At, Extract;
    if hi == 1 {
      Op2Target(c, p, SET_NUMBER_AT, 5, lo);
      Op2Target(c, p + 5, SUCCEED_N, |code| + 2, lo);
    } else {
      Op2Target(c, p, SET_NUMBER_AT, |code| + 15, hi - 1);
      Op2Target(c, p + 5, SET_NUMBER_AT, 5, lo);
      Op2Target(c, p + 10, SUCCEED_N, |code| + 7, lo);
      Op2Target(c, h + |code|, JUMP_N, -(|code| + 8), hi - 1);
    }
  }

  lemma Op2Target(c: seq<byte>, p: nat, op: byte, n: int, k: int)
    requires At(c, p, Op2(op, n, k)) && -32768 <= n < 32768
    ensures Target(c, p) == p + 3 + n
  {
    AtConcat(c, p, Jmp(op, n), Number(k));
    JmpAt(c, p, op, n);
  }

  /** The whole program: it is a run of complete instructions whose references are all to instructions. */
  ghost predicate WellJumping(c: seq<byte>) {
    && SweepTo(c, 0, |c|)
    && forall q: nat | SweepTo(c, 0, q) && q < |c| :: InstrOk(c, 0, |c|, q)
  }

  lemma FinishedProgram(r: Re)
    requires Shaped(r) && |Code(r)| < 32768
    ensures WellJumping(Code(r))
  {
    ShapedParts(r);
    var c := Code(r);
    assert At(c, 0, c);
    CodeSweep(c, 0, r);
    forall q: nat | SweepTo(c, 0, q) && q < |c|
      ensures InstrOk(c, 0, |c|, q)
    {
      JumpsStayInside(c, 0, r, q);
    }
  }

  // ---- What the counts of an interval allow ----

  /** From `succeed_n`, the body can be gone through exactly `n` more times before the interval is left: as long as its count
      lasts it must be gone through, later it may be. */
  predicate CanLeave(must: nat, may: nat, n: nat)
    decreases n, 1
  {
    if n == 0 then must == 0 else Behind(if must > 0 then must - 1 else 0, may, n - 1)
  }

  /** From the end of the body: `jump_n` leads back as long as its count lasts, and always does so then. */
  predicate Behind(must: nat, may: nat, n: nat)
    decreases n, 2
  {
    if may > 0 then CanLeave(must, may - 1, n) else n == 0
  }

  lemma {:induction false} CountsAllow(must: nat, may: nat, n: nat)
    requires must <= may + 1
    ensures CanLeave(must, may, n) <==> must <= n <= may + 1
    decreases n
  {
    if n > 0 && may > 0 { CountsAllow(if must > 0 then must - 1 else 0, may - 1, n - 1); }
  }

  /** The `set_number_at` at `q` stores at `at` the count that stands there already. */
  ghost predicate Resets(c: seq<byte>, q: nat, at: nat) {
    B(c, q) == SET_NUMBER_AT && Target(c, q) == at && Extract(c, q + 3) == Extract(c, at)
  }

  lemma Op2At(c: seq<byte>, q: nat, op: byte, n: int, k: int)
    requires At(c, q, Op2(op, n, k)) && -32768 <= n < 32768 && -32768 <= k < 32768
    ensures B(c, q) == op && Target(c, q) == q + 3 + n && Extract(c, q + 3) == k
  {
    AtConcat(c, q, [op] + Number(n), Number(k));
    AtConcat(c, q, [op], Number(n));
    AtIndex(c, q, [op], 0);
    NumberRoundTrip(c, q + 1, n);
    NumberRoundTrip(c, q + 3, k);
  }

  /** The code of an interval allows exactly the numbers of iterations between its bounds, and sets its counts anew every
      time it is entered. */
  lemma {:induction false} IntervalRepeats(c: seq<byte>, p: nat, r: Re, n: nat)
    requires r.Interval? && r.lo <= r.hi <= 32767 && At(c, p, Code(r)) && |c| < 32768
    ensures r.hi == 0 ==> B(c, p) == JUMP && Target(c, p) == p + |Code(r)|
    ensures r.hi >= 1 ==>
      var e, s := p + |Code(r)|, p + if r.hi > 1 then 10 else 5;
      && B(c, s) == SUCCEED_N && Target(c, s) == e && At(c, s + 5, Code(r.body)) && Resets(c, s - 5, s + 3)
      && (r.hi > 1 ==> e >= 5 && B(c, e - 5) == JUMP_N && Target(c, e - 5) == s && Resets(c, p, e - 2))
      && (r.hi == 1 ==> s + 5 + |Code(r.body)| == e) && (r.hi > 1 ==> s + 5 + |Code(r.body)| == e - 5)
      && 0 <= Extract(c, s + 3) && (r.hi > 1 ==> 0 <= Extract(c, e - 2))
      && (CanLeave(Extract(c, s + 3), if r.hi > 1 then Extract(c, e - 2) else 0, n) <==> r.lo <= n <= r.hi)
  {
    hide At, Extract, Target, Op2, Jmp, CanLeave;
    var code, lo, hi := Code(r.body), r.lo, r.hi;
    var h := IntervalParts(c, p, code, lo, hi);
    AtFits(c, p, Code(r));
    if hi == 0 {
      JmpAt(c, p, JUMP, |code|);
    } else if hi == 1 {
      Op2At(c, p, SET_NUMBER_AT, 5, lo);
      Op2At(c, p + 5, SUCCEED_N, |code| + 2, lo);
      CountsAllow(lo, 0, n);
    } else {
      Op2At(c, p, SET_NUMBER_AT, |code| + 15, hi - 1);
      Op2At(c, p + 5, SET_NUMBER_AT, 5, lo);
      Op2At(c, p + 10, SUCCEED_N, |code| + 7, lo);
      Op2At(c, h + |code|, JUMP_N, -(|code| + 8), hi - 1);
      CountsAllow(lo, hi - 1, n);
    }
  }
}
