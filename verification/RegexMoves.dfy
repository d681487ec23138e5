/** What each instruction does to a thread: where the thread lies afterwards and what it can still match. */
module RegexMoves {
  import opened RegexSyntax
  import opened RegexCode
  import opened RegexEffect
  import opened RegexMachine
  import opened RegexKont
  import opened RegexAccept
  import opened RegexThreads

  ghost predicate Cur(c: seq<byte>, t: seq<byte>, K: Kont, m: Machine) {
    Thread(c, t, K, m.p, m.d, m.low, m.high, m.regs)
  }

  // ---- Registers ----

  lemma TrackBounds(K: Kont, low: nat, high: nat, regs: seq<Reg>, d: nat)
    requires RegsTrack(K, low, high, regs, d) && Ordered(K)
    ensures low >= 256 ==> NoneOpen(K)
  {
  }

  /** Consuming text marks every open group. */
  lemma {:induction K} ConsumeTrack(K: Kont, low: nat, high: nat, regs: seq<Reg>, d: nat, n: nat)
    requires RegsTrack(K, low, high, regs, d) && Ordered(K) && |regs| == REGISTERS && n > 0
    ensures RegsTrack(K, low, high, MarkMatched(regs, low, high), d + n)
  {
  }

  /** A pop gives back to every open group the flags it had at the push. */
  lemma {:induction K} RestoreTrack(K: Kont, low: nat, high: nat, saved: seq<Reg>, regs: seq<Reg>, d: nat)
    requires RegsTrack(K, low, high, saved, d) && Ordered(K) && |saved| == REGISTERS && |regs| == REGISTERS
    ensures RegsTrack(K, low, high, Restored(regs, saved, low, high), d)
  {
  }

  /** Opening or closing group `r` does not disturb the groups around it. */
  lemma {:induction K} OtherTrack(K: Kont, low: nat, high: nat, regs: seq<Reg>, d: nat, r: nat, x: Reg)
    requires RegsTrack(K, low, high, regs, d) && OpenBelow(K, r)
    ensures RegsTrack(K, low, high, SetReg(regs, r, x), d)
  {
  }

  lemma {:induction K} WidenTrack(K: Kont, low: nat, high: nat, regs: seq<Reg>, d: nat, low': nat, high': nat)
    requires RegsTrack(K, low, high, regs, d) && OpenBelow(K, high' + 1) && (low' <= low || NoneOpen(K))
    ensures RegsTrack(K, low', high', regs, d)
  {
  }

  /** Every open group is at or below the highest active register. */
  lemma {:induction K} OpenBelowHighest(K: Kont, low: nat, high: nat, regs: seq<Reg>, d: nat, r: nat, h: nat)
    requires RegsTrack(K, low, high, regs, d) && OpenBelow(K, r)
    requires forall i | h < i < r :: !GetReg(regs, i).active
    ensures OpenBelow(K, h + 1)
  {
  }

  lemma {:induction K} OnlyBetween(K: Kont, low: nat, regs: seq<Reg>, d: nat, b: nat)
    requires RegsTrack(K, low, low, regs, d) && OpenBelow(K, b) && b <= low
    ensures NoneOpen(K)
  {
  }

  lemma {:induction K} NonePositive(K: Kont)
    requires OpenBelow(K, 1) && Ordered(K)
    ensures NoneOpen(K)
  {
  }

  // ---- Group start ----

  lemma {:induction false} GroupThread(c: seq<byte>, t: seq<byte>, r: Re, g: nat, k: Kont, m: Machine)
    requires r.Group? && Cur(c, t, KSeq(r, g, k), m)
    ensures m.p < |c| && c[m.p] == START_MEMORY
    ensures StepStart(c, m).Running? && Cur(c, t, Enter(r, m.d, k), StepStart(c, m).m)
  {
    var m' := StepStart(c, m).m;
    GroupLay(c, m.p, r, g, k, m.d);
    FitsEnter(r, g, m.d, k);
    EnterOrdered(r, g, k, m.d);
    EnterTrack(r, g, k, m);
  }

  lemma {:induction false} GroupLay(c: seq<byte>, p: nat, r: Re, g: nat, k: Kont, d: nat)
    requires r.Group? && Lay(c, p, KSeq(r, g, k)) && Ordered(KSeq(r, g, k))
    ensures p + 3 <= |c| && c[p] == START_MEMORY && c[p + 1] == r.n && c[p + 2] == r.inner
    ensures Lay(c, p + 3, Enter(r, d, k))
  {
    hide At, Code;
    GroupParts(c, p, r.n, r.inner, r.body);
    var hd := [START_MEMORY, r.n % 256, r.inner % 256];
    AtIndex(c, p, hd, 0);
    AtIndex(c, p, hd, 1);
    AtIndex(c, p, hd, 2);
    var e := KEnd(r.n, r.inner, d, k);
    var q := p + 3 + |Code(r.body)|;
    assert Lay(c, q + |EndOfAlts(r.body)|, e);
    if r.body.Alt? { assert Lay(c, q, KDum(e)); }
  }

  lemma {:induction false} EnterOrdered(r: Re, g: nat, k: Kont, d: nat)
    requires r.Group? && Ordered(KSeq(r, g, k))
    ensures Ordered(Enter(r, d, k))
    ensures NoneOpen(k) ==> GroupsFrom(Enter(r, d, k), g)
    ensures forall b | GroupsFrom(KSeq(r, g, k), b) :: GroupsFrom(Enter(r, d, k), b)
  {
    var e := KEnd(r.n, r.inner, d, k);
    OpenBelowMono(k, g, g + 1);
    assert Ordered(e) && OpenBelow(e, g + 1) && !NoneOpen(e);
    if r.body.Alt? { assert Ordered(KDum(e)) && OpenBelow(KDum(e), g + 1) && !NoneOpen(KDum(e)); }
    if NoneOpen(k) {
      GroupsFromMono(if k.KTail? then k.k else k, g + GroupCount(r), g);
      assert GroupsFrom(e, g);
      if r.body.Alt? { assert GroupsFrom(KDum(e), g); }
    }
    forall b | GroupsFrom(KSeq(r, g, k), b)
      ensures GroupsFrom(Enter(r, d, k), b)
    {
      assert GroupsFrom(e, b);
      if r.body.Alt? { assert GroupsFrom(KDum(e), b); }
    }
  }

  lemma {:induction false} EnterTrack(r: Re, g: nat, k: Kont, m: Machine)
    requires r.Group? && Ordered(KSeq(r, g, k)) && |m.regs| == REGISTERS
    requires RegsTrack(k, m.low, m.high, m.regs, m.d)
    ensures var low := if m.low == NO_LOWEST_ACTIVE_REG then r.n else m.low;
      (low <= r.n ==> RegsTrack(Enter(r, m.d, k), low, r.n, SetReg(m.regs, r.n, Reg(true, false)), m.d))
      && (m.low == NO_LOWEST_ACTIVE_REG ==> NoneOpen(k))
  {
    var low := if m.low == NO_LOWEST_ACTIVE_REG then r.n else m.low;
    var regs := SetReg(m.regs, r.n, Reg(true, false));
    TrackBounds(k, m.low, m.high, m.regs, m.d);
    if low <= r.n {
      OtherTrack(k, m.low, m.high, m.regs, m.d, r.n, Reg(true, false));
      OpenBelowMono(k, r.n, r.n + 1);
      WidenTrack(k, m.low, m.high, regs, m.d, low, r.n);
      var e := KEnd(r.n, r.inner, m.d, k);
      assert RegsTrack(e, low, r.n, regs, m.d);
      if r.body.Alt? { assert RegsTrack(KDum(e), low, r.n, regs, m.d); }
    }
  }

  // ---- Group end ----

  /** Registers after the group closes. */
  lemma {:induction false} CloseTrack(n: nat, inner: nat, s: nat, k: Kont, m: Machine)
    requires RegsTrack(KEnd(n, inner, s, k), m.low, m.high, m.regs, m.d) && Ordered(KEnd(n, inner, s, k))
    requires |m.regs| == REGISTERS
    requires m.low == NO_LOWEST_ACTIVE_REG || GroupsFrom(k, m.low)
    ensures var m' := Closed(m, n);
      && RegsTrack(k, m'.low, m'.high, m'.regs, m.d) && |m'.regs| == REGISTERS
      && (m'.low == NO_LOWEST_ACTIVE_REG || GroupsFrom(k, m'.low))
      && m'.stack == m.stack && m'.d == m.d && m'.best == m.best
  {
    var x := GetReg(m.regs, n).(active := false);
    var regs := SetReg(m.regs, n, x);
    var h := HighestActive(regs, n - 1);
    OtherTrack(k, m.low, m.high, m.regs, m.d, n, x);
    OpenBelowHighest(k, m.low, m.high, regs, m.d, n, h);
    if m.low == m.high {
      OnlyBetween(k, m.low, regs, m.d, n);
      OpenBelowMono(k, 0, 257);
      WidenTrack(k, m.low, m.high, regs, m.d, NO_LOWEST_ACTIVE_REG, NO_HIGHEST_ACTIVE_REG);
    } else if h == 0 {
      NonePositive(k);
      OpenBelowMono(k, 0, 257);
      WidenTrack(k, m.low, m.high, regs, m.d, NO_LOWEST_ACTIVE_REG, NO_HIGHEST_ACTIVE_REG);
    } else {
      WidenTrack(k, m.low, m.high, regs, m.d, m.low, h);
    }
  }

  /** What the first instruction of a continuation that is not a loop tail can be. */
  lemma {:induction false} FirstOp(c: seq<byte>, p: nat, K: Kont)
    requires Lay(c, p, K) && Normal(K) && Fits(K) && !K.KTail?
    ensures p <= |c| && !IsLoopEnd(c, p)
    ensures B(c, p) != JUMP && B(c, p) != POP_FAILURE_JUMP && B(c, p) != MAYBE_POP_JUMP
    ensures B(c, p) == DUMMY_FAILURE_JUMP ==> Extract(c, p + 1) == 3
    ensures K.KDum? ==> B(c, p) == PUSH_DUMMY_FAILURE
  {
    match K
    case KDone =>
    case KJump(_) =>
    case KDum(_) => AtIndex(c, p, [PUSH_DUMMY_FAILURE], 0);
    case KEnd(n, inner, _, _) => AtIndex(c, p, [STOP_MEMORY, n % 256, inner % 256], 0);
    case KSeq(r, g, k) => FirstOpOfCode(c, p, r);
  }

  lemma {:induction false} FirstOpOfCode(c: seq<byte>, p: nat, r: Re)
    requires At(c, p, Code(r)) && Simple(r) && Normal(KSeq(r, 0, KDone))
    ensures p < |c|
    ensures c[p] == match r
      case Lit(_) => EXACTN
      case Any => ANYCHAR
      case Set(neg, _) => (if neg then CHARSET_NOT else CHARSET)
      case Group(_, _, _) => START_MEMORY
      case Rep(_, ops) => (if ZeroOk(ops) then ON_FAILURE_JUMP else DUMMY_FAILURE_JUMP)
      case _ => ON_FAILURE_JUMP
    ensures c[p] == DUMMY_FAILURE_JUMP ==> Extract(c, p + 1) == 3 && Target(c, p) == p + 6
  {
    match r
    case Lit(_) => AtIndex(c, p, Code(r), 0);
    case Any => AtIndex(c, p, Code(r), 0);
    case Set(_, _) => AtIndex(c, p, Code(r), 0);
    case Group(n, inner, body) =>
      GroupParts(c, p, n, inner, body);
      AtIndex(c, p, [START_MEMORY, n % 256, inner % 256], 0);
    case Alt(a, b) =>
      AltParts(c, p, a, b);
      AtIndex(c, p, Jmp(ON_FAILURE_JUMP, |Code(a)| + 3), 0);
    case Rep(body, ops) =>
      var h := RepParts(c, p, Code(body), ZeroOk(ops), ManyOk(ops));
      AtIndex(c, h, Jmp(ON_FAILURE_JUMP, |Code(body)| + if ManyOk(ops) then 3 else 0), 0);
      if !ZeroOk(ops) { JmpAt(c, p, DUMMY_FAILURE_JUMP, 3); }
  }

  /** The jump back of a loop: its target, and where that one leads on failure. */
  lemma {:induction false} TailLay(c: seq<byte>, p: nat, K: Kont)
    requires K.KTail? && Lay(c, p, K) && |c| < 32768
    ensures var h := p - |Code(K.body)| - 3;
      && h >= 0 && p + 3 <= |c| && c[p] == MAYBE_POP_JUMP && Extract(c, p + 1) < 0 && Target(c, p) == h
      && c[h] == ON_FAILURE_JUMP && Target(c, h) == p + 3
      && At(c, h + 3, Code(K.body))
  {
    var h := p - |Code(K.body)| - 3;
    AtFits(c, h, Code(Loop(K.body)));
    assert ZeroOk([Star]) && ManyOk([Star]);
    hide At;
    var _ := RepParts(c, h, Code(K.body), true, true);
    JmpAt(c, h, ON_FAILURE_JUMP, |Code(K.body)| + 3);
    JmpAt(c, p, MAYBE_POP_JUMP, -(|Code(K.body)| + 6));
  }

  lemma {:induction false} GroupHead(c: seq<byte>, p: nat, r: Re)
    requires r.Group? && At(c, p, Code(r)) && r.n < 256
    ensures B(c, p) == START_MEMORY && B(c, p + 1) == r.n
  {
    GroupParts(c, p, r.n, r.inner, r.body);
    var hd := [START_MEMORY, r.n % 256, r.inner % 256];
    AtIndex(c, p, hd, 0);
    AtIndex(c, p, hd, 1);
  }

  lemma {:induction false} TailOfGroupLay(c: seq<byte>, p: nat, K: Kont)
    requires K.KTail? && K.body.Group? && Lay(c, p, K) && Ordered(K) && |c| < 32768
    ensures LoopsBackTo(c, p, K.body.n) && Target(c, Target(c, p)) == p + 3
  {
    hide At, Extract, Code;
    TailLay(c, p, K);
    GroupHead(c, p - |Code(K.body)|, K.body);
  }

  /** The test at the end of a group singles out the groups that are loop bodies. */
  lemma {:induction false} EndLay(c: seq<byte>, t: seq<byte>, n: nat, inner: nat, s: nat, k: Kont, m: Machine)
    requires Cur(c, t, KEnd(n, inner, s, k), m) && |c| < 32768
    ensures m.p + 3 <= |c| && c[m.p] == STOP_MEMORY && B(c, m.p + 1) == n
    ensures m.p + 3 < |c| && LoopsBackTo(c, m.p + 3, n) <==> k.KTail?
    ensures k.KTail? ==> Target(c, Target(c, m.p + 3)) == m.p + 6
  {
    hide At, Extract, Code;
    var p := m.p;
    var hd := [STOP_MEMORY, n % 256, inner % 256];
    AtIndex(c, p, hd, 0);
    AtIndex(c, p, hd, 1);
    AtIndex(c, p, hd, 2);
    if k.KTail? {
      TailLay(c, p + 3, k);
      TailOfGroupLay(c, p + 3, k);
    } else {
      NormThread(c, t, k, p + 3, m.d, m.low, m.high, m.regs);
      FirstOp(c, p + 3, Norm(k));
    }
  }

  /** The byte that stop_memory reads two before itself. */
  lemma {:induction false} MisreadSeen(c: seq<byte>, p: nat, k: Kont)
    requires k.KTail? && k.body.Group? && Lay(c, p + 3, k) && |c| < 32768
    ensures B(c, p - 2) == START_MEMORY <==> Misread(k.body)
  {
    hide At, Lay, Code;
    var code := Code(k.body);
    GroupLength(k.body);
    TailLay(c, p + 3, k);
    AtIndex(c, p + 3 - |code|, code, |code| - 5);
  }

  lemma GroupLength(r: Re)
    requires r.Group?
    ensures |Code(r)| >= 6
  {
    hide Code;
    GroupCode(r);
  }

  lemma {:induction false} GroupCode(r: Re)
    requires r.Group?
    ensures |Code(r)| == 6 + |Code(r.body)| + |EndOfAlts(r.body)|
  {
  }

  /** stop_memory either goes on after the group, or pushes the loop's exit and fails. */
  lemma {:induction false} EndThread(c: seq<byte>, t: seq<byte>, K: Kont, m: Machine)
    requires K.KEnd? && Cur(c, t, K, m) && |c| < 32768
    ensures m.p < |c| && c[m.p] == STOP_MEMORY
    ensures var m' := Closed(m, K.n);
      if Leaves(K, m.d)
      then StepStop(c, m) == Backtrack(c, Push(m', Place(m.p + 6, m.d))) && Cur(c, t, K.k.k, m'.(p := m.p + 6))
      else StepStop(c, m) == Running(m'.(p := m.p + 3)) && Cur(c, t, K.k, m'.(p := m.p + 3))
    ensures Closed(m, K.n).stack == m.stack && Closed(m, K.n).best == m.best && Closed(m, K.n).d == m.d
  {
    var k := K.k;
    EndLay(c, t, K.n, K.inner, K.s, k, m);
    CloseTrack(K.n, K.inner, K.s, k, m);
    var m' := Closed(m, K.n);
    assert GetReg(m.regs, K.n) == Reg(true, K.s < m.d);
    assert Cur(c, t, k, m'.(p := m.p + 3));
    if k.KTail? {
      assert Fits(K) && k.body.Group?;
      MisreadSeen(c, m.p, k);
      assert Cur(c, t, k.k, m'.(p := m.p + 6));
    }
  }

  // ---- Jumps ----

  /** The jump back of a loop leads to the loop again. */
  lemma {:induction false} TailThread(c: seq<byte>, t: seq<byte>, K: Kont, m: Machine)
    requires K.KTail? && Cur(c, t, K, m) && |c| < 32768
    ensures m.p + 3 <= |c| && c[m.p] == MAYBE_POP_JUMP && Target(c, m.p) >= 0
    ensures Cur(c, t, KSeq(Loop(K.body), K.g, K.k), m.(p := Target(c, m.p)))
  {
    TailLay(c, m.p, K);
    FitsTail(K);
    hide At;
    var body := K.body;
    assert ZeroOk([Star]) && ManyOk([Star]);
    assert |Code(Loop(body))| == |Code(body)| + 6;
    assert Ordered(KSeq(Loop(body), K.g, K.k));
  }

  lemma {:induction false} JumpThread(c: seq<byte>, t: seq<byte>, K: Kont, m: Machine)
    requires K.KJump? && Cur(c, t, K, m)
    ensures m.p < |c| && c[m.p] == JUMP_PAST_ALT && Target(c, m.p) >= 0
    ensures Cur(c, t, K.k, m.(p := Target(c, m.p)))
  {
  }

  lemma {:induction false} DumThread(c: seq<byte>, t: seq<byte>, K: Kont, m: Machine)
    requires K.KDum? && Cur(c, t, K, m)
    ensures m.p < |c| && c[m.p] == PUSH_DUMMY_FAILURE && Cur(c, t, K.k, m.(p := m.p + 1))
  {
    AtIndex(c, m.p, [PUSH_DUMMY_FAILURE], 0);
  }

  // ---- One character, a set, or a literal ----

  lemma {:induction false} ConsumeThread(c: seq<byte>, t: seq<byte>, r: Re, g: nat, k: Kont, m: Machine, n: nat)
    requires Cur(c, t, KSeq(r, g, k), m) && n > 0 && m.d + n <= |t|
    ensures Cur(c, t, k, Consume(m, m.p + |Code(r)|, n).m)
  {
    ConsumeTrack(k, m.low, m.high, m.regs, m.d, n);
  }

  lemma {:induction false} LitStep(c: seq<byte>, t: seq<byte>, s: seq<byte>, g: nat, k: Kont, m: Machine)
    requires Cur(c, t, KSeq(Lit(s), g, k), m)
    ensures m.p < |c| && c[m.p] == EXACTN
    ensures StepExactn(t, c, m) ==
            if m.d + |s| <= |t| && t[m.d..m.d + |s|] == s then Consume(m, m.p + |Code(Lit(s))|, |s|) else Backtrack(c, m)
  {
    var code := Code(Lit(s));
    AtIndex(c, m.p, code, 0);
    AtIndex(c, m.p, code, 1);
    AtConcat(c, m.p, [EXACTN, |s| % 256], s);
    AtSlice(c, m.p + 2, s);
  }

  lemma {:induction false} SetStep(c: seq<byte>, t: seq<byte>, neg: bool, bits: seq<byte>, g: nat, k: Kont, m: Machine)
    requires Cur(c, t, KSeq(Set(neg, bits), g, k), m)
    ensures m.p < |c| && c[m.p] == if neg then CHARSET_NOT else CHARSET
    ensures StepCharset(t, c, m, neg) ==
            if m.d < |t| && SetHas(neg, bits, t[m.d]) then Consume(m, m.p + |Code(Set(neg, bits))|, 1) else Backtrack(c, m)
  {
    var code := Code(Set(neg, bits));
    AtIndex(c, m.p, code, 0);
    AtIndex(c, m.p, code, 1);
    AtConcat(c, m.p, [if neg then CHARSET_NOT else CHARSET, |bits| % 256], bits);
    AtSlice(c, m.p + 2, bits);
  }

  lemma AtSlice(c: seq<byte>, p: nat, s: seq<byte>)
    requires At(c, p, s)
    ensures p + |s| <= |c| && c[p..p + |s|] == s
  {
  }

  lemma {:induction false} AtomStep(f: Flags, t: seq<byte>, c: seq<byte>, r: Re, g: nat, k: Kont, m: Machine)
    requires Cur(c, t, KSeq(r, g, k), m) && Atom(r)
    ensures Step(f, t, c, m) ==
            if AtomHas(f, t, r, m.d) then Consume(m, m.p + |Code(r)|, Width(r)) else Backtrack(c, m)
    ensures AtomHas(f, t, r, m.d) ==> m.d + Width(r) <= |t| && Cur(c, t, k, Consume(m, m.p + |Code(r)|, Width(r)).m)
    ensures Width(r) > 0
  {
    assert Simple(r);
    match r {
      case Lit(s) => LitStep(c, t, s, g, k, m);
      case Any => AtIndex(c, m.p, Code(r), 0);
      case Set(neg, bits) => SetStep(c, t, neg, bits, g, k, m);
    }
    if AtomHas(f, t, r, m.d) { ConsumeThread(c, t, r, g, k, m, Width(r)); }
  }

  // ---- Choice points ----

  /** If a piece of code begins with an open group, that group has the piece's first number. */
  lemma {:induction false} FirstGroup(c: seq<byte>, p: nat, r: Re, g: nat)
    requires At(c, p, Code(r)) && Simple(r) && Numbered(r, g) && g + GroupCount(r) <= 256
    ensures |Code(r)| > 0 && B(c, p) == START_MEMORY ==> |Code(r)| > 1 && B(c, p + 1) == g
    ensures Code(r) == [] ==> GroupCount(r) == 0
    decreases r
  {
    match r
    case Cat(a, b) =>
      AtConcat(c, p, Code(a), Code(b));
      FirstGroup(c, p, a, g);
      if Code(a) == [] { FirstGroup(c, p, b, g); }
    case Group(n, inner, body) =>
      GroupParts(c, p, n, inner, body);
      AtIndex(c, p, [START_MEMORY, n % 256, inner % 256], 1);
    case Eps =>
    case Skip(_) =>
    case _ => FirstOpOfCode(c, p, r);
  }

  /** Saving the registers of a group ahead keeps a thread well-formed. */
  lemma {:induction false} SavingThread(c: seq<byte>, t: seq<byte>, r: Re, g: nat, k: Kont, m: Machine)
    requires Cur(c, t, KSeq(r, g, k), m) && (r.Rep? || r.Alt?)
    requires B(c, m.p + 3) == START_MEMORY ==> B(c, m.p + 4) == g
    ensures Cur(c, t, KSeq(r, g, k), Saving(c, m))
    ensures Saving(c, m).stack == m.stack && Saving(c, m).d == m.d && Saving(c, m).best == m.best && Saving(c, m).p == m.p
  {
    assert Fits(k) && (k.KTail? ==> Repeatable(k.body));
    if B(c, m.p + 3) == START_MEMORY {
      var m' := Saving(c, m);
      TrackBounds(k, m.low, m.high, m.regs, m.d);
      OpenBelowMono(k, g, m'.high + 1);
      WidenTrack(k, m.low, m.high, m.regs, m.d, m'.low, m'.high);
      if m.low == NO_LOWEST_ACTIVE_REG { GroupsFromMono(k, g + GroupCount(r), g); }
    }
  }

  lemma {:induction b} JumpsOrdered(b: Re, k: Kont, low: nat, high: nat, regs: seq<Reg>, d: nat)
    ensures Ordered(Jumps(b, k)) == Ordered(k)
    ensures RegsTrack(Jumps(b, k), low, high, regs, d) == RegsTrack(k, low, high, regs, d)
    ensures forall x :: OpenBelow(Jumps(b, k), x) == OpenBelow(k, x)
    ensures forall x :: GroupsFrom(Jumps(b, k), x) == GroupsFrom(k, x)
  {
  }

  lemma {:induction false} JumpsLay(c: seq<byte>, p: nat, b: Re, k: Kont)
    requires At(c, p, Jmp(JUMP_PAST_ALT, PastAlt(b))) && At(c, p + 3, Code(b)) && Lay(c, p + 3 + |Code(b)|, k)
    requires |c| < 32768
    ensures Lay(c, p, Jumps(b, k))
    decreases b
  {
    hide At, Jmp;
    AtFits(c, p + 3, Code(b));
    if b.Alt? {
      AltParts(c, p + 3, b.a, b.b);
      JumpsLay(c, p + 6 + |Code(b.a)|, b.b, k);
    }
    JmpAt(c, p, JUMP_PAST_ALT, PastAlt(b));
  }

  lemma {:induction false} AltLay(c: seq<byte>, p: nat, r: Re, g: nat, k: Kont)
    requires r.Alt? && Lay(c, p, KSeq(r, g, k)) && Simple(r) && Numbered(r, g) && g + GroupCount(r) <= 256 && |c| < 32768
    ensures p + 3 <= |c| && c[p] == ON_FAILURE_JUMP && Target(c, p) >= 0
    ensures Lay(c, p + 3, KSeq(r.a, g, Jumps(r.b, k)))
    ensures Lay(c, Target(c, p), KSeq(r.b, g + GroupCount(r.a), k))
    ensures B(c, p + 3) == START_MEMORY ==> B(c, p + 4) == g
  {
    hide At, Extract, Code;
    var a, b := r.a, r.b;
    AtFits(c, p, Code(r));
    AltParts(c, p, a, b);
    JmpAt(c, p, ON_FAILURE_JUMP, |Code(a)| + 3);
    FirstOfAlt(c, p + 3, a, g, PastAlt(b));
    JumpsLay(c, p + 3 + |Code(a)|, b, k);
  }

  lemma {:induction false} FirstOfAlt(c: seq<byte>, p: nat, a: Re, g: nat, past: nat)
    requires At(c, p, Code(a)) && At(c, p + |Code(a)|, Jmp(JUMP_PAST_ALT, past))
    requires Simple(a) && Numbered(a, g) && g + GroupCount(a) <= 256
    ensures B(c, p) == START_MEMORY ==> B(c, p + 1) == g
  {
    AtIndex(c, p + |Code(a)|, Jmp(JUMP_PAST_ALT, past), 0);
    FirstGroup(c, p, a, g);
  }

  lemma {:induction false} AltThread(c: seq<byte>, t: seq<byte>, r: Re, g: nat, k: Kont, m: Machine)
    requires r.Alt? && Cur(c, t, KSeq(r, g, k), m) && |c| < 32768
    ensures m.p < |c| && c[m.p] == ON_FAILURE_JUMP && Target(c, m.p) >= 0
    ensures var m' := Saving(c, m);
      && m'.stack == m.stack && m'.d == m.d && m'.best == m.best
      && Cur(c, t, KSeq(r.a, g, Jumps(r.b, k)), m'.(p := m.p + 3))
      && Cur(c, t, KSeq(r.b, g + GroupCount(r.a), k), m'.(p := Target(c, m.p)))
  {
    AltLay(c, m.p, r, g, k);
    hide Lay;
    SavingThread(c, t, r, g, k, m);
    AltFits(r, g, k);
    AltOrdered(c, t, r, g, k, Saving(c, m));
  }

  lemma {:induction false} AltOrdered(c: seq<byte>, t: seq<byte>, r: Re, g: nat, k: Kont, m: Machine)
    requires r.Alt? && Cur(c, t, KSeq(r, g, k), m) && !k.KTail?
    ensures Ordered(KSeq(r.a, g, Jumps(r.b, k))) && Ordered(KSeq(r.b, g + GroupCount(r.a), k))
    ensures RegsTrack(KSeq(r.a, g, Jumps(r.b, k)), m.low, m.high, m.regs, m.d)
    ensures m.low == NO_LOWEST_ACTIVE_REG || GroupsFrom(KSeq(r.a, g, Jumps(r.b, k)), m.low)
  {
    JumpsOrdered(r.b, k, m.low, m.high, m.regs, m.d);
    OpenBelowMono(k, g, g + GroupCount(r.a));
    if NoneOpen(k) { GroupsFromMono(k, g + GroupCount(r), g + GroupCount(r.a)); }
    assert !Jumps(r.b, k).KTail?;
  }

  // ---- Repetitions ----

  /** `h` is the address of the on_failure_jump. */
  lemma {:induction false} RepLay(c: seq<byte>, p: nat, r: Re, g: nat, k: Kont) returns (h: nat)
    requires r.Rep? && Lay(c, p, KSeq(r, g, k)) && |c| < 32768
    ensures h == if ZeroOk(r.ops) then p else p + 3
    ensures p < |c| && h + 3 <= |c| && c[h] == ON_FAILURE_JUMP && Target(c, h) == p + |Code(r)|
    ensures !ZeroOk(r.ops) ==> c[p] == DUMMY_FAILURE_JUMP && Target(c, p) == p + 6
    ensures Lay(c, h + 3, KSeq(r.body, g, AfterBody(r, g, k)))
  {
    hide At, RepCode, Jmp, Target;
    var code, zero, many := Code(r.body), ZeroOk(r.ops), ManyOk(r.ops);
    AtFits(c, p, Code(r));
    h := RepParts(c, p, code, zero, many);
    JmpAt(c, h, ON_FAILURE_JUMP, |code| + if many then 3 else 0);
    if !zero { JmpAt(c, p, DUMMY_FAILURE_JUMP, 3); }
    if many {
      LoopAt(c, p, code, zero, h);
      assert ZeroOk([Star]) && ManyOk([Star]);
      assert Code(Loop(r.body)) == RepCode(code, true, true);
    }
    assert Lay(c, h + 3 + |code|, AfterBody(r, g, k));
  }

  lemma {:induction false} LoopAt(c: seq<byte>, p: nat, code: seq<byte>, zero: bool, h: nat)
    requires At(c, p, RepCode(code, zero, true)) && h == if zero then p else p + 3
    ensures At(c, h, RepCode(code, true, true))
  {
    var h' := RepParts(c, p, code, zero, true);
    var s1, s3 := Jmp(ON_FAILURE_JUMP, |code| + 3), Jmp(MAYBE_POP_JUMP, -(|code| + 6));
    hide At;
    AtConcat(c, h, s1, code);
    AtConcat(c, h, s1 + code, s3);
    assert [] + s1 + code + s3 == s1 + code + s3;
  }

  lemma {:induction false} BodyThread(c: seq<byte>, t: seq<byte>, r: Re, g: nat, k: Kont, m: Machine, q: nat)
    requires r.Rep? && Cur(c, t, KSeq(r, g, k), m) && Lay(c, q, KSeq(r.body, g, AfterBody(r, g, k)))
    ensures Cur(c, t, KSeq(r.body, g, AfterBody(r, g, k)), m.(p := q))
  {
    FitsLoop(r, g, k);
    RepOrdered(r, g, k);
    assert RegsTrack(AfterBody(r, g, k), m.low, m.high, m.regs, m.d);
    hide Lay;
  }

  lemma {:induction false} PlusThread(c: seq<byte>, t: seq<byte>, r: Re, g: nat, k: Kont, m: Machine)
    requires r.Rep? && !ZeroOk(r.ops) && Cur(c, t, KSeq(r, g, k), m) && |c| < 32768
    ensures m.p < |c| && c[m.p] == DUMMY_FAILURE_JUMP && Target(c, m.p) == m.p + 6
    ensures Cur(c, t, KSeq(r.body, g, AfterBody(r, g, k)), m.(p := m.p + 6))
  {
    var h := RepLay(c, m.p, r, g, k);
    BodyThread(c, t, r, g, k, m, m.p + 6);
  }

  lemma {:induction false} ZeroThread(c: seq<byte>, t: seq<byte>, r: Re, g: nat, k: Kont, m: Machine)
    requires r.Rep? && ZeroOk(r.ops) && Cur(c, t, KSeq(r, g, k), m) && |c| < 32768
    ensures m.p < |c| && c[m.p] == ON_FAILURE_JUMP && Target(c, m.p) >= 0
    ensures var m' := Saving(c, m);
      && m'.stack == m.stack && m'.d == m.d && m'.best == m.best
      && Cur(c, t, KSeq(r.body, g, AfterBody(r, g, k)), m'.(p := m.p + 3))
      && Cur(c, t, k, m'.(p := Target(c, m.p)))
  {
    var h := RepLay(c, m.p, r, g, k);
    BodyStart(c, m.p + 3, r, g, k);
    hide Lay, Code;
    SavingThread(c, t, r, g, k, m);
    BodyThread(c, t, r, g, k, Saving(c, m), m.p + 3);
    ExitThread(c, t, r, g, k, Saving(c, m));
  }

  lemma {:induction false} ExitThread(c: seq<byte>, t: seq<byte>, r: Re, g: nat, k: Kont, m: Machine)
    requires Cur(c, t, KSeq(r, g, k), m)
    ensures Cur(c, t, k, m.(p := m.p + |Code(r)|))
  {
  }

  lemma {:induction false} BodyStart(c: seq<byte>, q: nat, r: Re, g: nat, k: Kont)
    requires r.Rep? && Fits(KSeq(r, g, k)) && Ordered(KSeq(r, g, k)) && At(c, q, Code(r.body))
    ensures B(c, q) == START_MEMORY ==> B(c, q + 1) == g
  {
    assert Simple(r.body) && Repeatable(r.body) && Numbered(r.body, g);
    FirstGroup(c, q, r.body, g);
    FirstOpOfCode(c, q, r.body);
  }

  lemma {:induction false} RepOrdered(r: Re, g: nat, k: Kont)
    requires r.Rep? && Ordered(KSeq(r, g, k)) && !k.KTail?
    ensures Ordered(KSeq(r.body, g, AfterBody(r, g, k)))
    ensures forall b | GroupsFrom(KSeq(r, g, k), b) :: GroupsFrom(KSeq(r.body, g, AfterBody(r, g, k)), b)
  {
    assert Ordered(AfterBody(r, g, k)) && (NoneOpen(AfterBody(r, g, k)) <==> NoneOpen(k));
    assert OpenBelow(AfterBody(r, g, k), g);
  }

}
