/** The machine on the byte program follows the threads: at every turn it is in the place of the program where the running
    thread is, with the waiting ones on its failure stack. A loop over a character that gives nothing back takes it up to
    three turns for one. */
module RegexFollow {
  import opened RegexSyntax
  import opened RegexCode
  import opened RegexEffect
  import opened RegexMachine
  import opened RegexKont
  import opened RegexAccept
  import opened RegexThreads
  import opened RegexMoves

  // ---- What maybe_pop_jump reads ----

  /** What stands at `q`, as the test of maybe_pop_jump distinguishes it. */
  function NextAt(c: seq<byte>, q: nat): Next {
    if q == |c| then End else if B(c, q) == EXACTN then Char(B(c, q + 2)) else Other
  }

  /** The test reads off the program what follows in the pattern. */
  lemma {:induction false} SeenIs(c: seq<byte>, p: nat, K: Kont)
    requires Lay(c, p, K) && Fits(K) && Ordered(K) && |c| < 32768
    ensures SeenK(K) == NextAt(c, SkipGroups(c, p))
    decreases |c| - p
  {
    NormLaid(c, p, K);
    NormSeen(K);
    var N := Norm(K);
    match N
    case KDone =>
    case KTail(_, _, _) => TailLay(c, p, N);
    case KJump(_) =>
    case KDum(_) => AtIndex(c, p, [PUSH_DUMMY_FAILURE], 0);
    case KEnd(n, inner, s, k) =>
      EndHead(c, p, N);
      SeenIs(c, p + 3, k);
    case KSeq(r, g, k) =>
      assert Simple(r);
      FirstOpOfCode(c, p, r);
      if r.Group? {
        GroupLay(c, p, r, g, k, 0);
        FitsEnter(r, g, 0, k);
        EnterOrdered(r, g, k, 0);
        SeenIs(c, p + 3, Enter(r, 0, k));
        EnterSeen(r, g, 0, k);
      } else if r.Lit? {
        AtIndex(c, p, Code(r), 2);
      }
  }

  lemma {:induction false} EnterSeen(r: Re, g: nat, s: nat, k: Kont)
    requires r.Group?
    ensures SeenK(Enter(r, s, k)) == SeenK(KSeq(r, g, k))
  {
    var e := KEnd(r.n, r.inner, s, k);
    assert SeenK(e) == SeenK(k) && SeenK(KDum(e)).Other?;
  }

  lemma {:induction false} EndHead(c: seq<byte>, p: nat, K: Kont)
    requires K.KEnd? && Lay(c, p, K)
    ensures p + 3 <= |c| && c[p] == STOP_MEMORY && SkipGroups(c, p) == SkipGroups(c, p + 3)
  {
    var hd := [STOP_MEMORY, K.n % 256, K.inner % 256];
    AtIndex(c, p, hd, 0);
    AtIndex(c, p, hd, 2);
  }

  /** What maybe_pop_jump sees of a body that is a literal or a set. */
  lemma {:induction false} BodySeen(c: seq<byte>, h: nat, body: Re)
    requires At(c, h + 3, Code(body)) && Simple(body) && Repeatable(body)
    ensures B(c, h + 3) == EXACTN ==> body.Lit? && body.s == [B(c, h + 5)]
    ensures B(c, h + 3) == CHARSET ==> body.Set? && !body.neg
    ensures B(c, h + 3) == CHARSET_NOT ==> body.Set? && body.neg
    ensures body.Set? && |body.bits| < 32 ==> forall ch :: NarrowedMapHas(c, h + 4, ch) == InMap(body.bits, ch)
    ensures body.Set? ==> B(c, h + 4) == |body.bits|
  {
    hide NarrowedMapHas, InMap, At, Extract, Target, ZeroOk;
    FirstOpOfCode(c, h + 3, body);
    if body.Lit? { AtIndex(c, h + 3, Code(body), 2); }
    if body.Set? { SetSeen(c, h + 3, body); }
  }

  /** A set as the rewriting reads it: the bitmap's size, and what is in a bitmap of at most 31 bytes. */
  lemma {:induction false} SetSeen(c: seq<byte>, p: nat, r: Re)
    requires r.Set? && Simple(r) && At(c, p, Code(r))
    ensures B(c, p + 1) == |r.bits|
    ensures |r.bits| < 32 ==> forall ch :: NarrowedMapHas(c, p + 1, ch) == InMap(r.bits, ch)
  {
    AtIndex(c, p, Code(r), 1);
    AtConcat(c, p, [if r.neg then CHARSET_NOT else CHARSET, |r.bits| % 256], r.bits);
    forall ch: byte | |r.bits| < 32
      ensures NarrowedMapHas(c, p + 1, ch) == InMap(r.bits, ch)
    {
      if ch < 8 * |r.bits| { AtIndex(c, p + 2, r.bits, ch / 8); }
    }
  }

  /** The size of a bitmap of 32 bytes, narrowed to a byte, leaves nothing of it. */
  lemma FullSetSeen(c: seq<byte>, p: int, ch: byte)
    requires B(c, p) == 32
    ensures !NarrowedMapHas(c, p, ch)
  {
  }

  /** The failure point is popped exactly if the pattern says so. */
  lemma {:induction false} PopsIs(c: seq<byte>, p: nat, K: Kont)
    requires K.KTail? && Lay(c, p, K) && Fits(K) && Ordered(K) && |c| < 32768
    ensures CanPop(c, p) <==> Pops(K.body, SeenK(K.k))
  {
    hide At, Code, Extract, NarrowedMapHas, InMap, SkipGroups;
    TailLay(c, p, K);
    var h := p - |Code(K.body)| - 3;
    BodySeen(c, h, K.body);
    BodyOp(c, h + 3, K.body);
    SeenIs(c, p + 3, K.k);
    if SeenK(K.k).Char? && K.body.Set? && |K.body.bits| == 32 { FullSetSeen(c, h + 4, SeenK(K.k).c); }
  }

  lemma {:induction false} BodyOp(c: seq<byte>, p: nat, body: Re)
    requires At(c, p, Code(body)) && Simple(body) && Repeatable(body)
    ensures B(c, p) == match body
      case Lit(_) => EXACTN
      case Any => ANYCHAR
      case Set(neg, _) => (if neg then CHARSET_NOT else CHARSET)
      case _ => START_MEMORY
    ensures body.Set? ==> |body.bits| <= 32
  {
    FirstOpOfCode(c, p, body);
  }

  // ---- Being abreast ----

  ghost predicate EntryLaid(c: seq<byte>, t: seq<byte>, x: Fail, y: Entry) {
    match y
    case Dummy => x.place.Nowhere?
    case Wait(K, d) => x.place.Place? && x.place.d == d && Thread(c, t, K, x.place.p, d, x.low, x.high, x.regs)
  }

  ghost predicate StackLaid(c: seq<byte>, t: seq<byte>, stack: seq<Fail>, threads: seq<Entry>) {
    |stack| == |threads| && forall i | 0 <= i < |stack| :: EntryLaid(c, t, stack[i], threads[i])
  }

  /** The machine is where the running thread is. */
  ghost predicate Abreast(c: seq<byte>, t: seq<byte>, m: Machine, s: Search) {
    Cur(c, t, s.K, m) && m.d == s.d && m.best == s.best && StackLaid(c, t, m.stack, s.stack)
  }

  /** The body of a loop that gives nothing back, and its tail. */
  function InBody(K: Kont): Kont
    requires K.KSeq? && K.r.Rep?
  {
    KSeq(K.r.body, K.g, KTail(K.r.body, K.g, K.k))
  }

  /** The machine is inside such a loop, with the loop's failure point on top. */
  ghost predicate Trying(c: seq<byte>, t: seq<byte>, m: Machine, s: Search) {
    && Possessive(s.K) && Cur(c, t, InBody(s.K), m) && m.d == s.d && m.best == s.best
    && m.stack != [] && StackLaid(c, t, m.stack[..|m.stack| - 1], s.stack)
    && EntryLaid(c, t, m.stack[|m.stack| - 1], if ZeroOk(s.K.r.ops) then Wait(Norm(s.K.k), s.d) else Dummy)
  }

  /** It is at the loop's jump back, one character on. */
  ghost predicate Tried(f: Flags, c: seq<byte>, t: seq<byte>, m: Machine, s: Search) {
    && Possessive(s.K) && s.d < |t| && AtomHas(f, t, s.K.r.body, s.d)
    && Cur(c, t, InBody(s.K).k, m) && m.d == s.d + 1 && m.best == s.best
    && m.stack != [] && StackLaid(c, t, m.stack[..|m.stack| - 1], s.stack)
  }

  /** The machine follows the search; `lag` more of its own turns may pass before the search takes one. */
  ghost predicate Follows(f: Flags, c: seq<byte>, t: seq<byte>, m: Machine, s: Search, lag: nat) {
    match lag
    case 2 => Abreast(c, t, m, s)
    case 1 => Trying(c, t, m, s)
    case 0 => Tried(f, c, t, m, s)
    case _ => false
  }

  /** After a turn of the machine: the search has taken the same turn, or the machine is still on its way. */
  ghost predicate Keeps(f: Flags, c: seq<byte>, t: seq<byte>, s: Search, lag: nat, o: Outcome, s': Search, lag': nat)
    requires s.d <= |t|
  {
    match o
    case Running(m') => Follows(f, c, t, m', s', lag') && if s' == s then lag' < lag else Turn(f, t, s) == On(s')
    case Matched(end) => Turn(f, t, s) == Found(end)
    case NoMatch => Turn(f, t, s) == NotFound
    case Stuck => false
  }

  /** The outcome of a turn of the machine is that of a turn of the threads. */
  ghost predicate InStep(c: seq<byte>, t: seq<byte>, o: Outcome, v: Verdict) {
    match o
    case Running(m') => v.On? && Abreast(c, t, m', v.s)
    case Matched(end) => v == Found(end)
    case NoMatch => v == NotFound
    case Stuck => false
  }

  // ---- Failing ----

  /** Giving up the running thread resumes the same waiting one. */
  lemma {:induction false} BackFollows(c: seq<byte>, t: seq<byte>, m: Machine, threads: seq<Entry>)
    requires StackLaid(c, t, m.stack, threads) && StackFits(t, threads) && |m.regs| == REGISTERS
    ensures InStep(c, t, Backtrack(c, m), Resume(threads, m.best))
    decreases |m.stack|
  {
    if m.stack != [] {
      var n := |m.stack| - 1;
      assert EntryLaid(c, t, m.stack[n], threads[n]) && EntryFits(t, threads[n], n);
      assert StackLaid(c, t, m.stack[..n], threads[..n]) && StackFits(t, threads[..n]);
      if threads[n].Dummy? {
        BackFollows(c, t, Popped(m), threads[..n]);
      } else {
        var x := m.stack[n];
        FirstOp(c, x.place.p, threads[n].K);
        RestoreTrack(threads[n].K, x.low, x.high, x.regs, m.regs, x.place.d);
      }
    }
  }

  lemma PushLaid(c: seq<byte>, t: seq<byte>, stack: seq<Fail>, threads: seq<Entry>, x: Fail, y: Entry)
    requires StackLaid(c, t, stack, threads) && EntryLaid(c, t, x, y)
    ensures StackLaid(c, t, stack + [x], threads + [y])
  {
  }

  /** A thread is where it is also without its codeless frames. */
  lemma {:induction false} GoesAbreast(c: seq<byte>, t: seq<byte>, K0: Kont, m: Machine, s: Search)
    requires Cur(c, t, K0, m) && s.K == Norm(K0) && s.d == m.d && s.best == m.best && StackLaid(c, t, m.stack, s.stack)
    ensures Abreast(c, t, m, s)
  {
    NormThread(c, t, K0, m.p, m.d, m.low, m.high, m.regs);
  }

  /** A failure point for a thread that waits. */
  lemma {:induction false} WaitLaid(c: seq<byte>, t: seq<byte>, K1: Kont, m: Machine, q: nat)
    requires Cur(c, t, K1, m.(p := q))
    ensures EntryLaid(c, t, Fail(Place(q, m.d), m.low, m.high, m.regs), Wait(Norm(K1), m.d))
  {
    NormThread(c, t, K1, q, m.d, m.low, m.high, m.regs);
  }

  // ---- Opcode by opcode ----

  /** A state of the two that are to stay abreast. */
  ghost predicate Ready(c: seq<byte>, t: seq<byte>, m: Machine, s: Search) {
    Abreast(c, t, m, s) && Sane(t, s) && |c| < 32768
  }

  lemma {:induction false} DoneFollows(f: Flags, c: seq<byte>, t: seq<byte>, m: Machine, s: Search)
    requires Ready(c, t, m, s) && s.K.KDone?
    ensures InStep(c, t, Step(f, t, c, m), Turn(f, t, s))
  {
    BackFollows(c, t, if m.best.NoBest? || m.d > m.best.end then m.(best := Best(m.d)) else m, s.stack);
    hide Backtrack, Resume;
  }

  lemma {:induction false} EndFollows(f: Flags, c: seq<byte>, t: seq<byte>, m: Machine, s: Search)
    requires Ready(c, t, m, s) && s.K.KEnd?
    ensures InStep(c, t, Step(f, t, c, m), Turn(f, t, s))
  {
    EndThread(c, t, s.K, m);
    hide StepStop, Lay, Fits, Ordered, RegsTrack;
    var s' := Turn(f, t, s).s;
    if Leaves(s.K, s.d) {
      var m' := LeaveStep(c, t, s.K, m);
      GoesAbreast(c, t, s.K.k.k, m', s');
    } else {
      GoesAbreast(c, t, s.K.k, Closed(m, s.K.n).(p := m.p + 3), s');
    }
  }

  /** Pushing the exit of the loop and failing comes down to going there. */
  lemma {:induction false} LeaveStep(c: seq<byte>, t: seq<byte>, K: Kont, m: Machine) returns (m': Machine)
    requires K.KEnd? && Cur(c, t, K, m) && |c| < 32768 && Leaves(K, m.d)
    ensures StepStop(c, m) == Running(m') && Cur(c, t, K.k.k, m')
    ensures m'.stack == m.stack && m'.best == m.best && m'.d == m.d
  {
    EndThread(c, t, K, m);
    var m1 := Closed(m, K.n);
    m' := m1.(p := m.p + 6);
    assert Fits(K.k);
    NormThread(c, t, K.k.k, m.p + 6, m.d, m1.low, m1.high, m1.regs);
    FirstOp(c, m.p + 6, Norm(K.k.k));
    var m2 := Push(m1, Place(m.p + 6, m.d));
    assert m2.stack[..|m2.stack| - 1] == m1.stack;
    assert Restored(m1.regs, m1.regs, m1.low, m1.high) == m1.regs;
    assert Popped(m2) == m';
  }

  lemma {:induction false} TailFollows(f: Flags, c: seq<byte>, t: seq<byte>, m: Machine, s: Search)
    requires Ready(c, t, m, s) && s.K.KTail?
    ensures InStep(c, t, Step(f, t, c, m), Turn(f, t, s))
  {
    TailThread(c, t, s.K, m);
    PopsIs(c, m.p, s.K);
    TailOnward(t, s);
    assert StackLaid(c, t, m.stack[..|m.stack| - 1], s.stack[..|s.stack| - 1]);
    hide CanPop, Target, Lay, Fits, Ordered, RegsTrack, StackLaid, StackFits;
  }

  lemma {:induction false} JumpFollows(f: Flags, c: seq<byte>, t: seq<byte>, m: Machine, s: Search)
    requires Ready(c, t, m, s) && s.K.KJump?
    ensures InStep(c, t, Step(f, t, c, m), Turn(f, t, s))
  {
    JumpThread(c, t, s.K, m);
    GoesAbreast(c, t, s.K.k, m.(p := Target(c, m.p)), Turn(f, t, s).s);
    hide Target, Lay, Fits, Ordered, RegsTrack, StackLaid, StackFits;
  }

  lemma {:induction false} DumFollows(f: Flags, c: seq<byte>, t: seq<byte>, m: Machine, s: Search)
    requires Ready(c, t, m, s) && s.K.KDum?
    ensures InStep(c, t, Step(f, t, c, m), Turn(f, t, s))
  {
    DumThread(c, t, s.K, m);
    PushLaid(c, t, m.stack, s.stack, Fail(Nowhere, m.low, m.high, m.regs), Dummy);
    GoesAbreast(c, t, s.K.k, Push(m, Nowhere).(p := m.p + 1), Turn(f, t, s).s);
    hide Lay, Fits, Ordered, RegsTrack, StackLaid, StackFits;
  }

  lemma {:induction false} AtomFollows(f: Flags, c: seq<byte>, t: seq<byte>, m: Machine, s: Search)
    requires Ready(c, t, m, s) && s.K.KSeq? && Atom(s.K.r)
    ensures InStep(c, t, Step(f, t, c, m), Turn(f, t, s))
  {
    var r, g, k := s.K.r, s.K.g, s.K.k;
    AtomStep(f, t, c, r, g, k, m);
    hide Step, Backtrack, Lay, Fits, Ordered, RegsTrack, AtomHas, Code, StackFits;
    if AtomHas(f, t, r, m.d) {
      GoesAbreast(c, t, k, Consume(m, m.p + |Code(r)|, Width(r)).m, Turn(f, t, s).s);
    } else {
      BackFollows(c, t, m, s.stack);
    }
  }

  lemma {:induction false} GroupFollows(f: Flags, c: seq<byte>, t: seq<byte>, m: Machine, s: Search)
    requires Ready(c, t, m, s) && s.K.KSeq? && s.K.r.Group?
    ensures InStep(c, t, Step(f, t, c, m), Turn(f, t, s))
  {
    GroupThread(c, t, s.K.r, s.K.g, s.K.k, m);
    hide Lay, Fits, Ordered, RegsTrack, StackFits;
    GoesAbreast(c, t, Enter(s.K.r, m.d, s.K.k), StepStart(c, m).m, Turn(f, t, s).s);
  }

  /** on_failure_jump, as one turn. */
  lemma {:induction false} PushStep(f: Flags, c: seq<byte>, t: seq<byte>, m: Machine)
    requires m.p < |c| && c[m.p] == ON_FAILURE_JUMP && Target(c, m.p) >= 0
    ensures Step(f, t, c, m) == Running(Push(Saving(c, m), Place(Target(c, m.p), m.d)).(p := m.p + 3))
  {
    hide Saving, Target, Push;
  }

  lemma {:induction false} AltFollows(f: Flags, c: seq<byte>, t: seq<byte>, m: Machine, s: Search)
    requires Ready(c, t, m, s) && s.K.KSeq? && s.K.r.Alt?
    ensures InStep(c, t, Step(f, t, c, m), Turn(f, t, s))
  {
    hide Step, Lay, Fits, Ordered, RegsTrack, StackFits, Saving, Target, GroupsFrom, StackLaid, ThreadFits, Jumps, Extract;
    var r, g, k := s.K.r, s.K.g, s.K.k;
    AltThread(c, t, r, g, k, m);
    PushStep(f, c, t, m);
    ForkFollows(c, t, m, s, Saving(c, m), KSeq(r.a, g, Jumps(r.b, k)), KSeq(r.b, g + GroupCount(r.a), k), Target(c, m.p));
  }

  /** A thread goes on and leaves another waiting. */
  lemma {:induction false} ForkFollows(c: seq<byte>, t: seq<byte>, m: Machine, s: Search, m1: Machine, K0: Kont, K1: Kont, q: nat)
    requires Abreast(c, t, m, s) && m1.stack == m.stack && m1.d == m.d && m1.best == m.best
    requires Cur(c, t, K0, m1.(p := m.p + 3)) && Cur(c, t, K1, m1.(p := q))
    ensures Abreast(c, t, Push(m1, Place(q, m.d)).(p := m.p + 3),
                    s.(K := Norm(K0), stack := s.stack + [Wait(Norm(K1), s.d)]))
  {
    hide Lay, Fits, Ordered, RegsTrack;
    WaitLaid(c, t, K1, m1, q);
    PushLaid(c, t, m.stack, s.stack, Fail(Place(q, m.d), m1.low, m1.high, m1.regs), Wait(Norm(K1), s.d));
    GoesAbreast(c, t, K0, Push(m1, Place(q, m.d)).(p := m.p + 3),
                s.(K := Norm(K0), stack := s.stack + [Wait(Norm(K1), s.d)]));
  }

  // ---- Repetitions ----

  /** A repetition that need not be taken: the machine leaves its exit behind. */
  lemma {:induction false} ZeroFollows(f: Flags, c: seq<byte>, t: seq<byte>, m: Machine, s: Search)
    requires Ready(c, t, m, s) && s.K.KSeq? && s.K.r.Rep? && ZeroOk(s.K.r.ops)
    ensures var o := Step(f, t, c, m);
      && o.Running?
      && if Possessive(s.K) then Trying(c, t, o.m, s) else InStep(c, t, o, Turn(f, t, s))
  {
    var r, g, k := s.K.r, s.K.g, s.K.k;
    var K0 := KSeq(r.body, g, AfterBody(r, g, k));
    ZeroThread(c, t, r, g, k, m);
    hide Step, Lay, Fits, Ordered, RegsTrack, StackFits, Saving, Target, Possessive, ManyOk, ZeroOk;
    PushStep(f, c, t, m);
    ForkFollows(c, t, m, s, Saving(c, m), K0, k, Target(c, m.p));
    if Possessive(s.K) {
      PossessiveBody(s.K);
      WaitLaid(c, t, k, Saving(c, m), Target(c, m.p));
      PushedTop(m.stack, Fail(Place(Target(c, m.p), m.d), Saving(c, m).low, Saving(c, m).high, Saving(c, m).regs));
    }
  }

  lemma PushedTop(stack: seq<Fail>, x: Fail)
    ensures (stack + [x])[..|stack|] == stack && (stack + [x])[|stack|] == x
  {
  }

  lemma {:induction false} PossessiveBody(K: Kont)
    requires Possessive(K)
    ensures KSeq(K.r.body, K.g, AfterBody(K.r, K.g, K.k)) == InBody(K)
  {
  }

  /** dummy_failure_jump, as one turn. */
  lemma {:induction false} PlusStep(f: Flags, c: seq<byte>, t: seq<byte>, m: Machine)
    requires m.p < |c| && c[m.p] == DUMMY_FAILURE_JUMP && Target(c, m.p) == m.p + 6
    ensures Step(f, t, c, m) == Running(Push(m, Nowhere).(p := m.p + 6))
  {
    hide Target, Push;
  }

  /** One that must be taken at least once: it leaves a dummy behind. */
  lemma {:induction false} PlusFollows(f: Flags, c: seq<byte>, t: seq<byte>, m: Machine, s: Search)
    requires Ready(c, t, m, s) && s.K.KSeq? && s.K.r.Rep? && !ZeroOk(s.K.r.ops)
    ensures var o := Step(f, t, c, m);
      && o.Running?
      && if Possessive(s.K) then Trying(c, t, o.m, s) else InStep(c, t, o, Turn(f, t, s))
  {
    hide Lay, Fits, Ordered, RegsTrack, StackFits, Target, Possessive, ManyOk, ZeroOk, GroupsFrom, StackLaid, ThreadFits, Extract, Saving;
    var r, g, k := s.K.r, s.K.g, s.K.k;
    var K0 := KSeq(r.body, g, AfterBody(r, g, k));
    PlusThread(c, t, r, g, k, m);
    PlusStep(f, c, t, m);
    hide Step;
    var x := Fail(Nowhere, m.low, m.high, m.regs);
    var m' := Push(m, Nowhere).(p := m.p + 6);
    PushLaid(c, t, m.stack, s.stack, x, Dummy);
    GoesAbreast(c, t, K0, m', s.(K := Norm(K0), stack := s.stack + [Dummy]));
    if Possessive(s.K) {
      PossessiveBody(s.K);
      PushedTop(m.stack, x);
    }
  }

  /** In the body of a loop that gives nothing back: one character more, or the loop is over. */
  lemma {:induction false} TryFollows(f: Flags, c: seq<byte>, t: seq<byte>, m: Machine, s: Search)
    requires Trying(c, t, m, s) && Sane(t, s) && |c| < 32768
    ensures var o := Step(f, t, c, m);
      if AtomHas(f, t, s.K.r.body, s.d) then o.Running? && Tried(f, c, t, o.m, s) else InStep(c, t, o, Turn(f, t, s))
  {
    var r, g, k := s.K.r, s.K.g, s.K.k;
    assert Simple(r) && Repeatable(r.body) by { assert Fits(s.K); }
    AtomStep(f, t, c, r.body, g, KTail(r.body, g, k), m);
    hide Step, Lay, Fits, Ordered, RegsTrack, AtomHas, Code;
    if AtomHas(f, t, r.body, s.d) {
      assert Width(r.body) == 1;
    } else {
      TryFails(f, c, t, m, s);
    }
  }

  lemma {:induction false} TryFails(f: Flags, c: seq<byte>, t: seq<byte>, m: Machine, s: Search)
    requires Trying(c, t, m, s) && Sane(t, s) && !AtomHas(f, t, s.K.r.body, s.d)
    ensures InStep(c, t, Backtrack(c, m), Turn(f, t, s))
  {
    var r, k, n := s.K.r, s.K.k, |m.stack| - 1;
    var y := if ZeroOk(r.ops) then Wait(Norm(k), s.d) else Dummy;
    assert m.stack == m.stack[..n] + [m.stack[n]];
    PushLaid(c, t, m.stack[..n], s.stack, m.stack[n], y);
    ScanOnward(f, t, s);
    if ZeroOk(r.ops) {
      NormSane(t, k, s.d, s.stack);
      ExitFits(t, s, y);
    }
    StackPushed(t, s.stack, y);
    hide Lay, Fits, Ordered, RegsTrack, AtomHas, Backtrack;
    BackFollows(c, t, m, s.stack + [y]);
    assert (s.stack + [y])[..|s.stack|] == s.stack;
  }

  /** The exit of a loop is a proper waiting thread. */
  lemma {:induction false} ExitFits(t: seq<byte>, s: Search, y: Entry)
    requires Sane(t, s) && Possessive(s.K) && y == Wait(Norm(s.K.k), s.d)
    ensures EntryFits(t, y, |s.stack|)
  {
    FitsLoop(s.K.r, s.K.g, s.K.k);
    WaitFits(t, s.K.k, s.d, |s.stack|);
  }

  /** At its jump back, the failure point is popped and the loop begins again. */
  lemma {:induction false} TriedFollows(f: Flags, c: seq<byte>, t: seq<byte>, m: Machine, s: Search)
    requires Tried(f, c, t, m, s) && Sane(t, s) && |c| < 32768
    ensures InStep(c, t, Step(f, t, c, m), Turn(f, t, s))
  {
    var K := InBody(s.K).k;
    TailThread(c, t, K, m);
    PopsIs(c, m.p, K);
    hide CanPop, Target, Lay, Fits, Ordered, RegsTrack, StackFits, AtomHas;
  }

  // ---- Every turn ----

  lemma {:induction false} RepFollows(f: Flags, c: seq<byte>, t: seq<byte>, m: Machine, s: Search)
    requires Ready(c, t, m, s) && s.K.KSeq? && s.K.r.Rep?
    ensures var o := Step(f, t, c, m);
      && o.Running?
      && if Possessive(s.K) then Trying(c, t, o.m, s) else InStep(c, t, o, Turn(f, t, s))
  {
    if ZeroOk(s.K.r.ops) { ZeroFollows(f, c, t, m, s); } else { PlusFollows(f, c, t, m, s); }
  }

  lemma {:induction false} AbreastFollows(f: Flags, c: seq<byte>, t: seq<byte>, m: Machine, s: Search)
    requires Ready(c, t, m, s) && !Possessive(s.K)
    ensures InStep(c, t, Step(f, t, c, m), Turn(f, t, s))
  {
    assert s.K.KSeq? ==> Simple(s.K.r) by { assert Fits(s.K); }
    hide Step, Abreast, StackFits, Fits;
    match s.K
    case KDone => DoneFollows(f, c, t, m, s);
    case KEnd(_, _, _, _) => EndFollows(f, c, t, m, s);
    case KTail(_, _, _) => TailFollows(f, c, t, m, s);
    case KJump(_) => JumpFollows(f, c, t, m, s);
    case KDum(_) => DumFollows(f, c, t, m, s);
    case KSeq(r, _, _) =>
      if Atom(r) {
        AtomFollows(f, c, t, m, s);
      } else if r.Rep? {
        RepFollows(f, c, t, m, s);
      } else if r.Group? {
        GroupFollows(f, c, t, m, s);
      } else if r.Alt? {
        AltFollows(f, c, t, m, s);
      }
  }

  /** One turn of the machine, wherever it is. */
  lemma {:induction false} StepFollows(f: Flags, c: seq<byte>, t: seq<byte>, m: Machine, s: Search, lag: nat)
    returns (s': Search, lag': nat)
    requires Follows(f, c, t, m, s, lag) && Sane(t, s) && |c| < 32768
    ensures Keeps(f, c, t, s, lag, Step(f, t, c, m), s', lag')
    ensures Step(f, t, c, m).Running? ==> Sane(t, s') && 3 * Total(t, s') + lag' < 3 * Total(t, s) + lag
  {
    TurnKeeps(f, t, s);
    hide Step, Abreast, Trying, Tried, Sane, Turn, Total, Heirs;
    s', lag' := if Turn(f, t, s).On? then Turn(f, t, s).s else s, 2;
    match lag
    case 0 => TriedFollows(f, c, t, m, s);
    case 1 =>
      TryFollows(f, c, t, m, s);
      if AtomHas(f, t, s.K.r.body, s.d) { s', lag' := s, 0; }
    case 2 =>
      if Possessive(s.K) {
        RepFollows(f, c, t, m, s);
        s', lag' := s, 1;
      } else {
        AbreastFollows(f, c, t, m, s);
      }
  }
}
