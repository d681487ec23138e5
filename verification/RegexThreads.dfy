/** The matcher without its program. A search runs one thread, a continuation at a position of the text, and keeps others
    waiting on a stack; a turn is a function of the threads alone. `RegexFollow` shows that the machine on the byte program
    does exactly this, so whatever a search finds, the machine finds. */
module RegexThreads {
  import opened RegexSyntax
  import opened RegexEffect
  import opened RegexMachine
  import opened RegexKont
  import opened RegexAccept

  datatype Entry = Dummy | Wait(K: Kont, d: nat)

  datatype Search = Search(K: Kont, d: nat, stack: seq<Entry>, best: Best)

  datatype Verdict = On(s: Search) | Found(end: nat) | NotFound

  // ---- One turn ----

  /** The thread is dead: the next waiting one goes on, or the search is over. */
  function Resume(stack: seq<Entry>, best: Best): Verdict
    decreases |stack|
  {
    if stack == [] then
      if best.Best? then Found(best.end) else NotFound
    else
      var n := |stack| - 1;
      match stack[n]
      case Dummy => Resume(stack[..n], best)
      case Wait(K, d) => On(Search(K, d, stack[..n], best))
  }

  /** The end of the pattern: with nothing waiting, a best match so far is preferred, however short. */
  function Finish(t: seq<byte>, s: Search): Verdict {
    if s.d == |t| then Found(s.d)
    else if s.stack != [] then Resume(s.stack, if s.best.NoBest? || s.d > s.best.end then Best(s.d) else s.best)
    else Found(if s.best.Best? then s.best.end else s.d)
  }

  /** A group closes after consuming nothing, or seems to: its loop is left. */
  predicate Leaves(K: Kont, d: nat)
    requires K.KEnd?
  {
    K.k.KTail? && (d <= K.s || Misread(K.k.body))
  }

  function Turn(f: Flags, t: seq<byte>, s: Search): Verdict
    requires s.d <= |t|
  {
    match s.K
    case KDone => Finish(t, s)
    case KEnd(_, _, _, k) => On(s.(K := Norm(if Leaves(s.K, s.d) then k.k else k)))
    case KTail(body, g, k) =>
      On(s.(K := KSeq(Loop(body), g, k),
            stack := if Pops(body, SeenK(k)) && s.stack != [] then s.stack[..|s.stack| - 1] else s.stack))
    case KJump(k) => On(s.(K := Norm(k)))
    case KDum(k) => On(s.(K := Norm(k), stack := s.stack + [Dummy]))
    case KSeq(r, g, k) =>
      if Atom(r) then
        if AtomHas(f, t, r, s.d) then On(s.(K := Norm(k), d := s.d + Width(r))) else Resume(s.stack, s.best)
      else if r.Rep? then TurnRep(f, t, s)
      else if r.Group? then On(s.(K := Norm(Enter(r, s.d, k))))
      else if r.Alt? then
        On(s.(K := Norm(KSeq(r.a, g, Jumps(r.b, k))), stack := s.stack + [Wait(Norm(KSeq(r.b, g + GroupCount(r.a), k)), s.d)]))
      else NotFound
  }

  function TurnRep(f: Flags, t: seq<byte>, s: Search): Verdict
    requires s.d <= |t| && s.K.KSeq? && s.K.r.Rep?
  {
    var r, g, k := s.K.r, s.K.g, s.K.k;
    if Possessive(s.K) then
      if AtomHas(f, t, r.body, s.d) then On(s.(K := Again(s.K), d := s.d + 1))
      else if ZeroOk(r.ops) then On(s.(K := Norm(k)))
      else Resume(s.stack, s.best)
    else
      On(s.(K := Norm(KSeq(r.body, g, AfterBody(r, g, k))),
            stack := s.stack + [if ZeroOk(r.ops) then Wait(Norm(k), s.d) else Dummy]))
  }

  // ---- What every turn keeps ----

  /** No loop under way is possessive: such a loop is gone through in single turns. */
  predicate Steady(K: Kont) {
    match K
    case KDone => true
    case KSeq(_, _, k) => Steady(k)
    case KEnd(_, _, _, k) => Steady(k)
    case KTail(body, _, k) => (Atom(body) ==> !Pops(body, SeenK(k))) && Steady(k)
    case KJump(k) => Steady(k)
    case KDum(k) => Steady(k)
  }

  predicate EntryFits(t: seq<byte>, x: Entry, i: nat) {
    x.Wait? ==>
      && x.d <= |t| && Fits(x.K) && Normal(x.K) && Steady(x.K)
      && !x.K.KTail? && !AltEnd(x.K) && QuietTail(x.K).KDone? && Tails(x.K) <= i
  }

  predicate StackFits(t: seq<byte>, stack: seq<Entry>) {
    forall i | 0 <= i < |stack| :: EntryFits(t, stack[i], i)
  }

  /** In the body of a loop without choice points, the thread on top of the stack is the loop's own exit. */
  predicate OwnOnTop(K: Kont, d: nat, stack: seq<Entry>) {
    QuietTail(K).KTail? ==>
      stack != [] && (stack[|stack| - 1].Wait? ==> stack[|stack| - 1].K == Norm(QuietTail(K).k) && stack[|stack| - 1].d <= d)
  }

  /** At the end of a repeated group of alternatives, a dummy is on top of the stack. */
  predicate DummyOnTop(K: Kont, stack: seq<Entry>) {
    AltEnd(K) || (K.KTail? && AltBody(K.body)) ==> stack != [] && stack[|stack| - 1].Dummy?
  }

  /** The thread fits what is on the stack, up to codeless frames in front. */
  predicate ThreadFits(t: seq<byte>, K: Kont, d: nat, stack: seq<Entry>) {
    && d <= |t| && Fits(K) && Steady(K) && Tails(K) <= |stack| && !(K.KTail? && Misread(K.body))
    && OwnOnTop(K, d, stack) && DummyOnTop(K, stack)
  }

  predicate Sane(t: seq<byte>, s: Search) {
    ThreadFits(t, s.K, s.d, s.stack) && Normal(s.K) && StackFits(t, s.stack)
  }

  function EntryWork(t: seq<byte>, x: Entry): nat {
    if x.Wait? && x.d <= |t| && Fits(x.K) then Work(t, x.K, x.d) else 0
  }

  function StackWork(t: seq<byte>, stack: seq<Entry>): nat {
    if stack == [] then 0 else StackWork(t, stack[..|stack| - 1]) + EntryWork(t, stack[|stack| - 1])
  }

  function Total(t: seq<byte>, s: Search): nat
    requires Sane(t, s)
  {
    Work(t, s.K, s.d) + StackWork(t, s.stack)
  }

  // ---- The continuations of a turn ----

  /** The continuations that a turn can lead to from `K`, before codeless frames are removed. */
  ghost predicate Reaches(K: Kont, K0: Kont) {
    match K
    case KDone => false
    case KEnd(_, _, _, k) => K0 == k || (k.KTail? && K0 == k.k)
    case KTail(body, g, k) => K0 == KSeq(Loop(body), g, k)
    case KJump(k) => K0 == k
    case KDum(k) => K0 == k
    case KSeq(r, g, k) =>
      K0 == k || (
      match r
      case Group(_, _, _) => exists s: nat :: K0 == Enter(r, s, k)
      case Alt(a, b) => K0 == KSeq(a, g, Jumps(b, k)) || K0 == KSeq(b, g + GroupCount(a), k)
      case Rep(body, _) => K0 == if Possessive(K) then Again(K) else KSeq(body, g, AfterBody(r, g, k))
      case _ => false)
  }

  /** `K'` is such a continuation, without codeless frames. */
  ghost predicate Succ(K: Kont, K': Kont) {
    exists K0 :: Reaches(K, K0) && K' == Norm(K0)
  }

  /** The threads after a turn are the old ones and successors of the one that has moved. */
  ghost predicate Heirs(s: Search, s': Search) {
    && (Succ(s.K, s'.K) || exists x :: x in s.stack && x.Wait? && x.K == s'.K)
    && forall x :: x in s'.stack && x.Wait? ==> x in s.stack || Succ(s.K, x.K)
  }

  lemma {:induction K} SteadyJumps(b: Re, K: Kont)
    requires Steady(K)
    ensures Steady(Jumps(b, K))
    decreases b
  {
    if b.Alt? { SteadyJumps(b.b, K); }
  }

  lemma {:induction false} SteadyNext(K: Kont, K0: Kont)
    requires Steady(K) && Reaches(K, K0)
    ensures Steady(K0)
  {
    if K.KSeq? {
      var r, k := K.r, K.k;
      if r.Group? && K0 != k {
        var s: nat :| K0 == Enter(r, s, k);
        assert Steady(KEnd(r.n, r.inner, s, k)) && Steady(KDum(KEnd(r.n, r.inner, s, k)));
      }
      if r.Alt? { SteadyJumps(r.b, k); }
      if r.Rep? && !Possessive(K) && ManyOk(r.ops) { assert Steady(KTail(r.body, K.g, k)); }
    }
  }

  lemma {:induction false} SteadyNorm(K: Kont)
    requires Steady(K)
    ensures Steady(Norm(K))
    decreases Cells(K)
  {
    if !Normal(K) {
      if K.r.Cat? {
        CellsCat(K.r, K.g, K.k);
        var K1 := KSeq(K.r.b, K.g + GroupCount(K.r.a), K.k);
        assert Steady(K1);
        SteadyNorm(KSeq(K.r.a, K.g, K1));
      } else {
        SteadyNorm(K.k);
      }
    }
  }

  // ---- Codeless frames ----

  lemma {:induction false} NormFits(t: seq<byte>, K: Kont, d: nat)
    requires Fits(K) && d <= |t|
    ensures Fits(Norm(K)) && Work(t, Norm(K), d) == Work(t, K, d)
    ensures Tails(Norm(K)) == Tails(K) && QuietTail(Norm(K)) == QuietTail(K)
    ensures (Norm(K).KTail? ==> Norm(K) == K) && (AltEnd(Norm(K)) ==> AltEnd(K))
    decreases Cells(K)
  {
    if !Normal(K) {
      if K.r.Cat? {
        CellsCat(K.r, K.g, K.k);
        FitsCat(K.r, K.g, K.k);
        var K1 := KSeq(K.r.b, K.g + GroupCount(K.r.a), K.k);
        assert Tails(K1) == Tails(K.k) && QuietTail(K1) == if Quiet(K.r.b) then QuietTail(K.k) else KDone;
        NormFits(t, KSeq(K.r.a, K.g, K1), d);
      } else {
        NormFits(t, K.k, d);
      }
    }
  }

  /** A thread stays fit when its codeless frames are removed. */
  lemma {:induction false} NormSane(t: seq<byte>, K: Kont, d: nat, stack: seq<Entry>)
    requires ThreadFits(t, K, d, stack)
    ensures ThreadFits(t, Norm(K), d, stack) && Work(t, Norm(K), d) == Work(t, K, d)
  {
    NormFits(t, K, d);
    SteadyNorm(K);
  }

  // ---- Waiting threads ----

  lemma WaitFits(t: seq<byte>, K: Kont, d: nat, i: nat)
    requires d <= |t| && Fits(K) && Steady(K) && !K.KTail? && !AltEnd(K) && QuietTail(K).KDone? && Tails(K) <= i
    ensures EntryFits(t, Wait(Norm(K), d), i) && EntryWork(t, Wait(Norm(K), d)) == Work(t, K, d)
  {
    NormFits(t, K, d);
    SteadyNorm(K);
  }

  lemma StackPushed(t: seq<byte>, stack: seq<Entry>, x: Entry)
    requires StackFits(t, stack) && EntryFits(t, x, |stack|)
    ensures StackFits(t, stack + [x]) && StackWork(t, stack + [x]) == StackWork(t, stack) + EntryWork(t, x)
  {
    assert (stack + [x])[..|stack|] == stack;
  }

  lemma StackPopped(t: seq<byte>, stack: seq<Entry>)
    requires StackFits(t, stack) && stack != []
    ensures StackFits(t, stack[..|stack| - 1]) && StackWork(t, stack[..|stack| - 1]) <= StackWork(t, stack)
  {
  }

  lemma {:induction false} ResumeSane(t: seq<byte>, stack: seq<Entry>, best: Best)
    requires StackFits(t, stack)
    ensures var v := Resume(stack, best);
      v.On? ==>
        && Sane(t, v.s) && v.s.best == best && Total(t, v.s) <= StackWork(t, stack)
        && |v.s.stack| < |stack| && v.s.stack == stack[..|v.s.stack|] && stack[|v.s.stack|] == Wait(v.s.K, v.s.d)
    decreases |stack|
  {
    if stack != [] {
      var n := |stack| - 1;
      StackPopped(t, stack);
      assert EntryFits(t, stack[n], n);
      if stack[n].Dummy? { ResumeSane(t, stack[..n], best); }
    }
  }

  // ---- Every turn keeps the threads fit, and the work left shrinks ----

  /** The thread moves on and the stack stays. */
  ghost predicate Onward(t: seq<byte>, s: Search, K0: Kont, d: nat)
    requires Sane(t, s)
  {
    ThreadFits(t, K0, d, s.stack) && Reaches(s.K, K0) && Work(t, K0, d) < Work(t, s.K, s.d)
  }

  /** The thread moves on and leaves `x` on the stack. */
  ghost predicate Forking(t: seq<byte>, s: Search, K0: Kont, x: Entry)
    requires Sane(t, s)
  {
    && ThreadFits(t, K0, s.d, s.stack + [x]) && EntryFits(t, x, |s.stack|) && Reaches(s.K, K0)
    && (x.Wait? ==> Succ(s.K, x.K)) && Work(t, K0, s.d) + EntryWork(t, x) < Work(t, s.K, s.d)
  }

  lemma {:induction false} EndOnward(t: seq<byte>, s: Search)
    requires Sane(t, s) && s.K.KEnd?
    ensures Onward(t, s, if Leaves(s.K, s.d) then s.K.k.k else s.K.k, s.d)
  {
    var k := s.K.k;
    assert Fits(k) && Steady(k) && QuietTail(s.K) == QuietTail(k) && Tails(s.K) == Tails(k);
    if Leaves(s.K, s.d) {
      FitsTail(k);
      assert Fits(k.k) && Steady(k.k) && !k.k.KTail? && !AltEnd(k.k) && !QuietTail(k.k).KTail?;
      assert ZeroOk([Star]) && ManyOk([Star]);
      assert Work(t, k, s.d) == 1 + Work(t, KSeq(Loop(k.body), k.g, k.k), s.d);
      assert Work(t, KSeq(Loop(k.body), k.g, k.k), s.d) > Work(t, k.k, s.d);
    }
  }

  lemma {:induction false} TailOnward(t: seq<byte>, s: Search)
    requires Sane(t, s) && s.K.KTail?
    ensures var K0, n := KSeq(Loop(s.K.body), s.K.g, s.K.k), |s.stack| - 1;
      && s.stack != [] && Reaches(s.K, K0) && Work(t, K0, s.d) < Work(t, s.K, s.d)
      && ThreadFits(t, K0, s.d, s.stack) && ThreadFits(t, K0, s.d, s.stack[..n]) && Normal(K0)
  {
    FitsTail(s.K);
  }

  lemma {:induction false} AtomOnward(f: Flags, t: seq<byte>, s: Search)
    requires Sane(t, s) && s.K.KSeq? && Atom(s.K.r) && AtomHas(f, t, s.K.r, s.d)
    ensures s.d + Width(s.K.r) <= |t| && Onward(t, s, s.K.k, s.d + Width(s.K.r))
  {
    var K := s.K;
    assert Fits(K) && Simple(K.r);
    assert Quiet(K.r) && QuietTail(K) == QuietTail(K.k);
    if K.k.KTail? { assert Fits(K.k) && Repeatable(K.r) && !Misread(K.r); }
  }

  lemma {:induction false} GroupOnward(t: seq<byte>, s: Search)
    requires Sane(t, s) && s.K.KSeq? && s.K.r.Group?
    ensures Onward(t, s, Enter(s.K.r, s.d, s.K.k), s.d)
  {
    var r, k := s.K.r, s.K.k;
    var K0, e := Enter(r, s.d, k), KEnd(r.n, r.inner, s.d, k);
    FitsEnter(r, s.K.g, s.d, k);
    SteadyNext(s.K, K0);
    assert QuietTail(e) == QuietTail(k);
    if r.body.Alt? {
      assert QuietTail(K0).KDone?;
    } else {
      assert QuietTail(K0).KTail? ==> QuietTail(K0) == QuietTail(s.K);
    }
    hide Fits, OwnOnTop;
  }

  lemma {:induction false} AltForking(t: seq<byte>, s: Search)
    requires Sane(t, s) && s.K.KSeq? && s.K.r.Alt?
    ensures var r, g, k := s.K.r, s.K.g, s.K.k;
      Forking(t, s, KSeq(r.a, g, Jumps(r.b, k)), Wait(Norm(KSeq(r.b, g + GroupCount(r.a), k)), s.d))
  {
    var r, g, k := s.K.r, s.K.g, s.K.k;
    var K0, K1 := KSeq(r.a, g, Jumps(r.b, k)), KSeq(r.b, g + GroupCount(r.a), k);
    AltFits(r, g, k);
    AltWork(t, r, g, k, s.d);
    SteadyJumps(r.b, k);
    hide Fits, Work;
    WaitFits(t, K1, s.d, |s.stack|);
    assert Reaches(s.K, K1);
  }

  lemma {:induction false} AltFits(r: Re, g: nat, k: Kont)
    requires r.Alt? && Fits(KSeq(r, g, k))
    ensures !k.KTail? && !QuietTail(k).KTail? && !AltEnd(k)
    ensures Fits(KSeq(r.a, g, Jumps(r.b, k))) && QuietTail(Jumps(r.b, k)).KDone?
    ensures Tails(Jumps(r.b, k)) == Tails(k) && !Jumps(r.b, k).KTail?
    ensures Fits(KSeq(r.b, g + GroupCount(r.a), k)) && QuietTail(KSeq(r.b, g + GroupCount(r.a), k)).KDone?
  {
    FitsJumps(r.b, k);
    QuietTailJumps(r.b, k);
  }

  /** The work for alternatives is shared out between them. */
  lemma {:induction false} AltWork(t: seq<byte>, r: Re, g: nat, k: Kont, d: nat)
    requires r.Alt? && Fits(KSeq(r, g, k)) && d <= |t|
    ensures Fits(KSeq(r.a, g, Jumps(r.b, k))) && Fits(KSeq(r.b, g + GroupCount(r.a), k))
    ensures Work(t, KSeq(r, g, k), d)
         == 1 + Work(t, KSeq(r.a, g, Jumps(r.b, k)), d) + Work(t, KSeq(r.b, g + GroupCount(r.a), k), d)
  {
    AltFits(r, g, k);
    hide Fits;
  }

  lemma {:induction false} RepForking(t: seq<byte>, s: Search)
    requires Sane(t, s) && s.K.KSeq? && s.K.r.Rep? && !Possessive(s.K)
    ensures var r, g, k := s.K.r, s.K.g, s.K.k;
      Forking(t, s, KSeq(r.body, g, AfterBody(r, g, k)), if ZeroOk(r.ops) then Wait(Norm(k), s.d) else Dummy)
  {
    var r, g, k := s.K.r, s.K.g, s.K.k;
    var K0 := KSeq(r.body, g, AfterBody(r, g, k));
    assert Simple(r);
    if !ManyOk(r.ops) { NotManyIsZero(r.ops); }
    FitsLoop(r, g, k);
    SteadyNext(s.K, K0);
    WaitFits(t, k, s.d, |s.stack|);
    RepWork(t, s.K, s.d);
    var x := if ZeroOk(r.ops) then Wait(Norm(k), s.d) else Dummy;
    RepOwn(s, x);
    assert Reaches(s.K, k);
    assert Tails(K0) <= |s.stack + [x]|;
    assert EntryFits(t, x, |s.stack|);
    assert ThreadFits(t, K0, s.d, s.stack + [x]);
  }

  lemma {:induction false} RepOwn(s: Search, x: Entry)
    requires s.K.KSeq? && s.K.r.Rep? && Fits(s.K) && (x == Wait(Norm(s.K.k), s.d) || x.Dummy?)
    ensures var K0 := KSeq(s.K.r.body, s.K.g, AfterBody(s.K.r, s.K.g, s.K.k));
      OwnOnTop(K0, s.d, s.stack + [x]) && DummyOnTop(K0, s.stack + [x])
  {
    FitsLoop(s.K.r, s.K.g, s.K.k);
    var k1 := AfterBody(s.K.r, s.K.g, s.K.k);
    assert QuietTail(k1).KTail? ==> QuietTail(k1) == k1 && k1.k == s.K.k;
  }

  lemma {:induction false} RepWork(t: seq<byte>, K: Kont, d: nat)
    requires K.KSeq? && K.r.Rep? && Fits(K) && d <= |t| && (ManyOk(K.r.ops) || ZeroOk(K.r.ops))
    ensures var K0 := KSeq(K.r.body, K.g, AfterBody(K.r, K.g, K.k));
      && Fits(K.k) && Fits(K0)
      && Work(t, K, d) == 1 + Work(t, K0, d) + if ZeroOk(K.r.ops) then Work(t, K.k, d) else 0
  {
    FitsLoop(K.r, K.g, K.k);
    hide Fits;
  }

  lemma {:induction false} ScanOnward(f: Flags, t: seq<byte>, s: Search)
    requires Sane(t, s) && Possessive(s.K)
    ensures AtomHas(f, t, s.K.r.body, s.d) ==> s.d < |t| && Onward(t, s, Again(s.K), s.d + 1) && Normal(Again(s.K))
    ensures ZeroOk(s.K.r.ops) ==> Onward(t, s, s.K.k, s.d)
  {
    var K, b, g, k := s.K, s.K.r.body, s.K.g, s.K.k;
    FitsLoop(K.r, g, k);
    RepWork(t, K, s.d);
    FitsTail(KTail(b, g, k));
    if AtomHas(f, t, b, s.d) { ScanWork(f, t, b, g, k, s.d); }
    hide Fits, Work, Steady;
  }

  lemma {:induction false} ScanWork(f: Flags, t: seq<byte>, b: Re, g: nat, k: Kont, d: nat)
    requires Atom(b) && Repeatable(b) && d <= |t| && AtomHas(f, t, b, d)
    requires Fits(KSeq(b, g, KTail(b, g, k))) && Fits(KSeq(Loop(b), g, k))
    ensures d < |t| && Work(t, KSeq(Loop(b), g, k), d + 1) < Work(t, KSeq(b, g, KTail(b, g, k)), d)
  {
    assert Width(b) == 1;
    assert Work(t, KSeq(b, g, KTail(b, g, k)), d) == 1 + Work(t, KTail(b, g, k), d + 1);
    assert Work(t, KTail(b, g, k), d + 1) == 1 + Work(t, KSeq(Loop(b), g, k), d + 1);
  }

  /** What a turn leads to, and that the work left shrinks. */
  ghost predicate Kept(t: seq<byte>, s: Search, v: Verdict)
    requires Sane(t, s)
  {
    v.On? ==> Sane(t, v.s) && Total(t, v.s) < Total(t, s) && Heirs(s, v.s)
  }

  lemma {:induction false} OnwardKept(t: seq<byte>, s: Search, K0: Kont, d: nat)
    requires Sane(t, s) && Onward(t, s, K0, d)
    ensures Kept(t, s, On(s.(K := Norm(K0), d := d)))
  {
    NormSane(t, K0, d, s.stack);
    hide ThreadFits, StackFits, Reaches, Work;
  }

  lemma {:induction false} ForkingKept(t: seq<byte>, s: Search, K0: Kont, x: Entry)
    requires Sane(t, s) && Forking(t, s, K0, x)
    ensures Kept(t, s, On(s.(K := Norm(K0), stack := s.stack + [x])))
  {
    NormSane(t, K0, s.d, s.stack + [x]);
    StackPushed(t, s.stack, x);
    hide ThreadFits, StackFits, Reaches, Work;
  }

  lemma {:induction false} ResumeKept(t: seq<byte>, s: Search, best: Best)
    requires Sane(t, s)
    ensures Kept(t, s, Resume(s.stack, best))
  {
    ResumeSane(t, s.stack, best);
    var v := Resume(s.stack, best);
    if v.On? {
      assert Wait(v.s.K, v.s.d) in s.stack;
      assert forall x :: x in v.s.stack ==> x in s.stack;
    }
  }

  lemma {:induction false} PopKept(t: seq<byte>, s: Search)
    requires Sane(t, s) && s.K.KTail?
    ensures s.stack != []
    ensures Kept(t, s, On(s.(K := KSeq(Loop(s.K.body), s.K.g, s.K.k))))
    ensures Kept(t, s, On(s.(K := KSeq(Loop(s.K.body), s.K.g, s.K.k), stack := s.stack[..|s.stack| - 1])))
  {
    var K0 := KSeq(Loop(s.K.body), s.K.g, s.K.k);
    TailOnward(t, s);
    StackPopped(t, s.stack);
    assert Reaches(s.K, K0) && K0 == Norm(K0);
    assert forall x :: x in s.stack[..|s.stack| - 1] ==> x in s.stack;
    hide ThreadFits, Reaches, Work;
  }

  lemma {:induction false} TurnKeeps(f: Flags, t: seq<byte>, s: Search)
    requires Sane(t, s)
    ensures Kept(t, s, Turn(f, t, s))
  {
    var K := s.K;
    match K
    case KDone => ResumeKept(t, s, s.best); ResumeKept(t, s, Best(s.d));
    case KEnd(_, _, _, k) => EndOnward(t, s); OnwardKept(t, s, if Leaves(K, s.d) then k.k else k, s.d);
    case KTail(_, _, _) => PopKept(t, s);
    case KJump(k) => OnwardKept(t, s, k, s.d);
    case KDum(k) => ForkingKept(t, s, k, Dummy);
    case KSeq(r, g, k) => SeqKept(f, t, s);
  }

  lemma {:induction false} SeqKept(f: Flags, t: seq<byte>, s: Search)
    requires Sane(t, s) && s.K.KSeq?
    ensures Kept(t, s, Turn(f, t, s))
  {
    var K, r, g, k := s.K, s.K.r, s.K.g, s.K.k;
    ResumeKept(t, s, s.best);
    hide Fits, Work, Steady, ThreadFits, StackFits, Kept, Resume;
    if Atom(r) {
      if AtomHas(f, t, r, s.d) {
        AtomOnward(f, t, s);
        OnwardKept(t, s, k, s.d + Width(r));
      }
    } else if r.Rep? {
      RepKept(f, t, s);
    } else if r.Group? {
      GroupOnward(t, s);
      OnwardKept(t, s, Enter(r, s.d, k), s.d);
    } else if r.Alt? {
      AltForking(t, s);
      ForkingKept(t, s, KSeq(r.a, g, Jumps(r.b, k)), Wait(Norm(KSeq(r.b, g + GroupCount(r.a), k)), s.d));
    }
  }

  lemma {:induction false} RepKept(f: Flags, t: seq<byte>, s: Search)
    requires Sane(t, s) && s.K.KSeq? && s.K.r.Rep?
    ensures Kept(t, s, TurnRep(f, t, s))
  {
    var K, r, g, k := s.K, s.K.r, s.K.g, s.K.k;
    ResumeKept(t, s, s.best);
    hide Fits, Work, Steady, ThreadFits, StackFits, Kept, Resume;
    if Possessive(K) {
      ScanOnward(f, t, s);
      if AtomHas(f, t, r.body, s.d) {
        OnwardKept(t, s, Again(K), s.d + 1);
      } else if ZeroOk(r.ops) {
        OnwardKept(t, s, k, s.d);
      }
    } else {
      RepForking(t, s);
      ForkingKept(t, s, KSeq(r.body, g, AfterBody(r, g, k)), if ZeroOk(r.ops) then Wait(Norm(k), s.d) else Dummy);
    }
  }

  // ---- The whole search ----

  /** How the search from `s` ends. */
  ghost function Final(f: Flags, t: seq<byte>, s: Search): (v: Verdict)
    requires Sane(t, s)
    ensures !v.On?
    decreases Total(t, s)
  {
    TurnKeeps(f, t, s);
    var v := Turn(f, t, s);
    if v.On? then Final(f, t, v.s) else v
  }
}
