/** What a search finds: a position that its threads accept, some position if they accept any, and, if the pattern ends
    well, the end of the text if they accept it. */
module RegexOutcome {
  import opened RegexSyntax
  import opened RegexEffect
  import opened RegexMachine
  import opened RegexKont
  import opened RegexAccept
  import opened RegexThreads
  import opened RegexProperties

  ghost predicate EntryAcc(f: Flags, t: seq<byte>, x: Entry, e: nat) {
    x.Wait? && x.d <= |t| && Acc(f, t, x.K, x.d, e)
  }

  /** A thread that waits at place `n` of the stack or above accepts `e`. */
  ghost predicate Waiting(f: Flags, t: seq<byte>, stack: seq<Entry>, n: nat, e: nat) {
    exists i | n <= i < |stack| :: EntryAcc(f, t, stack[i], e)
  }

  /** The running thread, or one that waits at place `n` or above, accepts `e`. */
  ghost predicate Cover(f: Flags, t: seq<byte>, s: Search, n: nat, e: nat)
    requires s.d <= |t|
  {
    Acc(f, t, s.K, s.d, e) || Waiting(f, t, s.stack, n, e)
  }

  lemma {:induction false} WaitingPushed(f: Flags, t: seq<byte>, stack: seq<Entry>, x: Entry, n: nat, e: nat)
    requires n <= |stack|
    ensures Waiting(f, t, stack + [x], n, e) <==> Waiting(f, t, stack, n, e) || EntryAcc(f, t, x, e)
  {
    var more := stack + [x];
    if Waiting(f, t, stack, n, e) {
      var i :| n <= i < |stack| && EntryAcc(f, t, stack[i], e);
      assert EntryAcc(f, t, more[i], e);
    }
    if EntryAcc(f, t, x, e) { assert EntryAcc(f, t, more[|stack|], e); }
    if Waiting(f, t, more, n, e) {
      var i :| n <= i < |more| && EntryAcc(f, t, more[i], e);
      if i < |stack| { assert EntryAcc(f, t, stack[i], e); }
    }
  }

  /** Giving up the running thread gives up nothing that waits: a thread from place `n` or above goes on, or there is
      none that accepts anything and those below are next. */
  lemma {:induction false} ResumeCover(f: Flags, t: seq<byte>, stack: seq<Entry>, best: Best, n: nat)
    requires StackFits(t, stack) && n <= |stack|
    ensures var v := Resume(stack, best);
      if v.On? && |v.s.stack| >= n then
        Sane(t, v.s) && v.s.best == best && forall e: nat :: Cover(f, t, v.s, n, e) <==> Waiting(f, t, stack, n, e)
      else
        v == Resume(stack[..n], best) && forall e: nat :: !Waiting(f, t, stack, n, e)
    decreases |stack|
  {
    hide Acc;
    if |stack| == n {
      assert stack[..n] == stack;
      ResumeSane(t, stack, best);
    } else {
      var m := |stack| - 1;
      assert stack == stack[..m] + [stack[m]] && stack[..m][..n] == stack[..n];
      forall e: nat
        ensures Waiting(f, t, stack, n, e) <==> Waiting(f, t, stack[..m], n, e) || EntryAcc(f, t, stack[m], e)
      {
        WaitingPushed(f, t, stack[..m], stack[m], n, e);
      }
      StackPopped(t, stack);
      if stack[m].Dummy? {
        ResumeCover(f, t, stack[..m], best, n);
      } else {
        ResumeSane(t, stack, best);
        assert EntryFits(t, stack[m], m);
      }
    }
  }

  // ---- What a turn does to what is accepted ----

  /** The thread goes on and accepts what it accepted. */
  ghost predicate GoesOn(f: Flags, t: seq<byte>, s: Search, s': Search)
    requires s.d <= |t| && s'.d <= |t|
  {
    && s'.stack == s.stack && s'.best == s.best
    && forall e: nat :: Acc(f, t, s'.K, s'.d, e) <==> Acc(f, t, s.K, s.d, e)
  }

  /** What it accepted is shared out between it and one that waits. */
  ghost predicate Forks(f: Flags, t: seq<byte>, s: Search, s': Search)
    requires s.d <= |t| && s'.d <= |t|
  {
    && |s'.stack| == |s.stack| + 1 && s'.stack[..|s.stack|] == s.stack && s'.best == s.best
    && forall e: nat :: Acc(f, t, s.K, s.d, e) <==> (Acc(f, t, s'.K, s'.d, e) || EntryAcc(f, t, s'.stack[|s.stack|], e))
  }

  /** A loop over a character at the end of the pattern takes one more and gives up the position in front of it. */
  ghost predicate Scans(f: Flags, t: seq<byte>, s: Search, s': Search)
    requires s.d <= |t| && s'.d <= |t|
  {
    && s'.stack == s.stack && s'.best == s.best && s'.d == s.d + 1 && Acc(f, t, s'.K, s'.d, s'.d)
    && (forall e: nat :: Acc(f, t, s.K, s.d, e) <==> (e == s.d || Acc(f, t, s'.K, s'.d, e)))
    && Possessive(s.K) && SeenK(s.K.k).End? && ZeroOk(s.K.r.ops) && s'.K == Again(s.K) && AtomHas(f, t, s.K.r.body, s.d)
  }

  /** A loop at the end of the pattern gives up the thread on top of the stack. */
  ghost predicate Cuts(f: Flags, t: seq<byte>, s: Search, s': Search)
    requires s.d <= |t| && s'.d <= |t|
  {
    && s.stack != [] && s'.stack == s.stack[..|s.stack| - 1] && s'.best == s.best && s'.d == s.d
    && Acc(f, t, s'.K, s'.d, s'.d) && (forall e: nat :: Acc(f, t, s'.K, s'.d, e) <==> Acc(f, t, s.K, s.d, e))
    && s.K.KTail? && !Atom(s.K.body) && SeenK(s.K.k).End?
  }

  ghost predicate Dies(f: Flags, t: seq<byte>, s: Search, v: Verdict)
    requires s.d <= |t|
  {
    v == Resume(s.stack, s.best) && forall e: nat :: !Acc(f, t, s.K, s.d, e)
  }

  ghost predicate Alters(f: Flags, t: seq<byte>, s: Search, s': Search)
    requires s.d <= |t| && s'.d <= |t|
  {
    GoesOn(f, t, s, s') || Forks(f, t, s, s') || Scans(f, t, s, s') || Cuts(f, t, s, s')
  }

  /** One of these. */
  ghost predicate Does(f: Flags, t: seq<byte>, s: Search, v: Verdict)
    requires s.d <= |t|
  {
    || Dies(f, t, s, v)
    || (v.On? && v.s.d <= |t| && Alters(f, t, s, v.s))
  }

  lemma {:induction false} NormGoes(f: Flags, t: seq<byte>, s: Search, K0: Kont, d: nat)
    requires s.d <= |t| && d <= |t| && Fits(K0)
    requires forall e: nat :: Acc(f, t, K0, d, e) <==> Acc(f, t, s.K, s.d, e)
    ensures GoesOn(f, t, s, s.(K := Norm(K0), d := d))
  {
    forall e: nat ensures Acc(f, t, Norm(K0), d, e) <==> Acc(f, t, K0, d, e) { NormAcc(f, t, K0, d, e); }
  }

  lemma {:induction false} NormForks(f: Flags, t: seq<byte>, s: Search, K0: Kont, K1: Kont)
    requires s.d <= |t| && Fits(K0) && Fits(K1)
    requires forall e: nat :: Acc(f, t, s.K, s.d, e) <==> Acc(f, t, K0, s.d, e) || Acc(f, t, K1, s.d, e)
    ensures Forks(f, t, s, s.(K := Norm(K0), stack := s.stack + [Wait(Norm(K1), s.d)]))
  {
    forall e: nat
      ensures Acc(f, t, Norm(K0), s.d, e) <==> Acc(f, t, K0, s.d, e)
      ensures Acc(f, t, Norm(K1), s.d, e) <==> Acc(f, t, K1, s.d, e)
    {
      NormAcc(f, t, K0, s.d, e);
      NormAcc(f, t, K1, s.d, e);
    }
  }

  lemma {:induction false} DummyForks(f: Flags, t: seq<byte>, s: Search, K0: Kont)
    requires s.d <= |t| && Fits(K0)
    requires forall e: nat :: Acc(f, t, K0, s.d, e) <==> Acc(f, t, s.K, s.d, e)
    ensures Forks(f, t, s, s.(K := Norm(K0), stack := s.stack + [Dummy]))
  {
    forall e: nat ensures Acc(f, t, Norm(K0), s.d, e) <==> Acc(f, t, K0, s.d, e) { NormAcc(f, t, K0, s.d, e); }
  }

  lemma {:induction false} TurnDoes(f: Flags, t: seq<byte>, s: Search)
    requires Sane(t, s) && !s.K.KDone?
    ensures Does(f, t, s, Turn(f, t, s))
  {
    var K := s.K;
    assert Fits(K);
    match K
    case KEnd(_, _, _, k) => EndDoes(f, t, s);
    case KTail(body, g, k) => TailDoes(f, t, s);
    case KJump(k) => NormGoes(f, t, s, k, s.d);
    case KDum(k) => DummyForks(f, t, s, k);
    case KSeq(r, g, k) =>
      assert Simple(r);
      hide Fits, Acc, OwnOnTop, DummyOnTop, Tails, Does;
      if Atom(r) {
        AtomDoes(f, t, s);
      } else if r.Rep? {
        RepDoes(f, t, s);
      } else if r.Group? {
        GroupDoes(f, t, s);
      } else if r.Alt? {
        AltDoes(f, t, s);
      }
  }

  lemma {:induction false} EndDoes(f: Flags, t: seq<byte>, s: Search)
    requires Sane(t, s) && s.K.KEnd?
    ensures Does(f, t, s, Turn(f, t, s))
  {
    var k := s.K.k;
    assert Fits(k) && (k.KTail? ==> Fits(k.k));
    NormGoes(f, t, s, if Leaves(s.K, s.d) then k.k else k, s.d);
  }

  lemma {:induction false} TailDoes(f: Flags, t: seq<byte>, s: Search)
    requires Sane(t, s) && s.K.KTail?
    ensures Does(f, t, s, Turn(f, t, s))
  {
    var K := s.K;
    var K0 := KSeq(Loop(K.body), K.g, K.k);
    assert Fits(K) && Repeatable(K.body) && Steady(K);
    forall e: nat ensures Acc(f, t, K, s.d, e) <==> Acc(f, t, K0, s.d, e) { TailAcc(f, t, K, s.d, e); }
    TailOnward(t, s);
    if Pops(K.body, SeenK(K.k)) {
      assert SeenK(K.k).End?;
      EndSeenK(f, t, K.k, s.d, s.d);
      LoopMeans(f, t, K.body, End, s.d, s.d);
      SeqIntro(f, t, Loop(K.body), K.g, K.k, s.d, s.d, s.d);
      assert Cuts(f, t, s, Turn(f, t, s).s);
    } else {
      assert GoesOn(f, t, s, Turn(f, t, s).s);
    }
  }

  lemma {:induction false} AtomDoes(f: Flags, t: seq<byte>, s: Search)
    requires Sane(t, s) && s.K.KSeq? && Atom(s.K.r)
    ensures Does(f, t, s, Turn(f, t, s))
  {
    var r, g, k := s.K.r, s.K.g, s.K.k;
    assert Fits(s.K) && Simple(r) && Fits(k);
    AtomAcc(f, t, r, g, k, s.d, 0);
    forall e: nat
      ensures Acc(f, t, s.K, s.d, e) <==> AtomHas(f, t, r, s.d) && Acc(f, t, k, s.d + Width(r), e)
    {
      AtomAcc(f, t, r, g, k, s.d, e);
    }
    hide Acc, Fits, AtomHas;
    if AtomHas(f, t, r, s.d) { NormGoes(f, t, s, k, s.d + Width(r)); }
  }

  lemma {:induction false} GroupDoes(f: Flags, t: seq<byte>, s: Search)
    requires Sane(t, s) && s.K.KSeq? && s.K.r.Group?
    ensures Does(f, t, s, Turn(f, t, s))
  {
    var r, g, k := s.K.r, s.K.g, s.K.k;
    FitsEnter(r, g, s.d, k);
    forall e: nat
      ensures Acc(f, t, Enter(r, s.d, k), s.d, e) <==> Acc(f, t, s.K, s.d, e)
    {
      GroupAcc(f, t, r, g, k, s.d, e);
    }
    hide Acc, Fits;
    NormGoes(f, t, s, Enter(r, s.d, k), s.d);
  }

  lemma {:induction false} AltDoes(f: Flags, t: seq<byte>, s: Search)
    requires Sane(t, s) && s.K.KSeq? && s.K.r.Alt?
    ensures Does(f, t, s, Turn(f, t, s))
  {
    var r, g, k := s.K.r, s.K.g, s.K.k;
    var K0, K1 := KSeq(r.a, g, Jumps(r.b, k)), KSeq(r.b, g + GroupCount(r.a), k);
    AltFits(r, g, k);
    hide Acc, Fits;
    forall e: nat
      ensures Acc(f, t, s.K, s.d, e) <==> Acc(f, t, K0, s.d, e) || Acc(f, t, K1, s.d, e)
    {
      AltAcc(f, t, r, g, k, s.d, e);
    }
    NormForks(f, t, s, K0, K1);
  }

  lemma {:induction false} RepDoes(f: Flags, t: seq<byte>, s: Search)
    requires Sane(t, s) && s.K.KSeq? && s.K.r.Rep?
    ensures Does(f, t, s, Turn(f, t, s))
  {
    var r, g, k := s.K.r, s.K.g, s.K.k;
    assert Fits(s.K) && Simple(r) && Fits(k);
    FitsLoop(r, g, k);
    hide Acc, Fits;
    if Possessive(s.K) {
      ScanDoes(f, t, s);
    } else {
      var K0 := KSeq(r.body, g, AfterBody(r, g, k));
      assert ManyOk(r.ops) ==> !Doomed(r.body, SeenK(k));
      forall e: nat
        ensures Acc(f, t, s.K, s.d, e) <==> (ZeroOk(r.ops) && Acc(f, t, k, s.d, e)) || Acc(f, t, K0, s.d, e)
      {
        RepAcc(f, t, r, g, k, s.d, e);
      }
      if !ManyOk(r.ops) { NotManyIsZero(r.ops); }
      if ZeroOk(r.ops) {
        NormForks(f, t, s, K0, k);
      } else {
        DummyForks(f, t, s, K0);
      }
    }
  }

  lemma {:induction false} ScanDoes(f: Flags, t: seq<byte>, s: Search)
    requires Sane(t, s) && Possessive(s.K)
    ensures Does(f, t, s, Turn(f, t, s))
  {
    var K, r, k := s.K, s.K.r, s.K.k;
    assert Fits(K) && Simple(r) && Fits(k);
    ScanOnward(f, t, s);
    hide Acc, Fits, OwnOnTop, DummyOnTop, Tails, Work, StackFits, Steady;
    if AtomHas(f, t, r.body, s.d) {
      forall e: nat
        ensures Acc(f, t, K, s.d, e) <==> (ZeroOk(r.ops) && SeenK(k).End? && e == s.d) || Acc(f, t, Again(K), s.d + 1, e)
      {
        ScanAcc(f, t, K, s.d, e);
      }
      ScanAcc(f, t, K, s.d, s.d);
      var s' := Turn(f, t, s).s;
      if ZeroOk(r.ops) && SeenK(k).End? { assert Scans(f, t, s, s'); } else { assert GoesOn(f, t, s, s'); }
    } else {
      forall e: nat
        ensures Acc(f, t, K, s.d, e) <==> ZeroOk(r.ops) && Acc(f, t, k, s.d, e)
      {
        StopAcc(f, t, K, s.d, e);
      }
      if ZeroOk(r.ops) { NormGoes(f, t, s, k, s.d); } else { assert Dies(f, t, s, Turn(f, t, s)); }
    }
  }

  // ---- What waits above ----

  /** What is still accepted after a turn that is neither the end of the pattern nor gives anything up. */
  lemma {:induction false} CoverKept(f: Flags, t: seq<byte>, s: Search, s': Search, n: nat)
    requires Sane(t, s) && s'.d <= |t| && n <= |s.stack|
    ensures (GoesOn(f, t, s, s') || Forks(f, t, s, s')) ==> forall e: nat :: Cover(f, t, s', n, e) <==> Cover(f, t, s, n, e)
    ensures Scans(f, t, s, s') ==> forall e: nat :: Cover(f, t, s, n, e) <==> e == s.d || Cover(f, t, s', n, e)
    ensures Cuts(f, t, s, s') && n < |s.stack| ==>
      forall e: nat :: Cover(f, t, s, n, e) <==> Cover(f, t, s', n, e) || EntryAcc(f, t, s.stack[|s.stack| - 1], e)
  {
    hide Acc;
    forall e: nat | Forks(f, t, s, s')
      ensures Cover(f, t, s', n, e) <==> Cover(f, t, s, n, e)
    {
      assert s'.stack == s.stack + [s'.stack[|s.stack|]];
      WaitingPushed(f, t, s.stack, s'.stack[|s.stack|], n, e);
    }
    forall e: nat | Cuts(f, t, s, s') && n < |s.stack|
      ensures Cover(f, t, s, n, e) <==> Cover(f, t, s', n, e) || EntryAcc(f, t, s.stack[|s.stack| - 1], e)
    {
      assert s.stack == s'.stack + [s.stack[|s.stack| - 1]];
      WaitingPushed(f, t, s'.stack, s.stack[|s.stack| - 1], n, e);
    }
  }

  // ---- What the whole search finds ----

  /** A match has been found or can still be accepted. */
  ghost predicate Live(f: Flags, t: seq<byte>, s: Search)
    requires s.d <= |t|
  {
    s.best.Best? || exists e: nat :: Cover(f, t, s, 0, e)
  }

  /** What is found is accepted, and if anything is accepted something is found. */
  lemma {:induction false} FoundIsAccepted(f: Flags, t: seq<byte>, s: Search)
    requires Sane(t, s)
    ensures var v := Final(f, t, s);
      && (v.Found? ==> s.best == Best(v.end) || Cover(f, t, s, 0, v.end))
      && (v.Found? <==> Live(f, t, s))
    decreases Total(t, s)
  {
    var v := Turn(f, t, s);
    TurnKeeps(f, t, s);
    hide Acc, Turn, Sane, Work, Does;
    var best := AfterTurn(f, t, s);
    if v.On? { FoundIsAccepted(f, t, v.s); }
  }

  /** One turn: nothing new is accepted, and not everything is given up. */
  lemma {:induction false} AfterTurn(f: Flags, t: seq<byte>, s: Search) returns (best: Best)
    requires Sane(t, s)
    ensures best == s.best || (best.Best? && Cover(f, t, s, 0, best.end))
    ensures match Turn(f, t, s)
      case On(s') =>
        && s'.best == best && s'.d <= |t| && (forall e: nat :: Cover(f, t, s', 0, e) ==> Cover(f, t, s, 0, e))
        && (Live(f, t, s) <==> Live(f, t, s'))
      case Found(end) => best == Best(end) && Live(f, t, s)
      case NotFound => !Live(f, t, s)
  {
    best := s.best;
    hide Acc;
    var v := Turn(f, t, s);
    if s.K.KDone? {
      DoneTurn(f, t, s);
      best := BestAt(t, s);
    } else {
      TurnDoes(f, t, s);
      TurnKeeps(f, t, s);
      if v.On? { CoverKept(f, t, s, v.s, 0); CutLive(f, t, s, v.s); }
      ResumeCover(f, t, s.stack, s.best, 0);
      hide Turn, Sane;
    }
  }

  lemma {:induction false} CutLive(f: Flags, t: seq<byte>, s: Search, s': Search)
    requires Sane(t, s) && s'.d <= |t|
    ensures Cuts(f, t, s, s') || Scans(f, t, s, s') ==> Live(f, t, s') && Live(f, t, s)
  {
    if Cuts(f, t, s, s') || Scans(f, t, s, s') {
      assert Cover(f, t, s', 0, s'.d) && Cover(f, t, s, 0, s'.d);
    }
  }

  /** The best match after the end of the pattern has been reached. */
  function BestAt(t: seq<byte>, s: Search): Best {
    if s.d == |t| then Best(s.d)
    else if s.stack == [] then (if s.best.Best? then s.best else Best(s.d))
    else if s.best.NoBest? || s.d > s.best.end then Best(s.d) else s.best
  }

  lemma {:induction false} DoneTurn(f: Flags, t: seq<byte>, s: Search)
    requires Sane(t, s) && s.K.KDone?
    ensures Cover(f, t, s, 0, s.d) && Live(f, t, s)
    ensures match Turn(f, t, s)
      case On(s') =>
        && s'.best == BestAt(t, s) && s'.d <= |t| && (forall e: nat :: Cover(f, t, s', 0, e) ==> Cover(f, t, s, 0, e))
        && Live(f, t, s')
      case Found(end) => BestAt(t, s) == Best(end)
      case NotFound => false
  {
    assert Acc(f, t, s.K, s.d, s.d);
    hide Acc;
    ResumeCover(f, t, s.stack, BestAt(t, s), 0);
    ResumeDone(s.stack, BestAt(t, s));
  }

  lemma {:induction false} ResumeDone(stack: seq<Entry>, best: Best)
    ensures var v := Resume(stack, best);
      (v.Found? ==> best == Best(v.end)) && (v.NotFound? ==> best.NoBest?)
    decreases |stack|
  {
    if stack != [] && stack[|stack| - 1].Dummy? { ResumeDone(stack[..|stack| - 1], best); }
  }

  // ---- A match of the whole rest of the text ----

  /** With no loop at the end but one that has its own failure point on top, a match that reaches the end of the text is
      never given up. */
  lemma {:induction false} EndIsFound(f: Flags, t: seq<byte>, s: Search)
    requires Sane(t, s) && EndWell(s, OwnLoop) && Cover(f, t, s, 0, |t|)
    ensures Final(f, t, s) == Found(|t|)
    decreases Total(t, s)
  {
    var v := Turn(f, t, s);
    TurnKeeps(f, t, s);
    EndKept(f, t, s);
    hide Acc, Turn, Sane, Work, Cover;
    if v.On? {
      EndsKept(s, v.s, OwnLoop);
      EndIsFound(f, t, v.s);
    }
  }

  lemma {:induction false} EndKept(f: Flags, t: seq<byte>, s: Search)
    requires Sane(t, s) && EndWell(s, OwnLoop) && Cover(f, t, s, 0, |t|)
    ensures match Turn(f, t, s)
      case On(s') => s'.d <= |t| && Cover(f, t, s', 0, |t|)
      case Found(end) => end == |t|
      case NotFound => false
  {
    var v := Turn(f, t, s);
    if s.K.KDone? {
      ResumeCover(f, t, s.stack, BestAt(t, s), 0);
    } else {
      TurnDoes(f, t, s);
      ResumeCover(f, t, s.stack, s.best, 0);
      hide Acc, Turn;
      if v.On? {
        CoverKept(f, t, s, v.s, 0);
        if Scans(f, t, s, v.s) { assert s.d < |t|; }
        if Cuts(f, t, s, v.s) && EntryAcc(f, t, s.stack[|s.stack| - 1], |t|) { OwnGivenUp(f, t, s, v.s, |t|); }
      }
    }
  }

  /** What is given up there accepts nothing beyond the present position. */
  lemma {:induction false} OwnGivenUp(f: Flags, t: seq<byte>, s: Search, s': Search, e: nat)
    requires Sane(t, s) && EndWell(s, OwnLoop) && s'.d <= |t| && Cuts(f, t, s, s') && e >= s.d
    requires EntryAcc(f, t, s.stack[|s.stack| - 1], e)
    ensures e == s'.d && Cover(f, t, s', 0, e)
  {
    var K, x := s.K, s.stack[|s.stack| - 1];
    assert Allowed(K.body, OwnLoop);
    assert QuietTail(K) == K;
    assert Fits(K.k);
    NormAcc(f, t, K.k, x.d, e);
    EndSeenK(f, t, K.k, x.d, e);
  }
}
