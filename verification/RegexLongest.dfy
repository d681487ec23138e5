/** When the longest match is found. A search of which nothing waits below a thread takes what that thread finds last for
    worse than the best match so far. So the longest match can be missed through alternatives at the top of the pattern, and
    through a loop at its end that gives up more than a character; nothing else loses it. */
module RegexLongest {
  import opened RegexSyntax
  import opened RegexEffect
  import opened RegexMachine
  import opened RegexKont
  import opened RegexAccept
  import opened RegexThreads
  import opened RegexProperties
  import opened RegexOutcome

  // ---- A phase: everything above a place of the stack ----

  /** The search from `s` ends as one that has come to `v`. */
  ghost predicate EndsAs(f: Flags, t: seq<byte>, s: Search, v: Verdict)
    requires Sane(t, s)
  {
    (v.On? ==> Sane(t, v.s)) && Final(f, t, s) == if v.On? then Final(f, t, v.s) else v
  }

  predicate NoWorse(best: Best, best': Best) {
    best.Best? ==> best'.Best? && best.end <= best'.end
  }

  /** `best'` is as good as everything that is accepted from place `n` up, and comes from there or is the old best. */
  ghost predicate Tops(f: Flags, t: seq<byte>, s: Search, n: nat, best': Best)
    requires s.d <= |t|
  {
    && NoWorse(s.best, best')
    && (best' == s.best || (best'.Best? && Cover(f, t, s, n, best'.end)))
    && forall e: nat | Cover(f, t, s, n, e) :: best'.Best? && e <= best'.end
  }

  /** With something below them, threads are searched for the longest match: all of them are gone through, and the best
      match is taken along to what is below. Only a match of the whole rest of the text ends the search before. */
  lemma {:induction false} Phase(f: Flags, t: seq<byte>, s: Search, n: nat) returns (best: Best)
    requires Sane(t, s) && 1 <= n <= |s.stack| && EndWell(s, AtomLoop)
    ensures Final(f, t, s) == Found(|t|) || (EndsAs(f, t, s, Resume(s.stack[..n], best)) && Tops(f, t, s, n, best))
    decreases Total(t, s)
  {
    var v := Turn(f, t, s);
    TurnKeeps(f, t, s);
    var b := PhaseTurn(f, t, s, n);
    best := b;
    hide Acc, Turn, Sane, Work, Cover, Heirs, Resume;
    if v != Found(|t|) && v.On? && |v.s.stack| >= n {
      EndsKept(s, v.s, AtomLoop);
      best := Phase(f, t, v.s, n);
      if Final(f, t, s) != Found(|t|) { PhaseTops(f, t, s, v.s, n, b, best); }
    }
  }

  lemma {:induction false} PhaseTops(f: Flags, t: seq<byte>, s: Search, s': Search, n: nat, b: Best, best: Best)
    requires s.d <= |t| && s'.d <= |t| && s'.best == b && Tops(f, t, s', n, best)
    requires NoWorse(s.best, b) && (b == s.best || (b.Best? && Cover(f, t, s, n, b.end)))
    requires forall e: nat :: Cover(f, t, s', n, e) ==> Cover(f, t, s, n, e)
    requires forall e: nat | Cover(f, t, s, n, e) ::
      (b.Best? && e <= b.end) || exists e': nat :: e <= e' && Cover(f, t, s', n, e')
    ensures Tops(f, t, s, n, best)
  {
    hide Cover;
    forall e: nat | Cover(f, t, s, n, e)
      ensures best.Best? && e <= best.end
    {
      if !(b.Best? && e <= b.end) {
        var e': nat :| e <= e' && Cover(f, t, s', n, e');
      }
    }
  }

  /** One turn of a phase: an accepted position is the best so far, or one at least as far is still accepted. */
  ghost predicate PhaseStep(f: Flags, t: seq<byte>, s: Search, n: nat, v: Verdict, b: Best)
    requires s.d <= |t| && n <= |s.stack|
  {
    && NoWorse(s.best, b) && (b == s.best || (b.Best? && Cover(f, t, s, n, b.end)))
    && if v.On? && |v.s.stack| >= n then
         && v.s.d <= |t| && v.s.best == b && v.s.stack[..n] == s.stack[..n]
         && (forall e: nat :: Cover(f, t, v.s, n, e) ==> Cover(f, t, s, n, e))
         && (forall e: nat | Cover(f, t, s, n, e) ::
               (b.Best? && e <= b.end) || exists e': nat :: e <= e' && Cover(f, t, v.s, n, e'))
       else
         v == Resume(s.stack[..n], b) && forall e: nat | Cover(f, t, s, n, e) :: b.Best? && e <= b.end
  }

  lemma {:induction false} PhaseTurn(f: Flags, t: seq<byte>, s: Search, n: nat) returns (b: Best)
    requires Sane(t, s) && 1 <= n <= |s.stack| && EndWell(s, AtomLoop)
    ensures Turn(f, t, s) == Found(|t|) || PhaseStep(f, t, s, n, Turn(f, t, s), b)
  {
    b := if s.K.KDone? then BestAt(t, s) else s.best;
    if s.K.KDone? {
      DonePhase(f, t, s, n);
    } else {
      TurnDoes(f, t, s);
      LivePhase(f, t, s, n, Turn(f, t, s));
    }
  }

  lemma {:induction false} LivePhase(f: Flags, t: seq<byte>, s: Search, n: nat, v: Verdict)
    requires Sane(t, s) && 1 <= n <= |s.stack| && EndWell(s, AtomLoop) && Does(f, t, s, v)
    ensures PhaseStep(f, t, s, n, v, s.best)
  {
    assert EndsWellK(s.K, AtomLoop);
    hide Acc, Work, EndWell, Possessive, ThreadFits;
    if Dies(f, t, s, v) {
      ResumeSane(t, s.stack, s.best);
      ResumeCover(f, t, s.stack, s.best, n);
    } else {
      assert !Cuts(f, t, s, v.s);
      CoverKept(f, t, s, v.s, n);
      assert v.s.stack[..n] == s.stack[..n];
      hide Waiting;
      if Scans(f, t, s, v.s) {
        assert Cover(f, t, v.s, n, s.d + 1);
        forall e: nat | Cover(f, t, s, n, e)
          ensures exists e': nat :: e <= e' && Cover(f, t, v.s, n, e')
        {
          assert e <= (if e == s.d then e + 1 else e);
        }
      }
    }
  }

  lemma {:induction false} DonePhase(f: Flags, t: seq<byte>, s: Search, n: nat)
    requires Sane(t, s) && s.K.KDone? && 1 <= n <= |s.stack|
    ensures Turn(f, t, s) == Found(|t|) || PhaseStep(f, t, s, n, Turn(f, t, s), BestAt(t, s))
  {
    assert forall e: nat :: Acc(f, t, s.K, s.d, e) <==> e == s.d;
    hide Acc;
    var b := BestAt(t, s);
    assert Cover(f, t, s, n, s.d);
    assert forall e: nat :: Cover(f, t, s, n, e) <==> e == s.d || Waiting(f, t, s.stack, n, e);
    ResumeSane(t, s.stack, b);
    ResumeCover(f, t, s.stack, b, n);
    hide Waiting, Sane;
  }

  // ---- Alternatives only inside groups ----

  predicate Grouped(r: Re)
    decreases r, 0
  {
    match r
    case Group(_, _, body) => Branches(body)
    case Rep(body, _) => Grouped(body)
    case Interval(body, _, _) => Grouped(body)
    case Cat(a, b) => Grouped(a) && Grouped(b)
    case Alt(_, _) => false
    case _ => true
  }

  predicate Branches(r: Re)
    decreases r, 1
  {
    if r.Alt? then Grouped(r.a) && Branches(r.b) else Grouped(r)
  }

  /** A dummy failure point lies ahead. */
  predicate HasDum(K: Kont) {
    match K
    case KDone => false
    case KSeq(_, _, k) => HasDum(k)
    case KEnd(_, _, _, k) => HasDum(k)
    case KTail(_, _, k) => HasDum(k)
    case KJump(k) => HasDum(k)
    case KDum(_) => true
  }

  /** The alternatives ahead all end in a dummy failure point. */
  predicate GroupedK(K: Kont) {
    match K
    case KDone => true
    case KSeq(r, _, k) => (if HasDum(k) then Branches(r) else Grouped(r)) && GroupedK(k)
    case KEnd(_, _, _, k) => GroupedK(k)
    case KTail(body, _, k) => Grouped(body) && GroupedK(k)
    case KJump(k) => GroupedK(k)
    case KDum(k) => GroupedK(k)
  }

  lemma {:induction false} GroupedIsBranches(r: Re)
    ensures Branches(r) <==> Grouped(r) || (r.Alt? && Grouped(r.a) && Branches(r.b))
    ensures Grouped(r) ==> !r.Alt?
  {
  }

  lemma {:induction false} GroupedNorm(K: Kont)
    ensures HasDum(Norm(K)) == HasDum(K) && (GroupedK(K) ==> GroupedK(Norm(K)))
    decreases Cells(K)
  {
    if !Normal(K) {
      if K.r.Cat? {
        CellsCat(K.r, K.g, K.k);
        var K1 := KSeq(K.r.b, K.g + GroupCount(K.r.a), K.k);
        GroupedIsBranches(K.r);
        GroupedIsBranches(K.r.a);
        GroupedIsBranches(K.r.b);
        assert HasDum(K1) == HasDum(K.k) && (Grouped(K.r.b) && GroupedK(K.k) ==> GroupedK(K1));
        GroupedNorm(KSeq(K.r.a, K.g, K1));
      } else {
        GroupedNorm(K.k);
      }
    }
  }

  lemma {:induction b} GroupedJumps(b: Re, k: Kont)
    ensures HasDum(Jumps(b, k)) == HasDum(k) && GroupedK(Jumps(b, k)) == GroupedK(k)
  {
  }

  lemma {:induction false} GroupedReaches(K: Kont, K0: Kont)
    requires GroupedK(K) && Reaches(K, K0)
    ensures GroupedK(K0) && (HasDum(K) && !K.KDum? ==> HasDum(K0))
  {
    if K.KEnd? && K.k.KTail? { assert HasDum(K.k) == HasDum(K.k.k); }
    if K.KSeq? {
      var r, k := K.r, K.k;
      GroupedIsBranches(r);
      if r.Group? && K0 != k {
        var s: nat :| K0 == Enter(r, s, k);
        var e := KEnd(r.n, r.inner, s, k);
        GroupedIsBranches(r.body);
        assert GroupedK(e) && GroupedK(KDum(e)) && HasDum(KDum(e)) && HasDum(e) == HasDum(k) && Branches(r.body);
      }
      if r.Alt? { GroupedJumps(r.b, k); GroupedIsBranches(r.a); }
      if r.Rep? { GroupedIsBranches(r.body); assert GroupedK(AfterBody(r, K.g, k)) && HasDum(AfterBody(r, K.g, k)) == HasDum(k); }
    }
  }

  // ---- What a shorter way accepts ----

  ghost predicate Some(f: Flags, t: seq<byte>, K: Kont, i: nat)
    requires i <= |t|
  {
    exists e: nat :: Acc(f, t, K, i, e)
  }

  /** From `j`, `K'` accepts something, and nothing that `K` does not accept from `i`. */
  ghost predicate Part(f: Flags, t: seq<byte>, K': Kont, j: nat, K: Kont, i: nat)
    requires i <= |t| && j <= |t|
  {
    Some(f, t, K', j) && forall e: nat | Acc(f, t, K', j, e) :: Acc(f, t, K, i, e)
  }

  /** Whatever goes through `K`, from `d` or later, goes through `K'`, from `d'` or later. */
  ghost predicate Leads(f: Flags, t: seq<byte>, K: Kont, d: nat, K': Kont, d': nat) {
    forall i: nat | d <= i <= |t| && Some(f, t, K, i) :: exists j: nat | d' <= j <= |t| :: Part(f, t, K', j, K, i)
  }

  /** From `d` or from somewhere behind it, `K` accepts something, and nothing beyond `b`. */
  ghost predicate Under(f: Flags, t: seq<byte>, K: Kont, d: nat, b: nat) {
    exists i: nat | d <= i <= |t| :: Some(f, t, K, i) && forall e: nat | Acc(f, t, K, i, e) :: e <= b
  }

  lemma {:induction false} UnderLeads(f: Flags, t: seq<byte>, K: Kont, d: nat, K': Kont, d': nat, b: nat)
    requires Under(f, t, K, d, b) && Leads(f, t, K, d, K', d')
    ensures Under(f, t, K', d', b)
  {
    hide Acc;
    var i: nat :| d <= i <= |t| && Some(f, t, K, i) && forall e: nat | Acc(f, t, K, i, e) :: e <= b;
    var j: nat :| d' <= j <= |t| && Part(f, t, K', j, K, i);
  }

  lemma {:induction false} NormLeads(f: Flags, t: seq<byte>, K: Kont, d: nat, K0: Kont, d': nat)
    requires Fits(K0) && Leads(f, t, K, d, K0, d')
    ensures Leads(f, t, K, d, Norm(K0), d')
  {
    forall i: nat | d <= i <= |t| && Some(f, t, K, i)
      ensures exists j: nat | d' <= j <= |t| :: Part(f, t, Norm(K0), j, K, i)
    {
      var j: nat :| d' <= j <= |t| && Part(f, t, K0, j, K, i);
      forall e: nat ensures Acc(f, t, Norm(K0), j, e) <==> Acc(f, t, K0, j, e) { NormAcc(f, t, K0, j, e); }
      var e: nat :| Acc(f, t, K0, j, e);
      assert Acc(f, t, Norm(K0), j, e);
      hide Acc;
      assert Part(f, t, Norm(K0), j, K, i);
    }
  }

  /** Where both accept the same from everywhere on. */
  lemma {:induction false} SameLeads(f: Flags, t: seq<byte>, K: Kont, d: nat, K': Kont)
    requires forall i: nat, e: nat | d <= i <= |t| :: Acc(f, t, K, i, e) <==> Acc(f, t, K', i, e)
    ensures Leads(f, t, K, d, K', d)
  {
    hide Acc;
    forall i: nat | d <= i <= |t| && Some(f, t, K, i)
      ensures exists j: nat | d <= j <= |t| :: Part(f, t, K', j, K, i)
    {
      var e: nat :| Acc(f, t, K, i, e);
      assert Acc(f, t, K', i, e);
      assert Part(f, t, K', i, K, i);
    }
  }

  /** A piece of the pattern leads to what follows it. */
  lemma {:induction false} SeqLeads(f: Flags, t: seq<byte>, K: Kont, d: nat)
    requires K.KSeq?
    ensures Leads(f, t, K, d, K.k, d)
  {
    forall i: nat | d <= i <= |t| && Some(f, t, K, i)
      ensures exists j: nat | d <= j <= |t| :: Part(f, t, K.k, j, K, i)
    {
      var e: nat :| Acc(f, t, K, i, e);
      var j := SeqElim(f, t, K.r, K.g, K.k, i, e);
      assert Part(f, t, K.k, j, K, i);
    }
  }

  /** An atom leads to what follows it, as far behind as it is wide. */
  lemma {:induction false} AtomLeads(f: Flags, t: seq<byte>, K: Kont, d: nat)
    requires K.KSeq? && Atom(K.r) && Simple(K.r)
    ensures Leads(f, t, K, d, K.k, d + Width(K.r))
  {
    forall i: nat | d <= i <= |t| && Some(f, t, K, i)
      ensures exists j: nat | d + Width(K.r) <= j <= |t| :: Part(f, t, K.k, j, K, i)
    {
      var e: nat :| Acc(f, t, K, i, e);
      AtomAcc(f, t, K.r, K.g, K.k, i, e);
      var j := i + Width(K.r);
      forall e': nat ensures Acc(f, t, K, i, e') <==> Acc(f, t, K.k, j, e') { AtomAcc(f, t, K.r, K.g, K.k, i, e'); }
      assert Part(f, t, K.k, j, K, i);
    }
  }

  /** An iteration leads to the exit of its loop. */
  lemma {:induction false} BodyLeads(f: Flags, t: seq<byte>, K: Kont, d: nat)
    requires K.KSeq? && K.r.Rep?
    ensures Leads(f, t, KSeq(K.r.body, K.g, AfterBody(K.r, K.g, K.k)), d, K.k, d)
  {
    var k1 := AfterBody(K.r, K.g, K.k);
    var K0 := KSeq(K.r.body, K.g, k1);
    forall i: nat | d <= i <= |t| && Some(f, t, K0, i)
      ensures exists j: nat | d <= j <= |t| :: Part(f, t, K.k, j, K0, i)
    {
      var e: nat :| Acc(f, t, K0, i, e);
      var m := SeqElim(f, t, K.r.body, K.g, k1, i, e);
      var j := m;
      if k1 != K.k && !Misread(K.r.body) {
        j :| m <= j <= |t| && M(f, InPlace(Loop(K.r.body), K.k), t, m, j) && Acc(f, t, K.k, j, e);
      }
      forall e': nat | Acc(f, t, K.k, j, e')
        ensures Acc(f, t, K0, i, e')
      {
        assert k1 != K.k ==> Acc(f, t, k1, m, e');
        SeqIntro(f, t, K.r.body, K.g, k1, i, m, e');
      }
      assert Some(f, t, K.k, j);
      assert Part(f, t, K.k, j, K0, i);
    }
  }

  /** A repetition that need not be taken leads to its exit, with what an iteration leads to. */
  lemma {:induction false} AgainLeads(f: Flags, t: seq<byte>, K: Kont, d: nat)
    requires Possessive(K) && Simple(K.r) && d < |t| && AtomHas(f, t, K.r.body, d)
    ensures Leads(f, t, K, d, Again(K), d + 1)
  {
    forall i: nat | d <= i <= |t| && Some(f, t, K, i)
      ensures exists j: nat | d + 1 <= j <= |t| :: Part(f, t, Again(K), j, K, i)
    {
      var e: nat :| Acc(f, t, K, i, e);
      if i > d && ZeroOk(K.r.ops) {
        forall e': nat ensures Acc(f, t, Again(K), i, e') <==> Acc(f, t, K, i, e') { AgainAcc(f, t, K, i, e'); }
        assert Part(f, t, Again(K), i, K, i);
      } else {
        if i > d && !(i < |t| && AtomHas(f, t, K.r.body, i)) { StopAcc(f, t, K, i, e); }
        forall e': nat
          ensures Acc(f, t, K, i, e') <==>
                  (ZeroOk(K.r.ops) && SeenK(K.k).End? && e' == i) || Acc(f, t, Again(K), i + 1, e')
          ensures SeenK(K.k).End? ==> Acc(f, t, Again(K), i + 1, i + 1)
        {
          ScanAcc(f, t, K, i, e');
        }
        hide Acc;
        assert Some(f, t, Again(K), i + 1);
        assert Part(f, t, Again(K), i + 1, K, i);
      }
    }
  }

  lemma {:induction false} AgainAcc(f: Flags, t: seq<byte>, K: Kont, d: nat, e: nat)
    requires K.KSeq? && K.r.Rep? && ManyOk(K.r.ops) && ZeroOk(K.r.ops) && Atom(K.r.body) && d <= |t|
    ensures Acc(f, t, Again(K), d, e) <==> Acc(f, t, K, d, e)
  {
    assert ZeroOk([Star]) && ManyOk([Star]);
    assert forall m: nat | d <= m <= |t| ::
      M(f, InPlace(K.r, K.k), t, d, m) <==> M(f, InPlace(Loop(K.r.body), K.k), t, d, m);
  }

  // ---- A thread with nothing below it ----

  /** What this thread finds last cannot beat the best match so far. */
  ghost predicate Sure(f: Flags, t: seq<byte>, s: Search) {
    s.best.NoBest? || HasDum(s.K) || Under(f, t, s.K, s.d, s.best.end)
  }

  /** `e` is longer than the match that is returned: that is the best match of before, and `e` does not reach the end of
      the text; if no loop ends the pattern, `e` is all that the thread accepts. */
  ghost predicate Overlooked(f: Flags, t: seq<byte>, s: Search, end: nat, e: nat)
    requires s.d <= |t|
  {
    && s.best == Best(end) && end < e < |t|
    && (EndsWellK(s.K, NoLoop) ==> forall e': nat | Acc(f, t, s.K, s.d, e') :: e' == e)
  }

  /** The outcome for a thread with nothing below it. */
  ghost predicate Judged(f: Flags, t: seq<byte>, s: Search)
    requires Sane(t, s)
  {
    var v := Final(f, t, s);
    && (s.best.Best? ==> v.Found? && s.best.end <= v.end)
    && (forall e: nat | Acc(f, t, s.K, s.d, e) :: v.Found? && (e <= v.end || Overlooked(f, t, s, v.end, e)))
    && (Sure(f, t, s) ==> forall e: nat | Acc(f, t, s.K, s.d, e) :: e <= v.end)
  }

  ghost predicate Alone(t: seq<byte>, s: Search) {
    && Sane(t, s) && s.stack == [] && EndsWellK(s.K, AtomLoop) && GroupedK(s.K)
    && (s.best.Best? ==> s.best.end <= |t|)
  }

  lemma {:induction false} AccWithin(f: Flags, t: seq<byte>, K: Kont, d: nat, e: nat)
    requires d <= |t| && Acc(f, t, K, d, e)
    ensures e <= |t|
    decreases K
  {
    match K
    case KDone =>
    case KSeq(r, g, k) => var m := SeqElim(f, t, r, g, k, d, e); AccWithin(f, t, k, m, e);
    case KEnd(_, _, s, k) => if k.KTail? && d <= s { AccWithin(f, t, k.k, d, e); } else { AccWithin(f, t, k, d, e); }
    case KTail(body, _, k) =>
      if Misread(body) {
        AccWithin(f, t, k, d, e);
      } else {
        var m: nat :| d <= m <= |t| && M(f, InPlace(Loop(body), k), t, d, m) && Acc(f, t, k, m, e);
        AccWithin(f, t, k, m, e);
      }
    case KJump(k) => AccWithin(f, t, k, d, e);
    case KDum(k) => AccWithin(f, t, k, d, e);
  }

  /** How a turn with an empty stack continues: what it leads to, and whether a dummy still lies ahead. */
  ghost predicate Proceeds(f: Flags, t: seq<byte>, s: Search, v: Verdict)
    requires s.d <= |t|
  {
    v.On? ==>
      if v.s.stack == [] then
        Leads(f, t, s.K, s.d, v.s.K, v.s.d) && (HasDum(s.K) ==> HasDum(v.s.K))
      else
        && |v.s.stack| == 1
        && var x := v.s.stack[0];
          x.Wait? ==>
            && (HasDum(s.K) ==> HasDum(x.K))
            && (HasDum(x.K) || (Leads(f, t, s.K, s.d, x.K, x.d) && Leads(f, t, v.s.K, v.s.d, x.K, x.d)))
  }

  lemma {:induction false} AloneProceeds(f: Flags, t: seq<byte>, s: Search)
    requires Alone(t, s) && !s.K.KDone?
    ensures Proceeds(f, t, s, Turn(f, t, s))
  {
    var K := s.K;
    assert Fits(K);
    match K
    case KEnd(_, _, _, k) =>
      assert Tails(K) == Tails(k) && (k.KTail? ==> Tails(k) > 0);
      SameLeads(f, t, K, s.d, k);
      NormLeads(f, t, K, s.d, k, s.d);
      GroupedNorm(k);
    case KTail(_, _, _) => assert false;
    case KJump(k) =>
      SameLeads(f, t, K, s.d, k);
      NormLeads(f, t, K, s.d, k, s.d);
      GroupedNorm(k);
    case KDum(k) =>
    case KSeq(r, g, k) =>
      assert Simple(r);
      hide Fits, Acc, OwnOnTop, DummyOnTop, Tails, Proceeds;
      GroupedNorm(k);
      if Atom(r) {
        AtomProceeds(f, t, s);
      } else if r.Rep? {
        RepProceeds(f, t, s);
      } else if r.Group? {
        GroupProceeds(f, t, s);
      } else if r.Alt? {
        AltProceeds(f, t, s);
      }
  }

  lemma {:induction false} AtomProceeds(f: Flags, t: seq<byte>, s: Search)
    requires Alone(t, s) && s.K.KSeq? && Atom(s.K.r)
    ensures Proceeds(f, t, s, Turn(f, t, s))
  {
    var K := s.K;
    assert Fits(K) && Simple(K.r) && Fits(K.k);
    hide Fits, Acc, Leads, Sane;
    AtomLeads(f, t, K, s.d);
    NormLeads(f, t, K, s.d, K.k, s.d + Width(K.r));
    GroupedNorm(K.k);
  }

  lemma {:induction false} GroupProceeds(f: Flags, t: seq<byte>, s: Search)
    requires Alone(t, s) && s.K.KSeq? && s.K.r.Group?
    ensures Proceeds(f, t, s, Turn(f, t, s))
  {
    var K, r, g, k := s.K, s.K.r, s.K.g, s.K.k;
    var K0 := Enter(r, s.d, k);
    assert Fits(K);
    FitsEnter(r, g, s.d, k);
    hide Fits, Acc, Leads, Sane;
    forall i: nat, e: nat | s.d <= i <= |t|
      ensures Acc(f, t, K, i, e) <==> Acc(f, t, K0, i, e)
    {
      EnteredEarlier(f, t, r, g, k, s.d, i, e);
    }
    SameLeads(f, t, K, s.d, K0);
    NormLeads(f, t, K, s.d, K0, s.d);
    GroupedReaches(K, K0);
    GroupedNorm(K0);
  }

  lemma {:induction false} AltProceeds(f: Flags, t: seq<byte>, s: Search)
    requires Alone(t, s) && s.K.KSeq? && s.K.r.Alt?
    ensures Proceeds(f, t, s, Turn(f, t, s))
  {
    assert HasDum(s.K.k);
    GroupedNorm(KSeq(s.K.r.b, s.K.g + GroupCount(s.K.r.a), s.K.k));
  }

  lemma {:induction false} RepProceeds(f: Flags, t: seq<byte>, s: Search)
    requires Alone(t, s) && s.K.KSeq? && s.K.r.Rep?
    ensures Proceeds(f, t, s, TurnRep(f, t, s))
  {
    var K, r, g, k := s.K, s.K.r, s.K.g, s.K.k;
    assert Fits(K) && Simple(r) && Fits(k);
    FitsLoop(r, g, k);
    SeqLeads(f, t, K, s.d);
    NormLeads(f, t, K, s.d, k, s.d);
    GroupedNorm(k);
    hide Acc, Leads, Fits;
    if Possessive(K) {
      if AtomHas(f, t, r.body, s.d) {
        assert s.d < |t|;
        AgainLeads(f, t, K, s.d);
      }
    } else {
      var K0 := KSeq(r.body, g, AfterBody(r, g, k));
      BodyLeads(f, t, K, s.d);
      NormLeads(f, t, K0, s.d, k, s.d);
      LeadsFrom(f, t, K0, Norm(K0), s.d, Norm(k), s.d);
    }
  }

  lemma {:induction false} LeadsFrom(f: Flags, t: seq<byte>, K: Kont, K': Kont, d: nat, K1: Kont, d1: nat)
    requires Leads(f, t, K, d, K1, d1) && K' == Norm(K) && Fits(K)
    ensures Leads(f, t, K', d, K1, d1)
  {
    forall i: nat | d <= i <= |t| && Some(f, t, K', i)
      ensures exists j: nat | d1 <= j <= |t| :: Part(f, t, K1, j, K', i)
    {
      forall e: nat ensures Acc(f, t, K', i, e) <==> Acc(f, t, K, i, e) { NormAcc(f, t, K, i, e); }
      hide Acc;
      var e: nat :| Acc(f, t, K', i, e);
      assert Some(f, t, K, i);
      var j: nat :| d1 <= j <= |t| && Part(f, t, K1, j, K, i);
      assert Part(f, t, K1, j, K', i);
    }
  }

  /** The conditions on a thread with nothing below it hold for those it leads to. */
  lemma {:induction false} AloneKept(t: seq<byte>, s: Search, s': Search)
    requires Alone(t, s) && Sane(t, s') && Heirs(s, s')
    ensures GroupedK(s'.K) && EndWell(s', AtomLoop) && (EndsWellK(s.K, NoLoop) ==> EndsWellK(s'.K, NoLoop))
    ensures forall x :: x in s'.stack && x.Wait? ==>
      GroupedK(x.K) && EndsWellK(x.K, AtomLoop) && (EndsWellK(s.K, NoLoop) ==> EndsWellK(x.K, NoLoop))
  {
    EndsKept(s, s', AtomLoop);
    GroupedSucc(s.K, s'.K);
    if EndsWellK(s.K, NoLoop) { EndsSucc(s.K, s'.K, NoLoop); }
    forall x | x in s'.stack && x.Wait?
      ensures GroupedK(x.K) && (EndsWellK(s.K, NoLoop) ==> EndsWellK(x.K, NoLoop))
    {
      GroupedSucc(s.K, x.K);
      if EndsWellK(s.K, NoLoop) { EndsSucc(s.K, x.K, NoLoop); }
    }
  }

  lemma {:induction false} GroupedSucc(K: Kont, K': Kont)
    requires GroupedK(K) && Succ(K, K')
    ensures GroupedK(K')
  {
    var K0 :| Reaches(K, K0) && K' == Norm(K0);
    GroupedReaches(K, K0);
    GroupedNorm(K0);
  }

  // ---- Such a thread, turn by turn ----

  lemma {:induction false} DoneJudged(f: Flags, t: seq<byte>, s: Search)
    requires Alone(t, s) && s.K.KDone?
    ensures Judged(f, t, s)
  {
    assert forall i: nat, e: nat | i <= |t| :: Acc(f, t, s.K, i, e) <==> i == e;
    hide Acc;
  }

  lemma {:induction false} WholeJudged(f: Flags, t: seq<byte>, s: Search)
    requires Alone(t, s) && Final(f, t, s) == Found(|t|)
    ensures Judged(f, t, s)
  {
    forall e: nat | Acc(f, t, s.K, s.d, e) ensures e <= |t| { AccWithin(f, t, s.K, s.d, e); }
    hide Acc;
  }

  lemma {:induction false} OnJudged(f: Flags, t: seq<byte>, s: Search, s': Search)
    requires Alone(t, s) && Alone(t, s') && Judged(f, t, s') && Final(f, t, s) == Final(f, t, s')
    requires GoesOn(f, t, s, s') || Scans(f, t, s, s')
    requires Leads(f, t, s.K, s.d, s'.K, s'.d) && (HasDum(s.K) ==> HasDum(s'.K))
    requires EndsWellK(s.K, NoLoop) ==> EndsWellK(s'.K, NoLoop)
    ensures Judged(f, t, s)
  {
    var v := Final(f, t, s);
    if Scans(f, t, s, s') { assert !EndsWellK(s.K, NoLoop); }
    if Sure(f, t, s) && s.best.Best? && !HasDum(s.K) { UnderLeads(f, t, s.K, s.d, s'.K, s'.d, s.best.end); }
    hide Acc, Final, Leads, Sane, Under, Possessive, HasDum, EndsWellK, AtomHas;
    forall e: nat | Acc(f, t, s.K, s.d, e)
      ensures v.Found? && (e <= v.end || Overlooked(f, t, s, v.end, e)) && (Sure(f, t, s) ==> e <= v.end)
    {
      if !Acc(f, t, s'.K, s'.d, e) { assert e == s.d && Acc(f, t, s'.K, s'.d, e + 1); }
    }
  }

  lemma {:induction false} DummyJudged(f: Flags, t: seq<byte>, s: Search, s': Search)
    requires Alone(t, s) && Sane(t, s') && EndWell(s', AtomLoop) && s'.stack == [Dummy]
    requires Forks(f, t, s, s') && Final(f, t, s) == Final(f, t, s')
    ensures Judged(f, t, s)
  {
    var best := Phase(f, t, s', 1);
    if Final(f, t, s) == Found(|t|) {
      WholeJudged(f, t, s);
    } else {
      assert s'.stack[..1] == [Dummy] && [Dummy][..0] == [];
      assert Resume([Dummy], best) == Resume([], best);
      hide Acc, Final, Leads, Sane;
      forall e: nat | Acc(f, t, s.K, s.d, e)
        ensures best.Best? && e <= best.end
      {
        assert Cover(f, t, s', 1, e);
      }
    }
  }

  /** One that leaves its exit behind: first everything else, then the exit. */
  lemma {:induction false} ForkJudged(f: Flags, t: seq<byte>, s: Search, s': Search, s2: Search)
    requires Alone(t, s) && s'.d <= |t| && s'.stack == [Wait(s2.K, s2.d)] && Forks(f, t, s, s')
    requires Tops(f, t, s', 1, s2.best) && Alone(t, s2) && Judged(f, t, s2) && Final(f, t, s) == Final(f, t, s2)
    requires HasDum(s.K) ==> HasDum(s2.K)
    requires HasDum(s2.K) || (Leads(f, t, s.K, s.d, s2.K, s2.d) && Leads(f, t, s'.K, s'.d, s2.K, s2.d))
    requires EndsWellK(s.K, NoLoop) ==> EndsWellK(s2.K, NoLoop)
    ensures Judged(f, t, s)
  {
    assert s2.d <= |t|;
    hide Final, Leads, Sane, HasDum, EndsWellK, GroupedK, Under;
    var v := Final(f, t, s);
    assert forall e: nat :: Cover(f, t, s', 1, e) <==> Acc(f, t, s'.K, s'.d, e);
    assert forall e: nat :: EntryAcc(f, t, s'.stack[0], e) <==> Acc(f, t, s2.K, s2.d, e);
    hide Acc;
    if e: nat :| Acc(f, t, s'.K, s'.d, e) {
      if !HasDum(s2.K) { FirstBounds(f, t, s', s2); }
      assert Sure(f, t, s2);
    } else {
      assert s2.best == s.best;
      if Sure(f, t, s) && s.best.Best? && !HasDum(s2.K) { UnderLeads(f, t, s.K, s.d, s2.K, s2.d, s.best.end); }
    }
  }

  /** If the rest has accepted something, its exit is bounded by the best match. */
  lemma {:induction false} FirstBounds(f: Flags, t: seq<byte>, s': Search, s2: Search)
    requires s'.d <= |t| && Tops(f, t, s', 1, s2.best) && Leads(f, t, s'.K, s'.d, s2.K, s2.d)
    requires Some(f, t, s'.K, s'.d)
    ensures s2.best.Best? && Under(f, t, s2.K, s2.d, s2.best.end)
  {
    hide Acc, Leads;
    var e: nat :| Acc(f, t, s'.K, s'.d, e);
    assert Cover(f, t, s', 1, e);
    assert forall e: nat | Acc(f, t, s'.K, s'.d, e) :: Cover(f, t, s', 1, e);
    assert Under(f, t, s'.K, s'.d, s2.best.end);
    UnderLeads(f, t, s'.K, s'.d, s2.K, s2.d, s2.best.end);
  }

  /** A thread with nothing below it: every longer match is found, unless the best match so far is of no use to it. */
  lemma {:induction false} AloneJudged(f: Flags, t: seq<byte>, s: Search)
    requires Alone(t, s)
    ensures Judged(f, t, s)
    decreases Total(t, s)
  {
    if s.K.KDone? {
      DoneJudged(f, t, s);
    } else {
      var v := Turn(f, t, s);
      TurnKeeps(f, t, s);
      TurnDoes(f, t, s);
      AloneProceeds(f, t, s);
      assert v.On? ==> Sane(t, v.s);
      hide Acc, Turn, Work, Judged, Leads, Forks, GoesOn, Scans, Tops;
      if v.On? {
        AloneKept(t, s, v.s);
        assert Sane(t, v.s) && !Cuts(f, t, s, v.s);
        if v.s.stack == [] {
          AloneJudged(f, t, v.s);
          OnJudged(f, t, s, v.s);
        } else if v.s.stack[0].Dummy? {
          assert v.s.stack == [Dummy];
          DummyJudged(f, t, s, v.s);
        } else {
          var s2 := ForkPhase(f, t, s, v.s);
          if Final(f, t, s) == Found(|t|) {
            WholeJudged(f, t, s);
          } else {
            AloneJudged(f, t, s2);
            ForkJudged(f, t, s, v.s, s2);
          }
        }
      } else {
        DeadJudged(f, t, s);
      }
    }
  }

  lemma {:induction false} DeadJudged(f: Flags, t: seq<byte>, s: Search)
    requires Alone(t, s) && Dies(f, t, s, Turn(f, t, s))
    ensures Judged(f, t, s)
  {
    hide Acc, Turn;
  }

  lemma {:induction false} ForkPhase(f: Flags, t: seq<byte>, s: Search, s': Search) returns (s2: Search)
    requires Alone(t, s) && Sane(t, s') && EndWell(s', AtomLoop) && |s'.stack| == 1 && s'.stack[0].Wait?
    requires Final(f, t, s) == Final(f, t, s') && Total(t, s') < Total(t, s) && s'.best == s.best
    ensures Final(f, t, s) == Found(|t|) || (
      && s'.stack == [Wait(s2.K, s2.d)] && s2.stack == [] && Tops(f, t, s', 1, s2.best)
      && Sane(t, s2) && Total(t, s2) < Total(t, s) && Final(f, t, s) == Final(f, t, s2)
      && (s2.best.Best? ==> s2.best.end <= |t|))
  {
    var best := Phase(f, t, s', 1);
    s2 := Search(s'.stack[0].K, s'.stack[0].d, [], best);
    hide Acc, Final, Work;
    if Final(f, t, s) != Found(|t|) {
      ResumeSane(t, s'.stack, best);
      assert s'.stack[..1] == s'.stack && s'.stack[..0] == [];
      assert Resume(s'.stack, best) == On(s2);
      if best != s.best { CoverWithin(f, t, s', 1, best.end); }
    }
  }

  lemma {:induction false} CoverWithin(f: Flags, t: seq<byte>, s: Search, n: nat, e: nat)
    requires s.d <= |t| && Cover(f, t, s, n, e)
    ensures e <= |t|
  {
    hide Acc;
    if Acc(f, t, s.K, s.d, e) {
      AccWithin(f, t, s.K, s.d, e);
    } else {
      var i :| n <= i < |s.stack| && EntryAcc(f, t, s.stack[i], e);
      AccWithin(f, t, s.stack[i].K, s.stack[i].d, e);
    }
  }
}
