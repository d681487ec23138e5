/** Patterns of several alternatives at the top. All alternatives but the last are searched for the longest match; the
    last one is searched with nothing below it, and what it finds last cannot beat the best of the others. */
module RegexAlternatives {
  import opened RegexSyntax
  import opened RegexEffect
  import opened RegexMachine
  import opened RegexKont
  import opened RegexAccept
  import opened RegexThreads
  import opened RegexProperties
  import opened RegexOutcome
  import opened RegexLongest

  function LastBranch(r: Re): Re {
    if r.Alt? then LastBranch(r.b) else r
  }

  /** The prefixes of the text from `i` on that are in the pattern's language, by their end. */
  ghost predicate InLanguage(f: Flags, r: Re, t: seq<byte>, i: nat, j: nat) {
    i <= j <= |t| && Lang(f, r, t[i..j])
  }

  /** One of the alternatives before the last does. */
  ghost predicate InEarlier(f: Flags, r: Re, t: seq<byte>, i: nat, j: nat) {
    r.Alt? && (InLanguage(f, r.a, t, i, j) || InEarlier(f, r.b, t, i, j))
  }

  /** They have a match, and all their matches are shorter than `b`. */
  ghost predicate EarlierBelow(f: Flags, r: Re, t: seq<byte>, i: nat, b: nat) {
    (exists a: nat :: InEarlier(f, r, t, i, a)) && forall a: nat | InEarlier(f, r, t, i, a) :: a < b
  }

  lemma {:induction false} EarlierOrLast(f: Flags, r: Re, t: seq<byte>, i: nat, j: nat)
    ensures InLanguage(f, r, t, i, j) <==> InEarlier(f, r, t, i, j) || InLanguage(f, LastBranch(r), t, i, j)
  {
    if r.Alt? { EarlierOrLast(f, r.b, t, i, j); }
  }

  lemma {:induction false} NoNewBranch(r: Re, nx: Next)
    ensures Effective(r, nx).Alt? == r.Alt?
  {
    if r.Rep? && Misread(r.body) { assert Effective(r.body, Other).Group?; }
  }

  lemma {:induction false} LastBranchKeeps(r: Re)
    ensures LastBranch(Effect(r)) == Effect(LastBranch(r)) && !LastBranch(r).Alt?
    ensures Branches(r) ==> Grouped(LastBranch(r))
    ensures Simple(r) ==> Simple(LastBranch(r))
    ensures forall ending :: EndsWell(r, End, ending) ==> EndsWell(LastBranch(r), End, ending)
  {
    NoNewBranch(r, End);
    if r.Alt? { LastBranchKeeps(r.b); } else { assert Branches(r) ==> Grouped(r); }
  }

  // ---- Where a search begins ----

  /** `r` is to be matched from `d` on, with `best` found before. */
  function Begin(r: Re, g: nat, d: nat, best: Best): Search {
    Search(Norm(KSeq(r, g, KDone)), d, [], best)
  }

  lemma {:induction false} BeginSane(f: Flags, t: seq<byte>, r: Re, g: nat, d: nat, best: Best)
    requires Simple(r) && d <= |t|
    ensures Sane(t, Begin(r, g, d, best))
    ensures forall e: nat :: Acc(f, t, Begin(r, g, d, best).K, d, e) <==> InLanguage(f, Effect(r), t, d, e)
    ensures forall ending :: EndsWell(r, End, ending) ==> EndsWellK(Begin(r, g, d, best).K, ending)
    ensures Grouped(r) ==> GroupedK(Begin(r, g, d, best).K)
  {
    var K := KSeq(r, g, KDone);
    assert Fits(KDone) && QuietTail(KDone).KDone? && !AltEnd(KDone) && Tails(KDone) == 0 && Steady(KDone);
    assert Fits(K) && Steady(K) && QuietTail(K).KDone?;
    NormSane(t, K, d, []);
    forall e: nat
      ensures Acc(f, t, Norm(K), d, e) <==> InLanguage(f, Effect(r), t, d, e)
    {
      NormAcc(f, t, K, d, e);
      SeqDone(f, t, r, g, KDone, d, e);
    }
    forall ending | EndsWell(r, End, ending)
      ensures EndsWellK(Norm(K), ending)
    {
      assert EndsWellK(KDone, ending);
      EndsNorm(K, ending);
    }
    assert GroupedK(KDone);
    GroupedNorm(K);
  }

  /** With nothing but the end behind it, a piece accepts where it ends. */
  lemma {:induction false} SeqDone(f: Flags, t: seq<byte>, r: Re, g: nat, k: Kont, d: nat, e: nat)
    requires d <= |t| && forall m: nat, e: nat | m <= |t| :: Acc(f, t, k, m, e) <==> m == e
    ensures Acc(f, t, KSeq(r, g, k), d, e) <==> InLanguage(f, InPlace(r, k), t, d, e)
  {
    if d <= e <= |t| { PositionsAreWords(f, InPlace(r, k), t, d, e); }
    hide Lang;
    if Acc(f, t, KSeq(r, g, k), d, e) { var m := SeqElim(f, t, r, g, k, d, e); }
    if InLanguage(f, InPlace(r, k), t, d, e) { SeqIntro(f, t, r, g, k, d, e, e); }
  }

  // ---- The alternatives before the last ----

  /** `best'` is the longest match of the earlier alternatives, or `best` if that is as long. */
  ghost predicate BestOfEarlier(f: Flags, E: Re, t: seq<byte>, d: nat, best: Best, best': Best) {
    && NoWorse(best, best')
    && (best' == best || (best'.Best? && InEarlier(f, E, t, d, best'.end)))
    && forall e: nat | InEarlier(f, E, t, d, e) :: best'.Best? && e <= best'.end
  }

  /** The search comes to the last alternative with the longest match of the others, unless one of those is a match of the
      whole rest of the text. */
  lemma {:induction false} ToLastBranch(f: Flags, t: seq<byte>, r: Re, g: nat, d: nat, best: Best)
    returns (best': Best, g': nat)
    requires Simple(r) && d <= |t| && EndsWell(r, End, AtomLoop) && Sane(t, Begin(r, g, d, best))
    ensures var s, s' := Begin(r, g, d, best), Begin(LastBranch(r), g', d, best');
      Final(f, t, s) == Found(|t|) || (
        && Sane(t, s') && Final(f, t, s) == Final(f, t, s') && BestOfEarlier(f, Effect(r), t, d, best, best'))
    decreases r
  {
    best', g' := best, g;
    hide Final, Sane, InEarlier, InLanguage, EndsWell, Begin, Simple, Effective;
    if r.Alt? {
      var best1 := FirstBranch(f, t, r, g, d, best);
      if Final(f, t, Begin(r, g, d, best)) != Found(|t|) {
        best', g' := ToLastBranch(f, t, r.b, g + GroupCount(r.a), d, best1);
        if Final(f, t, Begin(r, g, d, best)) != Found(|t|) { BestOfBoth(f, Effect(r), t, d, best, best1, best'); }
      }
    } else {
      forall e: nat ensures !InEarlier(f, Effect(r), t, d, e) { NoEarlier(f, r, t, d, e); }
    }
  }

  lemma {:induction false} BestOfBoth(f: Flags, E: Re, t: seq<byte>, d: nat, best: Best, best1: Best, best': Best)
    requires E.Alt? && NoWorse(best, best1) && (best1 == best || (best1.Best? && InLanguage(f, E.a, t, d, best1.end)))
    requires forall e: nat | InLanguage(f, E.a, t, d, e) :: best1.Best? && e <= best1.end
    requires BestOfEarlier(f, E.b, t, d, best1, best')
    ensures BestOfEarlier(f, E, t, d, best, best')
  {
    assert forall e: nat :: InEarlier(f, E, t, d, e) <==> (InLanguage(f, E.a, t, d, e) || InEarlier(f, E.b, t, d, e));
    hide InLanguage, InEarlier;
  }

  /** The first alternative, with the others waiting below. */
  lemma {:induction false} BranchBegins(f: Flags, t: seq<byte>, r: Re, g: nat, d: nat, best: Best) returns (s1: Search)
    requires r.Alt? && Simple(r) && d <= |t| && EndsWell(r, End, AtomLoop) && Sane(t, Begin(r, g, d, best))
    ensures s1.d == d && s1.best == best && s1.stack == [Wait(Begin(r.b, g + GroupCount(r.a), d, best).K, d)]
    ensures Sane(t, s1) && EndWell(s1, AtomLoop) && Final(f, t, Begin(r, g, d, best)) == Final(f, t, s1)
    ensures forall e: nat :: Cover(f, t, s1, 1, e) <==> InLanguage(f, Effective(r.a, Other), t, d, e)
  {
    hide Acc, InLanguage, Effective, Sane, EndsWell, EndsWellK, Simple, Norm, Jumps, Turn, GroupCount;
    var s := Begin(r, g, d, best);
    BeginSane(f, t, r, g, d, best);
    AltBegins(r, g, d, best);
    AltTurn(f, t, s);
    TurnKeeps(f, t, s);
    s1 := Turn(f, t, s).s;
    EndsKept(s, s1, AtomLoop);
    AltFitsDone(t, s, r, g);
    forall e: nat
      ensures Cover(f, t, s1, 1, e) <==> InLanguage(f, Effective(r.a, Other), t, d, e)
    {
      BranchAcc(f, t, r, g, d, e);
    }
  }

  lemma {:induction false} AltRest(r: Re)
    requires r.Alt? && Simple(r) && EndsWell(r, End, AtomLoop)
    ensures Simple(r.b) && EndsWell(r.b, End, AtomLoop) && Effect(r) == Alt(Effective(r.a, Other), Effect(r.b))
  {
  }

  lemma AltTurn(f: Flags, t: seq<byte>, s: Search)
    requires s.d <= |t| && s.K.KSeq? && s.K.r.Alt?
    ensures Turn(f, t, s) == On(s.(K := Norm(KSeq(s.K.r.a, s.K.g, Jumps(s.K.r.b, s.K.k))),
                                   stack := s.stack + [Wait(Norm(KSeq(s.K.r.b, s.K.g + GroupCount(s.K.r.a), s.K.k)), s.d)]))
  {
  }

  lemma AltBegins(r: Re, g: nat, d: nat, best: Best)
    requires r.Alt?
    ensures Begin(r, g, d, best).K == KSeq(r, g, KDone)
  {
  }

  lemma {:induction false} AltFitsDone(t: seq<byte>, s: Search, r: Re, g: nat)
    requires Sane(t, s) && s.K == KSeq(r, g, KDone)
    ensures Fits(KSeq(r, g, KDone))
  {
  }

  lemma {:induction false} FirstBranch(f: Flags, t: seq<byte>, r: Re, g: nat, d: nat, best: Best) returns (best1: Best)
    requires r.Alt? && Simple(r) && d <= |t| && EndsWell(r, End, AtomLoop) && Sane(t, Begin(r, g, d, best))
    ensures var s, s' := Begin(r, g, d, best), Begin(r.b, g + GroupCount(r.a), d, best1);
      && Simple(r.b) && EndsWell(r.b, End, AtomLoop) && Effect(r) == Alt(Effective(r.a, Other), Effect(r.b))
      && (Final(f, t, s) == Found(|t|) || (
        && Sane(t, s') && Final(f, t, s) == Final(f, t, s') && NoWorse(best, best1)
        && (best1 == best || (best1.Best? && InLanguage(f, Effect(r).a, t, d, best1.end)))
        && forall e: nat | InLanguage(f, Effect(r).a, t, d, e) :: best1.Best? && e <= best1.end))
  {
    hide Acc, InLanguage, Cover, Sane, EndWell, EndsWell, EndsWellK, Simple, Norm, Effective, Turn, GroupCount;
    AltRest(r);
    var s1 := BranchBegins(f, t, r, g, d, best);
    best1 := Phase(f, t, s1, 1);
    var s2 := Begin(r.b, g + GroupCount(r.a), d, best1);
    BeginSane(f, t, r.b, g + GroupCount(r.a), d, best1);
    if Final(f, t, s1) != Found(|t|) {
      assert s1.stack[..1] == s1.stack && s1.stack[..0] == [];
      assert Resume(s1.stack, best1) == On(s2);
    }
  }

  lemma {:induction false} BranchAcc(f: Flags, t: seq<byte>, r: Re, g: nat, d: nat, e: nat)
    requires r.Alt? && Simple(r) && d <= |t| && Fits(KSeq(r, g, KDone))
    ensures Acc(f, t, Norm(KSeq(r.a, g, Jumps(r.b, KDone))), d, e) <==> InLanguage(f, Effective(r.a, Other), t, d, e)
  {
    var J := Jumps(r.b, KDone);
    AltFits(r, g, KDone);
    NormAcc(f, t, KSeq(r.a, g, J), d, e);
    forall m: nat, e': nat | m <= |t|
      ensures Acc(f, t, J, m, e') <==> m == e'
    {
      JumpsAcc(f, t, r.b, KDone, m, e');
    }
    assert SeenK(J).Other?;
    SeqDone(f, t, r.a, g, J, d, e);
  }

  // ---- What is missed ----

  /** The match that ends at `e` is missed: it is longer than what is returned, the longest match of the earlier
      alternatives; only the last alternative has it, and it does not reach the end of the text. If no loop ends the last
      alternative, that has no other match. */
  ghost predicate Missed(f: Flags, r: Re, t: seq<byte>, pos: nat, end: nat, e: nat) {
    var E := Effect(r);
    && end < e < |t| && InLanguage(f, LastBranch(E), t, pos, e)
    && InEarlier(f, E, t, pos, end) && (forall a: nat | InEarlier(f, E, t, pos, a) :: a <= end)
    && (EndsWell(LastBranch(r), End, NoLoop) ==> forall b: nat | InLanguage(f, LastBranch(E), t, pos, b) :: b == e)
  }

  /** With no loop at the end but over a character, the search finds the longest match, except for one such match of the
      last of several alternatives. */
  lemma {:induction false} LongestFound(f: Flags, t: seq<byte>, r: Re, pos: nat, e: nat)
    requires Simple(r) && Branches(r) && pos <= |t| && EndsWell(r, End, AtomLoop) && Sane(t, Begin(r, 1, pos, NoBest))
    requires InLanguage(f, Effect(r), t, pos, e)
    ensures var v := Final(f, t, Begin(r, 1, pos, NoBest));
      v.Found? && (e <= v.end || (r.Alt? && Missed(f, r, t, pos, v.end, e)))
  {
    var s := Begin(r, 1, pos, NoBest);
    var best, g := ToLastBranch(f, t, r, 1, pos, NoBest);
    hide Final, Sane, EndsWell, InLanguage, InEarlier, Begin, Simple, Branches, Grouped, Effect;
    if Final(f, t, s) == Found(|t|) {
      assert e <= |t| by { MatchWithin(f, Effect(r), t, pos, e); }
    } else {
      LastBranchKeeps(r);
      if best.Best? { EarlierWithin(f, Effect(r), t, pos, best.end); }
      LastJudged(f, t, LastBranch(r), g, pos, best, e);
      EarlierOrLast(f, Effect(r), t, pos, e);
      if !r.Alt? { forall a: nat ensures !InEarlier(f, Effect(r), t, pos, a) { NoEarlier(f, r, t, pos, a); } }
    }
  }

  lemma {:induction false} MatchWithin(f: Flags, r: Re, t: seq<byte>, pos: nat, e: nat)
    requires InLanguage(f, r, t, pos, e)
    ensures pos <= e <= |t|
  {
  }

  lemma {:induction false} EarlierWithin(f: Flags, r: Re, t: seq<byte>, pos: nat, e: nat)
    requires InEarlier(f, r, t, pos, e)
    ensures pos <= e <= |t|
  {
    if !InLanguage(f, r.a, t, pos, e) { EarlierWithin(f, r.b, t, pos, e); }
  }

  /** `e` is longer than what is returned, the best match of before, and the only match if no loop ends the pattern. */
  ghost predicate Beaten(f: Flags, r: Re, t: seq<byte>, d: nat, best: Best, end: nat, e: nat) {
    && best == Best(end) && end < e < |t|
    && (EndsWell(r, End, NoLoop) ==> forall b: nat | InLanguage(f, Effect(r), t, d, b) :: b == e)
  }

  /** The last alternative, with the longest match of the others found before. */
  lemma {:induction false} LastJudged(f: Flags, t: seq<byte>, r: Re, g: nat, d: nat, best: Best, e: nat)
    requires Simple(r) && Grouped(r) && d <= |t| && EndsWell(r, End, AtomLoop) && Sane(t, Begin(r, g, d, best))
    requires best.Best? ==> best.end <= |t|
    ensures var v := Final(f, t, Begin(r, g, d, best));
      && (best.Best? ==> v.Found? && best.end <= v.end)
      && (InLanguage(f, Effect(r), t, d, e) ==> v.Found? && (e <= v.end || Beaten(f, r, t, d, best, v.end, e)))
  {
    BeginSane(f, t, r, g, d, best);
    AloneJudged(f, t, Begin(r, g, d, best));
    hide Final, Sane, EndsWell, EndsWellK, InLanguage, Acc, Sure;
  }

  lemma {:induction false} NoEarlier(f: Flags, r: Re, t: seq<byte>, pos: nat, e: nat)
    requires !r.Alt?
    ensures !InEarlier(f, Effect(r), t, pos, e)
  {
    NoNewBranch(r, End);
  }

  // ---- A last alternative without choices ----

  predicate QuietK(K: Kont) {
    match K
    case KDone => true
    case KSeq(r, _, k) => Quiet(r) && QuietK(k)
    case KEnd(_, _, _, k) => QuietK(k)
    case _ => false
  }

  lemma {:induction false} QuietNorm(K: Kont)
    requires QuietK(K)
    ensures QuietK(Norm(K))
    decreases Cells(K)
  {
    if !Normal(K) {
      if K.r.Cat? {
        CellsCat(K.r, K.g, K.k);
        assert QuietK(KSeq(K.r.b, K.g + GroupCount(K.r.a), K.k));
        QuietNorm(KSeq(K.r.a, K.g, KSeq(K.r.b, K.g + GroupCount(K.r.a), K.k)));
      } else {
        QuietNorm(K.k);
      }
    }
  }

  /** A thread without choices, with nothing below it, goes on without leaving anything behind. */
  lemma {:induction false} QuietTurn(f: Flags, t: seq<byte>, s: Search)
    requires Sane(t, s) && s.stack == [] && QuietK(s.K) && !s.K.KDone?
    ensures var v := Turn(f, t, s);
      if v.On? then
        && Sane(t, v.s) && Total(t, v.s) < Total(t, s) && v.s.stack == [] && v.s.best == s.best && QuietK(v.s.K)
        && forall e: nat :: Acc(f, t, v.s.K, v.s.d, e) <==> Acc(f, t, s.K, s.d, e)
      else
        forall e: nat :: !Acc(f, t, s.K, s.d, e)
  {
    var K := s.K;
    TurnKeeps(f, t, s);
    TurnDoes(f, t, s);
    hide Acc, Sane, Work;
    match K
    case KEnd(_, _, _, k) =>
      QuietNorm(k);
    case KSeq(r, g, k) =>
      QuietNorm(k);
      if r.Group? {
        assert QuietK(KEnd(r.n, r.inner, s.d, k)) && QuietK(Enter(r, s.d, k));
        QuietNorm(Enter(r, s.d, k));
      }
  }

  lemma {:induction false} QuietJudged(f: Flags, t: seq<byte>, s: Search, e: nat)
    requires Sane(t, s) && s.stack == [] && QuietK(s.K) && Acc(f, t, s.K, s.d, e)
    ensures Final(f, t, s) == Found(if e == |t| || s.best.NoBest? then e else s.best.end)
    decreases Total(t, s)
  {
    if s.K.KDone? {
    } else {
      QuietTurn(f, t, s);
      hide Acc, Sane, Work, Turn;
      QuietJudged(f, t, Turn(f, t, s).s, e);
    }
  }

  lemma {:induction false} QuietBegins(f: Flags, t: seq<byte>, r: Re, g: nat, d: nat, best: Best, e: nat)
    requires Simple(r) && Quiet(r) && d <= |t| && InLanguage(f, Effect(r), t, d, e)
    ensures Sane(t, Begin(r, g, d, best))
    ensures Final(f, t, Begin(r, g, d, best)) == Found(if e == |t| || best.NoBest? then e else best.end)
  {
    BeginSane(f, t, r, g, d, best);
    assert QuietK(KDone);
    QuietNorm(KSeq(r, g, KDone));
    hide Acc, Sane, InLanguage;
    QuietJudged(f, t, Begin(r, g, d, best), e);
  }

  /** It matches in one way at most. */
  lemma {:induction false} QuietUnique(f: Flags, t: seq<byte>, r: Re, d: nat, e: nat, e': nat)
    requires Simple(r) && Quiet(r) && d <= |t| && InLanguage(f, Effect(r), t, d, e) && InLanguage(f, Effect(r), t, d, e')
    ensures e == e'
  {
    QuietBegins(f, t, r, 1, d, NoBest, e);
    QuietBegins(f, t, r, 1, d, NoBest, e');
  }

  /** Its match is missed exactly if it is longer than every match of the others, they have one, and it ends before the
      text. */
  lemma {:induction false} QuietMissed(f: Flags, t: seq<byte>, r: Re, pos: nat, e: nat)
    requires Simple(r) && Branches(r) && pos <= |t| && EndsWell(r, End, AtomLoop) && Sane(t, Begin(r, 1, pos, NoBest))
    requires r.Alt? && Quiet(LastBranch(r)) && InLanguage(f, LastBranch(Effect(r)), t, pos, e)
    ensures var v := Final(f, t, Begin(r, 1, pos, NoBest));
      v.Found? && (v.end < e <==>
        e < |t| && EarlierBelow(f, Effect(r), t, pos, e))
  {
    var s, E := Begin(r, 1, pos, NoBest), Effect(r);
    var best, g := ToLastBranch(f, t, r, 1, pos, NoBest);
    LastBranchKeeps(r);
    MatchWithin(f, LastBranch(E), t, pos, e);
    hide Final, Sane, EndsWell, InLanguage, InEarlier, Begin, Simple, Branches, Grouped, Effect, Quiet;
    if Final(f, t, s) == Found(|t|) {
      WholeIsMatch(f, t, r, pos);
      if InEarlier(f, E, t, pos, |t|) {
        assert e < |t| ==> !EarlierBelow(f, E, t, pos, e);
      } else {
        QuietUnique(f, t, LastBranch(r), pos, e, |t|);
        assert e == |t|;
      }
    } else {
      QuietBegins(f, t, LastBranch(r), g, pos, best, e);
      BeatenBy(f, E, t, pos, best, e);
    }
  }

  /** Being longer than the longest match is being longer than every match. */
  lemma {:induction false} BeatenBy(f: Flags, E: Re, t: seq<byte>, pos: nat, best: Best, e: nat)
    requires BestOfEarlier(f, E, t, pos, NoBest, best)
    ensures best.Best? && best.end < e <==> EarlierBelow(f, E, t, pos, e)
  {
    if best.Best? { assert InEarlier(f, E, t, pos, best.end); }
  }

  lemma {:induction false} WholeIsMatch(f: Flags, t: seq<byte>, r: Re, pos: nat)
    requires Simple(r) && pos <= |t| && Sane(t, Begin(r, 1, pos, NoBest))
    requires Final(f, t, Begin(r, 1, pos, NoBest)) == Found(|t|)
    ensures InEarlier(f, Effect(r), t, pos, |t|) || InLanguage(f, LastBranch(Effect(r)), t, pos, |t|)
  {
    BeginSane(f, t, r, 1, pos, NoBest);
    FoundIsAccepted(f, t, Begin(r, 1, pos, NoBest));
    hide Acc, Final, InLanguage, InEarlier, Effect, Sane;
    EarlierOrLast(f, Effect(r), t, pos, |t|);
  }
}
