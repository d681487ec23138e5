/** How a pattern ends, which decides whether `re_match_2` finds a match of the whole rest of the text, and the longest.
    The condition can be checked before matching, and every turn carries it along. */
module RegexProperties {
  import opened RegexSyntax
  import opened RegexEffect
  import opened RegexKont
  import opened RegexAccept
  import opened RegexThreads

  /** What kind of loop may end the pattern: none, one over a character, a dot or a set, or one whose last failure point
      is its own. */
  datatype Ending = NoLoop | AtomLoop | OwnLoop

  predicate Allowed(body: Re, ending: Ending) {
    match ending
    case NoLoop => false
    case AtomLoop => Atom(body)
    case OwnLoop => Quiet(body) || AltBody(body)
  }

  /** Every loop behind which `nx` is the end of the pattern is of that kind. */
  predicate EndsWell(r: Re, nx: Next, ending: Ending) {
    match r
    case Group(_, _, body) => EndsWell(body, Inside(body, nx), ending)
    case Rep(body, ops) =>
      if ManyOk(ops) then (nx.End? ==> Allowed(body, ending)) && EndsWell(body, Other, ending)
      else EndsWell(body, nx, ending)
    case Cat(a, b) => EndsWell(a, Seen(b, nx), ending) && EndsWell(b, nx, ending)
    case Alt(a, b) => EndsWell(a, Other, ending) && EndsWell(b, nx, ending)
    case _ => true
  }

  predicate EndsWellK(K: Kont, ending: Ending) {
    match K
    case KDone => true
    case KSeq(r, _, k) => EndsWell(r, SeenK(k), ending) && EndsWellK(k, ending)
    case KEnd(_, _, _, k) => EndsWellK(k, ending)
    case KTail(body, _, k) =>
      (SeenK(k).End? ==> Allowed(body, ending)) && EndsWell(body, Other, ending) && EndsWellK(k, ending)
    case KJump(k) => EndsWellK(k, ending)
    case KDum(k) => EndsWellK(k, ending)
  }

  /** No loop at the end is more than a loop over a character, which is more than its own. */
  lemma {:induction false} EndsWeaker(r: Re, nx: Next)
    ensures EndsWell(r, nx, NoLoop) ==> EndsWell(r, nx, AtomLoop)
    ensures EndsWell(r, nx, AtomLoop) ==> EndsWell(r, nx, OwnLoop)
  {
    match r
    case Group(_, _, body) => EndsWeaker(body, Inside(body, nx));
    case Rep(body, ops) => EndsWeaker(body, if ManyOk(ops) then Other else nx);
    case Cat(a, b) => EndsWeaker(a, Seen(b, nx)); EndsWeaker(b, nx);
    case Alt(a, b) => EndsWeaker(a, Other); EndsWeaker(b, nx);
    case _ =>
  }

  /** The last item of the pattern is a literal, a dot or a set, or a repetition of one. */
  predicate EndsPlainly(r: Re) {
    r.Cat? && (Atom(r.b) || (r.b.Rep? && Atom(r.b.body)))
  }

  lemma {:induction false} NotAtEnd(r: Re, nx: Next, ending: Ending)
    requires !nx.End?
    ensures EndsWell(r, nx, ending) && !Seen(r, nx).End?
  {
    match r
    case Group(_, _, body) => NotAtEnd(body, Inside(body, nx), ending);
    case Rep(body, ops) => NotAtEnd(body, if ManyOk(ops) then Other else nx, ending);
    case Cat(a, b) => NotAtEnd(b, nx, ending); NotAtEnd(a, Seen(b, nx), ending);
    case Alt(a, b) => NotAtEnd(a, Other, ending); NotAtEnd(b, nx, ending);
    case _ =>
  }

  /** Such a pattern ends well. */
  lemma {:induction false} PlainEnd(r: Re)
    requires EndsPlainly(r)
    ensures EndsWell(r, End, AtomLoop) && EndsWell(r, End, OwnLoop)
  {
    NotAtEnd(r.a, Seen(r.b, End), AtomLoop);
    if r.b.Rep? { assert Seen(r.b, End).Other? && EndsWell(r.b, End, AtomLoop); }
    EndsWeaker(r, End);
  }

  lemma {:induction false} EndsNorm(K: Kont, ending: Ending)
    requires EndsWellK(K, ending)
    ensures EndsWellK(Norm(K), ending)
    decreases Cells(K)
  {
    if !Normal(K) {
      if K.r.Cat? {
        CellsCat(K.r, K.g, K.k);
        var K1 := KSeq(K.r.b, K.g + GroupCount(K.r.a), K.k);
        assert EndsWellK(K1, ending) && SeenK(K1) == Seen(K.r.b, SeenK(K.k));
        EndsNorm(KSeq(K.r.a, K.g, K1), ending);
      } else {
        EndsNorm(K.k, ending);
      }
    }
  }

  lemma {:induction b} EndsJumps(b: Re, k: Kont, ending: Ending)
    requires EndsWellK(k, ending)
    ensures EndsWellK(Jumps(b, k), ending) && SeenK(Jumps(b, k)).Other?
  {
  }

  lemma {:induction false} EndsReaches(K: Kont, K0: Kont, ending: Ending)
    requires EndsWellK(K, ending) && Reaches(K, K0)
    ensures EndsWellK(K0, ending)
  {
    assert ManyOk([Star]);
    if K.KSeq? {
      var r, k := K.r, K.k;
      if r.Group? && K0 != k {
        var s: nat :| K0 == Enter(r, s, k);
        var e := KEnd(r.n, r.inner, s, k);
        assert EndsWellK(e, ending) && EndsWellK(KDum(e), ending) && SeenK(e) == SeenK(k) && SeenK(KDum(e)).Other?;
      }
      if r.Alt? { EndsJumps(r.b, k, ending); }
      if r.Rep? { assert EndsWellK(AfterBody(r, K.g, k), ending); }
    }
  }

  /** Every thread, running or waiting. */
  predicate EndWell(s: Search, ending: Ending) {
    EndsWellK(s.K, ending) && forall x :: x in s.stack && x.Wait? ==> EndsWellK(x.K, ending)
  }

  lemma {:induction false} EndsSucc(K: Kont, K': Kont, ending: Ending)
    requires EndsWellK(K, ending) && Succ(K, K')
    ensures EndsWellK(K', ending)
  {
    var K0 :| Reaches(K, K0) && K' == Norm(K0);
    EndsReaches(K, K0, ending);
    EndsNorm(K0, ending);
  }

  lemma {:induction false} EndsKept(s: Search, s': Search, ending: Ending)
    requires EndWell(s, ending) && Heirs(s, s')
    ensures EndWell(s', ending)
  {
    if Succ(s.K, s'.K) { EndsSucc(s.K, s'.K, ending); }
    forall x | x in s'.stack && x.Wait?
      ensures EndsWellK(x.K, ending)
    {
      if x !in s.stack { EndsSucc(s.K, x.K, ending); }
    }
  }
}
