/** What a continuation accepts, construct by construct: how the positions it can take the text to are those of the
    continuations that one turn of the matcher leads to. */
module RegexAccept {
  import opened RegexSyntax
  import opened RegexEffect
  import opened RegexKont

  // ---- Groups ----

  lemma {:induction false} GroupAcc(f: Flags, t: seq<byte>, r: Re, g: nat, k: Kont, d: nat, e: nat)
    requires r.Group? && Fits(KSeq(r, g, k)) && d <= |t|
    ensures Acc(f, t, KSeq(r, g, k), d, e) <==> Acc(f, t, Enter(r, d, k), d, e)
  {
    var E := KEnd(r.n, r.inner, d, k);
    var K1 := if r.body.Alt? then KDum(E) else E;
    assert InPlace(r, k) == Group(r.n, r.inner, InPlace(r.body, K1));
    assert forall m: nat | d <= m <= |t| :: Acc(f, t, K1, m, e) <==> Acc(f, t, E, m, e);
    if Acc(f, t, KSeq(r, g, k), d, e) {
      var m := SeqElim(f, t, r, g, k, d, e);
      if k.KTail? && m == d {
        var j := EmptyFirst(f, t, r, k, d, e);
        SeqIntro(f, t, r.body, r.n + 1, K1, d, j, e);
      } else {
        SeqIntro(f, t, r.body, r.n + 1, K1, d, m, e);
      }
    }
    if Acc(f, t, Enter(r, d, k), d, e) {
      var m := SeqElim(f, t, r.body, r.n + 1, K1, d, e);
      if k.KTail? && m == d { TailExit(f, t, k, d, e); }
      SeqIntro(f, t, r, g, k, d, m, e);
    }
  }

  /** A loop that is neither misread nor doomed is any number of iterations. */
  lemma LoopMeans(f: Flags, t: seq<byte>, body: Re, nx: Next, i: nat, j: nat)
    requires i <= j <= |t| && !Misread(body) && !Doomed(body, nx)
    ensures M(f, Effective(Loop(body), nx), t, i, j) <==> Iter(f, Effective(body, Other), t, i, j)
  {
    assert ZeroOk([Star]) && ManyOk([Star]);
  }

  /** A loop can stop at its tail. */
  lemma {:induction false} TailExit(f: Flags, t: seq<byte>, k: Kont, d: nat, e: nat)
    requires k.KTail? && k.body.Group? && d <= |t| && Acc(f, t, k.k, d, e)
    ensures Acc(f, t, k, d, e)
  {
    if !Misread(k.body) {
      LoopMeans(f, t, k.body, SeenK(k.k), d, d);
      assert M(f, InPlace(Loop(k.body), k.k), t, d, d);
    }
  }

  lemma {:induction false} TailElim(f: Flags, t: seq<byte>, k: Kont, d: nat, e: nat) returns (m: nat)
    requires k.KTail? && k.body.Group? && d <= |t| && Acc(f, t, k, d, e)
    ensures d <= m <= |t| && Acc(f, t, k.k, m, e)
    ensures if Misread(k.body) then m == d else Iter(f, Effective(k.body, Other), t, d, m)
  {
    if Misread(k.body) {
      m := d;
    } else {
      m :| d <= m <= |t| && M(f, InPlace(Loop(k.body), k.k), t, d, m) && Acc(f, t, k.k, m, e);
      LoopMeans(f, t, k.body, SeenK(k.k), d, m);
    }
  }

  /** After an empty iteration, the loop either stops or its first non-empty iteration can be taken at once. */
  lemma {:induction false} EmptyFirst(f: Flags, t: seq<byte>, r: Re, k: Kont, d: nat, e: nat) returns (j: nat)
    requires k.KTail? && k.body == r && r.Group? && d <= |t| && M(f, InPlace(r, k), t, d, d) && Acc(f, t, k, d, e)
    ensures d <= j <= |t| && M(f, Effective(r.body, Other), t, d, j)
    ensures if j == d then Acc(f, t, k.k, d, e) else Acc(f, t, k, j, e)
  {
    var i := TailElim(f, t, k, d, e);
    if i == d {
      j := d;
    } else {
      j :| d < j <= i && M(f, Effective(r, Other), t, d, j) && Iter(f, Effective(r, Other), t, j, i);
      LoopMeans(f, t, r, SeenK(k.k), j, i);
      assert M(f, InPlace(Loop(r), k.k), t, j, i);
    }
  }

  /** A group that is opened at `s` accepts from any later place what it would accept if it were opened there. */
  lemma {:induction false} EnteredEarlier(f: Flags, t: seq<byte>, r: Re, g: nat, k: Kont, s: nat, i: nat, e: nat)
    requires r.Group? && Fits(KSeq(r, g, k)) && s <= i <= |t|
    ensures Acc(f, t, KSeq(r, g, k), i, e) <==> Acc(f, t, Enter(r, s, k), i, e)
  {
    if s == i {
      GroupAcc(f, t, r, g, k, s, e);
    } else {
      var E := KEnd(r.n, r.inner, s, k);
      var K1 := if r.body.Alt? then KDum(E) else E;
      assert InPlace(r, k) == Group(r.n, r.inner, InPlace(r.body, K1));
      assert forall m: nat | i <= m <= |t| :: Acc(f, t, K1, m, e) <==> Acc(f, t, k, m, e);
      if Acc(f, t, KSeq(r, g, k), i, e) {
        var m := SeqElim(f, t, r, g, k, i, e);
        SeqIntro(f, t, r.body, r.n + 1, K1, i, m, e);
      }
      if Acc(f, t, Enter(r, s, k), i, e) {
        var m := SeqElim(f, t, r.body, r.n + 1, K1, i, e);
        SeqIntro(f, t, r, g, k, i, m, e);
      }
    }
  }

  // ---- Atoms ----

  lemma {:induction false} AtomAcc(f: Flags, t: seq<byte>, r: Re, g: nat, k: Kont, d: nat, e: nat)
    requires Atom(r) && d <= |t| && Simple(r)
    ensures AtomHas(f, t, r, d) ==> d + Width(r) <= |t|
    ensures Acc(f, t, KSeq(r, g, k), d, e) <==> AtomHas(f, t, r, d) && Acc(f, t, k, d + Width(r), e)
  {
    EffectiveAtom(r, SeenK(k));
    if Acc(f, t, KSeq(r, g, k), d, e) {
      var m := SeqElim(f, t, r, g, k, d, e);
      assert m == d + Width(r);
    }
    if AtomHas(f, t, r, d) && Acc(f, t, k, d + Width(r), e) {
      SeqIntro(f, t, r, g, k, d, d + Width(r), e);
    }
  }

  // ---- Alternatives ----

  lemma {:induction false} JumpsAcc(f: Flags, t: seq<byte>, b: Re, k: Kont, d: nat, e: nat)
    requires d <= |t|
    ensures Acc(f, t, Jumps(b, k), d, e) == Acc(f, t, k, d, e)
  {
    if b.Alt? { JumpsAcc(f, t, b.b, k, d, e); }
  }

  lemma {:induction false} AltAcc(f: Flags, t: seq<byte>, r: Re, g: nat, k: Kont, d: nat, e: nat)
    requires r.Alt? && d <= |t|
    ensures Acc(f, t, KSeq(r, g, k), d, e) <==>
            Acc(f, t, KSeq(r.a, g, Jumps(r.b, k)), d, e) || Acc(f, t, KSeq(r.b, g + GroupCount(r.a), k), d, e)
  {
    var J := Jumps(r.b, k);
    assert InPlace(r, k) == Alt(InPlace(r.a, J), InPlace(r.b, k));
    forall m: nat | d <= m <= |t|
      ensures Acc(f, t, J, m, e) == Acc(f, t, k, m, e)
    {
      JumpsAcc(f, t, r.b, k, m, e);
    }
    hide Acc, InPlace;
    if Acc(f, t, KSeq(r, g, k), d, e) {
      var m := SeqElim(f, t, r, g, k, d, e);
      if M(f, InPlace(r.a, J), t, d, m) {
        SeqIntro(f, t, r.a, g, J, d, m, e);
      } else {
        SeqIntro(f, t, r.b, g + GroupCount(r.a), k, d, m, e);
      }
    }
    if Acc(f, t, KSeq(r.a, g, J), d, e) {
      var m := SeqElim(f, t, r.a, g, J, d, e);
      SeqIntro(f, t, r, g, k, d, m, e);
    }
    if Acc(f, t, KSeq(r.b, g + GroupCount(r.a), k), d, e) {
      var m := SeqElim(f, t, r.b, g + GroupCount(r.a), k, d, e);
      SeqIntro(f, t, r, g, k, d, m, e);
    }
  }

  // ---- Repetitions ----

  lemma NotManyIsZero(ops: seq<Op>)
    requires ops != [] && !ManyOk(ops)
    ensures ZeroOk(ops)
  {
  }

  lemma {:induction false} TailAcc(f: Flags, t: seq<byte>, K: Kont, d: nat, e: nat)
    requires K.KTail? && d <= |t| && !Misread(K.body)
    ensures Acc(f, t, K, d, e) <==> Acc(f, t, KSeq(Loop(K.body), K.g, K.k), d, e)
  {
  }

  /** A repetition stops at once, if it may, or begins with its body. */
  lemma {:induction false} RepAcc(f: Flags, t: seq<byte>, r: Re, g: nat, k: Kont, d: nat, e: nat)
    requires r.Rep? && r.ops != [] && d <= |t| && !(ManyOk(r.ops) && Doomed(r.body, SeenK(k)))
    ensures Acc(f, t, KSeq(r, g, k), d, e) <==>
            (ZeroOk(r.ops) && Acc(f, t, k, d, e)) || Acc(f, t, KSeq(r.body, g, AfterBody(r, g, k)), d, e)
  {
    if !ManyOk(r.ops) {
      NotManyIsZero(r.ops);
      OnceAcc(f, t, r, r.ops, g, k, k, d, e);
    } else if Misread(r.body) {
      MisreadAcc(f, t, r, g, k, d, e);
    } else {
      ManyAcc(f, t, r, g, k, d, e);
    }
  }

  /** At most one iteration, with `k1` behind the body. */
  lemma {:induction false} OnceAcc(f: Flags, t: seq<byte>, r: Re, ops: seq<Op>, g: nat, k: Kont, k1: Kont, d: nat, e: nat)
    requires r.Rep? && d <= |t| && !ManyOk(ops) && ZeroOk(ops)
    requires InPlace(r, k) == Rep(InPlace(r.body, k1), ops)
    requires forall m: nat | m <= |t| :: Acc(f, t, k1, m, e) <==> Acc(f, t, k, m, e)
    ensures Acc(f, t, KSeq(r, g, k), d, e) <==> Acc(f, t, k, d, e) || Acc(f, t, KSeq(r.body, g, k1), d, e)
  {
    hide Acc, InPlace;
    if Acc(f, t, KSeq(r, g, k), d, e) {
      var m := SeqElim(f, t, r, g, k, d, e);
      if m != d || M(f, InPlace(r.body, k1), t, d, m) { SeqIntro(f, t, r.body, g, k1, d, m, e); }
    }
    if Acc(f, t, k, d, e) { SeqIntro(f, t, r, g, k, d, d, e); }
    if Acc(f, t, KSeq(r.body, g, k1), d, e) {
      var m := SeqElim(f, t, r.body, g, k1, d, e);
      SeqIntro(f, t, r, g, k, d, m, e);
    }
  }

  /** A misread loop takes its body once. */
  lemma {:induction false} MisreadAcc(f: Flags, t: seq<byte>, r: Re, g: nat, k: Kont, d: nat, e: nat)
    requires r.Rep? && r.ops != [] && d <= |t| && ManyOk(r.ops) && Misread(r.body)
    ensures Acc(f, t, KSeq(r, g, k), d, e) <==>
            (ZeroOk(r.ops) && Acc(f, t, k, d, e)) || Acc(f, t, KSeq(r.body, g, KTail(r.body, g, k)), d, e)
  {
    var k1 := KTail(r.body, g, k);
    assert forall m: nat | m <= |t| :: Acc(f, t, k1, m, e) <==> Acc(f, t, k, m, e);
    if ZeroOk(r.ops) {
      assert !ManyOk([Quest]) && ZeroOk([Quest]);
      OnceAcc(f, t, r, [Quest], g, k, k1, d, e);
    } else {
      assert InPlace(r, k) == InPlace(r.body, k1);
      hide Acc, InPlace;
      if Acc(f, t, KSeq(r, g, k), d, e) {
        var m := SeqElim(f, t, r, g, k, d, e);
        SeqIntro(f, t, r.body, g, k1, d, m, e);
      }
      if Acc(f, t, KSeq(r.body, g, k1), d, e) {
        var m := SeqElim(f, t, r.body, g, k1, d, e);
        SeqIntro(f, t, r, g, k, d, m, e);
      }
    }
  }

  lemma {:induction false} ManyAcc(f: Flags, t: seq<byte>, r: Re, g: nat, k: Kont, d: nat, e: nat)
    requires r.Rep? && d <= |t| && ManyOk(r.ops) && !Misread(r.body) && !Doomed(r.body, SeenK(k))
    ensures Acc(f, t, KSeq(r, g, k), d, e) <==>
            (ZeroOk(r.ops) && Acc(f, t, k, d, e)) || Acc(f, t, KSeq(r.body, g, KTail(r.body, g, k)), d, e)
  {
    var k1, b := KTail(r.body, g, k), Effective(r.body, Other);
    assert InPlace(r, k) == Rep(b, r.ops) && InPlace(r.body, k1) == b;
    if Acc(f, t, KSeq(r, g, k), d, e) {
      var m := SeqElim(f, t, r, g, k, d, e);
      ManyForth(f, t, r, g, k, d, m, e);
    }
    if ZeroOk(r.ops) && Acc(f, t, k, d, e) { SeqIntro(f, t, r, g, k, d, d, e); }
    if Acc(f, t, KSeq(r.body, g, k1), d, e) {
      var i := SeqElim(f, t, r.body, g, k1, d, e);
      var m: nat :| i <= m <= |t| && M(f, InPlace(Loop(r.body), k), t, i, m) && Acc(f, t, k, m, e);
      LoopMeans(f, t, r.body, SeenK(k), i, m);
      IterCons(f, b, t, d, i, m);
      SeqIntro(f, t, r, g, k, d, m, e);
    }
  }

  lemma {:induction false} ManyForth(f: Flags, t: seq<byte>, r: Re, g: nat, k: Kont, d: nat, m: nat, e: nat)
    requires r.Rep? && ManyOk(r.ops) && !Misread(r.body) && !Doomed(r.body, SeenK(k))
    requires d <= m <= |t| && M(f, InPlace(r, k), t, d, m) && Acc(f, t, k, m, e)
    ensures (ZeroOk(r.ops) && Acc(f, t, k, d, e)) || Acc(f, t, KSeq(r.body, g, KTail(r.body, g, k)), d, e)
  {
    var k1, b := KTail(r.body, g, k), Effective(r.body, Other);
    if !(ZeroOk(r.ops) && d == m) {
      var i: nat;
      if ZeroOk(r.ops) {
        assert Iter(f, b, t, d, m);
        i :| d < i <= m && M(f, b, t, d, i) && Iter(f, b, t, i, m);
      } else {
        i :| d <= i <= m && M(f, b, t, d, i) && Iter(f, b, t, i, m);
      }
      LoopMeans(f, t, r.body, SeenK(k), i, m);
      assert M(f, InPlace(Loop(r.body), k), t, i, m);
      assert Acc(f, t, k1, i, e);
      SeqIntro(f, t, r.body, g, k1, d, i, e);
    }
  }

  // ---- Loops that give nothing back ----

  /** A loop over one character, a dot or a set whose jump back pops the failure point of every iteration. */
  predicate Possessive(K: Kont) {
    K.KSeq? && K.r.Rep? && ManyOk(K.r.ops) && Atom(K.r.body) && Pops(K.r.body, SeenK(K.k))
  }

  /** The loop is to be gone through again. */
  function Again(K: Kont): Kont
    requires K.KSeq? && K.r.Rep?
  {
    KSeq(Loop(K.r.body), K.g, K.k)
  }

  /** Where such a loop stops, what follows accepts as much as the loop. */
  lemma {:induction false} StopAcc(f: Flags, t: seq<byte>, K: Kont, d: nat, e: nat)
    requires Possessive(K) && Simple(K.r) && d <= |t| && !AtomHas(f, t, K.r.body, d)
    ensures Acc(f, t, K, d, e) <==> ZeroOk(K.r.ops) && Acc(f, t, K.k, d, e)
  {
    var b, g, k := K.r.body, K.g, K.k;
    if Doomed(b, SeenK(k)) {
      DoomedAcc(f, t, K, d, e);
      if Acc(f, t, k, d, e) {
        CharSeenK(f, t, k, d, e);
        DoomedStops(f, t, b, SeenK(k), d);
      }
    } else {
      RepAcc(f, t, K.r, g, k, d, e);
      AtomAcc(f, t, b, g, KTail(b, g, k), d, e);
    }
  }

  lemma {:induction false} DoomedAcc(f: Flags, t: seq<byte>, K: Kont, d: nat, e: nat)
    requires Possessive(K) && Doomed(K.r.body, SeenK(K.k)) && d <= |t|
    ensures !Acc(f, t, K, d, e)
  {
    assert InPlace(K.r, K.k) == NOTHING;
    if Acc(f, t, K, d, e) { var m := SeqElim(f, t, K.r, K.g, K.k, d, e); }
  }

  /** Where such a loop goes on, what it accepts is what it accepts after the next character; at the end of the pattern,
      also the present position. */
  lemma {:induction false} ScanAcc(f: Flags, t: seq<byte>, K: Kont, d: nat, e: nat)
    requires Possessive(K) && Simple(K.r) && d < |t| && AtomHas(f, t, K.r.body, d)
    ensures Acc(f, t, K, d, e) <==>
            (ZeroOk(K.r.ops) && SeenK(K.k).End? && e == d) || Acc(f, t, Again(K), d + 1, e)
    ensures SeenK(K.k).End? ==> Acc(f, t, Again(K), d + 1, d + 1)
  {
    var b, g, k := K.r.body, K.g, K.k;
    assert ZeroOk([Star]) && ManyOk([Star]);
    if Doomed(b, SeenK(k)) {
      DoomedAcc(f, t, K, d, e);
      DoomedAcc(f, t, Again(K), d + 1, e);
    } else {
      RepAcc(f, t, K.r, g, k, d, e);
      AtomAcc(f, t, b, g, KTail(b, g, k), d, e);
      TailAcc(f, t, KTail(b, g, k), d + 1, e);
      if SeenK(k).End? {
        EndSeenK(f, t, k, d, e);
        EndSeenK(f, t, k, d + 1, d + 1);
        RepAcc(f, t, Loop(b), g, k, d + 1, d + 1);
      } else if Acc(f, t, k, d, e) {
        CharSeenK(f, t, k, d, e);
        PopIsRight(f, t, b, SeenK(k), d);
      }
    }
  }
}
