/** What `re_match_2` returns, for every pattern, every text and every start. */
module RegexMatch {
  import opened RegexSyntax
  import opened RegexCode
  import opened RegexEffect
  import opened RegexMachine
  import opened RegexKont
  import opened RegexThreads
  import opened RegexProperties
  import opened RegexOutcome
  import opened RegexLongest
  import opened RegexAlternatives
  import opened RegexMoves
  import opened RegexFollow

  /** The patterns of the modelled fragment, as the compiler delivers them. */
  predicate Compiled(r: Re) {
    Shaped(r) && !HasInterval(r) && Numbered(r, 1) && GroupCount(r) <= 255 && |Code(r)| < 32768
  }

  // ---- Runs ----

  /** The machine, started at `pos`, halts with outcome `o`. */
  ghost predicate Result(f: Flags, t: seq<byte>, c: seq<byte>, pos: nat, o: Outcome) {
    !o.Running? && exists n: nat :: Run(f, t, c, Start(pos), n) == o
  }

  lemma {:induction false} RunStays(f: Flags, t: seq<byte>, c: seq<byte>, m: Machine, n: nat, n': nat)
    requires n <= n' && !Run(f, t, c, m, n).Running?
    ensures Run(f, t, c, m, n') == Run(f, t, c, m, n)
    decreases n
  {
    var o := Step(f, t, c, m);
    if o.Running? { RunStays(f, t, c, o.m, n - 1, n' - 1); }
  }

  lemma ResultUnique(f: Flags, t: seq<byte>, c: seq<byte>, pos: nat, o: Outcome, o': Outcome)
    requires Result(f, t, c, pos, o) && Result(f, t, c, pos, o')
    ensures o == o'
  {
    var n: nat :| Run(f, t, c, Start(pos), n) == o;
    var n': nat :| Run(f, t, c, Start(pos), n') == o';
    if n <= n' { RunStays(f, t, c, Start(pos), n, n'); } else { RunStays(f, t, c, Start(pos), n', n); }
  }

  /** The machine's outcome for the end of a search. */
  function OutcomeOf(v: Verdict): Outcome
    requires !v.On?
  {
    if v.Found? then Matched(v.end) else NoMatch
  }

  /** From a state that follows a search, the machine halts as the search ends. */
  lemma {:induction false} RunFollows(f: Flags, c: seq<byte>, t: seq<byte>, m: Machine, s: Search, lag: nat) returns (n: nat)
    requires Follows(f, c, t, m, s, lag) && Sane(t, s) && |c| < 32768
    ensures Run(f, t, c, m, n) == OutcomeOf(Final(f, t, s))
    decreases 3 * Total(t, s) + lag
  {
    var o := Step(f, t, c, m);
    var s', lag' := StepFollows(f, c, t, m, s, lag);
    hide Step, Follows, Sane, Total, Turn;
    if o.Running? {
      n := RunFollows(f, c, t, o.m, s', lag');
      n := n + 1;
    } else {
      n := 1;
      assert Run(f, t, c, m, 1) == o;
    }
  }

  /** The first thread of a match. */
  function First(r: Re, pos: nat): Search {
    Begin(r, 1, pos, NoBest)
  }

  lemma {:induction false} ShapedGrouped(r: Re)
    ensures Shaped(r) ==> Branches(r)
    ensures ShapedCat(r) || ShapedItem(r) ==> Grouped(r)
  {
    assert !r.Alt? ==> (Shaped(r) <==> ShapedCat(r));
    assert !r.Cat? ==> (ShapedCat(r) <==> ShapedItem(r));
    assert !r.Alt? ==> (Branches(r) <==> Grouped(r));
    match r
    case Group(_, _, body) => ShapedGrouped(body);
    case Rep(body, _) => ShapedGrouped(body);
    case Interval(body, _, _) => ShapedGrouped(body);
    case Cat(a, b) => ShapedGrouped(a); ShapedGrouped(b);
    case Alt(a, b) => ShapedGrouped(a); ShapedGrouped(b);
    case _ =>
  }

  lemma {:induction false} Started(f: Flags, r: Re, t: seq<byte>, pos: nat)
    requires Compiled(r) && pos <= |t|
    ensures Simple(r) && Branches(r) && |Code(r)| < 32768
    ensures Sane(t, First(r, pos)) && Follows(f, Code(r), t, Start(pos), First(r, pos), 2)
  {
    ShapedParts(r);
    ShapedGrouped(r);
    var c, m, K := Code(r), Start(pos), KSeq(r, 1, KDone);
    assert Fits(KDone) && QuietTail(KDone).KDone? && !AltEnd(KDone) && Ordered(KDone) && NoneOpen(KDone);
    assert Simple(r) && At(c, 0, c) && Lay(c, |c|, KDone);
    assert Lay(c, 0, K) && Fits(K) && Ordered(K) && RegsTrack(K, m.low, m.high, m.regs, pos);
    BeginSane(f, t, r, 1, pos, NoBest);
    GoesAbreast(c, t, K, m, First(r, pos));
  }

  // ---- The matcher ----

  /** What is in effect matched is in the pattern's language. */
  lemma {:induction false} EffectInLanguage(f: Flags, r: Re, t: seq<byte>, pos: nat, e: nat)
    requires InLanguage(f, Effect(r), t, pos, e)
    ensures InLanguage(f, r, t, pos, e)
  {
    PositionsAreWords(f, Effect(r), t, pos, e);
    EffectIsPart(f, r, End, t, pos, e);
    PositionsAreWords(f, r, t, pos, e);
  }

  /** The matcher on a compiled pattern, for every text and start: it halts; what it returns is in the language, even of the
      pattern that is in effect matched; it finds a match exactly if that has one; and if no loop ends the pattern but one
      with its own failure point on top, it finds a match up to the end of the text whenever there is one. */
  lemma {:induction false} MatcherIsRight(f: Flags, r: Re, t: seq<byte>, pos: nat) returns (o: Outcome)
    requires Compiled(r) && pos <= |t|
    ensures Result(f, t, Code(r), pos, o) && (o.Matched? || o.NoMatch?)
    ensures o.Matched? ==> InLanguage(f, Effect(r), t, pos, o.end) && InLanguage(f, r, t, pos, o.end)
    ensures o.Matched? <==> exists e: nat :: InLanguage(f, Effect(r), t, pos, e)
    ensures EndsWell(r, End, OwnLoop) && InLanguage(f, Effect(r), t, pos, |t|) ==> o == Matched(|t|)
    ensures Exact(r) ==> (o.Matched? <==> exists e: nat :: InLanguage(f, r, t, pos, e))
  {
    var s := First(r, pos);
    Started(f, r, t, pos);
    var n := RunFollows(f, Code(r), t, Start(pos), s, 2);
    o := OutcomeOf(Final(f, t, s));
    BeginSane(f, t, r, 1, pos, NoBest);
    FoundIsAccepted(f, t, s);
    hide Run, Lang, Acc, Final, Follows, Sane, EndsWell, EndsWellK, Code, Effect;
    assert forall e: nat :: Cover(f, t, s, 0, e) <==> InLanguage(f, Effect(r), t, pos, e);
    if o.Matched? { EffectInLanguage(f, r, t, pos, o.end); }
    if EndsWell(r, End, OwnLoop) && InLanguage(f, Effect(r), t, pos, |t|) { EndIsFound(f, t, s); }
    if Exact(r) { ExactIsClean(r, End); assert Effect(r) == r by { EffectIs(r); } }
  }

  lemma EffectIs(r: Re)
    ensures Effect(r) == Effective(r, End)
  {
  }

  /** It is right about whether there is a match exactly where the pattern and what is in effect matched agree. */
  lemma {:induction false} RightWhereEffectAgrees(f: Flags, r: Re, t: seq<byte>, pos: nat, o: Outcome)
    requires Compiled(r) && pos <= |t| && Result(f, t, Code(r), pos, o)
    ensures (o.Matched? <==> exists e: nat :: InLanguage(f, r, t, pos, e)) <==>
            ((exists e: nat :: InLanguage(f, Effect(r), t, pos, e)) <==> exists e: nat :: InLanguage(f, r, t, pos, e))
  {
    hide Code, InLanguage, Effect, Compiled, Result;
    var o' := MatcherIsRight(f, r, t, pos);
    ResultUnique(f, t, Code(r), pos, o, o');
  }

  /** The longest match is found, if no loop ends the pattern but over a character, a dot or a set; only through
      alternatives at the top can one be missed, and it is then of the last of them (see `Missed`). */
  lemma {:induction false} LongestMatch(f: Flags, r: Re, t: seq<byte>, pos: nat, o: Outcome, e: nat)
    requires Compiled(r) && pos <= |t| && Result(f, t, Code(r), pos, o) && EndsWell(r, End, AtomLoop)
    requires InLanguage(f, Effect(r), t, pos, e)
    ensures o.Matched? && (e <= o.end || (r.Alt? && Missed(f, r, t, pos, o.end, e)))
  {
    OutcomeIsFinal(f, r, t, pos, o);
    Started(f, r, t, pos);
    hide Code, Run, Lang, Final, Follows, Sane, EndsWell, Effect, Compiled, Simple;
    LongestFound(f, t, r, pos, e);
  }

  /** The longest match, said of the pattern alone: if no `*` or `+` follows a full set or a group with byte 5 five bytes before
      its end, and the pattern ends in a character or in a repetition of one, the matcher returns the longest match there
      is, and none only if there is none. */
  lemma {:induction false} LongestOfPlain(f: Flags, r: Re, t: seq<byte>, pos: nat, o: Outcome, e: nat)
    requires Compiled(r) && pos <= |t| && Result(f, t, Code(r), pos, o) && Exact(r) && EndsPlainly(r)
    requires InLanguage(f, r, t, pos, e)
    ensures o.Matched? && e <= o.end && InLanguage(f, r, t, pos, o.end)
  {
    hide Code, InLanguage, Compiled, Result, EndsWell, Effect, Missed;
    PlainEnd(r);
    ExactIsClean(r, End);
    EffectIs(r);
    LongestMatch(f, r, t, pos, o, e);
    var o' := MatcherIsRight(f, r, t, pos);
    ResultUnique(f, t, Code(r), pos, o, o');
  }

  lemma {:induction false} OutcomeIsFinal(f: Flags, r: Re, t: seq<byte>, pos: nat, o: Outcome)
    requires Compiled(r) && pos <= |t| && Result(f, t, Code(r), pos, o)
    ensures Sane(t, First(r, pos)) && o == OutcomeOf(Final(f, t, First(r, pos)))
  {
    Started(f, r, t, pos);
    var n := RunFollows(f, Code(r), t, Start(pos), First(r, pos), 2);
    hide Code, Run, Final, Follows, Sane, Compiled, Simple;
    assert Result(f, t, Code(r), pos, OutcomeOf(Final(f, t, First(r, pos))));
    ResultUnique(f, t, Code(r), pos, o, OutcomeOf(Final(f, t, First(r, pos))));
  }

  /** If the last alternative has no choice in it, its match is missed exactly if it does not reach the end of the text, the
      others have a match, and all of theirs are shorter. */
  lemma {:induction false} MissedExactly(f: Flags, r: Re, t: seq<byte>, pos: nat, o: Outcome, e: nat)
    requires Compiled(r) && pos <= |t| && Result(f, t, Code(r), pos, o) && EndsWell(r, End, AtomLoop)
    requires r.Alt? && Quiet(LastBranch(r)) && InLanguage(f, LastBranch(Effect(r)), t, pos, e)
    ensures o.Matched? && (o.end < e <==> e < |t| && EarlierBelow(f, Effect(r), t, pos, e))
  {
    OutcomeIsFinal(f, r, t, pos, o);
    Started(f, r, t, pos);
    hide Code, Run, Lang, Final, Follows, Sane, EndsWell, Effect, Compiled, Simple, Quiet;
    QuietMissed(f, t, r, pos, e);
  }
}
