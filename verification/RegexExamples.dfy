/** Families of patterns on which the matcher does not do what POSIX extended regular expressions promise. */
module RegexExamples {
  import opened RegexSyntax
  import opened RegexLaws
  import opened RegexCode
  import opened RegexEffect
  import opened RegexMachine
  import opened RegexKont
  import opened RegexAccept
  import opened RegexThreads
  import opened RegexProperties
  import opened RegexAlternatives
  import opened RegexMatch

  // ---- Alternatives ----

  /** With alternatives the longest match can be missed: accepting with an empty failure stack goes back to the best
      match so far, even if the match just found is longer. So `s|su` on a text that goes on after `su` matches `s`. */
  lemma {:induction false} LongestAlternativeMissed(f: Flags, s: seq<byte>, u: seq<byte>, t: seq<byte>)
    requires s != [] && u != [] && |s + u| <= 255 && |s + u| < |t| && t[..|s + u|] == s + u
    ensures var r := Alt(Lit(s), Lit(s + u));
      && Compiled(r) && Clean(r) && EndsWell(r, End, NoLoop)
      && Result(f, t, Code(r), 0, Matched(|s|)) && InLanguage(f, r, t, 0, |s + u|)
  {
    var r := Alt(Lit(s), Lit(s + u));
    assert ShapedItem(Lit(s)) && ShapedItem(Lit(s + u)) && ShapedCat(Lit(s)) && ShapedCat(Lit(s + u));
    assert Shaped(Lit(s + u)) && Shaped(r);
    LeafPiece(Lit(s), 1);
    LeafPiece(Lit(s + u), 1);
    assert |Code(Lit(s))| == 2 + |s| && |Code(Lit(s + u))| == 2 + |s + u|;
    assert |Code(r)| == 10 + |s| + |s + u| && GroupCount(r) == 0 && Numbered(r, 1) && !HasInterval(r);
    assert EndsWell(Lit(s), Other, NoLoop) && EndsWell(Lit(s + u), End, NoLoop) && EndsWell(r, End, NoLoop);
    EndsWeaker(r, End);
    assert Effective(Lit(s), Other) == Lit(s) && Effective(Lit(s + u), End) == Lit(s + u) && Effect(r) == r;
    assert Quiet(LastBranch(r));
    LiteralsOnly(f, s, u, t);
    var o := MatcherIsRight(f, r, t, 0);
    hide InLanguage, Result, Code, EarlierBelow, InEarlier, Compiled;
    MissedExactly(f, r, t, 0, o, |s + u|);
  }

  lemma {:induction false} LiteralsOnly(f: Flags, s: seq<byte>, u: seq<byte>, t: seq<byte>)
    requires s != [] && u != [] && |s + u| < |t| && t[..|s + u|] == s + u
    ensures var r := Alt(Lit(s), Lit(s + u));
      && (forall e: nat :: InLanguage(f, r, t, 0, e) <==> e == |s| || e == |s + u|)
      && InLanguage(f, LastBranch(r), t, 0, |s + u|) && EarlierBelow(f, r, t, 0, |s + u|)
  {
    var r := Alt(Lit(s), Lit(s + u));
    assert t[0..|s|] == t[..|s + u|][..|s|] == s && t[0..|s + u|] == s + u;
    forall e: nat
      ensures InLanguage(f, r, t, 0, e) <==> e == |s| || e == |s + u|
      ensures InEarlier(f, r, t, 0, e) <==> e == |s|
    {
      LitAt(f, t, s, e);
      LitAt(f, t, s + u, e);
      EarlierOrLast(f, r, t, 0, e);
      assert !InEarlier(f, Lit(s + u), t, 0, e);
    }
    assert InEarlier(f, r, t, 0, |s|);
  }

  lemma {:induction false} LitAt(f: Flags, t: seq<byte>, s: seq<byte>, e: nat)
    requires |s| <= |t| && t[0..|s|] == s
    ensures InLanguage(f, Lit(s), t, 0, e) <==> e == |s|
  {
  }

  // ---- The shape of the other examples ----

  /** One item with `n` groups, numbered from `g`. */
  predicate Piece(r: Re, g: nat, n: nat) {
    ShapedItem(r) && !HasInterval(r) && Numbered(r, g) && GroupCount(r) == n
  }

  /** A concatenation of such items. */
  predicate Pieces(r: Re, g: nat, n: nat) {
    Shaped(r) && ShapedCat(r) && !r.Alt? && !HasInterval(r) && Numbered(r, g) && GroupCount(r) == n
  }

  lemma {:induction false} LeafPiece(r: Re, g: nat)
    requires (r.Lit? && 1 <= |r.s| <= 255) || (r.Set? && |r.bits| <= 32)
    ensures Piece(r, g, 0) && Pieces(r, g, 0)
  {
  }

  lemma {:induction false} RepPiece(b: Re, op: Op, g: nat, n: nat)
    requires Piece(b, g, n) && Repeatable(b)
    ensures Piece(Rep(b, [op]), g, n) && Pieces(Rep(b, [op]), g, n)
  {
  }

  lemma {:induction false} GroupPiece(b: Re, g: nat, n: nat)
    requires Pieces(b, g + 1, n)
    ensures Piece(Group(g, n, b), g, n + 1) && Pieces(Group(g, n, b), g, n + 1) && Repeatable(Group(g, n, b))
  {
  }

  lemma {:induction false} CatPieces(a: Re, b: Re, g: nat, n: nat, m: nat)
    requires Pieces(a, g, n) && Piece(b, g + n, m)
    ensures Pieces(Cat(a, b), g, n + m)
  {
    hide Shaped, ShapedCat, ShapedItem, HasInterval, Numbered, GroupCount;
    CatShaped(a, b);
    CatCounts(a, b, g);
  }

  lemma {:induction false} CatShaped(a: Re, b: Re)
    ensures ShapedCat(Cat(a, b)) == (ShapedCat(a) && ShapedItem(b)) && Shaped(Cat(a, b)) == ShapedCat(Cat(a, b))
  {
    hide ShapedItem;
  }

  lemma {:induction false} CatCounts(a: Re, b: Re, g: nat)
    ensures HasInterval(Cat(a, b)) == (HasInterval(a) || HasInterval(b)) && GroupCount(Cat(a, b)) == GroupCount(a) + GroupCount(b)
    ensures Numbered(Cat(a, b), g) == (Numbered(a, g) && Numbered(b, g + GroupCount(a)))
  {
  }

  /** `body*x` */
  function ThenLiteral(body: Re, x: byte): Re {
    Cat(Rep(body, [Star]), Lit([x]))
  }

  lemma {:induction false} ThenLiteralPieces(body: Re, x: byte, n: nat)
    requires Piece(body, 1, n) && Repeatable(body)
    ensures Pieces(ThenLiteral(body, x), 1, n)
  {
    RepPiece(body, Star, 1, n);
    LeafPiece(Lit([x]), 1 + n);
    CatPieces(Rep(body, [Star]), Lit([x]), 1, n, 0);
  }

  lemma {:induction false} ThenLiteralCode(body: Re, x: byte)
    ensures |Code(ThenLiteral(body, x))| == |Code(body)| + 9
  {
    assert ZeroOk([Star]) && ManyOk([Star]);
    assert |Code(Lit([x]))| == 3;
  }

  // ---- A set whose bitmap takes all 32 bytes ----

  /** A match can be missed: narrowed to a byte, the size of the bitmap is 0, so the set seems not to hold `ch`, and the
      failure point that would let the loop give back the last `ch` is popped. */
  lemma {:induction false} FullSetMissesMatch(f: Flags, bits: seq<byte>, ch: byte)
    requires |bits| == 32 && InMap(bits, ch)
    ensures var r := ThenLiteral(Set(false, bits), ch);
      Compiled(r) && Result(f, [ch], Code(r), 0, NoMatch) && InLanguage(f, r, [ch], 0, 1)
  {
    var x := Set(false, bits);
    var r := ThenLiteral(x, ch);
    LeafPiece(x, 1);
    ThenLiteralPieces(x, ch, 0);
    ThenLiteralCode(x, ch);
    assert |Code(x)| == 34;
    hide Code;
    var o := MatcherIsRight(f, r, [ch], 0);
    DoomedEffect(x, ch);
    forall e: nat ensures !InLanguage(f, Effect(r), [ch], 0, e) { NothingFirst(f, Lit([ch]), [ch], 0, e); }
    NoIteration(f, x);
    assert [ch][0..1][..0] == [] && [ch][0..1][0..] == [ch];
    assert Lang(f, Lit([ch]), [ch]);
  }

  lemma {:induction false} DoomedEffect(body: Re, x: byte)
    requires Doomed(body, Char(x))
    ensures Effect(ThenLiteral(body, x)) == Cat(NOTHING, Lit([x]))
  {
    assert ManyOk([Star]) && Seen(Lit([x]), End) == Char(x);
    hide Doomed;
    assert Effective(Rep(body, [Star]), Char(x)) == NOTHING && Effective(Lit([x]), End) == Lit([x]);
    EffectOfCat(Rep(body, [Star]), Lit([x]));
  }

  lemma {:induction false} EffectOfCat(a: Re, b: Re)
    ensures Effect(Cat(a, b)) == Cat(Effective(a, Seen(b, End)), Effective(b, End))
  {
  }

  lemma {:induction false} EffectOfQuest(r: Re, nx: Next)
    ensures Effective(Rep(r, [Quest]), nx) == Rep(Effective(r, nx), [Quest])
  {
    assert !ManyOk([Quest]);
  }

  lemma {:induction false} NothingFirst(f: Flags, r: Re, t: seq<byte>, i: nat, e: nat)
    ensures !InLanguage(f, Cat(NOTHING, r), t, i, e)
  {
    if InLanguage(f, Cat(NOTHING, r), t, i, e) {
      var k := CatParts(f, NOTHING, r, t[i..e]);
      NothingIn(f, t[i..e][..k]);
    }
  }

  lemma {:induction false} NothingIn(f: Flags, w: seq<byte>)
    ensures !Lang(f, NOTHING, w)
  {
    if |w| == 1 { assert !InMap([], w[0]); }
  }

  lemma {:induction false} NoIteration(f: Flags, r: Re)
    ensures Lang(f, Rep(r, [Star]), [])
  {
    assert Flat([]) == [] && ZeroOk([Star]) && ManyOk([Star]);
  }

  // ---- A byte 5 two places before the end of a repeated group ----

  /** `w` is the only word of the group. */
  ghost predicate OnlyWord(f: Flags, r: Re, w: seq<byte>) {
    forall v: seq<byte> :: Lang(f, r, v) <==> v == w
  }

  /** A match can be missed: at the end of a repeated group, the byte two before the instruction is taken for the opcode of
      an open group, so the group seems empty and the loop is left after one iteration. If `w` is the group's only word,
      the group, repeated, and `x` do not match `wwx`. */
  lemma {:induction false} MisreadMissesMatch(f: Flags, body: Re, n: nat, w: seq<byte>, x: byte)
    requires Piece(body, 1, n) && body.Group? && n <= 255 && |Code(body)| < 30000
    requires Misread(body) && OnlyWord(f, body, w) && w != [] && w[0] != x
    ensures var r := ThenLiteral(body, x);
      && Compiled(r)
      && Result(f, w + w + [x], Code(r), 0, NoMatch) && InLanguage(f, r, w + w + [x], 0, 2 * |w| + 1)
  {
    hide Compiled, Misread, Code, Lang, InLanguage, Effect, Result, OnlyWord;
    var r, t := ThenLiteral(body, x), w + w + [x];
    ThenLiteralPieces(body, x, n);
    ThenLiteralCode(body, x);
    PiecesCompiled(r, n);
    var o := MatcherIsRight(f, r, t, 0);
    forall e: nat ensures !InLanguage(f, Effect(r), t, 0, e) { NotTwice(f, body, w, x, e); }
    TwiceMatches(f, body, w, x);
  }

  lemma PiecesCompiled(r: Re, n: nat)
    requires Pieces(r, 1, n) && n <= 255 && |Code(r)| < 32768
    ensures Compiled(r)
  {
  }

  lemma {:induction false} NotTwice(f: Flags, body: Re, w: seq<byte>, x: byte, e: nat)
    requires body.Group? && Misread(body) && OnlyWord(f, body, w) && w != [] && w[0] != x
    ensures !InLanguage(f, Effect(ThenLiteral(body, x)), w + w + [x], 0, e)
  {
    hide OnlyWord, Misread, InLanguage, Effect;
    MisreadEffect(body, x);
    if InLanguage(f, Effect(ThenLiteral(body, x)), w + w + [x], 0, e) { OnceStarts(f, body, w, x, w + w + [x], e); }
  }

  lemma {:induction false} TwiceMatches(f: Flags, body: Re, w: seq<byte>, x: byte)
    requires OnlyWord(f, body, w)
    ensures InLanguage(f, ThenLiteral(body, x), w + w + [x], 0, 2 * |w| + 1)
  {
    hide Lang;
    var t := w + w + [x];
    TwoIterations(f, body, w);
    LitWord(f, [x]);
    assert t[0..2 * |w| + 1] == t && t[..|w + w|] == w + w && t[|w + w|..] == [x];
    CatWords(f, Rep(body, [Star]), Lit([x]), t, 2 * |w|);
  }

  lemma {:induction false} LitWord(f: Flags, s: seq<byte>)
    ensures OnlyWord(f, Lit(s), s)
  {
  }

  lemma {:induction false} MisreadEffect(body: Re, x: byte)
    requires body.Group? && Misread(body)
    ensures Effect(ThenLiteral(body, x)) == Cat(Rep(Effective(body, Other), [Quest]), Lit([x]))
  {
    assert ZeroOk([Star]) && ManyOk([Star]) && Seen(Lit([x]), End) == Char(x);
    hide Misread;
    assert Effective(Rep(body, [Star]), Char(x)) == Rep(Effective(body, Other), [Quest]) && Effective(Lit([x]), End) == Lit([x]);
    EffectOfCat(Rep(body, [Star]), Lit([x]));
  }

  /** The group once or not at all, and then the literal. */
  lemma {:induction false} OnceStarts(f: Flags, body: Re, w: seq<byte>, x: byte, t: seq<byte>, e: nat)
    requires OnlyWord(f, body, w) && InLanguage(f, Cat(Rep(Effective(body, Other), [Quest]), Lit([x])), t, 0, e)
    ensures (|t| > 0 && t[0] == x) || (|t| > |w| && t[|w|] == x)
  {
    var b := Effective(body, Other);
    assert !ManyOk([Quest]) && ZeroOk([Quest]);
    PositionsAreWords(f, Cat(Rep(b, [Quest]), Lit([x])), t, 0, e);
    var m: nat :| m <= e && M(f, Rep(b, [Quest]), t, 0, m) && M(f, Lit([x]), t, m, e);
    assert t[m..e][0] == x && m < |t|;
    if m != 0 {
      EffectIsPart(f, body, Other, t, 0, m);
      PositionsAreWords(f, body, t, 0, m);
      assert t[0..m] == w;
    }
  }

  lemma {:induction false} TwoIterations(f: Flags, r: Re, w: seq<byte>)
    requires Lang(f, r, w)
    ensures Lang(f, Rep(r, [Star]), w + w)
  {
    FlatCons(w, [w]);
    FlatOne([w]);
    hide Flat;
    assert [w] + [w] == [w, w] && ZeroOk([Star]) && ManyOk([Star]);
    assert Flat([w, w]) == w + w && forall x | x in [w, w] :: Lang(f, r, x);
  }

  /** The byte can be one of the literal that ends the group: `(s)*x` does not match `ssx`. */
  lemma {:induction false} ByteFiveMissesMatch(f: Flags, s: seq<byte>, x: byte)
    requires 2 <= |s| <= 255 && s[|s| - 2] == START_MEMORY && s[0] != x
    ensures var r := ThenLiteral(Group(1, 0, Lit(s)), x);
      && Compiled(r) && Result(f, s + s + [x], Code(r), 0, NoMatch) && InLanguage(f, r, s + s + [x], 0, 2 * |s| + 1)
  {
    var g := Group(1, 0, Lit(s));
    LeafPiece(Lit(s), 2);
    GroupPiece(Lit(s), 1, 0);
    var a, b := [START_MEMORY, 1, 0] + [EXACTN, |s|], [STOP_MEMORY, 1, 0];
    assert Code(Lit(s)) == [EXACTN, |s|] + s && EndOfAlts(Lit(s)) == [];
    assert Code(g) == a + s + b;
    assert (a + s + b)[|s| + 3] == s[|s| - 2];
    GroupWord(f, s);
    hide Code, Lang;
    MisreadMissesMatch(f, g, 1, s, x);
  }

  lemma {:induction false} GroupWord(f: Flags, s: seq<byte>)
    ensures OnlyWord(f, Group(1, 0, Lit(s)), s)
  {
    forall v: seq<byte> ensures Lang(f, Group(1, 0, Lit(s)), v) <==> v == s { assert Lang(f, Lit(s), v) <==> v == s; }
  }

  /** One letter in parentheses, as group `n`. */
  function Letter(n: nat, a: byte): Re {
    Group(n, 0, Lit([a]))
  }

  /** `((a)(b)(c)(d))`: the innermost groups have the numbers 2 to 5. */
  function FourLetters(a: byte, b: byte, c: byte, d: byte): Re {
    Group(1, 4, Cat(Cat(Cat(Letter(2, a), Letter(3, b)), Letter(4, c)), Letter(5, d)))
  }

  /** Or it can be the number of the group's last inner group: `((a)(b)(c)(d))*x` does not match `abcdabcdx`. */
  lemma {:induction false} FifthGroupMissesMatch(f: Flags, a: byte, b: byte, c: byte, d: byte, x: byte)
    requires a != x
    ensures var r, w := ThenLiteral(FourLetters(a, b, c, d), x), [a, b, c, d];
      && Compiled(r) && Result(f, w + w + [x], Code(r), 0, NoMatch) && InLanguage(f, r, w + w + [x], 0, 9)
  {
    var la, lb, lc, ld := Letter(2, a), Letter(3, b), Letter(4, c), Letter(5, d);
    LetterPiece(2, a);
    LetterPiece(3, b);
    LetterPiece(4, c);
    LetterPiece(5, d);
    CatPieces(la, lb, 2, 1, 1);
    CatPieces(Cat(la, lb), lc, 2, 2, 1);
    CatPieces(Cat(Cat(la, lb), lc), ld, 2, 3, 1);
    GroupPiece(Cat(Cat(Cat(la, lb), lc), ld), 1, 4);
    LastGroupFive(FourLetters(a, b, c, d), Cat(Cat(la, lb), lc), d);
    FourWord(f, a, b, c, d);
    FourCode(a, b, c, d);
    hide Code, Lang, Misread;
    MisreadMissesMatch(f, FourLetters(a, b, c, d), 5, [a, b, c, d], x);
  }

  lemma {:induction false} LetterPiece(n: nat, a: byte)
    ensures Piece(Letter(n, a), n, 1) && Pieces(Letter(n, a), n, 1) && |Code(Letter(n, a))| == 9
  {
    LeafPiece(Lit([a]), n + 1);
    GroupPiece(Lit([a]), n, 0);
    assert |Code(Lit([a]))| == 3;
  }

  lemma {:induction false} FourCode(a: byte, b: byte, c: byte, d: byte)
    ensures |Code(FourLetters(a, b, c, d))| == 42
  {
    var la, lb, lc, ld := Letter(2, a), Letter(3, b), Letter(4, c), Letter(5, d);
    LetterPiece(2, a);
    LetterPiece(3, b);
    LetterPiece(4, c);
    LetterPiece(5, d);
    CatLength(la, lb);
    CatLength(Cat(la, lb), lc);
    CatLength(Cat(Cat(la, lb), lc), ld);
    var body := Cat(Cat(Cat(la, lb), lc), ld);
    assert EndOfAlts(body) == [] && |Code(body)| == 36;
    hide Letter;
    assert |Code(Group(1, 4, body))| == 6 + |Code(body)|;
  }

  lemma {:induction false} CatLength(a: Re, b: Re)
    ensures |Code(Cat(a, b))| == |Code(a)| + |Code(b)|
  {
  }

  lemma {:induction false} LastGroupFive(r: Re, p: Re, d: byte)
    requires !p.Alt? && r == Group(1, 4, Cat(p, Letter(5, d)))
    ensures Misread(r)
  {
    hide Misread;
    var code := [START_MEMORY, 1, 4] + Code(p) + FifthCode(d) + [STOP_MEMORY, 1, 4];
    LastLetterCode(d);
    assert EndOfAlts(r.body) == [] && Code(r.body) == Code(p) + Code(Letter(5, d));
    assert Code(r) == [START_MEMORY, 1, 4] + Code(r.body) + [STOP_MEMORY, 1, 4] == code;
    assert code[|code| - 5] == FifthCode(d)[7];
    MisreadCode(r, code);
  }

  function FifthCode(d: byte): seq<byte> {
    [START_MEMORY, 5, 0, EXACTN, 1, d, STOP_MEMORY, 5, 0]
  }

  lemma {:induction false} LastLetterCode(d: byte)
    ensures Code(Letter(5, d)) == FifthCode(d)
  {
    assert Code(Lit([d])) == [EXACTN, 1, d] && EndOfAlts(Lit([d])) == [];
  }

  lemma MisreadCode(body: Re, code: seq<byte>)
    requires body.Group? && Code(body) == code && |code| >= 5 && code[|code| - 5] == START_MEMORY
    ensures Misread(body)
  {
  }

  lemma {:induction false} LetterWord(f: Flags, n: nat, a: byte)
    ensures OnlyWord(f, Letter(n, a), [a])
  {
  }

  lemma {:induction false} FourWord(f: Flags, a: byte, b: byte, c: byte, d: byte)
    ensures OnlyWord(f, FourLetters(a, b, c, d), [a, b, c, d])
  {
    var la, lb, lc, ld := Letter(2, a), Letter(3, b), Letter(4, c), Letter(5, d);
    LetterWord(f, 2, a);
    LetterWord(f, 3, b);
    LetterWord(f, 4, c);
    LetterWord(f, 5, d);
    CatWord(f, la, lb, [a], [b]);
    CatWord(f, Cat(la, lb), lc, [a] + [b], [c]);
    CatWord(f, Cat(Cat(la, lb), lc), ld, [a] + [b] + [c], [d]);
    assert [a] + [b] + [c] + [d] == [a, b, c, d];
  }

  lemma {:induction false} CatWord(f: Flags, r: Re, r': Re, w: seq<byte>, w': seq<byte>)
    requires OnlyWord(f, r, w) && OnlyWord(f, r', w')
    ensures OnlyWord(f, Cat(r, r'), w + w')
  {
    hide Lang;
    forall v: seq<byte>
      ensures Lang(f, Cat(r, r'), v) <==> v == w + w'
    {
      if v == w + w' {
        assert v[..|w|] == w && v[|w|..] == w';
        CatWords(f, r, r', v, |w|);
      }
      if Lang(f, Cat(r, r'), v) {
        var k := CatParts(f, r, r', v);
        assert v == v[..k] + v[k..];
      }
    }
  }

  // ---- A loop at the end of the pattern ----

  lemma {:induction false} Goes(f: Flags, t: seq<byte>, s: Search, s': Search)
    requires Sane(t, s) && Turn(f, t, s) == On(s')
    ensures Sane(t, s') && Final(f, t, s) == Final(f, t, s')
  {
    hide Turn, Sane;
    TurnKeeps(f, t, s);
  }

  /** What the search finds is what the machine returns. */
  lemma {:induction false} Returns(f: Flags, r: Re, t: seq<byte>, end: nat)
    requires Compiled(r) && Sane(t, First(r, 0)) && Final(f, t, First(r, 0)) == Found(end)
    ensures Result(f, t, Code(r), 0, Matched(end))
  {
    hide Compiled, Sane, Final, First, Result;
    var o := MatcherIsRight(f, r, t, 0);
    OutcomeIsFinal(f, r, t, 0, o);
  }

  /** `(xx)` */
  function Pair(x: byte): Re {
    Group(1, 0, Lit([x, x]))
  }

  /** `x?(xx)*` */
  function OddOrEven(x: byte): Re {
    Cat(Rep(Lit([x]), [Quest]), Rep(Pair(x), [Star]))
  }

  /** `(xx)*` is to be matched. */
  function Pairs(x: byte): Kont {
    KSeq(Loop(Pair(x)), 1, KDone)
  }

  /** Even if the body of the last loop has no choice in it, the longest match can be missed: of `x?(xx)*` the text `xxy`
      matches only `x`, since the loop pops the failure point of its exit, and the second way through the pattern ends
      with nothing left to try. */
  lemma {:induction false} FinalPairNotLongest(f: Flags, x: byte, y: byte)
    requires x != y && x != START_MEMORY
    ensures var r := OddOrEven(x);
      && Compiled(r) && Clean(r) && EndsWell(r, End, OwnLoop) && !r.Alt?
      && Result(f, [x, x, y], Code(r), 0, Matched(1)) && InLanguage(f, r, [x, x, y], 0, 2)
  {
    var r, t: seq<byte> := OddOrEven(x), [x, x, y];
    OddOrEvenShape(x);
    PairCode(x);
    assert t[0..2][..0] == [] && t[0..2][0..] == [x, x];
    OddOrEvenTakesPair(f, x);
    Started(f, r, t, 0);
    hide Code, Lang, Compiled, Misread, EndsWell, Effective;
    OddOrEvenRun(f, x, y);
    Returns(f, r, t, 1);
  }

  lemma {:induction false} OddOrEvenShape(x: byte)
    requires x != START_MEMORY
    ensures var r := OddOrEven(x); Compiled(r) && Clean(r) && EndsWell(r, End, OwnLoop)
  {
    var a, b := Lit([x]), Pair(x);
    LeafPiece(a, 1);
    RepPiece(a, Quest, 1, 0);
    LeafPiece(Lit([x, x]), 2);
    GroupPiece(Lit([x, x]), 1, 0);
    RepPiece(b, Star, 1, 1);
    CatPieces(Rep(a, [Quest]), Rep(b, [Star]), 1, 0, 1);
    PairCode(x);
    assert ZeroOk([Star]) && ManyOk([Star]) && ZeroOk([Quest]) && !ManyOk([Quest]);
    assert |Code(Rep(a, [Quest]))| == 6 && |Code(Rep(b, [Star]))| == 16;
    hide Code, Misread;
    CatLength(Rep(a, [Quest]), Rep(b, [Star]));
    assert Effective(b, Other) == b && Effective(Rep(b, [Star]), End) == Rep(b, [Star]);
    assert Effective(Rep(a, [Quest]), Other) == Rep(a, [Quest]);
    EffectOfCat(Rep(a, [Quest]), Rep(b, [Star]));
    assert Quiet(b) && EndsWell(b, Other, OwnLoop) && EndsWell(Rep(b, [Star]), End, OwnLoop);
    assert EndsWell(Rep(a, [Quest]), Other, OwnLoop);
  }

  lemma {:induction false} PairCode(x: byte)
    requires x != START_MEMORY
    ensures Code(Pair(x)) == [START_MEMORY, 1, 0, EXACTN, 2, x, x, STOP_MEMORY, 1, 0] && !Misread(Pair(x)) && |Code(Lit([x]))| == 3
  {
    assert Code(Lit([x, x])) == [EXACTN, 2, x, x] && EndOfAlts(Lit([x, x])) == [];
  }

  lemma {:induction false} OddOrEvenTakesPair(f: Flags, x: byte)
    ensures Lang(f, OddOrEven(x), [x, x])
  {
    var w: seq<byte> := [x, x];
    NotAtAll(f, Lit([x]));
    assert Lang(f, Pair(x), w) by { assert Lang(f, Lit(w), w); }
    OnceIsEnough(f, Pair(x), [Star], w);
    hide Lang;
    assert w[..0] == [] && w[0..] == w;
    CatWords(f, Rep(Lit([x]), [Quest]), Rep(Pair(x), [Star]), w, 0);
  }

  lemma {:induction false} NotAtAll(f: Flags, r: Re)
    ensures Lang(f, Rep(r, [Quest]), [])
  {
    assert ZeroOk([Quest]) && Flat([]) == [];
  }

  lemma {:induction false} OnceIsEnough(f: Flags, r: Re, ops: seq<Op>, w: seq<byte>)
    requires Lang(f, r, w) && |ops| == 1
    ensures Lang(f, Rep(r, ops), w)
  {
    FlatOne([w]);
    assert ManyOk(ops) || |[w]| <= 1;
  }

  /** Once more, if the next two characters are `x`; otherwise the loop is over. */
  lemma {:induction false} OncePair(f: Flags, t: seq<byte>, x: byte, d: nat, stack: seq<Entry>, best: Best)
    requires Sane(t, Search(Pairs(x), d, stack, best)) && !Misread(Pair(x)) && d <= |t|
    ensures var s := Search(Pairs(x), d, stack, best);
      var s' := if d + 2 <= |t| && t[d..d + 2] == [x, x] then s.(d := d + 2) else s.(K := KDone);
      Sane(t, s') && Final(f, t, s) == Final(f, t, s')
  {
    hide Misread, Sane, Final;
    var b := Pair(x);
    var k := KTail(b, 1, KDone);
    var more := stack + [Wait(KDone, d)];
    var s0 := Search(Pairs(x), d, stack, best);
    var s1 := Search(KSeq(b, 1, k), d, more, best);
    assert ZeroOk([Star]) && ManyOk([Star]);
    Goes(f, t, s0, s1);
    var s2 := Search(KSeq(Lit([x, x]), 2, KEnd(1, 0, d, k)), d, more, best);
    Goes(f, t, s1, s2);
    assert more[..|stack|] == stack;
    if d + 2 <= |t| && t[d..d + 2] == [x, x] {
      var s3 := Search(KEnd(1, 0, d, k), d + 2, more, best);
      Goes(f, t, s2, s3);
      Goes(f, t, s3, s3.(K := k));
      Goes(f, t, s3.(K := k), s0.(d := d + 2));
    } else {
      Goes(f, t, s2, s0.(K := KDone));
    }
  }

  lemma {:induction false} OddOrEvenRun(f: Flags, x: byte, y: byte)
    requires x != y && !Misread(Pair(x)) && Sane([x, x, y], First(OddOrEven(x), 0))
    ensures Final(f, [x, x, y], First(OddOrEven(x), 0)) == Found(1)
  {
    hide Misread, Sane, Final;
    var t: seq<byte> := [x, x, y];
    var below := [Wait(Pairs(x), 0)];
    var s0 := Search(KSeq(Rep(Lit([x]), [Quest]), 1, Pairs(x)), 0, [], NoBest);
    assert GroupCount(Lit([x])) == 0 && GroupCount(Rep(Lit([x]), [Quest])) == 0 && Norm(s0.K) == s0.K;
    assert First(OddOrEven(x), 0) == s0;
    assert ZeroOk([Quest]) && !ManyOk([Quest]);
    var s1 := Search(KSeq(Lit([x]), 1, Pairs(x)), 0, below, NoBest);
    Goes(f, t, s0, s1);
    assert t[0..1] == [x] && t[0..2] == [x, x] && t[1..3][1] == y;
    Goes(f, t, s1, Search(Pairs(x), 1, below, NoBest));
    OncePair(f, t, x, 1, below, NoBest);
    assert below[..0] == [];
    Goes(f, t, Search(KDone, 1, below, NoBest), Search(Pairs(x), 0, [], Best(1)));
    OncePair(f, t, x, 0, [], Best(1));
    OncePair(f, t, x, 2, [], Best(1));
    Stops(f, t, Search(KDone, 2, [], Best(1)));
  }

  lemma {:induction false} Stops(f: Flags, t: seq<byte>, s: Search)
    requires Sane(t, s) && !Turn(f, t, s).On?
    ensures Final(f, t, s) == Turn(f, t, s)
  {
  }

  // ---- A loop at the end whose body has choices ----

  /** `x?(xy)?` */
  function Either(x: byte, y: byte): Re {
    Cat(Rep(Lit([x]), [Quest]), Rep(Group(2, 0, Lit([x, y])), [Quest]))
  }

  /** `(x?(xy)?)` */
  function EitherGroup(x: byte, y: byte): Re {
    Group(1, 1, Either(x, y))
  }

  /** `(x?(xy)?)*` */
  function FinalLoop(x: byte, y: byte): Re {
    Rep(EitherGroup(x, y), [Star])
  }

  /** A pattern that ends in a loop can miss the longest match, even one of the whole text: at the end of the pattern the
      loop pops a failure point that belongs to its own body. */
  lemma {:induction false} FinalLoopNotLongest(f: Flags, x: byte, y: byte)
    requires x != y
    ensures var r := FinalLoop(x, y);
      && Compiled(r) && Clean(r) && !r.Alt? && !EndsWell(r, End, OwnLoop)
      && Result(f, [x, y], Code(r), 0, Matched(1)) && InLanguage(f, r, [x, y], 0, 2)
  {
    var r, t: seq<byte> := FinalLoop(x, y), [x, y];
    FinalLoopShape(x, y);
    EitherCode(x, y);
    EitherTakesBoth(f, x, y);
    OnceIsEnough(f, EitherGroup(x, y), [Star], t);
    assert t[0..2] == t;
    Started(f, r, t, 0);
    hide Code, Lang, Compiled, Misread, EndsWell, Effective;
    FinalLoopRun(f, x, y);
    Returns(f, r, t, 1);
  }

  lemma {:induction false} FinalLoopShape(x: byte, y: byte)
    ensures var r := FinalLoop(x, y); Compiled(r) && Clean(r) && !EndsWell(r, End, OwnLoop)
  {
    var a, g, b := Lit([x]), Group(2, 0, Lit([x, y])), EitherGroup(x, y);
    LeafPiece(a, 2);
    RepPiece(a, Quest, 2, 0);
    LeafPiece(Lit([x, y]), 3);
    GroupPiece(Lit([x, y]), 2, 0);
    RepPiece(g, Quest, 2, 1);
    CatPieces(Rep(a, [Quest]), Rep(g, [Quest]), 2, 0, 1);
    GroupPiece(Either(x, y), 1, 1);
    RepPiece(b, Star, 1, 2);
    EitherCode(x, y);
    assert ZeroOk([Star]) && ManyOk([Star]) && ZeroOk([Quest]) && !ManyOk([Quest]);
    assert |Code(FinalLoop(x, y))| == 31;
    hide Code, Misread;
    assert Effective(g, Other) == g;
    EffectOfQuest(g, Other);
    EffectOfQuest(a, Other);
    assert Effective(Either(x, y), Other) == Either(x, y);
    assert Effective(b, Other) == b;
    assert !Quiet(Either(x, y)) && !Quiet(b);
  }

  lemma {:induction false} EitherCode(x: byte, y: byte)
    ensures |Code(EitherGroup(x, y))| == 25 && !Misread(EitherGroup(x, y))
  {
    var a, g := Rep(Lit([x]), [Quest]), Rep(Group(2, 0, Lit([x, y])), [Quest]);
    var tail := [START_MEMORY, 2, 0, EXACTN, 2, x, y, STOP_MEMORY, 2, 0];
    assert ZeroOk([Quest]) && !ManyOk([Quest]);
    assert |Code(a)| == 6 by { assert |Code(Lit([x]))| == 3; }
    assert Code(Group(2, 0, Lit([x, y]))) == tail by { assert Code(Lit([x, y])) == [EXACTN, 2, x, y] && EndOfAlts(Lit([x, y])) == []; }
    assert Code(g) == Jmp(ON_FAILURE_JUMP, 10) + tail;
    hide Jmp, RepCode;
    JmpLength(ON_FAILURE_JUMP, 10);
    var code := [START_MEMORY, 1, 1] + (Code(a) + (Jmp(ON_FAILURE_JUMP, 10) + tail)) + [STOP_MEMORY, 1, 1];
    assert Code(Either(x, y)) == Code(a) + Code(g);
    PlainGroupCode(1, 1, Either(x, y));
    assert Code(EitherGroup(x, y)) == code;
    assert code[20] == tail[8] == 2;
  }

  lemma {:induction false} PlainGroupCode(n: byte, inner: byte, body: Re)
    requires !body.Alt?
    ensures Code(Group(n, inner, body)) == [START_MEMORY, n, inner] + Code(body) + [STOP_MEMORY, n, inner]
  {
    assert EndOfAlts(body) == [];
  }

  lemma JmpLength(op: byte, n: int)
    ensures |Jmp(op, n)| == 3
  {
  }

  lemma {:induction false} EitherTakesBoth(f: Flags, x: byte, y: byte)
    ensures Lang(f, EitherGroup(x, y), [x, y])
  {
    var w: seq<byte> := [x, y];
    NotAtAll(f, Lit([x]));
    assert Lang(f, Group(2, 0, Lit(w)), w) by { assert Lang(f, Lit(w), w); }
    OnceIsEnough(f, Group(2, 0, Lit(w)), [Quest], w);
    assert w[..0] == [] && w[0..] == w;
    CatWords(f, Rep(Lit([x]), [Quest]), Rep(Group(2, 0, Lit(w)), [Quest]), w, 0);
  }

  /** `(xy)?` is to be matched, inside the group that was opened at `s`. */
  function Rest(x: byte, y: byte, s: nat): Kont {
    KSeq(Rep(Group(2, 0, Lit([x, y])), [Quest]), 2, Closing(x, y, s))
  }

  function Closing(x: byte, y: byte, s: nat): Kont {
    KEnd(1, 1, s, KTail(EitherGroup(x, y), 1, KDone))
  }

  /** At position 1 of `xy`, `(xy)?` takes nothing. */
  lemma {:induction false} NoSecond(f: Flags, x: byte, y: byte, s: nat, stack: seq<Entry>, best: Best)
    requires x != y && Sane([x, y], Search(Rest(x, y, s), 1, stack, best))
    ensures var s1 := Search(Closing(x, y, s), 1, stack, best);
      Sane([x, y], s1) && Final(f, [x, y], Search(Rest(x, y, s), 1, stack, best)) == Final(f, [x, y], s1)
  {
    hide Sane, Final;
    var t: seq<byte> := [x, y];
    var E, g := Closing(x, y, s), Group(2, 0, Lit([x, y]));
    var more := stack + [Wait(E, 1)];
    assert ZeroOk([Quest]) && !ManyOk([Quest]);
    var s1 := Search(KSeq(g, 2, E), 1, more, best);
    Goes(f, t, Search(Rest(x, y, s), 1, stack, best), s1);
    var s2 := Search(KSeq(Lit([x, y]), 3, KEnd(2, 0, 1, E)), 1, more, best);
    Goes(f, t, s1, s2);
    assert more[..|stack|] == stack;
    Goes(f, t, s2, Search(E, 1, stack, best));
  }

  /** Into an iteration, up to its first choice. */
  lemma {:induction false} IntoEither(f: Flags, x: byte, y: byte, d: nat, stack: seq<Entry>, best: Best)
    requires d <= 2 && Sane([x, y], Search(KSeq(Loop(EitherGroup(x, y)), 1, KDone), d, stack, best))
    ensures var s1 := Search(KSeq(Lit([x]), 2, Rest(x, y, d)), d, stack + [Wait(KDone, d), Wait(Rest(x, y, d), d)], best);
      && Sane([x, y], s1)
      && Final(f, [x, y], Search(KSeq(Loop(EitherGroup(x, y)), 1, KDone), d, stack, best)) == Final(f, [x, y], s1)
  {
    hide Sane, Final, Misread;
    var t: seq<byte> := [x, y];
    var b, a := EitherGroup(x, y), Rep(Lit([x]), [Quest]);
    var k, more := KTail(b, 1, KDone), stack + [Wait(KDone, d)];
    assert ZeroOk([Quest]) && !ManyOk([Quest]) && ZeroOk([Star]) && ManyOk([Star]);
    var s1 := Search(KSeq(b, 1, k), d, more, best);
    Goes(f, t, Search(KSeq(Loop(b), 1, KDone), d, stack, best), s1);
    var s2 := Search(KSeq(a, 2, Rest(x, y, d)), d, more, best);
    assert GroupCount(Lit([x])) == 0 && GroupCount(a) == 0 && Norm(s2.K) == s2.K;
    assert Norm(KSeq(Either(x, y), 2, Closing(x, y, d))) == s2.K;
    Goes(f, t, s1, s2);
    var s3 := Search(KSeq(Lit([x]), 2, Rest(x, y, d)), d, more + [Wait(Rest(x, y, d), d)], best);
    Goes(f, t, s2, s3);
    assert s3.stack == stack + [Wait(KDone, d), Wait(Rest(x, y, d), d)];
  }

  /** The first iteration takes `x` for itself and pops the thread that would take `xy`; the second takes nothing. */
  lemma {:induction false} FinalLoopRun(f: Flags, x: byte, y: byte)
    requires x != y && !Misread(EitherGroup(x, y)) && Sane([x, y], First(FinalLoop(x, y), 0))
    ensures Final(f, [x, y], First(FinalLoop(x, y), 0)) == Found(1)
  {
    hide Misread, Sane, Final;
    var t: seq<byte> := [x, y];
    var k, head := KTail(EitherGroup(x, y), 1, KDone), KSeq(Loop(EitherGroup(x, y)), 1, KDone);
    var exit, rest := Wait(KDone, 0), Wait(Rest(x, y, 0), 0);
    assert First(FinalLoop(x, y), 0) == Search(head, 0, [], NoBest);
    IntoEither(f, x, y, 0, [], NoBest);
    assert [] + [exit, rest] == [exit, rest] && t[0..1] == [x];
    Goes(f, t, Search(KSeq(Lit([x]), 2, Rest(x, y, 0)), 0, [exit, rest], NoBest), Search(Rest(x, y, 0), 1, [exit, rest], NoBest));
    NoSecond(f, x, y, 0, [exit, rest], NoBest);
    Goes(f, t, Search(Closing(x, y, 0), 1, [exit, rest], NoBest), Search(k, 1, [exit, rest], NoBest));
    assert [exit, rest][..1] == [exit];
    Goes(f, t, Search(k, 1, [exit, rest], NoBest), Search(head, 1, [exit], NoBest));
    SecondIteration(f, x, y, exit);
  }

  lemma {:induction false} SecondIteration(f: Flags, x: byte, y: byte, exit: Entry)
    requires x != y && exit == Wait(KDone, 0)
    requires Sane([x, y], Search(KSeq(Loop(EitherGroup(x, y)), 1, KDone), 1, [exit], NoBest))
    ensures Final(f, [x, y], Search(KSeq(Loop(EitherGroup(x, y)), 1, KDone), 1, [exit], NoBest)) == Found(1)
  {
    hide Misread, Sane, Final;
    var t: seq<byte> := [x, y];
    var again, rest := Wait(KDone, 1), Wait(Rest(x, y, 1), 1);
    IntoEither(f, x, y, 1, [exit], NoBest);
    assert [exit] + [again, rest] == [exit, again, rest] && [exit, again, rest][..2] == [exit, again];
    assert t[1..2][0] == y;
    Goes(f, t, Search(KSeq(Lit([x]), 2, Rest(x, y, 1)), 1, [exit, again, rest], NoBest), Search(Rest(x, y, 1), 1, [exit, again], NoBest));
    NoSecond(f, x, y, 1, [exit, again], NoBest);
    Goes(f, t, Search(Closing(x, y, 1), 1, [exit, again], NoBest), Search(KDone, 1, [exit, again], NoBest));
    assert [exit, again][..1] == [exit] && [exit][..0] == [];
    Goes(f, t, Search(KDone, 1, [exit, again], NoBest), Search(KDone, 1, [exit], Best(1)));
    Goes(f, t, Search(KDone, 1, [exit], Best(1)), Search(KDone, 0, [], Best(1)));
    Stops(f, t, Search(KDone, 0, [], Best(1)));
  }
}
