/** Patterns as the compiler reads them: a sequence of tokens, the expression that the tokens spell, and the partly read
    expression that the compiler has on its hands in the middle of a pattern. */
module RegexParse {
  import opened Helpers
  import opened RegexSyntax
  import opened RegexCode

  datatype Token =
    | TChar(c: byte)
    | TDot
    | TSet(neg: bool, bits: seq<byte>)
    | TOpen
    | TClose
    | TBar
    | TOp(op: Op)
    | TInterval(lo: nat, hi: nat)

  function Chars(s: seq<byte>): (ts: seq<Token>)
    ensures |ts| == |s|
  {
    seq(|s|, i requires 0 <= i < |s| => TChar(s[i]))
  }

  function Ops(ops: seq<Op>): (ts: seq<Token>)
    ensures |ts| == |ops|
  {
    seq(|ops|, i requires 0 <= i < |ops| => TOp(ops[i]))
  }

  /** The tokens that spell an expression. */
  function Unparse(r: Re): seq<Token> {
    match r
    case Eps => []
    case Skip(ops) => Ops(ops)
    case Lit(s) => Chars(s)
    case Any => [TDot]
    case Set(neg, bits) => [TSet(neg, bits)]
    case Group(_, _, body) => [TOpen] + Unparse(body) + [TClose]
    case Rep(body, ops) => Unparse(body) + Ops(ops)
    case Interval(body, lo, hi) => Unparse(body) + [TInterval(lo, hi)]
    case Cat(a, b) => Unparse(a) + Unparse(b)
    case Alt(a, b) => Unparse(a) + [TBar] + Unparse(b)
  }

  // ---- Which of the expressions with the same spelling is meant ----

  /** Nothing that could be repeated: only runs of repetition characters so far. */
  predicate Blank(r: Re) {
    r.Eps? || (r.Cat? && r.b.Skip? && Blank(r.a))
  }

  /** An item that has no text of its own. */
  predicate Headless(r: Re) {
    match r
    case Eps => true
    case Skip(_) => true
    case Rep(body, _) => Headless(body)
    case Interval(body, _, _) => Headless(body)
    case _ => false
  }

  /** A repetition character with nothing before it in its alternative is skipped, and an interval there repeats the
      empty expression; anywhere else they belong to the item before them. */
  predicate Placed(r: Re) {
    match r
    case Group(_, _, body) => Placed(body)
    case Rep(body, _) => Placed(body)
    case Interval(body, _, _) => Placed(body) && Countable(body)
    case Cat(a, b) => Placed(a) && Placed(b) && !b.Eps? && (Headless(b) ==> Blank(a))
    case Alt(a, b) => Placed(a) && Placed(b)
    case _ => true
  }

  /** What an interval can follow. */
  predicate Countable(r: Re) {
    !r.Skip? && (r.Lit? ==> |r.s| == 1)
  }

  /** `r` is how the compiler reads `tokens`. */
  ghost predicate Reads(tokens: seq<Token>, r: Re) {
    Unparse(r) == tokens && Shaped(r) && Placed(r) && Numbered(r, 1)
  }

  /** What the tokenizer delivers: a bitmap has at most 32 bytes, and an interval's bounds are in order. */
  predicate Lexical(t: Token) {
    (t.TSet? ==> |t.bits| <= 32) && (t.TInterval? ==> t.lo <= t.hi <= 32767)
  }

  // ---- Parentheses ----

  datatype Error = NoError | EPAREN | ERPAREN | ESIZE

  function Parens(tokens: seq<Token>, depth: nat): (e: Error)
    ensures e != ESIZE
  {
    if tokens == [] then (if depth == 0 then NoError else EPAREN)
    else if tokens[0].TOpen? then Parens(tokens[1..], depth + 1)
    else if tokens[0].TClose? then (if depth == 0 then ERPAREN else Parens(tokens[1..], depth - 1))
    else Parens(tokens[1..], depth)
  }

  function Opens(tokens: seq<Token>): (n: nat) {
    if tokens == [] then 0 else (if tokens[0].TOpen? then 1 else 0) + Opens(tokens[1..])
  }

  function Closes(tokens: seq<Token>): (n: nat) {
    if tokens == [] then 0 else (if tokens[0].TClose? then 1 else 0) + Closes(tokens[1..])
  }

  /** Up to place `k` there are more close parentheses than open ones, `depth` of them open before. */
  predicate Overclosed(tokens: seq<Token>, depth: nat, k: nat) {
    k <= |tokens| && Closes(tokens[..k]) > depth + Opens(tokens[..k])
  }

  lemma FirstCounted(tokens: seq<Token>, k: nat)
    requires 0 < k <= |tokens|
    ensures Opens(tokens[..k]) == (if tokens[0].TOpen? then 1 else 0) + Opens(tokens[1..][..k - 1])
    ensures Closes(tokens[..k]) == (if tokens[0].TClose? then 1 else 0) + Closes(tokens[1..][..k - 1])
  {
    assert tokens[..k][1..] == tokens[1..][..k - 1];
  }

  /** The errors, by counting: a `)` is one too many if up to there more are closed than opened, and a `(` is left over if
      that is not so and fewer are closed than opened in all. */
  lemma {:induction false} ParensMeans(tokens: seq<Token>, depth: nat)
    ensures Parens(tokens, depth) == ERPAREN <==> exists k: nat :: Overclosed(tokens, depth, k)
    ensures Parens(tokens, depth) == EPAREN <==>
      (forall k: nat :: !Overclosed(tokens, depth, k)) && Closes(tokens) < depth + Opens(tokens)
    ensures Parens(tokens, depth) == NoError <==>
      (forall k: nat :: !Overclosed(tokens, depth, k)) && Closes(tokens) == depth + Opens(tokens)
    decreases |tokens|
  {
    if tokens == [] {
    } else {
      var x, rest, n := tokens[0], tokens[1..], |tokens|;
      assert tokens[..n] == tokens && rest[..n - 1] == rest;
      FirstCounted(tokens, n);
      if x.TClose? && depth == 0 {
        FirstCounted(tokens, 1);
        assert Overclosed(tokens, 0, 1);
      } else {
        var d := if x.TOpen? then depth + 1 else if x.TClose? then depth - 1 else depth;
        ParensMeans(rest, d);
        forall k: nat ensures Overclosed(tokens, depth, k) <==> k > 0 && Overclosed(rest, d, k - 1) {
          if 0 < k <= n { FirstCounted(tokens, k); }
        }
        if k: nat :| Overclosed(rest, d, k) { assert Overclosed(tokens, depth, k + 1); }
        if !Overclosed(tokens, depth, n) { assert Closes(tokens) <= depth + Opens(tokens); }
      }
    }
  }

  // ---- Partly read expressions ----

  /** What has been read inside one open group: the finished alternatives, and of the current one the last item, if
      there is something to repeat, and what comes before it. */
  datatype Level = Level(alts: seq<Re>, done: Re, last: Option<Re>)

  const EMPTY_LEVEL := Level([], Eps, None)

  function Cur(l: Level): Re {
    if l.last.None? then l.done else Cat(l.done, l.last.value)
  }

  /** `alts[0]|alts[1]|...|r` */
  function AltOf(alts: seq<Re>, r: Re): Re {
    if alts == [] then r else AltOf(alts[..|alts| - 1], Alt(alts[|alts| - 1], r))
  }

  function Whole(l: Level): Re {
    AltOf(l.alts, Cur(l))
  }

  function AltsSpell(alts: seq<Re>): seq<Token> {
    if alts == [] then [] else AltsSpell(alts[..|alts| - 1]) + Unparse(alts[|alts| - 1]) + [TBar]
  }

  function LevelSpell(l: Level): seq<Token> {
    AltsSpell(l.alts) + Unparse(Cur(l))
  }

  /** The tokens read so far: `outer` are the levels around open parentheses, the outermost first. */
  function Spell(outer: seq<Level>, top: Level): seq<Token>
    decreases |outer|
  {
    if outer == [] then LevelSpell(top)
    else Spell(outer[..|outer| - 1], outer[|outer| - 1]) + [TOpen] + LevelSpell(top)
  }

  /** The number of the first group inside the level that comes after `ls`. */
  function First(ls: seq<Level>): (n: nat)
    ensures n >= 1
  {
    if ls == [] then 1 else First(ls[..|ls| - 1]) + GroupCount(Whole(ls[|ls| - 1])) + 1
  }

  ghost predicate LevelOk(l: Level, first: nat) {
    && Shaped(Whole(l)) && Placed(Whole(l)) && Numbered(Whole(l), first)
    && ShapedCat(l.done) && (l.last.None? ==> Blank(l.done))
    && (l.last.Some? ==> ShapedItem(l.last.value))
  }

  ghost predicate LevelsOk(ls: seq<Level>) {
    ls == [] || (LevelsOk(ls[..|ls| - 1]) && LevelOk(ls[|ls| - 1], First(ls[..|ls| - 1])))
  }

  lemma {:induction false} WholeShape(alts: seq<Re>, r: Re)
    ensures Shaped(AltOf(alts, r)) <==> (forall i | 0 <= i < |alts| :: ShapedCat(alts[i])) && Shaped(r)
    ensures Placed(AltOf(alts, r)) <==> (forall i | 0 <= i < |alts| :: Placed(alts[i])) && Placed(r)
    decreases |alts|
  {
    if alts != [] {
      var init, a := alts[..|alts| - 1], alts[|alts| - 1];
      assert forall i | 0 <= i < |init| :: init[i] == alts[i];
      WholeShape(init, Alt(a, r));
      assert Shaped(Alt(a, r)) <==> ShapedCat(a) && Shaped(r);
      hide Shaped, ShapedCat;
    }
  }

  lemma {:induction false} WholeSpell(alts: seq<Re>, r: Re)
    ensures Unparse(AltOf(alts, r)) == AltsSpell(alts) + Unparse(r)
    decreases |alts|
  {
    if alts != [] {
      var init, a := alts[..|alts| - 1], alts[|alts| - 1];
      WholeSpell(init, Alt(a, r));
    }
  }

  lemma {:induction false} WholeCount(alts: seq<Re>, r: Re)
    ensures GroupCount(AltOf(alts, r)) == GroupCount(AltOf(alts, Eps)) + GroupCount(r)
    decreases |alts|
  {
    if alts != [] {
      var init, a := alts[..|alts| - 1], alts[|alts| - 1];
      WholeCount(init, Alt(a, r));
      WholeCount(init, Alt(a, Eps));
    }
  }

  lemma {:induction false} WholeNumbers(alts: seq<Re>, r: Re, g: nat)
    ensures Numbered(AltOf(alts, r), g) <==>
      Numbered(AltOf(alts, Eps), g) && Numbered(r, g + GroupCount(AltOf(alts, Eps)))
    decreases |alts|
  {
    if alts != [] {
      var init, a := alts[..|alts| - 1], alts[|alts| - 1];
      WholeNumbers(init, Alt(a, r), g);
      WholeNumbers(init, Alt(a, Eps), g);
      WholeCount(init, Alt(a, Eps));
    }
  }

  // ---- One token more ----

  function Emit(l: Level, x: Re): Level {
    Level(l.alts, Cur(l), Some(x))
  }

  function Replace(l: Level, x: Re): Level {
    l.(last := Some(x))
  }

  function SkipOps(l: Level, ops: seq<Op>): Level {
    l.(done := Cat(l.done, Skip(ops)))
  }

  function NextAlt(l: Level): Level {
    Level(l.alts + [Cur(l)], Eps, None)
  }

  lemma {:induction false} WholeParts(l: Level, g: nat)
    ensures Shaped(Whole(l)) <==> (forall i | 0 <= i < |l.alts| :: ShapedCat(l.alts[i])) && Shaped(Cur(l))
    ensures Placed(Whole(l)) <==> (forall i | 0 <= i < |l.alts| :: Placed(l.alts[i])) && Placed(Cur(l))
    ensures Numbered(Whole(l), g) <==>
      Numbered(AltOf(l.alts, Eps), g) && Numbered(Cur(l), g + GroupCount(AltOf(l.alts, Eps)))
    ensures GroupCount(Whole(l)) == GroupCount(AltOf(l.alts, Eps)) + GroupCount(Cur(l))
  {
    WholeShape(l.alts, Cur(l));
    WholeNumbers(l.alts, Cur(l), g);
    WholeCount(l.alts, Cur(l));
  }

  lemma {:induction false} CurShape(l: Level)
    requires ShapedCat(l.done) && (l.last.Some? ==> ShapedItem(l.last.value))
    ensures ShapedCat(Cur(l)) && Shaped(Cur(l)) && !Cur(l).Alt?
  {
    assert !l.done.Alt?;
  }

  lemma {:induction false} EmitOk(l: Level, x: Re, g: nat)
    requires LevelOk(l, g) && ShapedItem(x) && Placed(x) && !x.Eps? && (Headless(x) ==> Blank(Cur(l)))
    requires Numbered(x, g + GroupCount(Whole(l)))
    ensures LevelOk(Emit(l, x), g) && GroupCount(Whole(Emit(l, x))) == GroupCount(Whole(l)) + GroupCount(x)
    ensures LevelSpell(Emit(l, x)) == LevelSpell(l) + Unparse(x)
  {
    hide Shaped, ShapedCat, ShapedItem, AltOf, Unparse, Headless;
    var l' := Emit(l, x);
    WholeParts(l, g);
    WholeParts(l', g);
    CurShape(l);
    CurShape(l');
    EmitSpell(l, x);
  }

  lemma {:induction false} EmitSpell(l: Level, x: Re)
    ensures LevelSpell(Emit(l, x)) == LevelSpell(l) + Unparse(x)
  {
    assert Cur(Emit(l, x)) == Cat(Cur(l), x);
  }

  lemma {:induction false} ReplaceOk(l: Level, x: Re, g: nat, ts: seq<Token>)
    requires LevelOk(l, g) && l.last.Some? && ShapedItem(x) && Placed(x) && !x.Eps?
    requires Headless(x) ==> Headless(l.last.value)
    requires GroupCount(x) == GroupCount(l.last.value)
    requires forall k: nat | Numbered(l.last.value, k) :: Numbered(x, k)
    requires Unparse(x) == Unparse(l.last.value) + ts
    ensures LevelOk(Replace(l, x), g) && GroupCount(Whole(Replace(l, x))) == GroupCount(Whole(l))
    ensures LevelSpell(Replace(l, x)) == LevelSpell(l) + ts
  {
    hide Shaped, ShapedItem, AltOf;
    var l' := Replace(l, x);
    WholeParts(l, g);
    WholeParts(l', g);
    CurShape(l);
    CurShape(l');
  }

  lemma {:induction false} SkipOk(l: Level, ops: seq<Op>, g: nat)
    requires LevelOk(l, g) && l.last.None?
    ensures LevelOk(SkipOps(l, ops), g) && GroupCount(Whole(SkipOps(l, ops))) == GroupCount(Whole(l))
    ensures LevelSpell(SkipOps(l, ops)) == LevelSpell(l) + Ops(ops)
  {
    var l' := SkipOps(l, ops);
    assert Unparse(Cur(l')) == Unparse(Cur(l)) + Ops(ops);
    WholeParts(l, g);
    WholeParts(l', g);
    CurShape(l);
    CurShape(l');
  }

  lemma {:induction false} NextAltWhole(l: Level)
    ensures AltOf(NextAlt(l).alts, Eps) == AltOf(l.alts, Alt(Cur(l), Eps)) && Shaped(Cur(NextAlt(l)))
  {
    var l' := NextAlt(l);
    assert l'.alts[..|l'.alts| - 1] == l.alts && l'.alts[|l'.alts| - 1] == Cur(l);
  }

  lemma {:induction false} NextAltOk(l: Level, g: nat)
    requires LevelOk(l, g)
    ensures LevelOk(NextAlt(l), g) && GroupCount(Whole(NextAlt(l))) == GroupCount(Whole(l))
    ensures LevelSpell(NextAlt(l)) == LevelSpell(l) + [TBar]
  {
    hide AltOf, Shaped, Unparse, LevelSpell;
    var l' := NextAlt(l);
    var a := Cur(l);
    NextAltWhole(l);
    WholeParts(l, g);
    WholeParts(l', g);
    WholeNumbers(l.alts, Alt(a, Eps), g);
    WholeCount(l.alts, Alt(a, Eps));
    CurShape(l);
    NextAltSpell(l);
  }

  lemma {:induction false} NextAltSpell(l: Level)
    ensures LevelSpell(NextAlt(l)) == LevelSpell(l) + [TBar]
  {
    var l', a := NextAlt(l), Cur(l);
    assert l'.alts[..|l'.alts| - 1] == l.alts && l'.alts[|l'.alts| - 1] == a;
    assert AltsSpell(l'.alts) == AltsSpell(l.alts) + Unparse(a) + [TBar];
    assert Cur(l') == Eps && Unparse(Eps) == [];
    assert LevelSpell(l') == AltsSpell(l'.alts);
  }

  lemma {:induction false} EmptyOk(g: nat)
    ensures LevelOk(EMPTY_LEVEL, g) && GroupCount(Whole(EMPTY_LEVEL)) == 0 && LevelSpell(EMPTY_LEVEL) == []
  {
  }

  // ---- The end of the pattern, and errors ----

  lemma {:induction false} AllRead(top: Level)
    requires LevelOk(top, 1)
    ensures Reads(Spell([], top), Whole(top))
  {
    WholeSpell(top.alts, Cur(top));
  }
}
