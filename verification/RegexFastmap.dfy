/** The first-character filter: which characters a match of a pattern can start with, and the walk over the program
    that computes it. */
module RegexFastmap {
  import opened RegexSyntax
  import opened RegexCode
  import opened RegexMachine
  import opened RegexJumps
  import opened RegexRewrite

  // ---- By the pattern ----

  predicate Nullable(r: Re) {
    match r
    case Eps => true
    case Skip(_) => true
    case Group(_, _, body) => Nullable(body)
    case Rep(body, ops) => ZeroOk(ops) || Nullable(body)
    case Cat(a, b) => Nullable(a) && Nullable(b)
    case Alt(a, b) => Nullable(a) || Nullable(b)
    case _ => false
  }

  /** A match of `r` that is not empty can start with `ch`. */
  predicate Starts(f: Flags, r: Re, ch: byte) {
    match r
    case Lit(s) => s != [] && s[0] == ch
    case Any => f.dotNewline || ch != 10
    case Set(neg, bits) => SetHas(neg, bits, ch)
    case Group(_, _, body) => Starts(f, body, ch)
    case Rep(body, _) => Starts(f, body, ch)
    case Cat(a, b) => Starts(f, a, ch) || (Nullable(a) && Starts(f, b, ch))
    case Alt(a, b) => Starts(f, a, ch) || Starts(f, b, ch)
    case _ => false
  }

  lemma {:induction false} StartsOk(f: Flags, r: Re, t: seq<byte>, i: nat, j: nat)
    requires i <= j <= |t| && M(f, r, t, i, j) && Simple(r)
    ensures if i == j then Nullable(r) else Starts(f, r, t[i])
    decreases r, 0, 0
  {
    match r
    case Lit(s) => assert i < j ==> t[i..j][0] == t[i];
    case Group(_, _, body) => StartsOk(f, body, t, i, j);
    case Cat(a, b) =>
      var m: nat :| i <= m <= j && M(f, a, t, i, m) && M(f, b, t, m, j);
      StartsOk(f, a, t, i, m);
      StartsOk(f, b, t, m, j);
    case Alt(a, b) => if M(f, a, t, i, j) { StartsOk(f, a, t, i, j); } else { StartsOk(f, b, t, i, j); }
    case Rep(body, ops) =>
      if !ManyOk(ops) {
        if M(f, body, t, i, j) { StartsOk(f, body, t, i, j); }
      } else if ZeroOk(ops) {
        IterStarts(f, body, t, i, j);
      } else {
        var m: nat :| i <= m <= j && M(f, body, t, i, m) && Iter(f, body, t, m, j);
        StartsOk(f, body, t, i, m);
        IterStarts(f, body, t, m, j);
      }
    case _ =>
  }

  lemma {:induction false} IterStarts(f: Flags, r: Re, t: seq<byte>, i: nat, j: nat)
    requires i <= j <= |t| && Iter(f, r, t, i, j) && Simple(r)
    ensures i < j ==> Starts(f, r, t[i])
    decreases r, 1, j - i
  {
    if i < j {
      var m: nat :| i < m <= j && M(f, r, t, i, m) && Iter(f, r, t, m, j);
      StartsOk(f, r, t, i, m);
    }
  }

  // ---- By the program ----

  /** Where the walk goes from the jump at `p`. A jump back means that a loop body has matched nothing: the walk goes
      where the on_failure_jump that starts the loop leads. */
  function Through(c: seq<byte>, p: nat): int {
    if Extract(c, p + 1) > 0 || B(c, Target(c, p)) != ON_FAILURE_JUMP then Target(c, p) else Target(c, Target(c, p))
  }

  predicate Consuming(op: byte) {
    op == EXACTN || op == ANYCHAR || op == CHARSET || op == CHARSET_NOT
  }

  /** The address after an instruction that consumes nothing and is not on_failure_jump. */
  function After(c: seq<byte>, p: nat): int
    requires p < |c|
  {
    if JUMP <= c[p] <= DUMMY_FAILURE_JUMP then Through(c, p) else p + Len(c, p)
  }

  /** The consuming instructions that can be reached from `p` without consuming anything. */
  function Firsts(c: seq<byte>, p: nat): set<nat>
    decreases |c| - p
  {
    if p >= |c| then {}
    else if Consuming(c[p]) then {p}
    else if c[p] == ON_FAILURE_JUMP then
      Firsts(c, p + 3) + if Target(c, p) > p then Firsts(c, Target(c, p)) else {}
    else if After(c, p) > p then Firsts(c, After(c, p))
    else {}
  }

  /** The end of the program can be reached from `p` without consuming anything. */
  predicate NullAt(c: seq<byte>, p: nat)
    decreases |c| - p
  {
    if p >= |c| then true
    else if Consuming(c[p]) then false
    else if c[p] == ON_FAILURE_JUMP then NullAt(c, p + 3) || (Target(c, p) > p && NullAt(c, Target(c, p)))
    else After(c, p) > p && NullAt(c, After(c, p))
  }

  predicate MapHas(c: seq<byte>, p: nat, ch: byte) {
    ch < 8 * B(c, p) && Bit(B(c, p + 1 + ch / 8), ch % 8)
  }

  /** The instruction at `q` can consume `ch`. */
  predicate Takes(f: Flags, c: seq<byte>, q: nat, ch: byte) {
    var op := B(c, q);
    if op == EXACTN then B(c, q + 2) == ch
    else if op == CHARSET then MapHas(c, q + 1, ch)
    else if op == CHARSET_NOT then !MapHas(c, q + 1, ch)
    else op == ANYCHAR && (f.dotNewline || ch != 10)
  }

  ghost predicate CanStart(f: Flags, c: seq<byte>, p: nat, ch: byte) {
    exists q :: q in Firsts(c, p) && Takes(f, c, q, ch)
  }

  /** From `p` on, the walk only meets instructions it knows, only goes forward, and does not look past the end. */
  predicate Walks(c: seq<byte>, p: nat)
    decreases |c| - p
  {
    p == |c| || (
      && p < |c|
      && (c[p] == ON_FAILURE_JUMP ==> p + 3 <= |c| && p < Target(c, p) && Walks(c, p + 3) && Walks(c, Target(c, p)))
      && (c[p] != ON_FAILURE_JUMP && !Consuming(c[p]) ==>
        && (c[p] == START_MEMORY || c[p] == STOP_MEMORY || c[p] == PUSH_DUMMY_FAILURE || JUMP <= c[p] <= DUMMY_FAILURE_JUMP)
        && (JUMP <= c[p] <= DUMMY_FAILURE_JUMP && Extract(c, p + 1) <= 0 ==> 0 <= Target(c, p) < |c|)
        && p < After(c, p) && Walks(c, After(c, p))))
  }

  /** What can start a match from `to` can start one from `p`, and the walk from `p` is well-behaved if it is from `to`. */
  ghost predicate Reaches(f: Flags, c: seq<byte>, p: nat, to: nat) {
    Firsts(c, to) <= Firsts(c, p) && (NullAt(c, to) ==> NullAt(c, p))
  }

  /** Nothing follows the last bar. */
  predicate EmptyEnd(r: Re) {
    if r.Alt? then EmptyEnd(r.b) else Code(r) == []
  }

  /** Alternatives stand only at the top and directly inside groups. */
  predicate Plain(r: Re) {
    match r
    case Lit(s) => 1 <= |s| <= 255
    case Set(_, bits) => |bits| <= 32
    case Group(_, _, body) => Plain(body)
    case Rep(body, _) => !body.Alt? && Plain(body)
    case Interval(_, _, _) => false
    case Cat(a, b) => !a.Alt? && !b.Alt? && Plain(a) && Plain(b)
    case Alt(a, b) => !a.Alt? && Plain(a) && Plain(b)
    case _ => true
  }

  lemma {:induction false} ShapedIsPlain(r: Re)
    requires (Shaped(r) || ShapedCat(r) || ShapedItem(r)) && !HasInterval(r)
    ensures Plain(r) && (ShapedCat(r) || ShapedItem(r) ==> !r.Alt?)
  {
    assert !r.Alt? ==> (Shaped(r) <==> ShapedCat(r));
    assert !r.Cat? ==> (ShapedCat(r) <==> ShapedItem(r));
    match r
    case Group(_, _, body) => ShapedIsPlain(body);
    case Rep(body, _) => ShapedIsPlain(body);
    case Cat(a, b) =>
      ShapedIsPlain(a);
      ShapedIsPlain(b);
    case Alt(a, b) =>
      ShapedIsPlain(a);
      ShapedIsPlain(b);
    case _ =>
  }

  /** A piece of a pattern, somewhere in a program. */
  ghost predicate Piece(c: seq<byte>, p: nat, r: Re) {
    Plain(r) && At(c, p, Code(r)) && |c| < 32768 && (r.Alt? ==> B(c, p + |Code(r)|) != ON_FAILURE_JUMP)
    && (r.Alt? && EmptyEnd(r) ==> p + |Code(r)| < |c|)
  }

  /** The walk finds every character that a piece of the pattern can start with, and walks over it if it can be
      empty. */
  lemma {:induction false} PieceFound(f: Flags, c: seq<byte>, p: nat, r: Re, ch: byte)
    requires Piece(c, p, r)
    ensures Starts(f, r, ch) ==> CanStart(f, c, p, ch)
    ensures Nullable(r) ==> Reaches(f, c, p, p + |Code(r)|)
    ensures Walks(c, p + |Code(r)|) || !Nullable(r) ==> Walks(c, p)
    decreases r, 1
  {
    match r
    case Lit(s) => LitFound(f, c, p, s, ch);
    case Any => AnyFound(f, c, p, ch);
    case Set(neg, bits) => SetFound(f, c, p, neg, bits, ch);
    case Group(n, inner, body) => GroupFound(f, c, p, r, ch);
    case Rep(body, ops) => RepFound(f, c, p, r, ch);
    case Cat(a, b) => CatFound(f, c, p, r, ch);
    case Alt(a, b) => AltFound(f, c, p, r, ch);
    case _ =>
  }

  /** What an instruction can consume is what the item that it is made from can begin with. */
  lemma {:induction false} TakesMeans(f: Flags, c: seq<byte>, p: nat, r: Re, ch: byte)
    requires At(c, p, Code(r)) && Plain(r)
    ensures r.Set? ==> (Takes(f, c, p, ch) <==> Lang(f, r, [ch]))
    ensures r.Lit? ==> (Takes(f, c, p, ch) <==> ch == r.s[0])
    ensures r.Any? ==> (Takes(f, c, p, ch) <==> ch != 10 || f.dotNewline)
  {
    match r
    case Lit(s) => LitFound(f, c, p, s, ch); AtIndex(c, p, Code(r), 0); AtIndex(c, p, Code(r), 2);
    case Set(neg, bits) => SetBytes(c, p, neg, bits, ch); AtIndex(c, p, Code(r), 0);
    case Any => AtIndex(c, p, Code(r), 0);
    case _ =>
  }

  lemma AnyFound(f: Flags, c: seq<byte>, p: nat, ch: byte)
    requires At(c, p, Code(Any))
    ensures Starts(f, Any, ch) ==> CanStart(f, c, p, ch)
    ensures Walks(c, p)
  {
    AtIndex(c, p, Code(Any), 0);
    assert p in Firsts(c, p);
  }

  lemma {:induction false} CatFound(f: Flags, c: seq<byte>, p: nat, r: Re, ch: byte)
    requires Piece(c, p, r) && r.Cat?
    ensures Starts(f, r, ch) ==> CanStart(f, c, p, ch)
    ensures Nullable(r) ==> Reaches(f, c, p, p + |Code(r)|)
    ensures Walks(c, p + |Code(r)|) || !Nullable(r) ==> Walks(c, p)
    decreases r, 0
  {
    var n := |Code(r.a)|;
    assert |Code(r)| == n + |Code(r.b)|;
    AtConcat(c, p, Code(r.a), Code(r.b));
    hide Code, At, Firsts, NullAt, Walks;
    PieceFound(f, c, p, r.a, ch);
    PieceFound(f, c, p + n, r.b, ch);
  }

  lemma {:induction false} LitFound(f: Flags, c: seq<byte>, p: nat, s: seq<byte>, ch: byte)
    requires At(c, p, Code(Lit(s))) && 1 <= |s| <= 255
    ensures Starts(f, Lit(s), ch) ==> CanStart(f, c, p, ch)
    ensures Walks(c, p)
  {
    AtIndex(c, p, Code(Lit(s)), 0);
    AtIndex(c, p, Code(Lit(s)), 2);
    assert p in Firsts(c, p);
  }

  lemma {:induction false} SetFound(f: Flags, c: seq<byte>, p: nat, neg: bool, bits: seq<byte>, ch: byte)
    requires At(c, p, Code(Set(neg, bits))) && |bits| <= 32
    ensures Starts(f, Set(neg, bits), ch) ==> CanStart(f, c, p, ch)
    ensures Walks(c, p)
  {
    AtIndex(c, p, Code(Set(neg, bits)), 0);
    SetBytes(c, p, neg, bits, ch);
    assert p in Firsts(c, p);
  }

  lemma {:induction false} SetBytes(c: seq<byte>, p: nat, neg: bool, bits: seq<byte>, ch: byte)
    requires At(c, p, Code(Set(neg, bits))) && |bits| <= 32
    ensures MapHas(c, p + 1, ch) == InMap(bits, ch)
  {
    var code := Code(Set(neg, bits));
    AtIndex(c, p, code, 1);
    assert B(c, p + 1) == |bits|;
    if ch < 8 * |bits| {
      AtIndex(c, p, code, 2 + ch / 8);
      assert code[2 + ch / 8] == bits[ch / 8];
    }
  }

  lemma {:induction false} GroupFound(f: Flags, c: seq<byte>, p: nat, r: Re, ch: byte)
    requires Piece(c, p, r) && r.Group?
    ensures Starts(f, r, ch) ==> CanStart(f, c, p, ch)
    ensures Nullable(r) ==> Reaches(f, c, p, p + |Code(r)|)
    ensures Walks(c, p + |Code(r)|) || !Nullable(r) ==> Walks(c, p)
    decreases r, 0
  {
    hide Code, Firsts, NullAt, Walks, At, Takes, Through, Target, Extract, EmptyEnd;
    var body := r.body;
    var k, e := |Code(body)|, |EndOfAlts(body)|;
    GroupBytes(c, p, r);
    BracketReaches(f, c, p, k, e);
    PieceFound(f, c, p + 3, body, ch);
  }

  /** The commands around the body of a group. */
  lemma {:induction false} GroupBytes(c: seq<byte>, p: nat, r: Re)
    requires r.Group? && Plain(r) && At(c, p, Code(r)) && |c| < 32768
    ensures var k, e := |Code(r.body)|, |EndOfAlts(r.body)|;
      && |Code(r)| == 6 + k + e && p + 6 + k + e <= |c| && e <= 1 && (r.body.Alt? <==> e == 1)
      && c[p] == START_MEMORY && c[p + 3 + k + e] == STOP_MEMORY && (e == 1 ==> c[p + 3 + k] == PUSH_DUMMY_FAILURE)
      && Piece(c, p + 3, r.body)
  {
    GroupParts(c, p, r.n, r.inner, r.body);
    var k, e := |Code(r.body)|, |EndOfAlts(r.body)|;
    hide Code;
    AtFits(c, p + 3 + k + e, [STOP_MEMORY, r.n % 256, r.inner % 256]);
    AtIndex(c, p, [START_MEMORY, r.n % 256, r.inner % 256], 0);
    AtIndex(c, p + 3 + k + e, [STOP_MEMORY, r.n % 256, r.inner % 256], 0);
    if r.body.Alt? { AtIndex(c, p + 3 + k, EndOfAlts(r.body), 0); }
  }

  lemma {:induction false} BracketReaches(f: Flags, c: seq<byte>, p: nat, k: nat, e: nat)
    requires p + 6 + k + e <= |c| && e <= 1 && c[p] == START_MEMORY && c[p + 3 + k + e] == STOP_MEMORY
    requires e == 1 ==> c[p + 3 + k] == PUSH_DUMMY_FAILURE
    ensures CanStarts(f, c, p + 3, p)
    ensures Reaches(f, c, p + 3, p + 3 + k) ==> Reaches(f, c, p, p + 6 + k + e)
    ensures (Walks(c, p + 6 + k + e) ==> Walks(c, p + 3 + k)) && (Walks(c, p + 3) ==> Walks(c, p))
  {
    assert Reaches(f, c, p, p + 3) && Reaches(f, c, p + 3 + k, p + 6 + k + e);
  }

  /** A character that can start a match from `p` can start one from `q`. */
  ghost predicate CanStarts(f: Flags, c: seq<byte>, p: nat, q: nat) {
    forall ch: byte | CanStart(f, c, p, ch) :: CanStart(f, c, q, ch)
  }

  lemma {:induction false} RepFound(f: Flags, c: seq<byte>, p: nat, r: Re, ch: byte)
    requires Piece(c, p, r) && r.Rep?
    ensures Starts(f, r, ch) ==> CanStart(f, c, p, ch)
    ensures Nullable(r) ==> Reaches(f, c, p, p + |Code(r)|)
    ensures Walks(c, p + |Code(r)|) || !Nullable(r) ==> Walks(c, p)
    decreases r, 0
  {
    hide Code, Firsts, NullAt, Walks, At, Jmp, Reaches, CanStart;
    var body, zero, many := r.body, ZeroOk(r.ops), ManyOk(r.ops);
    var h := RepPiece(c, p, r);
    LoopReaches(f, c, p, h, |Code(body)|, zero, many);
    PieceFound(f, c, h + 3, body, ch);
    assert Nullable(r) == (zero || Nullable(body)) && Starts(f, r, ch) == Starts(f, body, ch);
  }

  lemma {:induction false} RepPiece(c: seq<byte>, p: nat, r: Re) returns (h: nat)
    requires Piece(c, p, r) && r.Rep?
    ensures Piece(c, h + 3, r.body)
    ensures var k, zero, many := |Code(r.body)|, ZeroOk(r.ops), ManyOk(r.ops);
      && (h == if zero then p else p + 3)
      && (!zero ==> At(c, p, Jmp(DUMMY_FAILURE_JUMP, 3)))
      && At(c, h, Jmp(ON_FAILURE_JUMP, k + if many then 3 else 0))
      && (many ==> At(c, h + 3 + k, Jmp(MAYBE_POP_JUMP, -(k + 6))))
      && p + |Code(r)| == h + 3 + k + (if many then 3 else 0) <= |c|
  {
    assert Code(r) == RepCode(Code(r.body), ZeroOk(r.ops), ManyOk(r.ops));
    h := RepParts(c, p, Code(r.body), ZeroOk(r.ops), ManyOk(r.ops));
    AtFits(c, p, Code(r));
  }

  lemma {:induction false} LoopReaches(f: Flags, c: seq<byte>, p: nat, h: nat, k: nat, zero: bool, many: bool)
    requires h == if zero then p else p + 3
    requires !zero ==> At(c, p, Jmp(DUMMY_FAILURE_JUMP, 3))
    requires At(c, h, Jmp(ON_FAILURE_JUMP, k + if many then 3 else 0))
    requires many ==> At(c, h + 3 + k, Jmp(MAYBE_POP_JUMP, -(k + 6)))
    requires h + 3 + k + (if many then 3 else 0) <= |c| < 32768
    ensures var end := h + 3 + k + if many then 3 else 0;
      && CanStarts(f, c, h + 3, p)
      && (zero || Reaches(f, c, h + 3, h + 3 + k) ==> Reaches(f, c, p, end))
      && (Walks(c, end) ==> Walks(c, h + 3 + k)) && ((zero ==> Walks(c, end)) && Walks(c, h + 3) ==> Walks(c, p))
  {
    hide At, Jmp;
    JmpAt(c, h, ON_FAILURE_JUMP, k + if many then 3 else 0);
    var end := h + 3 + k + if many then 3 else 0;
    if !zero {
      JmpAt(c, p, DUMMY_FAILURE_JUMP, 3);
      assert Through(c, p) == h + 3;
    }
    if many {
      JmpAt(c, h + 3 + k, MAYBE_POP_JUMP, -(k + 6));
      assert Through(c, h + 3 + k) == end;
    }
    assert Reaches(f, c, p, h + 3) && Reaches(f, c, h + 3 + k, end) && (zero ==> Reaches(f, c, p, end));
  }

  lemma PastAltIs(b: Re)
    ensures PastAlt(b) == if b.Alt? then 3 + |Code(b.a)| else |Code(b)|
  {
  }

  /** The jump of an alternative leads past the next one, */
  lemma {:induction false} NextJumpAt(c: seq<byte>, p: nat, a: Re, b: Re) returns (n: nat)
    requires At(c, p, Code(Alt(a, b))) && |c| < 32768
    ensures var q := p + 3 + |Code(a)|;
      && At(c, q, Jmp(JUMP_PAST_ALT, n)) && q + 3 + n <= |c| && p + |Code(Alt(a, b))| == q + 3 + |Code(b)|
      && if b.Alt? then n == 3 + |Code(b.a)| && B(c, q + 3 + n) != ON_FAILURE_JUMP && At(c, q + 3, Code(Alt(b.a, b.b)))
         else n == |Code(b)|
  {
    hide At, Code, Jmp, Target;
    AltParts(c, p, a, b);
    AtFits(c, p, Code(Alt(a, b)));
    PastAltIs(b);
    n := PastAlt(b);
    if b.Alt? {
      AltParts(c, p + 6 + |Code(a)|, b.a, b.b);
      AtFits(c, p + 6 + |Code(a)|, Code(b));
      JmpAt(c, p + 9 + |Code(a)| + |Code(b.a)|, JUMP_PAST_ALT, PastAlt(b.b));
    }
  }

  /** and the walk goes there. */
  lemma {:induction false} JumpsTo(f: Flags, c: seq<byte>, q: nat, n: nat)
    requires At(c, q, Jmp(JUMP_PAST_ALT, n)) && q + 3 + n <= |c| < 32768 && B(c, q + 3 + n) != ON_FAILURE_JUMP
    requires n == 0 ==> q + 3 < |c|
    ensures Reaches(f, c, q, q + 3 + n) && (Walks(c, q) <==> Walks(c, q + 3 + n))
  {
    hide At, Jmp, Extract;
    JmpAt(c, q, JUMP_PAST_ALT, n);
    assert Through(c, q) == q + 3 + n;
  }

  /** From the end of an alternative to the end of all. */
  lemma {:induction false} PastAlternatives(f: Flags, c: seq<byte>, p: nat, a: Re, b: Re)
    requires At(c, p, Code(Alt(a, b))) && |c| < 32768 && B(c, p + |Code(Alt(a, b))|) != ON_FAILURE_JUMP
    requires EmptyEnd(b) ==> p + |Code(Alt(a, b))| < |c|
    ensures Reaches(f, c, p + 3 + |Code(a)|, p + |Code(Alt(a, b))|)
    ensures Walks(c, p + |Code(Alt(a, b))|) ==> Walks(c, p + 3 + |Code(a)|)
    decreases b
  {
    hide At, Code, Jmp, Firsts, NullAt, Walks;
    var n := NextJumpAt(c, p, a, b);
    JumpsTo(f, c, p + 3 + |Code(a)|, n);
    if b.Alt? { PastAlternatives(f, c, p + 6 + |Code(a)|, b.a, b.b); }
  }

  lemma {:induction false} AltFound(f: Flags, c: seq<byte>, p: nat, r: Re, ch: byte)
    requires Piece(c, p, r) && r.Alt?
    ensures Starts(f, r, ch) ==> CanStart(f, c, p, ch)
    ensures Nullable(r) ==> Reaches(f, c, p, p + |Code(r)|)
    ensures Walks(c, p + |Code(r)|) || !Nullable(r) ==> Walks(c, p)
    decreases r, 0
  {
    hide Code, At, Jmp, Firsts, NullAt, Walks, Takes, Through, Target, Extract;
    var a, b := r.a, r.b;
    AltParts(c, p, a, b);
    AtFits(c, p, Code(r));
    PastAlternatives(f, c, p, a, b);
    AltReaches(f, c, p, |Code(a)|);
    PieceFound(f, c, p + 3, a, ch);
    PieceFound(f, c, p + 6 + |Code(a)|, b, ch);
  }

  /** Both ways of the jump in front of an alternative are walked. */
  lemma {:induction false} AltReaches(f: Flags, c: seq<byte>, p: nat, n: nat)
    requires At(c, p, Jmp(ON_FAILURE_JUMP, n + 3)) && n + 3 < 32768
    ensures CanStarts(f, c, p + 3, p) && CanStarts(f, c, p + 6 + n, p)
    ensures Reaches(f, c, p, p + 3) && Reaches(f, c, p, p + 6 + n)
    ensures Walks(c, p + 3) && Walks(c, p + 6 + n) ==> Walks(c, p)
  {
    AtFits(c, p, Jmp(ON_FAILURE_JUMP, n + 3));
    JmpAt(c, p, ON_FAILURE_JUMP, n + 3);
    hide At, Jmp, Target, Takes;
  }

  // ---- Walking over the end ----

  /** One of the alternatives before the last can be empty. */
  predicate EarlierNullable(r: Re) {
    r.Alt? && (Nullable(r.a) || EarlierNullable(r.b))
  }

  /** A walk that begins at a piece that can be empty goes on behind it. */
  lemma {:induction false} WalkPasses(c: seq<byte>, p: nat, r: Re)
    requires Plain(r) && At(c, p, Code(r)) && |c| < 32768 && Nullable(r) && Walks(c, p)
    requires r.Alt? ==> p + |Code(r)| < |c| && B(c, p + |Code(r)|) != ON_FAILURE_JUMP
    ensures Walks(c, p + |Code(r)|)
    decreases r, 1
  {
    hide Code, At, Walks;
    match r
    case Group(_, _, _) => WalkPassesGroup(c, p, r);
    case Rep(_, _) => WalkPassesRep(c, p, r);
    case Cat(a, b) =>
      CatBytes(c, p, r);
      WalkPasses(c, p, a);
      WalkPasses(c, p + |Code(a)|, b);
    case Alt(_, _) => WalkPassesAlt(c, p, r);
    case _ => NoBytes(r);
  }

  lemma CatBytes(c: seq<byte>, p: nat, r: Re)
    requires r.Cat? && At(c, p, Code(r))
    ensures At(c, p, Code(r.a)) && At(c, p + |Code(r.a)|, Code(r.b)) && |Code(r)| == |Code(r.a)| + |Code(r.b)|
  {
    AtConcat(c, p, Code(r.a), Code(r.b));
  }

  lemma {:induction false} NoBytes(r: Re)
    requires Plain(r) && Nullable(r) && (r.Eps? || r.Skip? || r.Lit? || r.Any? || r.Set? || r.Interval?)
    ensures Code(r) == []
  {
  }

  lemma {:induction false} WalkPassesGroup(c: seq<byte>, p: nat, r: Re)
    requires r.Group? && Plain(r) && At(c, p, Code(r)) && |c| < 32768 && Nullable(r) && Walks(c, p)
    ensures Walks(c, p + |Code(r)|)
    decreases r, 0
  {
    hide Code, At, Walks, EmptyEnd;
    var body := r.body;
    GroupBytes(c, p, r);
    BracketPasses(c, p, |Code(body)|, |EndOfAlts(body)|);
    WalkPasses(c, p + 3, body);
  }

  lemma {:induction false} BracketPasses(c: seq<byte>, p: nat, k: nat, e: nat)
    requires p + 3 + k + e < |c| && e <= 1 && c[p] == START_MEMORY && c[p + 3 + k + e] == STOP_MEMORY
    requires e == 1 ==> c[p + 3 + k] == PUSH_DUMMY_FAILURE
    ensures Walks(c, p) ==> Walks(c, p + 3)
    ensures Walks(c, p + 3 + k) ==> Walks(c, p + 6 + k + e)
  {
    assert Walks(c, p + 3 + k + e) ==> Walks(c, p + 6 + k + e);
  }

  lemma {:induction false} WalkPassesRep(c: seq<byte>, p: nat, r: Re)
    requires r.Rep? && Plain(r) && At(c, p, Code(r)) && |c| < 32768 && Nullable(r) && Walks(c, p)
    ensures Walks(c, p + |Code(r)|)
    decreases r, 0
  {
    hide Code, At, Jmp, Walks, Extract, Target, Through;
    var body, zero, many := r.body, ZeroOk(r.ops), ManyOk(r.ops);
    var h := RepPiece(c, p, r);
    var k := |Code(body)|;
    LoopPasses(c, p, h, k, zero, many);
    if !zero { WalkPasses(c, h + 3, body); }
  }

  lemma {:induction false} LoopPasses(c: seq<byte>, p: nat, h: nat, k: nat, zero: bool, many: bool)
    requires h == if zero then p else p + 3
    requires !zero ==> At(c, p, Jmp(DUMMY_FAILURE_JUMP, 3))
    requires At(c, h, Jmp(ON_FAILURE_JUMP, k + if many then 3 else 0))
    requires many ==> At(c, h + 3 + k, Jmp(MAYBE_POP_JUMP, -(k + 6)))
    requires h + 3 + k + (if many then 3 else 0) <= |c| < 32768
    ensures var end := h + 3 + k + if many then 3 else 0;
      && (zero && Walks(c, p) ==> Walks(c, end))
      && (!zero && Walks(c, p) ==> Walks(c, h + 3)) && (Walks(c, h + 3 + k) ==> Walks(c, end))
  {
    hide At, Jmp;
    JmpAt(c, h, ON_FAILURE_JUMP, k + if many then 3 else 0);
    if !zero {
      JmpAt(c, p, DUMMY_FAILURE_JUMP, 3);
      assert Through(c, p) == h + 3;
    }
    if many {
      JmpAt(c, h + 3 + k, MAYBE_POP_JUMP, -(k + 6));
      assert Through(c, h + 3 + k) == h + 6 + k;
    }
  }

  /** The walk goes both ways from the jump in front of an alternative. */
  lemma {:induction false} AltWalks(c: seq<byte>, p: nat, n: nat)
    requires At(c, p, Jmp(ON_FAILURE_JUMP, n + 3)) && p + 6 + n <= |c| < 32768
    ensures Walks(c, p) <==> Walks(c, p + 3) && Walks(c, p + 6 + n)
  {
    JmpAt(c, p, ON_FAILURE_JUMP, n + 3);
    hide At, Jmp, Target;
  }

  lemma {:induction false} WalkPassesAlt(c: seq<byte>, p: nat, r: Re)
    requires r.Alt? && Plain(r) && At(c, p, Code(r)) && |c| < 32768 && Nullable(r) && Walks(c, p)
    requires p + |Code(r)| < |c| && B(c, p + |Code(r)|) != ON_FAILURE_JUMP
    ensures Walks(c, p + |Code(r)|)
    decreases r, 0
  {
    hide Code, At, Jmp, Walks, Target, Extract, Through, EmptyEnd;
    var a, b := r.a, r.b;
    AltParts(c, p, a, b);
    AltWalks(c, p, |Code(a)|);
    if Nullable(a) {
      WalkPasses(c, p + 3, a);
      JumpPasses(c, p, a, b);
    } else {
      WalkPasses(c, p + 6 + |Code(a)|, b);
    }
  }

  /** From the end of an alternative the walk goes on to the end of all. */
  lemma {:induction false} JumpPasses(c: seq<byte>, p: nat, a: Re, b: Re)
    requires At(c, p, Code(Alt(a, b))) && p + |Code(Alt(a, b))| < |c| < 32768
    requires B(c, p + |Code(Alt(a, b))|) != ON_FAILURE_JUMP && Walks(c, p + 3 + |Code(a)|)
    ensures Walks(c, p + |Code(Alt(a, b))|)
    decreases b
  {
    hide At, Code, Jmp, Walks, Reaches;
    var n := NextJumpAt(c, p, a, b);
    JumpsTo(Flags(true, true), c, p + 3 + |Code(a)|, n);
    if b.Alt? { JumpPasses(c, p + 6 + |Code(a)|, b.a, b.b); }
  }

  /** If nothing follows the last bar, the jumps over the alternatives lead past the end of the program. */
  lemma {:induction false} JumpsPastEnd(c: seq<byte>, p: nat, a: Re, b: Re)
    requires At(c, p, Code(Alt(a, b))) && |c| < 32768 && p + |Code(Alt(a, b))| == |c| && EmptyEnd(b)
    ensures !Walks(c, p + 3 + |Code(a)|)
    decreases b
  {
    hide At, Code, Walks, Jmp, Reaches;
    var n := NextJumpAt(c, p, a, b);
    if b.Alt? {
      JumpsTo(Flags(true, true), c, p + 3 + |Code(a)|, n);
      JumpsPastEnd(c, p + 6 + |Code(a)|, b.a, b.b);
    } else {
      JumpsNowhere(c, p + 3 + |Code(a)|);
    }
  }

  lemma {:induction false} JumpsNowhere(c: seq<byte>, q: nat)
    requires At(c, q, Jmp(JUMP_PAST_ALT, 0)) && q + 3 == |c| < 32768
    ensures !Walks(c, q)
  {
    JmpAt(c, q, JUMP_PAST_ALT, 0);
  }

  /** The walk stays inside the program exactly if it does not have to jump over an alternative that can be empty when
      nothing follows the last bar. */
  lemma {:induction false} WalksExactly(c: seq<byte>, p: nat, r: Re)
    requires Plain(r) && At(c, p, Code(r)) && p + |Code(r)| == |c| < 32768
    ensures Walks(c, p) <==> !(EmptyEnd(r) && EarlierNullable(r))
    decreases r
  {
    hide At, Jmp, Walks, Target, Extract, Through;
    WalksEnd(c);
    if r.Alt? && EmptyEnd(r) {
      var a, b := r.a, r.b;
      AltParts(c, p, a, b);
      AltWalks(c, p, |Code(a)|);
      PieceFound(Flags(true, true), c, p + 3, a, 0);
      WalksExactly(c, p + 6 + |Code(a)|, b);
      if Nullable(a) && Walks(c, p + 3) {
        WalkPasses(c, p + 3, a);
        JumpsPastEnd(c, p, a, b);
      }
    } else {
      PieceFound(Flags(true, true), c, p, r, 0);
    }
  }

  lemma WalksEnd(c: seq<byte>)
    ensures Walks(c, |c|)
  {
  }

  /** With nothing behind the last bar, the walk can tell that the pattern can be empty. */
  lemma {:induction false} EmptyEndNull(c: seq<byte>, p: nat, r: Re)
    requires r.Alt? && EmptyEnd(r) && At(c, p, Code(r)) && p + |Code(r)| == |c| < 32768
    ensures NullAt(c, p)
    decreases r
  {
    var a, b := r.a, r.b;
    AltParts(c, p, a, b);
    AtFits(c, p, Code(r));
    JmpAt(c, p, ON_FAILURE_JUMP, |Code(a)| + 3);
    hide At, Jmp;
    if b.Alt? { EmptyEndNull(c, p + 6 + |Code(a)|, b); }
  }
}
