/** What `re_match_2` makes of a pattern: the pattern with every loop replaced that the matcher does not treat as a loop.
    Two tests of the matcher read the program inexactly. Both can be told from the pattern, before any match. */
module RegexEffect {
  import opened RegexSyntax
  import opened RegexCode

  function Loop(body: Re): Re {
    Rep(body, [Star])
  }

  // ---- What follows a loop ----

  /** What `maybe_pop_jump` finds behind its loop, open- and close-group commands skipped: the end of the program, a
      literal with its first character, or anything else. */
  datatype Next = End | Char(c: byte) | Other

  /** What it finds at the start of `r`, if `nx` is what it finds behind `r`. */
  function Seen(r: Re, nx: Next): Next {
    match r
    case Eps => nx
    case Skip(_) => nx
    case Lit(s) => if s == [] then Other else Char(s[0])
    case Group(_, _, body) => Seen(body, Inside(body, nx))
    case Cat(a, b) => Seen(a, Seen(b, nx))
    case _ => Other
  }

  /** What follows the body of a group: several alternatives end in a dummy failure point of their own. */
  function Inside(body: Re, nx: Next): Next {
    if body.Alt? then Other else nx
  }

  // ---- The two misreadings ----

  /** The byte two before the end of the group is 5, the opcode of an open group: `stop_memory` takes the iteration for an
      empty one and leaves the loop. */
  predicate Misread(body: Re) {
    body.Group? && var code := Code(body); |code| >= 5 && code[|code| - 5] == START_MEMORY
  }

  /** The loop gives up the position in front of each character it takes, although that character could start what follows:
      the bitmap has 32 bytes, a size that the test loses, and it holds the literal's first character. */
  predicate Doomed(body: Re, nx: Next) {
    body.Set? && !body.neg && |body.bits| == 32 && nx.Char? && InMap(body.bits, nx.c)
  }

  /** No character is in it. */
  const NOTHING := Set(false, [])

  /** The pattern that is in effect matched in place of `r` when `nx` follows. */
  function Effective(r: Re, nx: Next): Re {
    match r
    case Group(n, inner, body) => Group(n, inner, Effective(body, Inside(body, nx)))
    case Rep(body, ops) =>
      if !ManyOk(ops) then Rep(Effective(body, nx), ops)
      else if Doomed(body, nx) then NOTHING
      else if !Misread(body) then Rep(Effective(body, Other), ops)
      else if ZeroOk(ops) then Rep(Effective(body, Other), [Quest])
      else Effective(body, Other)
    case Cat(a, b) => Cat(Effective(a, Seen(b, nx)), Effective(b, nx))
    case Alt(a, b) => Alt(Effective(a, Other), Effective(b, nx))
    case _ => r
  }

  /** The whole pattern as it is in effect matched. */
  function Effect(r: Re): Re {
    Effective(r, End)
  }

  /** Nothing is misread. */
  predicate Clean(r: Re) {
    Effect(r) == r
  }

  // ---- Patterns that are matched as they are ----

  /** A set whose bitmap takes all 32 bytes. */
  predicate FullSet(r: Re) {
    r.Set? && !r.neg && |r.bits| == 32
  }

  /** A group whose code has byte 5 five bytes before its end. */
  predicate FiveBeforeEnd(r: Re) {
    r.Group? && var code := Code(r); |code| >= 5 && code[|code| - 5] == 5
  }

  /** No such set and no such group stands under a `*` or a `+`. */
  predicate Exact(r: Re) {
    match r
    case Group(_, _, body) => Exact(body)
    case Rep(body, ops) => Exact(body) && (Star in ops || Plus in ops ==> !FullSet(body) && !FiveBeforeEnd(body))
    case Cat(a, b) => Exact(a) && Exact(b)
    case Alt(a, b) => Exact(a) && Exact(b)
    case _ => true
  }

  /** Nothing in them is misread, whatever follows. */
  lemma {:induction false} ExactIsClean(r: Re, nx: Next)
    requires Exact(r)
    ensures Effective(r, nx) == r
  {
    match r
    case Group(_, _, body) => ExactIsClean(body, Inside(body, nx));
    case Rep(body, ops) =>
      RunAllows(ops);
      ExactIsClean(body, nx);
      ExactIsClean(body, Other);
    case Cat(a, b) => ExactIsClean(a, Seen(b, nx)); ExactIsClean(b, nx);
    case Alt(a, b) => ExactIsClean(a, Other); ExactIsClean(b, nx);
    case _ =>
  }

  // ---- Nothing is matched that the pattern does not match ----

  lemma {:induction false} EffectIsPart(f: Flags, r: Re, nx: Next, t: seq<byte>, i: nat, j: nat)
    requires i <= j <= |t| && M(f, Effective(r, nx), t, i, j)
    ensures M(f, r, t, i, j)
    decreases r, 0, 0
  {
    match r
    case Group(_, _, body) => EffectIsPart(f, body, Inside(body, nx), t, i, j);
    case Rep(body, ops) => RepIsPart(f, r, nx, t, i, j);
    case Cat(a, b) =>
      var m: nat :| i <= m <= j && M(f, Effective(a, Seen(b, nx)), t, i, m) && M(f, Effective(b, nx), t, m, j);
      EffectIsPart(f, a, Seen(b, nx), t, i, m);
      EffectIsPart(f, b, nx, t, m, j);
    case Alt(a, b) =>
      if M(f, Effective(a, Other), t, i, j) {
        EffectIsPart(f, a, Other, t, i, j);
      } else {
        EffectIsPart(f, b, nx, t, i, j);
      }
    case _ =>
  }

  lemma {:induction false} RepIsPart(f: Flags, r: Re, nx: Next, t: seq<byte>, i: nat, j: nat)
    requires i <= j <= |t| && r.Rep? && M(f, Effective(r, nx), t, i, j)
    ensures M(f, r, t, i, j)
    decreases r.body, 2, 0
  {
    var body, ops := r.body, r.ops;
    if !ManyOk(ops) {
      if !(ZeroOk(ops) && i == j) { EffectIsPart(f, body, nx, t, i, j); }
    } else if !Doomed(body, nx) {
      if !Misread(body) {
        LoopIsPart(f, body, ops, t, i, j);
      } else {
        assert !ManyOk([Quest]) && ZeroOk([Quest]);
        if !(ZeroOk(ops) && i == j) {
          EffectIsPart(f, body, Other, t, i, j);
          assert Iter(f, body, t, j, j);
          IterCons(f, body, t, i, j, j);
        }
      }
    }
  }

  lemma {:induction false} LoopIsPart(f: Flags, body: Re, ops: seq<Op>, t: seq<byte>, i: nat, j: nat)
    requires i <= j <= |t| && ManyOk(ops) && M(f, Rep(Effective(body, Other), ops), t, i, j)
    ensures M(f, Rep(body, ops), t, i, j)
    decreases body, 1, 1 + j - i
  {
    if ZeroOk(ops) {
      IterIsPart(f, body, t, i, j);
    } else {
      var m: nat :| i <= m <= j && M(f, Effective(body, Other), t, i, m) && Iter(f, Effective(body, Other), t, m, j);
      EffectIsPart(f, body, Other, t, i, m);
      IterIsPart(f, body, t, m, j);
    }
  }

  lemma {:induction false} IterIsPart(f: Flags, body: Re, t: seq<byte>, i: nat, j: nat)
    requires i <= j <= |t| && Iter(f, Effective(body, Other), t, i, j)
    ensures Iter(f, body, t, i, j)
    decreases body, 1, j - i
  {
    if i != j {
      var m: nat :| i < m <= j && M(f, Effective(body, Other), t, i, m) && Iter(f, Effective(body, Other), t, m, j);
      EffectIsPart(f, body, Other, t, i, m);
      IterIsPart(f, body, t, m, j);
    }
  }

  // ---- What is seen says how a match can start ----

  /** Where the end of the program is seen, nothing but the empty string matches. */
  lemma {:induction false} EndSeen(f: Flags, r: Re, nx: Next, t: seq<byte>, i: nat, j: nat)
    requires i <= j <= |t| && Seen(r, nx).End?
    ensures nx.End? && (M(f, Effective(r, nx), t, i, j) <==> i == j)
  {
    match r
    case Group(_, _, body) => EndSeen(f, body, Inside(body, nx), t, i, j);
    case Cat(a, b) =>
      EndSeen(f, a, Seen(b, nx), t, i, i);
      EndSeen(f, b, nx, t, i, i);
      forall m: nat | i <= m <= j
        ensures M(f, Effective(a, Seen(b, nx)), t, i, m) <==> i == m
        ensures M(f, Effective(b, nx), t, m, j) <==> m == j
      {
        EndSeen(f, a, Seen(b, nx), t, i, m);
        EndSeen(f, b, nx, t, m, j);
      }
    case _ =>
  }

  /** Where a literal is seen, a match starts with its first character, or is empty in front of it. */
  lemma {:induction false} CharSeen(f: Flags, r: Re, nx: Next, t: seq<byte>, i: nat, j: nat)
    requires i <= j <= |t| && Seen(r, nx).Char? && M(f, Effective(r, nx), t, i, j)
    ensures (i < j && t[i] == Seen(r, nx).c) || (i == j && nx == Seen(r, nx))
  {
    match r
    case Lit(s) => assert t[i..j][0] == s[0];
    case Group(_, _, body) => CharSeen(f, body, Inside(body, nx), t, i, j);
    case Cat(a, b) =>
      var m: nat :| i <= m <= j && M(f, Effective(a, Seen(b, nx)), t, i, m) && M(f, Effective(b, nx), t, m, j);
      CharSeen(f, a, Seen(b, nx), t, i, m);
      if m == i { CharSeen(f, b, nx, t, m, j); }
    case _ =>
  }

  // ---- The popping test ----

  /** Whether the jump back of a loop over `body` pops the failure point of the iteration, with `nx` behind the loop. */
  predicate Pops(body: Re, nx: Next) {
    match nx
    case End => true
    case Other => false
    case Char(ch) =>
      match body
      case Lit(s) => s != [ch]
      case Set(neg, bits) => if neg then |bits| < 32 && InMap(bits, ch) else |bits| == 32 || !InMap(bits, ch)
      case _ => false
  }

  /** If a literal follows and the loop is not doomed, popping is right: the literal cannot start where an iteration has. */
  lemma PopIsRight(f: Flags, t: seq<byte>, body: Re, nx: Next, d: nat)
    requires Pops(body, nx) && nx.Char? && !Doomed(body, nx) && Repeatable(body) && d < |t| && AtomHas(f, t, body, d)
    ensures t[d] != nx.c
  {
    if body.Lit? { assert t[d..d + 1] == [t[d]]; }
  }

  /** A doomed loop stops only in front of a character that the literal behind it does not start with. */
  lemma DoomedStops(f: Flags, t: seq<byte>, body: Re, nx: Next, d: nat)
    requires Doomed(body, nx) && d < |t| && !AtomHas(f, t, body, d)
    ensures t[d] != nx.c
  {
  }

  lemma EffectiveAtom(r: Re, nx: Next)
    requires Atom(r)
    ensures Effective(r, nx) == r && !Misread(r)
  {
  }
}
