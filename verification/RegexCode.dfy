/** The byte program of a pattern: opcodes, two-byte relative addresses, and the code of each construct. */
module RegexCode {
  import opened RegexSyntax

  const EXACTN: byte := 1
  const ANYCHAR: byte := 2
  const CHARSET: byte := 3
  const CHARSET_NOT: byte := 4
  const START_MEMORY: byte := 5
  const STOP_MEMORY: byte := 6
  const JUMP: byte := 12
  const JUMP_PAST_ALT: byte := 13
  const ON_FAILURE_JUMP: byte := 14
  const POP_FAILURE_JUMP: byte := 16
  const MAYBE_POP_JUMP: byte := 17
  const DUMMY_FAILURE_JUMP: byte := 18
  const PUSH_DUMMY_FAILURE: byte := 19
  const SUCCEED_N: byte := 20
  const JUMP_N: byte := 21
  const SET_NUMBER_AT: byte := 22

  // ---- Numbers ----

  /** STORE_NUMBER: low byte first, in two's complement. */
  function Number(n: int): seq<byte> {
    [n % 256, (n / 256) % 256]
  }

  /** The byte at `p`, or 0 outside the program. */
  function B(c: seq<byte>, p: int): byte {
    if 0 <= p < |c| then c[p] else 0
  }

  /** EXTRACT_NUMBER: the high byte is sign-extended. */
  function Extract(c: seq<byte>, p: int): int {
    B(c, p) + 256 * (if B(c, p + 1) < 128 then B(c, p + 1) else B(c, p + 1) - 256)
  }

  /** Where the jump at `p` leads: its offset counts from the byte after the two-byte number. */
  function Target(c: seq<byte>, p: int): int {
    p + 3 + Extract(c, p + 1)
  }

  function Jmp(op: byte, n: int): seq<byte> {
    [op] + Number(n)
  }

  function Op2(op: byte, n: int, k: int): seq<byte> {
    [op] + Number(n) + Number(k)
  }

  // ---- Code ----

  function Code(r: Re): seq<byte>
    decreases r, 0
  {
    match r
    case Eps => []
    case Skip(_) => []
    case Lit(s) => [EXACTN, |s| % 256] + s
    case Any => [ANYCHAR]
    case Set(neg, bits) => [if neg then CHARSET_NOT else CHARSET, |bits| % 256] + bits
    case Group(n, inner, body) =>
      [START_MEMORY, n % 256, inner % 256] + Code(body) + EndOfAlts(body) + [STOP_MEMORY, n % 256, inner % 256]
    case Rep(body, ops) => RepCode(Code(body), ZeroOk(ops), ManyOk(ops))
    case Interval(body, lo, hi) => IntervalCode(Code(body), lo, hi)
    case Cat(a, b) => Code(a) + Code(b)
    case Alt(a, b) => Jmp(ON_FAILURE_JUMP, |Code(a)| + 3) + Code(a) + Jmp(JUMP_PAST_ALT, PastAlt(b)) + Code(b)
  }

  /** A group of several alternatives ends with a dummy failure point. */
  function EndOfAlts(body: Re): seq<byte> {
    if body.Alt? then [PUSH_DUMMY_FAILURE] else []
  }

  /** The jump after an alternative leads to the next alternative's own jump, and the last one to the end. */
  function PastAlt(b: Re): nat
    decreases b, 1
  {
    if b.Alt? then 3 + |Code(b.a)| else |Code(b)|
  }

  function RepCode(code: seq<byte>, zero: bool, many: bool): seq<byte> {
    (if zero then [] else Jmp(DUMMY_FAILURE_JUMP, 3))
    + Jmp(ON_FAILURE_JUMP, |code| + if many then 3 else 0)
    + code
    + (if many then Jmp(MAYBE_POP_JUMP, -(|code| + 6)) else [])
  }

  function IntervalCode(code: seq<byte>, lo: nat, hi: nat): seq<byte> {
    if hi == 0 then
      Jmp(JUMP, |code|) + code
    else if hi == 1 then
      Op2(SET_NUMBER_AT, 5, lo) + Op2(SUCCEED_N, |code| + 2, lo) + code
    else
      Op2(SET_NUMBER_AT, |code| + 15, hi - 1) + Op2(SET_NUMBER_AT, 5, lo) + Op2(SUCCEED_N, |code| + 7, lo)
      + code + Op2(JUMP_N, -(|code| + 8), hi - 1)
  }

  // ---- Pieces of a program ----

  ghost predicate At(c: seq<byte>, p: nat, s: seq<byte>) {
    p + |s| <= |c| && forall i | 0 <= i < |s| :: c[p + i] == s[i]
  }

  lemma AtConcat(c: seq<byte>, p: nat, s: seq<byte>, u: seq<byte>)
    ensures At(c, p, s + u) <==> At(c, p, s) && At(c, p + |s|, u)
  {
    if At(c, p, s + u) {
      forall i | 0 <= i < |s| ensures c[p + i] == s[i] { assert (s + u)[i] == s[i]; }
      forall i | 0 <= i < |u| ensures c[p + |s| + i] == u[i] { assert (s + u)[|s| + i] == u[i]; }
    }
    if At(c, p, s) && At(c, p + |s|, u) {
      forall i | 0 <= i < |s + u| ensures c[p + i] == (s + u)[i] {
        if i >= |s| { assert c[p + |s| + (i - |s|)] == u[i - |s|]; }
      }
    }
  }

  lemma AtIndex(c: seq<byte>, p: nat, s: seq<byte>, i: nat)
    requires At(c, p, s) && i < |s|
    ensures p + i < |c| && c[p + i] == s[i]
  {
  }

  lemma AtFits(c: seq<byte>, p: nat, s: seq<byte>)
    requires At(c, p, s)
    ensures p + |s| <= |c|
  {
  }

  lemma NumberRoundTrip(c: seq<byte>, p: nat, n: int)
    requires -32768 <= n < 32768 && At(c, p, Number(n))
    ensures Extract(c, p) == n
  {
    AtIndex(c, p, Number(n), 0);
    AtIndex(c, p, Number(n), 1);
  }

  lemma JmpAt(c: seq<byte>, p: nat, op: byte, n: int)
    requires -32768 <= n < 32768 && At(c, p, Jmp(op, n))
    ensures p + 3 <= |c| && c[p] == op && Target(c, p) == p + 3 + n
  {
    AtConcat(c, p, [op], Number(n));
    AtIndex(c, p, [op], 0);
    NumberRoundTrip(c, p + 1, n);
  }

  lemma AltParts(c: seq<byte>, p: nat, a: Re, b: Re)
    requires At(c, p, Code(Alt(a, b)))
    ensures At(c, p, Jmp(ON_FAILURE_JUMP, |Code(a)| + 3))
    ensures At(c, p + 3, Code(a))
    ensures At(c, p + 3 + |Code(a)|, Jmp(JUMP_PAST_ALT, PastAlt(b)))
    ensures At(c, p + 6 + |Code(a)|, Code(b))
    ensures |Code(Alt(a, b))| == 6 + |Code(a)| + |Code(b)| && PastAlt(b) <= |Code(b)|
  {
    hide At;
    var s1, s2, s3 := Jmp(ON_FAILURE_JUMP, |Code(a)| + 3), Code(a), Jmp(JUMP_PAST_ALT, PastAlt(b));
    AtConcat(c, p, s1 + s2 + s3, Code(b));
    AtConcat(c, p, s1 + s2, s3);
    AtConcat(c, p, s1, s2);
  }

  lemma GroupParts(c: seq<byte>, p: nat, n: nat, inner: nat, body: Re)
    requires At(c, p, Code(Group(n, inner, body)))
    ensures At(c, p, [START_MEMORY, n % 256, inner % 256])
    ensures At(c, p + 3, Code(body))
    ensures At(c, p + 3 + |Code(body)|, EndOfAlts(body))
    ensures At(c, p + 3 + |Code(body)| + |EndOfAlts(body)|, [STOP_MEMORY, n % 256, inner % 256])
    ensures |Code(Group(n, inner, body))| == 6 + |Code(body)| + |EndOfAlts(body)|
  {
    hide At;
    var s1, s2, s3 := [START_MEMORY, n % 256, inner % 256], Code(body), EndOfAlts(body);
    AtConcat(c, p, s1 + s2 + s3, [STOP_MEMORY, n % 256, inner % 256]);
    AtConcat(c, p, s1 + s2, s3);
    AtConcat(c, p, s1, s2);
  }

  /** Where the parts of a repetition's code lie; `h` is the address of its on_failure_jump. */
  lemma RepParts(c: seq<byte>, p: nat, code: seq<byte>, zero: bool, many: bool) returns (h: nat)
    requires At(c, p, RepCode(code, zero, many))
    ensures h == if zero then p else p + 3
    ensures !zero ==> At(c, p, Jmp(DUMMY_FAILURE_JUMP, 3))
    ensures At(c, h, Jmp(ON_FAILURE_JUMP, |code| + if many then 3 else 0))
    ensures At(c, h + 3, code)
    ensures many ==> At(c, h + 3 + |code|, Jmp(MAYBE_POP_JUMP, -(|code| + 6)))
    ensures p + |RepCode(code, zero, many)| == h + 3 + |code| + (if many then 3 else 0)
  {
    hide At;
    h := if zero then p else p + 3;
    var s0 := if zero then [] else Jmp(DUMMY_FAILURE_JUMP, 3);
    var s1 := Jmp(ON_FAILURE_JUMP, |code| + if many then 3 else 0);
    var s3 := if many then Jmp(MAYBE_POP_JUMP, -(|code| + 6)) else [];
    AtConcat(c, p, s0 + s1 + code, s3);
    AtConcat(c, p, s0 + s1, code);
    AtConcat(c, p, s0, s1);
  }

  // ---- Instruction boundaries ----

  /** The length of the instruction at `p`. */
  function Len(c: seq<byte>, p: nat): (n: nat)
    requires p < |c|
    ensures n >= 1
  {
    var op := c[p];
    if op == EXACTN || op == CHARSET || op == CHARSET_NOT then 2 + B(c, p + 1)
    else if op == START_MEMORY || op == STOP_MEMORY then 3
    else if JUMP <= op <= DUMMY_FAILURE_JUMP then 3
    else if SUCCEED_N <= op <= SET_NUMBER_AT then 5
    else 1
  }

  /** Walking instruction by instruction from `a` arrives exactly at `b`. */
  ghost predicate SweepTo(c: seq<byte>, a: nat, b: nat)
    decreases b - a
  {
    a == b || (a < b && a < |c| && a + Len(c, a) <= b && SweepTo(c, a + Len(c, a), b))
  }

  lemma {:induction false} SweepTrans(c: seq<byte>, a: nat, m: nat, b: nat)
    requires SweepTo(c, a, m) && SweepTo(c, m, b)
    ensures SweepTo(c, a, b)
    decreases m - a
  {
    if a != m { SweepTrans(c, a + Len(c, a), m, b); }
  }

  /** Boundaries are linearly ordered by walking. */
  lemma {:induction false} SweepOrder(c: seq<byte>, a: nat, m: nat, b: nat)
    requires SweepTo(c, a, m) && SweepTo(c, a, b) && m <= b
    ensures SweepTo(c, m, b)
    decreases m - a
  {
    if a != m { SweepOrder(c, a + Len(c, a), m, b); }
  }

  /** No boundary lies strictly inside an instruction. */
  lemma NoBoundaryInside(c: seq<byte>, a: nat, p: nat, i: nat)
    requires SweepTo(c, a, p) && p < |c| && SweepTo(c, a, i)
    ensures a <= i && (i <= p || p + Len(c, p) <= i)
  {
    if p < i { SweepOrder(c, a, p, i); }
  }

  lemma SweepRefl(c: seq<byte>, p: nat)
    ensures SweepTo(c, p, p)
  {
  }

  lemma SweepOne(c: seq<byte>, p: nat, q: nat)
    requires p < |c| && q == p + Len(c, p)
    ensures SweepTo(c, p, q)
  {
    assert SweepTo(c, q, q);
  }
}
