/** What remains to be matched from an address of the program: a continuation over the pattern.
    The machine's addresses and the meaning of the pattern meet here. */
module RegexKont {
  import opened RegexSyntax
  import opened RegexCode
  import opened RegexEffect
  import opened RegexMachine

  /** `KSeq` is about to match `r`, whose groups are numbered from `g`; `KEnd` is at the end of group `n`, which
      was opened at text position `s`; `KTail` is at the jump back of a loop over `body`; `KJump` is at the jump
      after an alternative; `KDum` is at the dummy failure point that ends a group's alternatives. */
  datatype Kont =
    | KDone
    | KSeq(r: Re, g: nat, k: Kont)
    | KEnd(n: nat, inner: nat, s: nat, k: Kont)
    | KTail(body: Re, g: nat, k: Kont)
    | KJump(k: Kont)
    | KDum(k: Kont)

  /** Entering a group at text position `s`. */
  function Enter(r: Re, s: nat, k: Kont): Kont
    requires r.Group?
  {
    var e := KEnd(r.n, r.inner, s, k);
    KSeq(r.body, r.n + 1, if r.body.Alt? then KDum(e) else e)
  }

  /** After an alternative that `b` follows: one jump for each further alternative but the last, and one more. */
  function Jumps(b: Re, k: Kont): Kont {
    KJump(if b.Alt? then Jumps(b.b, k) else k)
  }

  // ---- Where a continuation lies in the program ----

  ghost predicate Lay(c: seq<byte>, p: nat, K: Kont)
    decreases K
  {
    match K
    case KDone => p == |c|
    case KSeq(r, _, k) => At(c, p, Code(r)) && Lay(c, p + |Code(r)|, k)
    case KEnd(n, inner, _, k) => At(c, p, [STOP_MEMORY, n % 256, inner % 256]) && Lay(c, p + 3, k)
    case KTail(body, _, k) =>
      p >= |Code(body)| + 3 && At(c, p - |Code(body)| - 3, Code(Loop(body))) && Lay(c, p + 3, k)
    case KJump(k) =>
      p + 3 <= |c| && c[p] == JUMP_PAST_ALT && Target(c, p) >= p + 3 && Lay(c, Target(c, p), k)
    case KDum(k) => At(c, p, [PUSH_DUMMY_FAILURE]) && Lay(c, p + 1, k)
  }

  // ---- Shape ----

  /** No choice point inside. */
  predicate Quiet(r: Re) {
    match r
    case Group(_, _, body) => Quiet(body)
    case Rep(_, _) => false
    case Interval(_, _, _) => false
    case Cat(a, b) => Quiet(a) && Quiet(b)
    case Alt(_, _) => false
    case _ => true
  }

  /** The innermost loop tail that is reached without passing a choice point, or `KDone`. */
  function QuietTail(K: Kont): (q: Kont)
    ensures q.KDone? || q.KTail?
  {
    match K
    case KSeq(r, _, k) => if Quiet(r) then QuietTail(k) else KDone
    case KEnd(_, _, _, k) => QuietTail(k)
    case KTail(body, _, _) => if Quiet(body) then K else KDone
    case _ => KDone
  }

  /** The end of a repeated group of several alternatives. */
  predicate AltEnd(K: Kont) {
    K.KEnd? && K.k.KTail? && AltBody(K.k.body)
  }

  predicate AltBody(r: Re) {
    r.Group? && r.body.Alt?
  }

  /** Frames fit together: a loop tail is preceded only by its own body, and the frames in front of the tail of a
      choice-free loop are themselves choice-free. */
  predicate Fits(K: Kont) {
    match K
    case KDone => true
    case KSeq(r, _, k) =>
      && Simple(r) && Fits(k) && !AltEnd(k)
      && (k.KTail? ==> r == k.body)
      && (QuietTail(k).KTail? ==> Quiet(r) && (k.KTail? || QuietTail(k).body.Group?))
    case KEnd(n, _, _, k) =>
      && Fits(k) && !AltEnd(k)
      && (k.KTail? ==> k.body.Group? && k.body.n == n)
      && (QuietTail(k).KTail? ==> QuietTail(k).body.Group?)
    case KTail(body, _, k) =>
      Simple(body) && Repeatable(body) && Fits(k) && !k.KTail? && !QuietTail(k).KTail? && !AltEnd(k)
    case KJump(k) => Fits(k) && !k.KTail? && !QuietTail(k).KTail? && !AltEnd(k)
    case KDum(k) => k.KEnd? && Fits(k) && !QuietTail(k).KTail?
  }

  function Tails(K: Kont): nat {
    match K
    case KDone => 0
    case KSeq(_, _, k) => Tails(k)
    case KEnd(_, _, _, k) => Tails(k)
    case KTail(_, _, k) => 1 + Tails(k)
    case KJump(k) => Tails(k)
    case KDum(k) => Tails(k)
  }

  // ---- Group numbers ----

  /** Every group that is still open has a number below `g`. */
  predicate OpenBelow(K: Kont, g: nat) {
    match K
    case KDone => true
    case KSeq(_, _, k) => OpenBelow(k, g)
    case KEnd(n, _, _, k) => n < g && OpenBelow(k, g)
    case KTail(_, _, k) => OpenBelow(k, g)
    case KJump(k) => OpenBelow(k, g)
    case KDum(k) => OpenBelow(k, g)
  }

  predicate NoneOpen(K: Kont) {
    OpenBelow(K, 0)
  }

  /** No group that can still be opened or closed has a number below `b`. */
  predicate GroupsFrom(K: Kont, b: nat) {
    match K
    case KDone => true
    case KSeq(_, g, k) => b <= g && GroupsFrom(k, b)
    case KEnd(n, _, _, k) => b <= n && GroupsFrom(k, b)
    case KTail(_, g, k) => b <= g && GroupsFrom(k, b)
    case KJump(k) => GroupsFrom(k, b)
    case KDum(k) => GroupsFrom(k, b)
  }

  /** Numbers fit one byte, grow along the pattern, and inner groups have larger numbers than the ones around them. */
  predicate Ordered(K: Kont) {
    match K
    case KDone => true
    case KSeq(r, g, k) =>
      && Numbered(r, g) && 1 <= g && g + GroupCount(r) <= 256 && OpenBelow(k, g) && Ordered(k)
      && (k.KTail? ==> k.g == g)
      && (NoneOpen(k) ==> GroupsFrom(if k.KTail? then k.k else k, g + GroupCount(r)))
    case KEnd(n, inner, _, k) => 1 <= n && n + inner < 256 && OpenBelow(k, n) && Ordered(k) && (k.KTail? ==> k.g == n)
    case KTail(body, g, k) =>
      && Numbered(body, g) && 1 <= g && g + GroupCount(body) <= 256 && OpenBelow(k, g) && Ordered(k)
      && (NoneOpen(k) ==> GroupsFrom(k, g + GroupCount(body)))
    case KJump(k) => Ordered(k)
    case KDum(k) => Ordered(k)
  }

  lemma OpenBelowMono(K: Kont, g: nat, g': nat)
    requires OpenBelow(K, g) && g <= g'
    ensures OpenBelow(K, g')
  {
  }

  lemma GroupsFromMono(K: Kont, b: nat, b': nat)
    requires GroupsFrom(K, b) && b' <= b
    ensures GroupsFrom(K, b')
  {
  }

  // ---- Registers ----

  /** Every open group is among the registers that are saved and marked, is flagged active, and is flagged as
      matched exactly when text has been consumed since it was opened. */
  predicate RegsTrack(K: Kont, low: nat, high: nat, regs: seq<Reg>, d: nat) {
    match K
    case KDone => true
    case KSeq(_, _, k) => RegsTrack(k, low, high, regs, d)
    case KEnd(n, _, s, k) =>
      && low <= n <= high && s <= d && GetReg(regs, n) == Reg(true, s < d)
      && RegsTrack(k, low, high, regs, d)
    case KTail(_, _, k) => RegsTrack(k, low, high, regs, d)
    case KJump(k) => RegsTrack(k, low, high, regs, d)
    case KDum(k) => RegsTrack(k, low, high, regs, d)
  }

  // ---- Meaning ----

  /** What `maybe_pop_jump` finds at the start of a continuation, group commands skipped. */
  function SeenK(K: Kont): Next {
    match K
    case KDone => End
    case KSeq(r, _, k) => Seen(r, SeenK(k))
    case KEnd(_, _, _, k) => SeenK(k)
    case _ => Other
  }

  /** What the continuation is in effect matched as: `r`, with what follows it in view. */
  function InPlace(r: Re, k: Kont): Re {
    Effective(r, SeenK(k))
  }

  /** The continuation can take the text from `d` to `e`. A group that closes without having consumed anything
      leaves its loop; so does one whose end is misread. */
  ghost predicate Acc(f: Flags, t: seq<byte>, K: Kont, d: nat, e: nat)
    requires d <= |t|
    decreases K
  {
    match K
    case KDone => d == e
    case KSeq(r, _, k) => exists m: nat | d <= m <= |t| :: M(f, InPlace(r, k), t, d, m) && Acc(f, t, k, m, e)
    case KEnd(_, _, s, k) => if k.KTail? && d <= s then Acc(f, t, k.k, d, e) else Acc(f, t, k, d, e)
    case KTail(body, _, k) =>
      if Misread(body) then Acc(f, t, k, d, e)
      else exists m: nat | d <= m <= |t| :: M(f, InPlace(Loop(body), k), t, d, m) && Acc(f, t, k, m, e)
    case KJump(k) => Acc(f, t, k, d, e)
    case KDum(k) => Acc(f, t, k, d, e)
  }

  // ---- A bound on the work that remains ----

  function SizeR(r: Re): nat {
    match r
    case Group(_, _, body) => 4 + SizeR(body)
    case Rep(body, _) => 2 + SizeR(body)
    case Interval(body, _, _) => 1 + SizeR(body)
    case Cat(a, b) => 1 + SizeR(a) + SizeR(b)
    case Alt(a, b) => 2 + SizeR(a) + 2 * SizeR(b)
    case _ => 1
  }

  /** Without consuming text: a loop tail in front of which the loop body waits, or that would be reached by an
      empty iteration, is passed at most once. */
  function SizeK(K: Kont, d: nat): nat {
    match K
    case KDone => 0
    case KSeq(r, _, k) => SizeR(r) + SizeK(if k.KTail? then k.k else k, d)
    case KEnd(_, _, s, k) => 1 + SizeK(if k.KTail? && d <= s then k.k else k, d)
    case KTail(body, _, k) => 3 + SizeR(body) + SizeK(k, d)
    case KJump(k) => 1 + SizeK(k, d)
    case KDum(k) => 1 + SizeK(k, d)
  }

  lemma SizeJumps(b: Re, k: Kont, d: nat)
    requires !k.KTail?
    ensures SizeK(Jumps(b, k), d) <= SizeR(b) + SizeK(k, d)
    ensures !Jumps(b, k).KTail?
  {
  }

  lemma {:induction false} SizeEnter(r: Re, g: nat, k: Kont, d: nat)
    requires r.Group?
    ensures SizeK(Enter(r, d, k), d) < SizeK(KSeq(r, g, k), d)
  {
    var e := KEnd(r.n, r.inner, d, k);
    assert SizeK(e, d) == 1 + SizeK(if k.KTail? then k.k else k, d);
    if r.body.Alt? { assert SizeK(KDum(e), d) == 1 + SizeK(e, d); }
  }

  lemma {:induction false} SizeCat(r: Re, g: nat, k: Kont, d: nat)
    requires r.Cat? && !k.KTail?
    ensures SizeK(KSeq(r.a, g, KSeq(r.b, g + GroupCount(r.a), k)), d) < SizeK(KSeq(r, g, k), d)
  {
    assert SizeK(KSeq(r.b, g + GroupCount(r.a), k), d) == SizeR(r.b) + SizeK(k, d);
  }

  lemma QuietTailJumps(b: Re, k: Kont)
    ensures QuietTail(Jumps(b, k)).KDone?
  {
  }

  lemma FitsJumps(b: Re, k: Kont)
    requires Fits(k) && !k.KTail? && !QuietTail(k).KTail? && !AltEnd(k)
    ensures Fits(Jumps(b, k)) && !Jumps(b, k).KTail? && Tails(Jumps(b, k)) == Tails(k)
  {
    QuietTailJumps(b, k);
  }

  lemma {:induction false} FitsEnter(r: Re, g: nat, s: nat, k: Kont)
    requires r.Group? && Fits(KSeq(r, g, k))
    ensures Fits(Enter(r, s, k)) && Tails(Enter(r, s, k)) == Tails(k)
  {
    var e := KEnd(r.n, r.inner, s, k);
    assert Fits(e) && QuietTail(e) == QuietTail(k) && Tails(e) == Tails(k);
    assert Quiet(r) ==> Quiet(r.body) && !r.body.Alt?;
    if r.body.Alt? { assert Fits(KDum(e)) && QuietTail(KDum(e)).KDone? && Tails(KDum(e)) == Tails(e); }
  }

  lemma {:induction false} FitsCat(r: Re, g: nat, k: Kont)
    requires r.Cat? && Fits(KSeq(r, g, k))
    ensures Fits(KSeq(r.a, g, KSeq(r.b, g + GroupCount(r.a), k))) && !k.KTail?
  {
  }

  lemma {:induction false} FitsLoop(r: Re, g: nat, k: Kont)
    requires r.Rep? && Fits(KSeq(r, g, k))
    ensures Fits(k) && !k.KTail? && !QuietTail(k).KTail? && !AltEnd(k) && !r.body.Interval?
    ensures Fits(KSeq(r.body, g, k)) && Fits(KSeq(r.body, g, KTail(r.body, g, k)))
  {
    assert !Quiet(r) && Simple(r.body) && Repeatable(r.body);
    assert Fits(KTail(r.body, g, k));
  }

  lemma {:induction false} FitsTail(K: Kont)
    requires K.KTail? && Fits(K)
    ensures Fits(KSeq(Loop(K.body), K.g, K.k))
  {
    assert Simple(Loop(K.body)) && !Quiet(Loop(K.body));
  }

  /** An upper bound on the turns left to the machine from continuation `K` at `d`, both branches of every choice. */
  function Work(t: seq<byte>, K: Kont, d: nat): (w: nat)
    requires Fits(K) && d <= |t|
    ensures w > 0
    decreases |t| - d, SizeK(K, d)
  {
    match K
    case KDone => 1
    case KEnd(_, _, s, k) => assert Fits(k); 1 + if k.KTail? && d <= s then Work(t, k.k, d) else Work(t, k, d)
    case KTail(body, g, k) => FitsTail(K); 1 + Work(t, KSeq(Loop(body), g, k), d)
    case KJump(k) => 1 + Work(t, k, d)
    case KDum(k) => 1 + Work(t, k, d)
    case KSeq(r, g, k) =>
      match r
      case Eps => Work(t, k, d)
      case Skip(_) => Work(t, k, d)
      case Lit(s) => 1 + if d + |s| <= |t| then Work(t, k, d + |s|) else 0
      case Any => 1 + if d < |t| then Work(t, k, d + 1) else 0
      case Set(_, _) => 1 + if d < |t| then Work(t, k, d + 1) else 0
      case Group(_, _, _) => FitsEnter(r, g, d, k); SizeEnter(r, g, k, d); 1 + Work(t, Enter(r, d, k), d)
      case Cat(a, b) => FitsCat(r, g, k); SizeCat(r, g, k, d); Work(t, KSeq(a, g, KSeq(b, g + GroupCount(a), k)), d)
      case Alt(a, b) =>
        FitsJumps(b, k);
        SizeJumps(b, k, d);
        QuietTailJumps(b, k);
        1 + Work(t, KSeq(a, g, Jumps(b, k)), d) + Work(t, KSeq(b, g + GroupCount(a), k), d)
      case Rep(body, ops) =>
        FitsLoop(r, g, k);
        if !ManyOk(ops) then 1 + Work(t, k, d) + Work(t, KSeq(body, g, k), d)
        else if ZeroOk(ops) then 1 + Work(t, k, d) + Work(t, KSeq(body, g, KTail(body, g, k)), d)
        else 1 + Work(t, KSeq(body, g, KTail(body, g, k)), d)
      case Interval(_, _, _) => 1
  }

  // ---- Frames that have no code ----

  /** The first frame has an instruction of its own. */
  predicate Normal(K: Kont) {
    !(K.KSeq? && (K.r.Eps? || K.r.Skip? || K.r.Cat?))
  }

  function Cells(K: Kont): nat {
    match K
    case KSeq(r, _, k) => 1 + 2 * SizeR(r) + Cells(k)
    case _ => 0
  }

  /** Concatenations opened up and empty patterns passed over. */
  function Norm(K: Kont): (K': Kont)
    ensures Normal(K')
    decreases Cells(K)
  {
    if !K.KSeq? then K
    else
      match K.r
      case Eps => Norm(K.k)
      case Skip(_) => Norm(K.k)
      case Cat(a, b) => CellsCat(K.r, K.g, K.k); Norm(KSeq(a, K.g, KSeq(b, K.g + GroupCount(a), K.k)))
      case _ => K
  }

  lemma {:induction false} CellsCat(r: Re, g: nat, k: Kont)
    requires r.Cat?
    ensures Cells(KSeq(r.a, g, KSeq(r.b, g + GroupCount(r.a), k))) < Cells(KSeq(r, g, k))
  {
    assert Cells(KSeq(r.b, g + GroupCount(r.a), k)) == 1 + 2 * SizeR(r.b) + Cells(k);
  }

  /** What follows the body of a repetition. */
  function AfterBody(r: Re, g: nat, k: Kont): Kont
    requires r.Rep?
  {
    if ManyOk(r.ops) then KTail(r.body, g, k) else k
  }

  /** A thread of the machine: program address, text position and registers, with what they are about to match. */
  ghost predicate Thread(c: seq<byte>, t: seq<byte>, K: Kont, p: nat, d: nat, low: nat, high: nat, regs: seq<Reg>) {
    && Lay(c, p, K) && Fits(K) && Ordered(K)
    && d <= |t| && |regs| == REGISTERS
    && RegsTrack(K, low, high, regs, d)
    && (low == NO_LOWEST_ACTIVE_REG || GroupsFrom(K, low))
  }

  lemma {:induction false} NormThread(c: seq<byte>, t: seq<byte>, K: Kont, p: nat, d: nat, low: nat, high: nat, regs: seq<Reg>)
    requires Thread(c, t, K, p, d, low, high, regs)
    ensures Thread(c, t, Norm(K), p, d, low, high, regs)
    ensures Work(t, Norm(K), d) == Work(t, K, d)
    ensures Tails(Norm(K)) == Tails(K) && QuietTail(Norm(K)) == QuietTail(K)
    ensures (Norm(K).KTail? <==> K.KTail?) && (AltEnd(Norm(K)) ==> AltEnd(K))
    decreases Cells(K)
  {
    if !Normal(K) {
      if K.r.Cat? {
        var a, b, k := K.r.a, K.r.b, K.k;
        var K' := KSeq(a, K.g, KSeq(b, K.g + GroupCount(a), k));
        CatThread(c, t, K, p, d, low, high, regs);
        CellsCat(K.r, K.g, k);
        NormThread(c, t, K', p, d, low, high, regs);
      } else {
        NormThread(c, t, K.k, p, d, low, high, regs);
      }
    }
  }

  lemma {:induction false} CatThread(c: seq<byte>, t: seq<byte>, K: Kont, p: nat, d: nat, low: nat, high: nat, regs: seq<Reg>)
    requires Thread(c, t, K, p, d, low, high, regs) && K.KSeq? && K.r.Cat?
    ensures var K' := KSeq(K.r.a, K.g, KSeq(K.r.b, K.g + GroupCount(K.r.a), K.k));
      && Thread(c, t, K', p, d, low, high, regs)
      && Tails(K') == Tails(K) && QuietTail(K') == QuietTail(K) && !K.k.KTail?
  {
    hide Lay, Fits, Ordered, GetReg;
    var a, b, g, k := K.r.a, K.r.b, K.g, K.k;
    FitsCat(K.r, g, k);
    CatLay(c, p, a, b, g, k);
    CatOrdered(a, b, g, k);
    var K1 := KSeq(b, g + GroupCount(a), k);
    assert RegsTrack(K1, low, high, regs, d) && Tails(K1) == Tails(k);
    assert low != NO_LOWEST_ACTIVE_REG ==> GroupsFrom(K1, low);
    assert QuietTail(K1) == if Quiet(b) then QuietTail(k) else KDone;
  }

  lemma LaySeq(c: seq<byte>, p: nat, r: Re, g: nat, k: Kont)
    ensures Lay(c, p, KSeq(r, g, k)) <==> At(c, p, Code(r)) && Lay(c, p + |Code(r)|, k)
  {
  }

  lemma CodeCat(a: Re, b: Re)
    ensures Code(Cat(a, b)) == Code(a) + Code(b)
  {
  }

  lemma {:induction false} CatLay(c: seq<byte>, p: nat, a: Re, b: Re, g: nat, k: Kont)
    requires Lay(c, p, KSeq(Cat(a, b), g, k))
    ensures Lay(c, p, KSeq(a, g, KSeq(b, g + GroupCount(a), k)))
  {
    hide At, Lay, Code;
    var g' := g + GroupCount(a);
    CodeCat(a, b);
    AtConcat(c, p, Code(a), Code(b));
    LaySeq(c, p, Cat(a, b), g, k);
    LaySeq(c, p + |Code(a)|, b, g', k);
    LaySeq(c, p, a, g, KSeq(b, g', k));
  }

  lemma {:induction false} CatOrdered(a: Re, b: Re, g: nat, k: Kont)
    requires Ordered(KSeq(Cat(a, b), g, k)) && !k.KTail?
    ensures Ordered(KSeq(a, g, KSeq(b, g + GroupCount(a), k)))
  {
    var K1 := KSeq(b, g + GroupCount(a), k);
    OpenBelowMono(k, g, g + GroupCount(a));
    assert Ordered(K1) && OpenBelow(K1, g) && (NoneOpen(K1) <==> NoneOpen(k));
    if NoneOpen(k) { GroupsFromMono(k, g + GroupCount(Cat(a, b)), g + GroupCount(a)); }
  }

  lemma {:induction false} RestLaid(c: seq<byte>, p: nat, K: Kont)
    requires Lay(c, p, K) && Fits(K) && Ordered(K) && K.KSeq? && (K.r.Eps? || K.r.Skip?)
    ensures Lay(c, p, K.k) && Fits(K.k) && Ordered(K.k) && !K.k.KTail?
  {
  }

  lemma {:induction false} NormLaid(c: seq<byte>, p: nat, K: Kont)
    requires Lay(c, p, K) && Fits(K) && Ordered(K)
    ensures Lay(c, p, Norm(K)) && Fits(Norm(K)) && Ordered(Norm(K)) && (Norm(K).KTail? <==> K.KTail?)
    decreases Cells(K)
  {
    hide Lay, Ordered;
    if !Normal(K) {
      if K.r.Cat? {
        CellsCat(K.r, K.g, K.k);
        FitsCat(K.r, K.g, K.k);
        CatLay(c, p, K.r.a, K.r.b, K.g, K.k);
        CatOrdered(K.r.a, K.r.b, K.g, K.k);
        NormLaid(c, p, KSeq(K.r.a, K.g, KSeq(K.r.b, K.g + GroupCount(K.r.a), K.k)));
      } else {
        RestLaid(c, p, K);
        NormLaid(c, p, K.k);
      }
    }
  }

  lemma {:induction false} SeqElim(f: Flags, t: seq<byte>, r: Re, g: nat, k: Kont, d: nat, e: nat) returns (m: nat)
    requires d <= |t| && Acc(f, t, KSeq(r, g, k), d, e)
    ensures d <= m <= |t| && M(f, InPlace(r, k), t, d, m) && Acc(f, t, k, m, e)
  {
    m :| d <= m <= |t| && M(f, InPlace(r, k), t, d, m) && Acc(f, t, k, m, e);
  }

  lemma {:induction false} SeqIntro(f: Flags, t: seq<byte>, r: Re, g: nat, k: Kont, d: nat, m: nat, e: nat)
    requires d <= m <= |t| && M(f, InPlace(r, k), t, d, m) && Acc(f, t, k, m, e)
    ensures Acc(f, t, KSeq(r, g, k), d, e)
  {
  }

  lemma {:induction false} NormAcc(f: Flags, t: seq<byte>, K: Kont, d: nat, e: nat)
    requires Fits(K) && d <= |t|
    ensures Acc(f, t, Norm(K), d, e) <==> Acc(f, t, K, d, e)
    decreases Cells(K)
  {
    if !Normal(K) {
      if K.r.Cat? {
        FitsCat(K.r, K.g, K.k);
        CellsCat(K.r, K.g, K.k);
        NormAcc(f, t, KSeq(K.r.a, K.g, KSeq(K.r.b, K.g + GroupCount(K.r.a), K.k)), d, e);
        CatAcc(f, t, K.r.a, K.r.b, K.g, K.k, d, e);
      } else {
        NormAcc(f, t, K.k, d, e);
        if Acc(f, t, K.k, d, e) { assert M(f, InPlace(K.r, K.k), t, d, d); }
      }
    }
  }

  lemma {:induction false} CatSplits(f: Flags, a: Re, b: Re, t: seq<byte>, i: nat, j: nat) returns (m: nat)
    requires i <= j <= |t| && M(f, Cat(a, b), t, i, j)
    ensures i <= m <= j && M(f, a, t, i, m) && M(f, b, t, m, j)
  {
    m :| i <= m <= j && M(f, a, t, i, m) && M(f, b, t, m, j);
  }

  lemma {:induction false} CatJoins(f: Flags, a: Re, b: Re, t: seq<byte>, i: nat, m: nat, j: nat)
    requires i <= m <= j <= |t| && M(f, a, t, i, m) && M(f, b, t, m, j)
    ensures M(f, Cat(a, b), t, i, j)
  {
  }

  lemma {:induction false} InPlaceCat(a: Re, b: Re, g: nat, k: Kont)
    ensures InPlace(Cat(a, b), k) == Cat(InPlace(a, KSeq(b, g, k)), InPlace(b, k))
  {
  }

  lemma {:induction false} CatAcc(f: Flags, t: seq<byte>, a: Re, b: Re, g: nat, k: Kont, d: nat, e: nat)
    requires d <= |t|
    ensures Acc(f, t, KSeq(Cat(a, b), g, k), d, e) <==> Acc(f, t, KSeq(a, g, KSeq(b, g + GroupCount(a), k)), d, e)
  {
    hide Acc, M, InPlace;
    var g1 := g + GroupCount(a);
    var K1 := KSeq(b, g1, k);
    InPlaceCat(a, b, g1, k);
    if Acc(f, t, KSeq(Cat(a, b), g, k), d, e) {
      var m := SeqElim(f, t, Cat(a, b), g, k, d, e);
      var i := CatSplits(f, InPlace(a, K1), InPlace(b, k), t, d, m);
      SeqIntro(f, t, b, g1, k, i, m, e);
      SeqIntro(f, t, a, g, K1, d, i, e);
    }
    if Acc(f, t, KSeq(a, g, K1), d, e) {
      var i := SeqElim(f, t, a, g, K1, d, e);
      var m := SeqElim(f, t, b, g1, k, i, e);
      CatJoins(f, InPlace(a, K1), InPlace(b, k), t, d, i, m);
      SeqIntro(f, t, Cat(a, b), g, k, d, m, e);
    }
  }

  lemma {:induction false} NormSeen(K: Kont)
    ensures SeenK(Norm(K)) == SeenK(K)
    decreases Cells(K)
  {
    if !Normal(K) {
      if K.r.Cat? {
        CellsCat(K.r, K.g, K.k);
        var K1 := KSeq(K.r.b, K.g + GroupCount(K.r.a), K.k);
        NormSeen(KSeq(K.r.a, K.g, K1));
        assert SeenK(K1) == Seen(K.r.b, SeenK(K.k));
      } else {
        NormSeen(K.k);
      }
    }
  }

  /** Where the end of the program is seen, exactly the present position is accepted. */
  lemma {:induction false} EndSeenK(f: Flags, t: seq<byte>, K: Kont, d: nat, e: nat)
    requires SeenK(K).End? && d <= |t|
    ensures Acc(f, t, K, d, e) <==> e == d
    decreases K
  {
    match K
    case KDone =>
    case KEnd(_, _, _, k) => EndSeenK(f, t, k, d, e);
    case KSeq(r, g, k) =>
      EndSeen(f, r, SeenK(k), t, d, d);
      EndSeenK(f, t, k, d, e);
      if Acc(f, t, K, d, e) {
        var m := SeqElim(f, t, r, g, k, d, e);
        EndSeen(f, r, SeenK(k), t, d, m);
      }
      if e == d { SeqIntro(f, t, r, g, k, d, d, e); }
  }

  /** Where a literal is seen, its first character is the next character of the text. */
  lemma {:induction false} CharSeenK(f: Flags, t: seq<byte>, K: Kont, d: nat, e: nat)
    requires SeenK(K).Char? && d <= |t| && Acc(f, t, K, d, e)
    ensures d < |t| && t[d] == SeenK(K).c
    decreases K
  {
    match K
    case KEnd(_, _, _, k) => CharSeenK(f, t, k, d, e);
    case KSeq(r, g, k) =>
      var m := SeqElim(f, t, r, g, k, d, e);
      CharSeen(f, r, SeenK(k), t, d, m);
      if m == d { CharSeenK(f, t, k, d, e); }
  }
}
