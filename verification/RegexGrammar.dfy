/** What a pattern means, said of its tokens alone: alternatives between bars, items one after the other, and behind each the
    characters and intervals that repeat it. `RegexParse` says which expression the compiler reads; here it is shown to
    have the language that the tokens have. */
module RegexGrammar {
  import opened RegexSyntax
  import opened RegexLaws
  import opened RegexParse

  // ---- Finding the parts ----

  /** The close parenthesis that closes what is open before, `depth` more having been opened; or the end. */
  function ClosePos(ts: seq<Token>, depth: nat): (n: nat)
    ensures n <= |ts|
  {
    if ts == [] || (ts[0].TClose? && depth == 0) then 0
    else 1 + ClosePos(ts[1..], if ts[0].TOpen? then depth + 1 else if ts[0].TClose? then depth - 1 else depth)
  }

  /** The first bar outside parentheses, or the end. */
  function TopBar(ts: seq<Token>, depth: nat): (n: nat)
    ensures n <= |ts|
  {
    if ts == [] || (ts[0].TBar? && depth == 0) then 0
    else 1 + TopBar(ts[1..], if ts[0].TOpen? then depth + 1 else if ts[0].TClose? && depth > 0 then depth - 1 else depth)
  }

  predicate Repeats(t: Token) {
    t.TOp? || t.TInterval?
  }

  /** How many repetition characters and intervals come first. */
  function Leading(ts: seq<Token>): (n: nat)
    ensures n <= |ts|
  {
    if ts == [] || !Repeats(ts[0]) then 0 else 1 + Leading(ts[1..])
  }

  /** The length of what is repeated: one token, or a group with its parentheses; nothing in front of an interval. */
  function ItemLength(ts: seq<Token>): (n: nat)
    requires ts != []
    ensures n <= |ts| && (n == 0 ==> Leading(ts) > 0)
  {
    if ts[0].TInterval? then 0
    else if ts[0].TOpen? then
      var n := 2 + ClosePos(ts[1..], 0);
      if n <= |ts| then n else |ts|
    else 1
  }

  // ---- The language of a sequence of tokens ----

  ghost predicate Denotes(f: Flags, ts: seq<Token>, w: seq<byte>)
    decreases |ts|, 3, 0, 0
  {
    var k := TopBar(ts, 0);
    if k < |ts| then BranchDenotes(f, ts[..k], w) || Denotes(f, ts[k + 1..], w) else BranchDenotes(f, ts, w)
  }

  /** Between bars. A repetition character with nothing in front of it is skipped; otherwise an item comes first, with all
      that repeats it, and then the rest. */
  ghost predicate BranchDenotes(f: Flags, ts: seq<Token>, w: seq<byte>)
    decreases |ts|, 2, 0, 1
  {
    if ts == [] then w == []
    else if ts[0].TOp? then BranchDenotes(f, ts[1..], w)
    else
      var n := ItemLength(ts);
      var e := n + Leading(ts[n..]);
      exists k: nat :: ItemThenRest(f, ts, n, e, w, k)
  }

  ghost predicate ItemThenRest(f: Flags, ts: seq<Token>, n: nat, e: nat, w: seq<byte>, k: nat)
    requires n <= e <= |ts| && e > 0
    decreases |ts|, 2, 0, 0
  {
    k <= |w| && ItemDenotes(f, ts[..n], ts[n..e], w[..k]) && BranchDenotes(f, ts[e..], w[k..])
  }

  /** An item with what repeats it, the last of that being applied last. */
  ghost predicate ItemDenotes(f: Flags, atom: seq<Token>, reps: seq<Token>, w: seq<byte>)
    decreases |atom|, 1, |reps|, 0
  {
    if reps == [] then AtomDenotes(f, atom, w)
    else
      var init := reps[..|reps| - 1];
      match reps[|reps| - 1]
      case TOp(o) =>
        if o == Quest then w == [] || ItemDenotes(f, atom, init, w)
        else exists ws: seq<seq<byte>> :: (o == Plus ==> |ws| >= 1) && ItemWords(f, atom, init, ws, w)
      case TInterval(lo, hi) => exists ws: seq<seq<byte>> :: lo <= |ws| <= hi && ItemWords(f, atom, init, ws, w)
      case _ => false
  }

  /** `w` is put together from these words of the item. */
  ghost predicate ItemWords(f: Flags, atom: seq<Token>, reps: seq<Token>, ws: seq<seq<byte>>, w: seq<byte>)
    decreases |atom|, 1, |reps|, 1
  {
    Flat(ws) == w && forall x | x in ws :: ItemDenotes(f, atom, reps, x)
  }

  ghost predicate AtomDenotes(f: Flags, atom: seq<Token>, w: seq<byte>)
    decreases |atom|, 0, 0, 0
  {
    if atom == [] then w == []
    else
      match atom[0]
      case TChar(c) => w == [c]
      case TDot => |w| == 1 && (w[0] == 10 ==> f.dotNewline) && (w[0] == 0 ==> !f.dotNotNull)
      case TSet(neg, bits) => |w| == 1 && (w[0] < 8 * |bits| && Bit(bits[w[0] / 8], w[0] % 8)) != neg
      case TOpen => |atom| >= 2 && Denotes(f, atom[1..|atom| - 1], w)
      case _ => false
  }

  // ---- The parts of a spelled expression ----

  predicate Inner(t: Token) {
    !t.TOpen? && !t.TClose? && !t.TBar?
  }

  lemma {:induction false} PastTokens(ts: seq<Token>, us: seq<Token>, depth: nat)
    requires forall t | t in ts :: Inner(t)
    ensures ClosePos(ts + us, depth) == |ts| + ClosePos(us, depth) && TopBar(ts + us, depth) == |ts| + TopBar(us, depth)
    decreases |ts|
  {
    if ts == [] {
      assert ts + us == us;
    } else {
      assert (ts + us)[1..] == ts[1..] + us && ts[0] in ts && (ts + us)[0] == ts[0];
      PastTokens(ts[1..], us, depth);
    }
  }

  /** `ts` closes all it opens; and it has no bar outside parentheses, if `flat`. */
  ghost predicate Closed(ts: seq<Token>, us: seq<Token>, depth: nat, flat: bool) {
    && ClosePos(ts + us, depth) == |ts| + ClosePos(us, depth)
    && (depth > 0 || flat ==> TopBar(ts + us, depth) == |ts| + TopBar(us, depth))
  }

  lemma {:induction false} ClosedBoth(ts: seq<Token>, vs: seq<Token>, us: seq<Token>, depth: nat, flat: bool)
    requires Closed(ts, vs + us, depth, flat) && Closed(vs, us, depth, flat)
    ensures Closed(ts + vs, us, depth, flat)
  {
    assert ts + vs + us == ts + (vs + us);
  }

  lemma {:induction false} ClosedGroup(ts: seq<Token>, us: seq<Token>, depth: nat)
    requires Closed(ts, [TClose] + us, depth + 1, true)
    ensures Closed([TOpen] + ts + [TClose], us, depth, true)
  {
    var inside := ts + ([TClose] + us);
    assert [TOpen] + ts + [TClose] + us == [TOpen] + inside && ([TOpen] + inside)[1..] == inside;
    assert ([TClose] + us)[1..] == us;
  }

  lemma {:induction false} ClosedBar(ts: seq<Token>, vs: seq<Token>, us: seq<Token>, depth: nat)
    requires Closed(ts, [TBar] + (vs + us), depth, true) && Closed(vs, us, depth, false)
    ensures Closed(ts + [TBar] + vs, us, depth, false)
  {
    var rest := vs + us;
    assert ts + [TBar] + vs + us == ts + ([TBar] + rest) && ([TBar] + rest)[1..] == rest;
  }

  lemma {:induction false} ClosedTokens(ts: seq<Token>, us: seq<Token>, depth: nat)
    requires forall t | t in ts :: Inner(t)
    ensures Closed(ts, us, depth, true)
  {
    PastTokens(ts, us, depth);
  }

  lemma {:induction false} ItemIsShaped(x: Re)
    requires ShapedItem(x)
    ensures Shaped(x) && ShapedCat(x) && !x.Alt? && !x.Cat?
  {
    assert !x.Cat? && !x.Alt?;
  }

  lemma {:induction false} CatIsShaped(r: Re)
    requires ShapedCat(r)
    ensures Shaped(r) && !r.Alt?
  {
    assert !r.Alt?;
  }

  /** What an expression spells closes all it opens, and has no bar outside parentheses if it is no alternative. */
  lemma {:induction false} Past(r: Re, us: seq<Token>, depth: nat)
    requires Shaped(r)
    ensures Closed(Unparse(r), us, depth, !r.Alt?)
    decreases r
  {
    hide Closed;
    assert !r.Alt? ==> (Shaped(r) <==> ShapedCat(r));
    assert !r.Alt? && !r.Cat? ==> (ShapedCat(r) <==> ShapedItem(r));
    match r
    case Group(_, _, body) =>
      Past(body, [TClose] + us, depth + 1);
      ClosedDeep(Unparse(body), [TClose] + us, depth + 1, !body.Alt?);
      ClosedGroup(Unparse(body), us, depth);
    case Rep(body, ops) =>
      ItemIsShaped(body);
      Past(body, Ops(ops) + us, depth);
      ClosedTokens(Ops(ops), us, depth);
      ClosedBoth(Unparse(body), Ops(ops), us, depth, true);
    case Interval(body, lo, hi) =>
      ItemIsShaped(body);
      Past(body, [TInterval(lo, hi)] + us, depth);
      ClosedTokens([TInterval(lo, hi)], us, depth);
      ClosedBoth(Unparse(body), [TInterval(lo, hi)], us, depth, true);
    case Cat(a, b) =>
      CatIsShaped(a);
      ItemIsShaped(b);
      Past(a, Unparse(b) + us, depth);
      Past(b, us, depth);
      ClosedBoth(Unparse(a), Unparse(b), us, depth, true);
    case Alt(a, b) =>
      CatIsShaped(a);
      Past(a, [TBar] + (Unparse(b) + us), depth);
      Past(b, us, depth);
      ClosedLoose(Unparse(b), us, depth, !b.Alt?);
      ClosedBar(Unparse(a), Unparse(b), us, depth);
    case _ => ClosedTokens(Unparse(r), us, depth);
  }

  lemma ClosedDeep(ts: seq<Token>, us: seq<Token>, depth: nat, flat: bool)
    requires depth > 0 && Closed(ts, us, depth, flat)
    ensures Closed(ts, us, depth, true)
  {
  }

  lemma ClosedLoose(ts: seq<Token>, us: seq<Token>, depth: nat, flat: bool)
    requires Closed(ts, us, depth, flat)
    ensures Closed(ts, us, depth, false)
  {
  }

  /** An item without what repeats it. */
  function Core(x: Re): Re {
    match x
    case Rep(body, _) => Core(body)
    case Interval(body, _, _) => Core(body)
    case _ => x
  }

  function Reps(x: Re): seq<Token> {
    match x
    case Rep(body, ops) => Reps(body) + Ops(ops)
    case Interval(body, lo, hi) => Reps(body) + [TInterval(lo, hi)]
    case _ => []
  }

  lemma {:induction false} CoreSpells(x: Re)
    ensures Unparse(x) == Unparse(Core(x)) + Reps(x) && (forall t | t in Reps(x) :: Repeats(t))
    ensures ShapedItem(x) ==> ShapedItem(Core(x))
    ensures !Core(x).Rep? && !Core(x).Interval?
  {
    match x
    case Rep(body, ops) =>
      CoreSpells(body);
      assert Unparse(x) == Unparse(Core(body)) + (Reps(body) + Ops(ops));
    case Interval(body, lo, hi) =>
      CoreSpells(body);
      assert Unparse(x) == Unparse(Core(body)) + (Reps(body) + [TInterval(lo, hi)]);
    case _ =>
  }

  lemma {:induction false} LeadingPast(ps: seq<Token>, us: seq<Token>)
    requires (forall t | t in ps :: Repeats(t)) && (us == [] || !Repeats(us[0]))
    ensures Leading(ps + us) == |ps|
    decreases |ps|
  {
    if ps == [] {
      assert ps + us == us;
    } else {
      assert (ps + us)[1..] == ps[1..] + us;
      LeadingPast(ps[1..], us);
    }
  }

  // ---- Items ----

  ghost predicate Agrees(f: Flags, atom: seq<Token>, reps: seq<Token>, x: Re) {
    forall w: seq<byte> :: ItemDenotes(f, atom, reps, w) <==> Lang(f, x, w)
  }

  lemma {:induction false} SameWords(f: Flags, atom: seq<Token>, reps: seq<Token>, b: Re, ws: seq<seq<byte>>, w: seq<byte>)
    requires Agrees(f, atom, reps, b)
    ensures ItemWords(f, atom, reps, ws, w) <==> MadeOf(f, b, ws, w)
  {
    hide ItemDenotes, Lang;
  }

  lemma LastOfReps(f: Flags, atom: seq<Token>, init: seq<Token>, t: Token, w: seq<byte>)
    ensures ItemDenotes(f, atom, init + [t], w) <==>
      match t
      case TOp(o) =>
        if o == Quest then w == [] || ItemDenotes(f, atom, init, w)
        else exists ws: seq<seq<byte>> :: (o == Plus ==> |ws| >= 1) && ItemWords(f, atom, init, ws, w)
      case TInterval(lo, hi) => exists ws: seq<seq<byte>> :: lo <= |ws| <= hi && ItemWords(f, atom, init, ws, w)
      case _ => false
  {
    var reps := init + [t];
    assert reps != [] && reps[..|reps| - 1] == init && reps[|reps| - 1] == t;
    hide ItemWords;
  }

  /** One repetition character. */
  lemma {:induction false} OpAgrees(f: Flags, atom: seq<Token>, init: seq<Token>, b: Re, o: Op)
    requires Agrees(f, atom, init, b)
    ensures Agrees(f, atom, init + [TOp(o)], Rep(b, [o]))
  {
    hide ItemDenotes, Lang, ItemWords, MadeOf;
    forall w: seq<byte>
      ensures ItemDenotes(f, atom, init + [TOp(o)], w) <==> Lang(f, Rep(b, [o]), w)
    {
      LastOfReps(f, atom, init, TOp(o), w);
      RepetitionMeans(f, b, w);
      forall ws: seq<seq<byte>> ensures ItemWords(f, atom, init, ws, w) <==> MadeOf(f, b, ws, w) {
        SameWords(f, atom, init, b, ws, w);
      }
    }
  }

  /** A run of them. */
  lemma {:induction false} RunAgrees(f: Flags, atom: seq<Token>, init: seq<Token>, b: Re, ops: seq<Op>)
    requires Agrees(f, atom, init, b) && ops != []
    ensures Agrees(f, atom, init + Ops(ops), Rep(b, ops))
    decreases |ops|
  {
    hide Agrees;
    var n := |ops| - 1;
    var rest, o := ops[..n], ops[n];
    assert ops == rest + [o] && Ops(ops) == Ops(rest) + [TOp(o)];
    if rest == [] {
      OpAgrees(f, atom, init, b, o);
      assert init + Ops(ops) == init + [TOp(o)];
    } else {
      RunAgrees(f, atom, init, b, rest);
      OpAgrees(f, atom, init + Ops(rest), Rep(b, rest), o);
      assert init + Ops(ops) == init + Ops(rest) + [TOp(o)];
      RunIsNested(f, atom, init + Ops(ops), b, rest, o);
    }
  }

  lemma {:induction false} RunIsNested(f: Flags, atom: seq<Token>, reps: seq<Token>, b: Re, ops: seq<Op>, o: Op)
    requires ops != [] && Agrees(f, atom, reps, Rep(Rep(b, ops), [o]))
    ensures Agrees(f, atom, reps, Rep(b, ops + [o]))
  {
    hide ItemDenotes, Lang;
    forall w: seq<byte> ensures Lang(f, Rep(b, ops + [o]), w) <==> Lang(f, Rep(Rep(b, ops), [o]), w) {
      RunMeans(f, b, ops, o, w);
    }
  }

  lemma {:induction false} IntervalAgrees(f: Flags, atom: seq<Token>, init: seq<Token>, b: Re, lo: nat, hi: nat)
    requires Agrees(f, atom, init, b)
    ensures Agrees(f, atom, init + [TInterval(lo, hi)], Interval(b, lo, hi))
  {
    hide ItemDenotes, ItemWords;
    forall w: seq<byte>
      ensures ItemDenotes(f, atom, init + [TInterval(lo, hi)], w) <==> Lang(f, Interval(b, lo, hi), w)
    {
      LastOfReps(f, atom, init, TInterval(lo, hi), w);
      IntervalWords(f, b, lo, hi, w);
      forall ws: seq<seq<byte>> ensures ItemWords(f, atom, init, ws, w) <==> MadeOf(f, b, ws, w) {
        SameWords(f, atom, init, b, ws, w);
      }
    }
  }

  lemma {:induction false} IntervalWords(f: Flags, b: Re, lo: nat, hi: nat, w: seq<byte>)
    ensures Lang(f, Interval(b, lo, hi), w) <==> exists ws: seq<seq<byte>> :: lo <= |ws| <= hi && MadeOf(f, b, ws, w)
  {
    if Lang(f, Interval(b, lo, hi), w) {
      var ws: seq<seq<byte>> :| Flat(ws) == w && (forall x | x in ws :: Lang(f, b, x)) && lo <= |ws| <= hi;
      assert MadeOf(f, b, ws, w);
    }
    if ws: seq<seq<byte>> :| lo <= |ws| <= hi && MadeOf(f, b, ws, w) { assert Flat(ws) == w; }
  }

  /** An item means what its tokens mean if what it repeats does. */
  lemma {:induction false} ItemAgrees(f: Flags, x: Re)
    requires ShapedItem(x) && Agrees(f, Unparse(Core(x)), [], Core(x))
    ensures Agrees(f, Unparse(Core(x)), Reps(x), x)
    decreases x
  {
    hide Agrees;
    match x
    case Rep(body, ops) =>
      ItemAgrees(f, body);
      RunAgrees(f, Unparse(Core(x)), Reps(body), body, ops);
    case Interval(body, lo, hi) =>
      ItemAgrees(f, body);
      IntervalAgrees(f, Unparse(Core(x)), Reps(body), body, lo, hi);
    case _ =>
  }

  // ---- Branches ----

  /** `us` can follow `r`: only behind leading repetition characters may it begin with something that repeats. */
  predicate CanFollow(r: Re, us: seq<Token>) {
    Blank(r) || us == [] || !Repeats(us[0])
  }

  /** A word of `r`, and then one of the tokens behind it. */
  ghost predicate ThenTokens(f: Flags, r: Re, us: seq<Token>, w: seq<byte>, k: nat) {
    k <= |w| && Lang(f, r, w[..k]) && BranchDenotes(f, us, w[k..])
  }

  ghost predicate Continues(f: Flags, r: Re, us: seq<Token>) {
    forall w: seq<byte> :: BranchDenotes(f, Unparse(r) + us, w) <==> exists k: nat :: ThenTokens(f, r, us, w, k)
  }

  lemma {:induction false} OpsSkipped(f: Flags, ops: seq<Op>, us: seq<Token>, w: seq<byte>)
    ensures BranchDenotes(f, Ops(ops) + us, w) <==> BranchDenotes(f, us, w)
    decreases |ops|
  {
    if ops == [] {
      assert Ops(ops) + us == us;
    } else {
      var ts := Ops(ops) + us;
      assert ts[0] == TOp(ops[0]) && ts[1..] == Ops(ops[1..]) + us;
      OpsSkipped(f, ops[1..], us, w);
    }
  }

  lemma {:induction false} BlankContinues(f: Flags, r: Re, us: seq<Token>)
    requires r.Eps? || r.Skip?
    ensures Continues(f, r, us)
  {
    hide BranchDenotes;
    forall w: seq<byte>
      ensures BranchDenotes(f, Unparse(r) + us, w) <==> exists k: nat :: ThenTokens(f, r, us, w, k)
    {
      if r.Skip? { OpsSkipped(f, r.ops, us, w); }
      assert Unparse(Eps) + us == us;
      assert w[..0] == [] && w[0..] == w;
      if BranchDenotes(f, Unparse(r) + us, w) { assert ThenTokens(f, r, us, w, 0); }
      if k: nat :| ThenTokens(f, r, us, w, k) { assert k == 0; }
    }
  }

  /** A literal of several characters is read character by character. */
  lemma {:induction false} LiteralRead(f: Flags, s: seq<byte>, us: seq<Token>, w: seq<byte>)
    requires us == [] || !Repeats(us[0])
    ensures BranchDenotes(f, Chars(s) + us, w) <==> |s| <= |w| && w[..|s|] == s && BranchDenotes(f, us, w[|s|..])
    decreases |s|
  {
    if s == [] {
      assert Chars(s) + us == us && w[0..] == w;
    } else {
      var ts, rest := Chars(s) + us, Chars(s[1..]) + us;
      assert ts[0] == TChar(s[0]) && ts[1..] == rest && (rest == [] || !Repeats(rest[0]));
      FirstChar(f, ts, s[0], w);
      if w != [] {
        LiteralRead(f, s[1..], us, w[1..]);
        if |s| <= |w| {
          assert w[1..][|s| - 1..] == w[|s|..];
          assert w[..|s|] == [w[0]] + w[1..][..|s| - 1] && s == [s[0]] + s[1..];
        }
      }
    }
  }

  lemma {:induction false} BranchTaken(f: Flags, ts: seq<Token>, n: nat, e: nat, w: seq<byte>) returns (k: nat)
    requires ts != [] && !ts[0].TOp? && n == ItemLength(ts) && e == n + Leading(ts[n..]) && BranchDenotes(f, ts, w)
    ensures n <= e <= |ts| && e > 0 && ItemThenRest(f, ts, n, e, w, k)
  {
    k :| ItemThenRest(f, ts, n, e, w, k);
  }

  lemma {:induction false} BranchMade(f: Flags, ts: seq<Token>, n: nat, e: nat, w: seq<byte>, k: nat)
    requires ts != [] && !ts[0].TOp? && n == ItemLength(ts) && e == n + Leading(ts[n..]) && e > 0
    requires ItemThenRest(f, ts, n, e, w, k)
    ensures BranchDenotes(f, ts, w)
  {
  }

  lemma {:induction false} FirstChar(f: Flags, ts: seq<Token>, c: byte, w: seq<byte>)
    requires ts != [] && ts[0] == TChar(c) && Leading(ts[1..]) == 0
    ensures BranchDenotes(f, ts, w) <==> w != [] && w[0] == c && BranchDenotes(f, ts[1..], w[1..])
  {
    assert ItemLength(ts) == 1;
    hide BranchDenotes, ItemThenRest;
    if BranchDenotes(f, ts, w) {
      var k := BranchTaken(f, ts, 1, 1, w);
      OneChar(f, ts, c, w, k);
    }
    if w != [] && w[0] == c && BranchDenotes(f, ts[1..], w[1..]) {
      OneChar(f, ts, c, w, 1);
      BranchMade(f, ts, 1, 1, w, 1);
    }
  }

  lemma {:induction false} OneChar(f: Flags, ts: seq<Token>, c: byte, w: seq<byte>, k: nat)
    requires ts != [] && ts[0] == TChar(c)
    ensures ItemThenRest(f, ts, 1, 1, w, k) <==> k == 1 && w != [] && w[0] == c && BranchDenotes(f, ts[1..], w[1..])
  {
    assert ts[1..1] == [] && ts[..1] == [TChar(c)];
    if k <= |w| {
      assert ItemDenotes(f, [TChar(c)], [], w[..k]) == AtomDenotes(f, [TChar(c)], w[..k]);
      assert AtomDenotes(f, [TChar(c)], w[..k]) <==> w[..k] == [c];
    }
    hide BranchDenotes;
  }

  lemma {:induction false} LiteralContinues(f: Flags, s: seq<byte>, us: seq<Token>)
    requires us == [] || !Repeats(us[0])
    ensures Continues(f, Lit(s), us)
  {
    hide BranchDenotes;
    forall w: seq<byte>
      ensures BranchDenotes(f, Unparse(Lit(s)) + us, w) <==> exists k: nat :: ThenTokens(f, Lit(s), us, w, k)
    {
      LiteralRead(f, s, us, w);
      if BranchDenotes(f, Unparse(Lit(s)) + us, w) { assert ThenTokens(f, Lit(s), us, w, |s|); }
      if k: nat :| ThenTokens(f, Lit(s), us, w, k) { assert k == |s|; }
    }
  }

  /** What an item can be without what repeats it. */
  lemma {:induction false} CoreKinds(x: Re)
    requires ShapedItem(x) && Placed(x) && !x.Skip?
    ensures var c := Core(x);
      && ShapedItem(c) && Placed(c) && (c.Lit? || c.Any? || c.Set? || c.Group? || c.Eps?) && (c == x <==> Reps(x) == [])
      && (c.Lit? && c != x ==> |c.s| == 1) && (c.Eps? && c != x ==> Reps(x)[0].TInterval?)
    decreases x
  {
    if x.Rep? || x.Interval? { CoreKinds(x.body); }
  }

  /** Where an item ends in a sequence of tokens. */
  lemma {:induction false} ItemCut(x: Re, us: seq<Token>)
    requires ShapedItem(x) && Placed(x) && !x.Skip? && !x.Eps? && (x.Lit? ==> |x.s| == 1)
    requires us == [] || !Repeats(us[0])
    ensures var ts, n, e := Unparse(x) + us, |Unparse(Core(x))|, |Unparse(x)|;
      && ts != [] && !ts[0].TOp? && n == ItemLength(ts) && n <= e && e > 0 && e == n + Leading(ts[n..])
      && ts[..n] == Unparse(Core(x)) && ts[n..e] == Reps(x) && ts[e..] == us
  {
    CoreKinds(x);
    CoreSpells(x);
    var c, ps := Core(x), Reps(x);
    var ts, n, e := Unparse(x) + us, |Unparse(Core(x))|, |Unparse(x)|;
    assert ts == Unparse(c) + (ps + us);
    LeadingPast(ps, us);
    assert ts[n..] == ps + us;
    if c.Group? {
      GroupCut(c, ps + us);
    } else if c.Eps? {
      assert ts == ps + us;
    }
  }

  lemma {:induction false} GroupCut(c: Re, us: seq<Token>)
    requires c.Group? && ShapedItem(c)
    ensures var ts := Unparse(c) + us; ts[0].TOpen? && ItemLength(ts) == |Unparse(c)|
  {
    var ts, inside := Unparse(c) + us, Unparse(c.body) + ([TClose] + us);
    assert ts == [TOpen] + inside && ts[1..] == inside;
    Past(c.body, [TClose] + us, 0);
  }

  lemma {:induction false} ItemContinues(f: Flags, x: Re, us: seq<Token>)
    requires ShapedItem(x) && Placed(x) && !x.Skip? && !x.Eps? && (x.Lit? ==> |x.s| == 1)
    requires (us == [] || !Repeats(us[0])) && Agrees(f, Unparse(Core(x)), [], Core(x))
    ensures Continues(f, x, us)
  {
    hide BranchDenotes, ItemDenotes;
    ItemAgrees(f, x);
    ItemCut(x, us);
    var ts, n, e := Unparse(x) + us, |Unparse(Core(x))|, |Unparse(x)|;
    forall k: nat, w: seq<byte>
      ensures ItemThenRest(f, ts, n, e, w, k) <==> ThenTokens(f, x, us, w, k)
    {
      ItemIsThen(f, x, us, ts, n, e, w, k);
    }
    hide ItemThenRest, ThenTokens, ShapedItem, Placed, Unparse, Core, Reps;
    forall w: seq<byte>
      ensures BranchDenotes(f, ts, w) <==> exists k: nat :: ThenTokens(f, x, us, w, k)
    {
      if BranchDenotes(f, ts, w) { var k := BranchTaken(f, ts, n, e, w); }
      if k: nat :| ThenTokens(f, x, us, w, k) { BranchMade(f, ts, n, e, w, k); }
    }
  }

  lemma {:induction false} ItemIsThen(f: Flags, x: Re, us: seq<Token>, ts: seq<Token>, n: nat, e: nat, w: seq<byte>, k: nat)
    requires n <= e <= |ts| && e > 0 && ts[..n] == Unparse(Core(x)) && ts[n..e] == Reps(x) && ts[e..] == us
    requires Agrees(f, Unparse(Core(x)), Reps(x), x)
    ensures ItemThenRest(f, ts, n, e, w, k) <==> ThenTokens(f, x, us, w, k)
  {
    if k <= |w| { assert ItemDenotes(f, ts[..n], ts[n..e], w[..k]) <==> Lang(f, x, w[..k]); }
  }

  // ---- Whole expressions ----

  function Nodes(r: Re): nat {
    match r
    case Group(_, _, body) => 1 + Nodes(body)
    case Rep(body, _) => 1 + Nodes(body)
    case Interval(body, _, _) => 1 + Nodes(body)
    case Cat(a, b) => 1 + Nodes(a) + Nodes(b)
    case Alt(a, b) => 1 + Nodes(a) + Nodes(b)
    case _ => 0
  }

  lemma {:induction false} CoreIsSmaller(x: Re)
    ensures Nodes(Core(x)) <= Nodes(x)
  {
    match x
    case Rep(body, _) => CoreIsSmaller(body);
    case Interval(body, _, _) => CoreIsSmaller(body);
    case _ =>
  }

  /** Single characters and groups. */
  lemma {:induction false} CoreAgrees(f: Flags, c: Re)
    requires ShapedItem(c) && Placed(c) && (c.Any? || c.Set? || c.Group? || c.Eps? || (c.Lit? && |c.s| == 1))
    ensures Agrees(f, Unparse(c), [], c)
    decreases Nodes(c), 0
  {
    if c.Group? { ExprMeans(f, c.body); }
    forall w: seq<byte>
      ensures ItemDenotes(f, Unparse(c), [], w) <==> Lang(f, c, w)
    {
      assert ItemDenotes(f, Unparse(c), [], w) <==> AtomDenotes(f, Unparse(c), w);
      if c.Group? {
        var ts := Unparse(c);
        assert ts[0] == TOpen && ts[1..|ts| - 1] == Unparse(c.body);
      }
    }
  }

  lemma {:induction false} BranchMeans(f: Flags, r: Re, us: seq<Token>)
    requires ShapedCat(r) && Placed(r) && CanFollow(r, us)
    ensures Continues(f, r, us)
    decreases Nodes(r), 1
  {
    hide Agrees, Continues;
    if r.Cat? {
      CatMeans(f, r, us);
    } else if r.Eps? || r.Skip? {
      BlankContinues(f, r, us);
    } else if r.Lit? {
      LiteralContinues(f, r.s, us);
    } else {
      CoreKinds(r);
      CoreIsSmaller(r);
      CoreAgrees(f, Core(r));
      ItemContinues(f, r, us);
    }
  }

  /** An item behind others. */
  lemma {:induction false} CatMeans(f: Flags, r: Re, us: seq<Token>)
    requires r.Cat? && ShapedCat(r) && Placed(r) && CanFollow(r, us)
    ensures Continues(f, r, us)
    decreases Nodes(r), 0
  {
    hide Continues;
    var a, b := r.a, r.b;
    SecondStarts(r, us);
    ItemIsShaped(b);
    if b.Skip? { BlankContinues(f, b, us); } else { BranchMeans(f, b, us); }
    BranchMeans(f, a, Unparse(b) + us);
    ContinuesBoth(f, a, b, us);
  }

  lemma {:induction false} CoreEmpty(x: Re)
    requires Core(x).Eps?
    ensures Headless(x)
  {
    match x
    case Rep(body, _) => CoreEmpty(body);
    case Interval(body, _, _) => CoreEmpty(body);
    case _ =>
  }

  lemma {:induction false} SecondStarts(r: Re, us: seq<Token>)
    requires r.Cat? && ShapedCat(r) && Placed(r) && CanFollow(r, us)
    ensures !r.b.Skip? ==> CanFollow(r.b, us)
    ensures CanFollow(r.a, Unparse(r.b) + us)
  {
    var b := r.b;
    if !b.Skip? && !Headless(b) {
      CoreKinds(b);
      CoreSpells(b);
      if Core(b).Eps? { CoreEmpty(b); }
      ItemStarts(Core(b), Reps(b) + us);
      assert Unparse(b) + us == Unparse(Core(b)) + (Reps(b) + us);
    }
  }

  lemma ItemStarts(c: Re, us: seq<Token>)
    requires ShapedItem(c) && (c.Lit? || c.Any? || c.Set? || c.Group?)
    ensures Unparse(c) + us != [] && !Repeats((Unparse(c) + us)[0])
  {
  }

  lemma {:induction false} ContinuesBoth(f: Flags, a: Re, b: Re, us: seq<Token>)
    requires Continues(f, b, us) && Continues(f, a, Unparse(b) + us)
    ensures Continues(f, Cat(a, b), us)
  {
    hide BranchDenotes;
    assert Unparse(Cat(a, b)) + us == Unparse(a) + (Unparse(b) + us);
    forall w: seq<byte>
      ensures BranchDenotes(f, Unparse(Cat(a, b)) + us, w) <==> exists k: nat :: ThenTokens(f, Cat(a, b), us, w, k)
    {
      if BranchDenotes(f, Unparse(Cat(a, b)) + us, w) {
        var i: nat :| ThenTokens(f, a, Unparse(b) + us, w, i);
        var j: nat :| ThenTokens(f, b, us, w[i..], j);
        JoinedWords(f, a, b, us, w, i, j);
      }
      if k: nat :| ThenTokens(f, Cat(a, b), us, w, k) { var i := SplitWords(f, a, b, us, w, k); }
    }
  }

  lemma Slices(w: seq<byte>, i: nat, k: nat)
    requires i <= k <= |w|
    ensures w[..k][..i] == w[..i] && w[..k][i..] == w[i..][..k - i] && w[k..] == w[i..][k - i..]
  {
  }

  lemma {:induction false} JoinedWords(f: Flags, a: Re, b: Re, us: seq<Token>, w: seq<byte>, i: nat, j: nat)
    requires i <= |w| && Lang(f, a, w[..i]) && ThenTokens(f, b, us, w[i..], j)
    ensures ThenTokens(f, Cat(a, b), us, w, i + j)
  {
    hide BranchDenotes, Lang;
    Slices(w, i, i + j);
    CatWords(f, a, b, w[..i + j], i);
  }

  lemma {:induction false} SplitWords(f: Flags, a: Re, b: Re, us: seq<Token>, w: seq<byte>, k: nat) returns (i: nat)
    requires ThenTokens(f, Cat(a, b), us, w, k) && Continues(f, b, us)
    ensures ThenTokens(f, a, Unparse(b) + us, w, i)
  {
    hide BranchDenotes, Lang, Unparse;
    i := CatParts(f, a, b, w[..k]);
    Slices(w, i, k);
    assert ThenTokens(f, b, us, w[i..], k - i);
  }

  /** An expression has the language of its tokens. */
  lemma {:induction false} ExprMeans(f: Flags, r: Re)
    requires Shaped(r) && Placed(r)
    ensures forall w: seq<byte> :: Denotes(f, Unparse(r), w) <==> Lang(f, r, w)
    decreases Nodes(r), 2
  {
    if r.Alt? {
      AltMeans(f, r);
    } else {
      BranchMeans(f, r, []);
      WholeBranch(f, r);
      Past(r, [], 0);
      assert Unparse(r) + [] == Unparse(r);
    }
  }

  /** With nothing behind it, a branch means its expression. */
  lemma {:induction false} WholeBranch(f: Flags, r: Re)
    requires Continues(f, r, [])
    ensures forall w: seq<byte> :: BranchDenotes(f, Unparse(r), w) <==> Lang(f, r, w)
  {
    assert Unparse(r) + [] == Unparse(r);
    forall w: seq<byte>
      ensures BranchDenotes(f, Unparse(r), w) <==> Lang(f, r, w)
    {
      assert w[..|w|] == w && w[|w|..] == [];
      if Lang(f, r, w) { assert ThenTokens(f, r, [], w, |w|); }
      if k: nat :| ThenTokens(f, r, [], w, k) { assert k == |w|; }
    }
  }

  lemma {:induction false} AltMeans(f: Flags, r: Re)
    requires r.Alt? && Shaped(r) && Placed(r)
    ensures forall w: seq<byte> :: Denotes(f, Unparse(r), w) <==> Lang(f, r, w)
    decreases Nodes(r), 1
  {
    var a, b, n := r.a, r.b, |Unparse(r.a)|;
    CatIsShaped(a);
    BranchMeans(f, a, []);
    WholeBranch(f, a);
    ExprMeans(f, b);
    var ts := Unparse(r);
    assert ts == Unparse(a) + ([TBar] + Unparse(b));
    Past(a, [TBar] + Unparse(b), 0);
    assert ts[..n] == Unparse(a) && ts[n + 1..] == Unparse(b) && TopBar(ts, 0) == n;
  }

  /** The expression that the compiler reads has the language of the tokens. */
  lemma {:induction false} ReadsMeans(f: Flags, ts: seq<Token>, r: Re, w: seq<byte>)
    requires Reads(ts, r)
    ensures Denotes(f, ts, w) <==> Lang(f, r, w)
  {
    ExprMeans(f, r);
  }
}
