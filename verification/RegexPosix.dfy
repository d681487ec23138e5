/** `regcomp` and `regexec`, and the wrapper class around them that the log window searches with. */
module RegexPosix {
  import opened RegexSyntax
  import opened RegexCode
  import opened RegexParse
  import opened RegexGrammar
  import opened RegexCompile
  import opened RegexEffect
  import opened RegexAlternatives
  import opened RegexMatch
  import opened RegexSearch

  // ---- What the tokens say about the expression ----

  lemma {:induction false} OpensConcat(a: seq<Token>, b: seq<Token>)
    ensures Opens(a + b) == Opens(a) + Opens(b)
    decreases |a|
  {
    if a == [] {
      assert a + b == b;
    } else {
      assert (a + b)[1..] == a[1..] + b;
      OpensConcat(a[1..], b);
    }
  }

  lemma {:induction false} NothingOpens(ts: seq<Token>)
    requires forall i | 0 <= i < |ts| :: !ts[i].TOpen?
    ensures Opens(ts) == 0
    decreases |ts|
  {
    if ts != [] { NothingOpens(ts[1..]); }
  }

  lemma {:induction false} GroupsAreOpens(r: Re)
    ensures GroupCount(r) == Opens(Unparse(r))
  {
    match r
    case Group(_, _, body) =>
      GroupsAreOpens(body);
      OpensConcat([TOpen] + Unparse(body), [TClose]);
      OpensConcat([TOpen], Unparse(body));
    case Rep(body, ops) =>
      GroupsAreOpens(body);
      OpensConcat(Unparse(body), Ops(ops));
      NothingOpens(Ops(ops));
    case Interval(body, lo, hi) =>
      GroupsAreOpens(body);
      OpensConcat(Unparse(body), [TInterval(lo, hi)]);
    case Cat(a, b) =>
      GroupsAreOpens(a);
      GroupsAreOpens(b);
      OpensConcat(Unparse(a), Unparse(b));
    case Alt(a, b) =>
      GroupsAreOpens(a);
      GroupsAreOpens(b);
      OpensConcat(Unparse(a) + [TBar], Unparse(b));
      OpensConcat(Unparse(a), [TBar]);
    case _ => NothingOpens(Unparse(r));
  }

  predicate NoBounds(ts: seq<Token>) {
    forall t | t in ts :: !t.TInterval?
  }

  lemma {:induction false} IntervalsShow(r: Re) returns (t: Token)
    requires HasInterval(r)
    ensures t in Unparse(r) && t.TInterval?
  {
    match r
    case Group(_, _, body) => t := IntervalsShow(body);
    case Rep(body, _) => t := IntervalsShow(body);
    case Interval(body, lo, hi) =>
      t := TInterval(lo, hi);
      assert Unparse(r)[|Unparse(body)|] == t;
    case Cat(a, b) => t := IntervalsShow(if HasInterval(a) then a else b);
    case Alt(a, b) => t := IntervalsShow(if HasInterval(a) then a else b);
  }

  lemma IntervalIsToken(r: Re)
    ensures HasInterval(r) ==> !NoBounds(Unparse(r))
  {
    if HasInterval(r) { var t := IntervalsShow(r); }
  }

  // ---- Close parentheses that close nothing ----

  const RIGHT_PAREN: byte := 41

  /** With the syntax that `regcomp` sets, a close parenthesis with nothing open is an ordinary character. */
  function Ordinary(pattern: seq<Token>, depth: nat): (ts: seq<Token>)
    ensures |ts| == |pattern|
  {
    if pattern == [] then []
    else if pattern[0].TOpen? then [TOpen] + Ordinary(pattern[1..], depth + 1)
    else if pattern[0].TClose? then
      if depth == 0 then [TChar(RIGHT_PAREN)] + Ordinary(pattern[1..], 0) else [TClose] + Ordinary(pattern[1..], depth - 1)
    else [pattern[0]] + Ordinary(pattern[1..], depth)
  }

  /** Such a parenthesis stands behind a bar at the top, where the compiler also emits an instruction that belongs nowhere. */
  predicate StrayAfterBar(pattern: seq<Token>, depth: nat, bar: bool) {
    pattern != [] &&
    var rest := pattern[1..];
    match pattern[0]
    case TOpen => StrayAfterBar(rest, depth + 1, bar)
    case TClose => if depth == 0 then bar || StrayAfterBar(rest, 0, bar) else StrayAfterBar(rest, depth - 1, bar)
    case TBar => StrayAfterBar(rest, depth, bar || depth == 0)
    case _ => StrayAfterBar(rest, depth, bar)
  }

  predicate AllLexical(ts: seq<Token>) {
    forall t | t in ts :: Lexical(t)
  }

  lemma {:induction false} OrdinaryKeeps(pattern: seq<Token>, depth: nat)
    ensures var ts := Ordinary(pattern, depth);
      && Opens(ts) == Opens(pattern) && Parens(ts, depth) != ERPAREN
      && (AllLexical(pattern) ==> AllLexical(ts)) && (NoBounds(pattern) ==> NoBounds(ts))
    decreases |pattern|
  {
    if pattern != [] {
      var x, rest := pattern[0], pattern[1..];
      var d := if x.TOpen? then depth + 1 else if x.TClose? && depth > 0 then depth - 1 else depth;
      OrdinaryKeeps(rest, d);
      var ts := Ordinary(pattern, depth);
      assert ts[1..] == Ordinary(rest, d);
      assert forall t :: t in pattern <==> t == x || t in rest;
      assert forall t :: t in ts <==> t == ts[0] || t in ts[1..];
    }
  }

  /** A pattern whose parentheses match is taken as it is. */
  lemma {:induction false} NothingStray(pattern: seq<Token>, depth: nat)
    requires Parens(pattern, depth) != ERPAREN
    ensures Ordinary(pattern, depth) == pattern
    ensures !StrayAfterBar(pattern, depth, false) && !StrayAfterBar(pattern, depth, true)
    decreases |pattern|
  {
    if pattern != [] {
      var x := pattern[0];
      NothingStray(pattern[1..], if x.TOpen? then depth + 1 else if x.TClose? then depth - 1 else depth);
    }
  }

  // ---- Compiling and searching ----

  /** Somewhere in the text there is a word of the expression's language. */
  ghost predicate Occurs(f: Flags, r: Re, t: seq<byte>) {
    exists i: nat, j: nat :: InLanguage(f, r, t, i, j)
  }

  /** The expression that the pattern stands for. */
  ghost predicate Means(pattern: seq<Token>, r: Re) {
    Reads(Ordinary(pattern, 0), r)
  }

  /** Somewhere in the text there is what the pattern denotes, by its tokens. */
  ghost predicate Found(f: Flags, pattern: seq<Token>, t: seq<byte>) {
    exists i: nat, j: nat :: FoundAt(f, pattern, t, i, j)
  }

  ghost predicate FoundAt(f: Flags, pattern: seq<Token>, t: seq<byte>, i: nat, j: nat) {
    i <= j <= |t| && Denotes(f, Ordinary(pattern, 0), t[i..j])
  }

  lemma {:induction false} OccursIsFound(f: Flags, pattern: seq<Token>, r: Re, t: seq<byte>)
    requires Means(pattern, r)
    ensures Occurs(f, r, t) <==> Found(f, pattern, t)
  {
    hide Denotes, Lang, Reads;
    forall i: nat, j: nat
      ensures InLanguage(f, r, t, i, j) <==> FoundAt(f, pattern, t, i, j)
    {
      if i <= j <= |t| { ReadsMeans(f, Ordinary(pattern, 0), r, t[i..j]); }
    }
    hide InLanguage, FoundAt;
    if i: nat, j: nat :| InLanguage(f, r, t, i, j) { assert FoundAt(f, pattern, t, i, j); }
    if i: nat, j: nat :| FoundAt(f, pattern, t, i, j) { assert InLanguage(f, r, t, i, j); }
  }

  /** The patterns whose program the model can follow: no interval, no stray instruction, and a register for every group. */
  predicate Followed(pattern: seq<Token>) {
    NoBounds(pattern) && !StrayAfterBar(pattern, 0, false) && Opens(pattern) <= MAX_REGNUM
  }

  lemma {:induction false} FullyCompiled(pattern: seq<Token>, r: Re)
    requires NoBounds(pattern) && Opens(pattern) <= MAX_REGNUM && Reads(pattern, r) && |Code(r)| < 32768
    ensures Compiled(r)
  {
    hide Unparse, GroupCount, Opens, HasInterval, Shaped, Placed, Numbered;
    GroupsAreOpens(r);
    IntervalIsToken(r);
  }

  /** `regcomp`: no fastmap. There is no `preg` if the compiler reports an error, and none if the pattern is not followed or
      its program has 32768 bytes or more, so that its jumps might not fit. */
  method RegComp(pattern: seq<Token>, f: Flags) returns (err: Error, preg: PatternBuffer?)
    requires AllLexical(pattern)
    ensures Followed(pattern) ==> err == ESIZE || err == Parens(Ordinary(pattern, 0), 0)
    ensures Followed(pattern) && 34 * |pattern| < 32768 ==> err != ESIZE && (err == NoError ==> preg != null)
    ensures preg != null ==> err == NoError && fresh(preg) && fresh(preg.buffer) && preg.Valid() && preg.fastmap == null
    ensures preg != null ==> Followed(pattern) && preg.flags == f && Means(pattern, preg.re)
    ensures preg == null && err == NoError && Followed(pattern) ==> exists r :: Means(pattern, r) && |Code(r)| >= 32768
  {
    hide Reads, Code, Opens, Parens, Compiled, StrayAfterBar;
    if !Followed(pattern) { return NoError, null; }
    OrdinaryKeeps(pattern, 0);
    var tokens := Ordinary(pattern, 0);
    var e, buffer, used, r := Compile(tokens);
    err, preg := e, null;
    if err == NoError && used < 32768 {
      var program := new byte[used];
      forall i | 0 <= i < used { program[i] := buffer[i]; }
      assert program[..] == buffer[..used] == Code(r);
      FullyCompiled(tokens, r);
      preg := new PatternBuffer(program, f, null, r);
    } else if err == NoError {
      assert Means(pattern, r) && |Code(r)| >= 32768;
    }
  }

  /** `regexec`: whether the pattern is found anywhere in the text. */
  method RegExec(preg: PatternBuffer, text: seq<byte>) returns (found: bool)
    requires preg.Valid() && preg.fastmap == null
    modifies preg, preg.buffer
    ensures preg.Valid()
    ensures found <==> Occurs(preg.flags, Effect(preg.re), text)
    ensures found ==> Occurs(preg.flags, preg.re, text)
    ensures Exact(preg.re) ==> (found <==> Occurs(preg.flags, preg.re, text))
  {
    hide Occurs, Effect, Scan, Compiled, Exact;
    var pos := preg.Search(text, 0, |text|);
    found := pos >= 0;
    ScanFinds(preg.flags, preg.re, text, pos);
  }

  /** Scanning the whole text finds something exactly if what is in effect matched occurs in it. */
  lemma {:induction false} ScanFinds(f: Flags, r: Re, t: seq<byte>, pos: int)
    requires Compiled(r) && pos == Scan(f, r, t, 0, |t|)
    ensures pos >= 0 <==> Occurs(f, Effect(r), t)
    ensures pos >= 0 ==> Occurs(f, r, t)
    ensures Exact(r) ==> (pos >= 0 <==> Occurs(f, r, t))
  {
    hide Effect, Scan, Compiled, MatchesAt, Lang, Exact;
    if Exact(r) { ExactIsClean(r, End); EffectIs(r); }
    ScanFindsNearest(f, r, t, 0, |t|);
    if pos >= 0 {
      MatchesWhereLanguage(f, r, t, pos);
      var e: nat :| InLanguage(f, Effect(r), t, pos, e);
      EffectInLanguage(f, r, t, pos, e);
    } else if Occurs(f, Effect(r), t) {
      var i: nat, j: nat :| InLanguage(f, Effect(r), t, i, j);
      assert Between(0, i, |t|);
      MatchesWhereLanguage(f, r, t, i);
      assert false;
    }
  }

  /** `re_t`: a pattern that does not compile matches nothing; any other is compiled once and searched for in every text.
      `r` is the expression that is searched for, if the model follows the pattern. */
  method MatchAll(pattern: seq<Token>, f: Flags, texts: seq<seq<byte>>)
    returns (error: bool, found: seq<bool>, ghost followed: bool, ghost r: Re)
    requires AllLexical(pattern)
    ensures |found| == |texts|
    ensures Followed(pattern) && 34 * |pattern| < 32768 ==>
      (error <==> Parens(Ordinary(pattern, 0), 0) != NoError) && (error || followed)
    ensures error ==> forall k | 0 <= k < |texts| :: !found[k]
    ensures followed ==> !error && Means(pattern, r)
    ensures followed ==> forall k | 0 <= k < |texts| ::
      && (found[k] <==> Occurs(f, Effect(r), texts[k]))
      && (found[k] ==> Found(f, pattern, texts[k]))
      && (Exact(r) ==> (found[k] <==> Found(f, pattern, texts[k])))
  {
    hide Reads, Occurs, Parens, Followed, Effect, Exact, Found, Means;
    var err, preg := RegComp(pattern, f);
    error, found, followed, r := err != NoError, [], preg != null, Eps;
    if preg == null {
      found := seq(|texts|, _ => false);
      return;
    }
    r := preg.re;
    for n := 0 to |texts|
      invariant preg.Valid() && preg.fastmap == null && |found| == n
      invariant fresh(preg) && fresh(preg.buffer) && preg.re == r && preg.flags == f
      invariant forall k | 0 <= k < n :: found[k] <==> Occurs(f, Effect(r), texts[k])
      invariant forall k | 0 <= k < n :: found[k] ==> Found(f, pattern, texts[k])
      invariant Exact(r) ==> forall k | 0 <= k < n :: found[k] <==> Found(f, pattern, texts[k])
    {
      var one := RegExec(preg, texts[n]);
      OccursIsFound(f, pattern, r, texts[n]);
      found := found + [one];
    }
  }
}
