/** What the code emitted so far looks like in the middle of a pattern: finished alternatives, each preceded by its
    jump and followed by a jump to be patched, then the code of the current one; and the same for each open group
    around it. */
module RegexLayout {
  import opened Helpers
  import opened RegexSyntax
  import opened RegexCode
  import opened RegexParse

  /** An element of the compile stack. Pointers into the buffer are kept as offsets. */
  datatype Open = Open(begalt: nat, fixup: Option<nat>, inner: nat, laststart: nat, regnum: nat)

  /** The variables of the compiler, and the partly read expression that they stand for. */
  datatype State = State(begalt: nat, laststart: Option<nat>, fixup: Option<nat>, pending: Option<nat>, regnum: nat,
                         stack: seq<Open>, outer: seq<Level>, top: Level)

  function AltsLen(alts: seq<Re>): nat {
    if alts == [] then 0 else AltsLen(alts[..|alts| - 1]) + |Code(alts[|alts| - 1])| + 6
  }

  /** The finished alternatives from `p` to `q`. The last three bytes are left open. */
  ghost predicate AltsAt(c: seq<byte>, p: nat, alts: seq<Re>)
    decreases |alts|
  {
    alts == [] || (
      var init, a := alts[..|alts| - 1], alts[|alts| - 1];
      var q := p + AltsLen(init);
      && AltsAt(c, p, init)
      && (init != [] ==> q >= 3 && At(c, q - 3, Jmp(JUMP_PAST_ALT, |Code(a)| + 3)))
      && At(c, q, Jmp(ON_FAILURE_JUMP, |Code(a)| + 3))
      && At(c, q + 3, Code(a)) && q + 6 + |Code(a)| <= |c|)
  }

  /** The jump that the next alternative, or the end of the group, has to patch. */
  function Fixup(l: Level, begalt: nat): Option<nat> {
    if l.alts == [] || begalt < 3 then None else Some(begalt - 3)
  }

  /** The alternatives and the current one of a level, from `p` up to `end`. */
  ghost predicate LevelAt(c: seq<byte>, p: nat, l: Level, begalt: nat, end: nat) {
    && begalt == p + AltsLen(l.alts) && AltsAt(c, p, l.alts)
    && At(c, begalt, Code(Cur(l))) && end == begalt + |Code(Cur(l))|
  }

  /** The open groups, up to the start of the innermost one's contents at `p`. */
  ghost predicate StackAt(c: seq<byte>, stack: seq<Open>, outer: seq<Level>, p: nat)
    requires |stack| == |outer|
    decreases |stack|
  {
    if stack == [] then p == 0
    else
      var n := |stack| - 1;
      var s, l := stack[n], outer[n];
      && p >= 3 && p <= |c| && s.laststart == p - 3 && s.inner == p - 1
      && c[p - 3] == START_MEMORY && c[p - 2] == s.regnum % 256
      && s.regnum + 1 == First(outer)
      && s.fixup == Fixup(l, s.begalt) && s.begalt >= AltsLen(l.alts)
      && LevelAt(c, s.begalt - AltsLen(l.alts), l, s.begalt, p - 3)
      && StackAt(c, stack[..n], outer[..n], s.begalt - AltsLen(l.alts))
  }

  /** Where the innermost open group's contents start. */
  function Base(s: State): int {
    s.begalt - AltsLen(s.top.alts)
  }

  function LastStart(s: State): Option<nat> {
    if s.top.last.None? then None else Some(s.begalt + |Code(s.top.done)|)
  }

  /** The exact-match command being built, if it is the last thing emitted, is the last item read. */
  ghost predicate PendingOk(c: seq<byte>, s: State) {
    s.pending.Some? ==>
      var p := s.pending.value;
      && p < |c| && p + 1 + c[p] <= |c|
      && (p + 1 + c[p] == |c| ==> s.top.last.Some? && s.top.last.value.Lit? && LastStart(s) == Some(p - 1))
  }

  /** `c` is the code for what has been read. */
  ghost predicate Consistent(c: seq<byte>, s: State) {
    && |s.stack| == |s.outer| && LevelsOk(s.outer) && LevelOk(s.top, First(s.outer))
    && s.regnum + 1 == First(s.outer) + GroupCount(Whole(s.top))
    && Base(s) >= 0 && LevelAt(c, Base(s), s.top, s.begalt, |c|)
    && s.laststart == LastStart(s) && s.fixup == Fixup(s.top, s.begalt)
    && StackAt(c, s.stack, s.outer, Base(s))
    && PendingOk(c, s)
  }

  // ---- What lies below a change is not affected ----

  lemma AtKept(c: seq<byte>, c': seq<byte>, p: nat, s: seq<byte>, n: nat)
    requires At(c, p, s) && p + |s| <= n <= |c| && n <= |c'| && c'[..n] == c[..n]
    ensures At(c', p, s)
  {
    forall i | 0 <= i < |s| ensures c'[p + i] == s[i] { assert c'[..n][p + i] == c[..n][p + i]; }
  }

  lemma {:induction false} AltsKept(c: seq<byte>, c': seq<byte>, p: nat, alts: seq<Re>, n: nat)
    requires AltsAt(c, p, alts) && p + AltsLen(alts) <= n + 3 && n <= |c| && n <= |c'| && c'[..n] == c[..n]
    requires alts != [] ==> p + AltsLen(alts) <= |c'|
    ensures AltsAt(c', p, alts)
    decreases |alts|
  {
    hide Code, At;
    if alts != [] {
      var init, a := alts[..|alts| - 1], alts[|alts| - 1];
      var q := p + AltsLen(init);
      AltsKept(c, c', p, init, n);
      if init != [] { AtKept(c, c', q - 3, Jmp(JUMP_PAST_ALT, |Code(a)| + 3), n); }
      AtKept(c, c', q, Jmp(ON_FAILURE_JUMP, |Code(a)| + 3), n);
      AtKept(c, c', q + 3, Code(a), n);
    }
  }

  lemma {:induction false} StackKept(c: seq<byte>, c': seq<byte>, stack: seq<Open>, outer: seq<Level>, p: nat)
    requires |stack| == |outer| && StackAt(c, stack, outer, p) && p <= |c| && p <= |c'| && c'[..p] == c[..p]
    ensures StackAt(c', stack, outer, p)
    decreases |stack|
  {
    hide Code, AltsAt, AltsLen, At, Cur;
    if stack != [] {
      var n := |stack| - 1;
      var s, l := stack[n], outer[n];
      var p' := s.begalt - AltsLen(l.alts);
      assert c'[..p][p - 3] == c[p - 3] && c'[..p][p - 2] == c[p - 2];
      AltsKept(c, c', p', l.alts, p);
      AtKept(c, c', s.begalt, Code(Cur(l)), p);
      assert c'[..p'] == c'[..p][..p'] == c[..p'];
      StackKept(c, c', stack[..n], outer[..n], p');
    }
  }

  lemma AtSelf(c: seq<byte>, a: seq<byte>, s: seq<byte>, p: nat)
    requires p == |a| && c == a + s
    ensures At(c, p, s)
  {
  }

  lemma AtTail(c: seq<byte>, p: nat, s: seq<byte>)
    requires At(c, p, s) && p + |s| == |c|
    ensures c[p..] == s && c == c[..p] + s
  {
    forall i | 0 <= i < |s| ensures c[p..][i] == s[i] { assert c[p + i] == s[i]; }
  }

  // ---- One token more ----

  function Emitted(s: State, x: Re, at: nat, pending: Option<nat>): State {
    s.(top := Emit(s.top, x), laststart := Some(at), pending := pending)
  }

  /** As long as something is appended, a pending exact-match command is not the last thing any more. */
  lemma PendingStays(c: seq<byte>, s: State, more: seq<byte>, s': State)
    requires PendingOk(c, s) && more != [] && s'.pending == s.pending
    ensures PendingOk(c + more, s')
  {
  }

  /** A new item at the end. */
  lemma {:induction false} ItemEmitted(c: seq<byte>, s: State, x: Re, pending: Option<nat>)
    requires Consistent(c, s) && ShapedItem(x) && Placed(x) && !x.Eps? && GroupCount(x) == 0
    requires (Headless(x) ==> Blank(Cur(s.top))) && Numbered(x, First(s.outer) + GroupCount(Whole(s.top)))
    requires PendingOk(c + Code(x), Emitted(s, x, |c|, pending))
    ensures Consistent(c + Code(x), Emitted(s, x, |c|, pending))
    ensures Spell(s.outer, Emit(s.top, x)) == Spell(s.outer, s.top) + Unparse(x)
  {
    hide PendingOk, Shaped, Placed, Numbered, AltOf, Unparse, StackAt, AltsAt, Code, Headless, ShapedItem;
    var c', s' := c + Code(x), Emitted(s, x, |c|, pending);
    EmitOk(s.top, x, First(s.outer));
    CatCode(s.top, x);
    StackKept(c, c', s.stack, s.outer, Base(s));
    AltsKept(c, c', Base(s), s.top.alts, |c|);
    AtTail(c, s.begalt, Code(Cur(s.top)));
    AtSelf(c', c[..s.begalt], Code(Cur(s'.top)), s.begalt);
  }

  lemma {:induction false} CatCode(l: Level, x: Re)
    ensures Code(Cur(Emit(l, x))) == Code(Cur(l)) + Code(x)
    ensures l.last.Some? ==> Code(Cur(l)) == Code(l.done) + Code(l.last.value)
    ensures l.last.Some? ==> Code(Cur(Replace(l, x))) == Code(l.done) + Code(x)
  {
    assert Cur(Emit(l, x)) == Cat(Cur(l), x);
    if l.last.Some? { assert Cur(Replace(l, x)) == Cat(l.done, x); }
  }

  /** The last item's own code is what has been emitted from `laststart` on. */
  lemma {:induction false} LastItem(c: seq<byte>, s: State)
    requires Consistent(c, s) && s.laststart.Some?
    ensures s.top.last.Some? && s.laststart.value <= |c| && c[s.laststart.value..] == Code(s.top.last.value)
    ensures s.begalt <= s.laststart.value
  {
    hide PendingOk, Shaped, Placed, Numbered, AltOf, StackAt, AltsAt, Code, LevelsOk, LevelOk;
    CatCode(s.top, s.top.last.value);
    AtTail(c, s.begalt, Code(Cur(s.top)));
    assert c[s.laststart.value..] == c[s.begalt..][|Code(s.top.done)|..];
  }

  function Wrapped(s: State, x: Re, pending: Option<nat>): State {
    s.(top := Replace(s.top, x), pending := pending)
  }

  /** The last item is replaced, by itself repeated or by a longer literal. */
  lemma {:induction false} ItemWrapped(c: seq<byte>, s: State, x: Re, pending: Option<nat>, c': seq<byte>, ts: seq<Token>)
    requires Consistent(c, s) && s.laststart.Some? && s.top.last.Some?
    requires ShapedItem(x) && Placed(x) && !x.Eps? && (Headless(x) ==> Headless(s.top.last.value))
    requires GroupCount(x) == GroupCount(s.top.last.value) && Unparse(x) == Unparse(s.top.last.value) + ts
    requires forall k: nat | Numbered(s.top.last.value, k) :: Numbered(x, k)
    requires s.laststart.value <= |c| && c' == c[..s.laststart.value] + Code(x)
    requires PendingOk(c', Wrapped(s, x, pending))
    ensures Consistent(c', Wrapped(s, x, pending))
    ensures Spell(s.outer, Replace(s.top, x)) == Spell(s.outer, s.top) + ts
  {
    hide PendingOk, Shaped, Placed, Numbered, AltOf, Unparse, StackAt, AltsAt, Code, Headless, ShapedItem;
    var s', n := Wrapped(s, x, pending), s.laststart.value;
    ReplaceOk(s.top, x, First(s.outer), ts);
    CatCode(s.top, x);
    StackKept(c, c', s.stack, s.outer, Base(s));
    AltsKept(c, c', Base(s), s.top.alts, n);
    AtTail(c, s.begalt, Code(Cur(s.top)));
    assert c[..n] == c[..s.begalt] + Code(s.top.done);
    assert c' == c[..s.begalt] + (Code(s.top.done) + Code(x));
    AtSelf(c', c[..s.begalt], Code(Cur(s'.top)), s.begalt);
  }

  /** Repetition characters with nothing to repeat. */
  lemma {:induction false} OpsSkipped(c: seq<byte>, s: State, ops: seq<Op>)
    requires Consistent(c, s) && s.laststart.None?
    ensures Consistent(c, s.(top := SkipOps(s.top, ops)))
    ensures Spell(s.outer, SkipOps(s.top, ops)) == Spell(s.outer, s.top) + Ops(ops)
  {
    hide Shaped, Placed, Numbered, AltOf, Unparse, StackAt, AltsAt, Headless, ShapedItem;
    SkipOk(s.top, ops, First(s.outer));
    assert Code(Cat(s.top.done, Skip(ops))) == Code(s.top.done);
  }

  // ---- Alternatives ----

  function NextAlternative(s: State, end: nat): State {
    s.(top := NextAlt(s.top), begalt := end, laststart := None, fixup := if end < 3 then None else Some(end - 3), pending := None)
  }

  /** What a bar does to the program: a jump in front of the alternative, the patch of the jump before it, and room for
      the jump after it. */
  function Barred(c: seq<byte>, s: State, hole: seq<byte>): seq<byte>
    requires s.begalt <= |c| && (s.fixup.Some? ==> s.fixup.value + 3 == s.begalt)
  {
    var k := |c| - s.begalt;
    (if s.fixup.Some? then c[..s.begalt - 3] + Jmp(JUMP_PAST_ALT, k + 3) else c[..s.begalt])
    + Jmp(ON_FAILURE_JUMP, k + 3) + c[s.begalt..] + hole
  }

  lemma {:induction false} AlternativeEmitted(c: seq<byte>, s: State, hole: seq<byte>)
    requires Consistent(c, s) && |hole| == 3
    ensures s.begalt <= |c| && (s.fixup.Some? ==> s.fixup.value + 3 == s.begalt)
    ensures Consistent(Barred(c, s, hole), NextAlternative(s, |c| + 6))
    ensures Spell(s.outer, NextAlt(s.top)) == Spell(s.outer, s.top) + [TBar]
  {
    hide Shaped, Placed, Numbered, AltOf, Unparse, StackAt, AltsAt, Code, ShapedItem;
    NextAltOk(s.top, First(s.outer));
    var c', s', q := Barred(c, s, hole), NextAlternative(s, |c| + 6), s.begalt;
    assert |Barred(c, s, hole)| == |c| + 6;
    AltsLenSnoc(s.top.alts, Cur(s.top));
    BarredAlts(c, s, hole);
    BarredBelow(c, s, hole);
    StackKept(c, c', s.stack, s.outer, Base(s));
    assert Code(Eps) == [] by { EpsCode(); }
  }

  lemma EpsCode()
    ensures Code(Eps) == []
  {
  }

  lemma {:induction false} AltsLenSnoc(alts: seq<Re>, a: Re)
    ensures AltsLen(alts + [a]) == AltsLen(alts) + |Code(a)| + 6
  {
    assert (alts + [a])[..|alts|] == alts;
  }

  lemma BarredBelow(c: seq<byte>, s: State, hole: seq<byte>)
    requires Consistent(c, s) && |hole| == 3
    ensures s.begalt <= |c| && (s.fixup.Some? ==> s.fixup.value + 3 == s.begalt)
    ensures Base(s) <= |c| && Barred(c, s, hole)[..Base(s)] == c[..Base(s)]
  {
    hide LevelsOk, LevelOk, StackAt, PendingOk;
    assert s.fixup.Some? ==> AltsLen(s.top.alts) >= 6;
  }

  lemma {:induction false} BarredAlts(c: seq<byte>, s: State, hole: seq<byte>)
    requires Consistent(c, s) && |hole| == 3
    ensures s.begalt <= |c| && (s.fixup.Some? ==> s.fixup.value + 3 == s.begalt)
    ensures AltsAt(Barred(c, s, hole), Base(s), s.top.alts + [Cur(s.top)])
  {
    hide LevelsOk, LevelOk, StackAt, PendingOk, Code, At, Cur;
    var alts, a, c', q := s.top.alts, Cur(s.top), Barred(c, s, hole), s.begalt;
    assert (alts + [a])[..|alts|] == alts;
    assert s.fixup.Some? ==> AltsLen(alts) >= 6;
    AtTail(c, q, Code(a));
    AltsKept(c, c', Base(s), alts, if alts == [] then q else q - 3);
    ThreeParts(c'[..q], Jmp(ON_FAILURE_JUMP, |Code(a)| + 3), Code(a), hole, c');
    if alts != [] {
      var j := Jmp(JUMP_PAST_ALT, |Code(a)| + 3);
      ThreeParts(c[..q - 3], j, Jmp(ON_FAILURE_JUMP, |Code(a)| + 3), Code(a) + hole, c');
    }
  }

  lemma ThreeParts(start: seq<byte>, s1: seq<byte>, s2: seq<byte>, s3: seq<byte>, c: seq<byte>)
    requires c == start + s1 + s2 + s3
    ensures At(c, |start|, s1) && At(c, |start| + |s1|, s2)
  {
    hide At;
    AtSelf(c, start, s1 + s2 + s3, |start|) by { assert c == start + (s1 + s2 + s3); }
    AtConcat(c, |start|, s1 + s2, s3);
    AtConcat(c, |start|, s1, s2);
  }

  /** Once the last jump is patched, the finished alternatives and the last one are the code of all of them. */
  lemma {:induction false} AltsClosed(c: seq<byte>, p: nat, alts: seq<Re>, r: Re)
    requires AltsAt(c, p, alts) && At(c, p + AltsLen(alts), Code(r))
    requires alts != [] ==> p + AltsLen(alts) >= 3 && At(c, p + AltsLen(alts) - 3, Jmp(JUMP_PAST_ALT, PastAlt(r)))
    ensures At(c, p, Code(AltOf(alts, r))) && |Code(AltOf(alts, r))| == AltsLen(alts) + |Code(r)|
    decreases |alts|
  {
    if alts != [] {
      var init, a := alts[..|alts| - 1], alts[|alts| - 1];
      var q := p + AltsLen(init);
      AltAssembled(c, q, a, r);
      hide Code, At, PastAlt;
      AltsClosed(c, p, init, Alt(a, r));
    }
  }

  lemma {:induction false} AltAssembled(c: seq<byte>, q: nat, a: Re, r: Re)
    requires At(c, q, Jmp(ON_FAILURE_JUMP, |Code(a)| + 3)) && At(c, q + 3, Code(a))
    requires At(c, q + 3 + |Code(a)|, Jmp(JUMP_PAST_ALT, PastAlt(r))) && At(c, q + 6 + |Code(a)|, Code(r))
    ensures At(c, q, Code(Alt(a, r))) && |Code(Alt(a, r))| == 6 + |Code(a)| + |Code(r)|
    ensures PastAlt(Alt(a, r)) == |Code(a)| + 3
  {
    var s1, s2, s3 := Jmp(ON_FAILURE_JUMP, |Code(a)| + 3), Code(a), Jmp(JUMP_PAST_ALT, PastAlt(r));
    hide At;
    AtConcat(c, q, s1, s2);
    AtConcat(c, q, s1 + s2, s3);
    AtConcat(c, q, s1 + s2 + s3, Code(r));
  }

  // ---- Ends of groups and of the pattern ----

  /** The last alternative's predecessor now jumps to the end. */
  function Patched(c: seq<byte>, s: State): seq<byte>
    requires s.begalt <= |c| && (s.fixup.Some? ==> s.fixup.value + 3 == s.begalt)
  {
    if s.fixup.Some? then c[..s.begalt - 3] + Jmp(JUMP_PAST_ALT, |c| - s.begalt) + c[s.begalt..] else c
  }

  lemma {:induction false} LevelClosed(c: seq<byte>, s: State)
    requires Consistent(c, s)
    ensures s.begalt <= |c| && (s.fixup.Some? ==> s.fixup.value + 3 == s.begalt && s.begalt - 3 >= Base(s))
    ensures var c' := Patched(c, s);
      && |c'| == |c| && At(c', Base(s), Code(Whole(s.top))) && Base(s) + |Code(Whole(s.top))| == |c|
      && c'[..Base(s)] == c[..Base(s)]
    ensures Whole(s.top).Alt? <==> s.fixup.Some?
  {
    hide LevelsOk, StackAt, PendingOk, Code, Placed, Numbered;
    var alts, r, q := s.top.alts, Cur(s.top), s.begalt;
    assert alts != [] ==> AltsLen(alts) >= 6;
    var c' := Patched(c, s);
    AltsKept(c, c', Base(s), alts, if alts == [] then q else q - 3);
    AtTail(c, q, Code(r));
    CurShape(s.top);
    PlainEnd(r);
    if alts != [] {
      ThreeParts(c[..q - 3], Jmp(JUMP_PAST_ALT, |Code(r)|), Code(r), [], c');
      WholeIsAlt(alts, r);
    }
    AltsClosed(c', Base(s), alts, r);
  }

  lemma {:induction false} WholeIsAlt(alts: seq<Re>, r: Re)
    requires alts != []
    ensures AltOf(alts, r).Alt?
    decreases |alts|
  {
    if |alts| > 1 { WholeIsAlt(alts[..|alts| - 1], Alt(alts[|alts| - 1], r)); }
  }

  lemma PlainEnd(r: Re)
    requires !r.Alt?
    ensures PastAlt(r) == |Code(r)|
  {
  }

  /** At the end of the pattern, with all groups closed, the buffer holds the program. */
  lemma {:induction false} PatternFinished(c: seq<byte>, s: State)
    requires Consistent(c, s) && s.stack == []
    ensures s.begalt <= |c| && (s.fixup.Some? ==> s.fixup.value + 3 == s.begalt)
    ensures Patched(c, s) == Code(Whole(s.top)) && Reads(Spell([], s.top), Whole(s.top))
  {
    hide LevelsOk, PendingOk, Code, Placed, Numbered, AltsAt, Shaped, LevelOk;
    LevelClosed(c, s);
    AllRead(s.top);
    AtTail(Patched(c, s), 0, Code(Whole(s.top)));
  }

  function Opened(s: State, end: nat): State {
    State(end + 3, None, None, None, s.regnum + 1,
          s.stack + [Open(s.begalt, s.fixup, end + 2, end, s.regnum + 1)], s.outer + [s.top], EMPTY_LEVEL)
  }

  lemma {:induction false} GroupOpened(c: seq<byte>, s: State)
    requires Consistent(c, s) && s.regnum < 255
    ensures Consistent(c + [START_MEMORY, s.regnum + 1, 0], Opened(s, |c|))
    ensures Spell(s.outer + [s.top], EMPTY_LEVEL) == Spell(s.outer, s.top) + [TOpen]
  {
    hide PendingOk, Shaped, Placed, Numbered, AltOf, Unparse, AltsAt, AltsLen, ShapedItem, StackAt, At, Code, LevelOk;
    var c', s' := c + [START_MEMORY, s.regnum + 1, 0], Opened(s, |c|);
    assert s'.outer[..|s.outer|] == s.outer;
    EmptyOk(First(s'.outer));
    EmptyAt(c');
    AltsKept(c, c', Base(s), s.top.alts, |c|);
    AtKept(c, c', s.begalt, Code(Cur(s.top)), |c|);
    StackKept(c, c', s.stack, s.outer, Base(s));
    StackPushed(c', s.stack, s.outer, s'.stack[|s.stack|], s.top);
    assert PendingOk(c', s') by { NoPending(c', s'); }
  }

  lemma EmptyAt(c: seq<byte>)
    ensures LevelAt(c, |c|, EMPTY_LEVEL, |c|, |c|) && AltsLen(EMPTY_LEVEL.alts) == 0
    ensures Cur(EMPTY_LEVEL) == Eps
  {
  }

  lemma NoPending(c: seq<byte>, s: State)
    requires s.pending.None?
    ensures PendingOk(c, s)
  {
  }

  lemma {:induction false} StackPushed(c: seq<byte>, stack: seq<Open>, outer: seq<Level>, o: Open, l: Level)
    requires |stack| == |outer| && 0 <= o.begalt - AltsLen(l.alts) && StackAt(c, stack, outer, o.begalt - AltsLen(l.alts))
    requires o.laststart + 3 <= |c| && o.inner == o.laststart + 2
    requires c[o.laststart] == START_MEMORY && c[o.laststart + 1] == o.regnum % 256 && o.regnum + 1 == First(outer + [l])
    requires o.fixup == Fixup(l, o.begalt) && LevelAt(c, o.begalt - AltsLen(l.alts), l, o.begalt, o.laststart)
    ensures StackAt(c, stack + [o], outer + [l], o.laststart + 3)
  {
    hide LevelAt, AltsLen;
    assert (stack + [o])[..|stack|] == stack && (outer + [l])[..|outer|] == outer;
  }

  /** The number of groups inside the one that is being closed. */
  function Inner(s: State): int
    requires s.stack != []
  {
    s.regnum - s.stack[|s.stack| - 1].regnum
  }

  function ClosedGroup(s: State): State
    requires s.stack != [] && |s.stack| == |s.outer| && Inner(s) >= 0
  {
    var n := |s.stack| - 1;
    var o := s.stack[n];
    State(o.begalt, Some(o.laststart), o.fixup, None, s.regnum, s.stack[..n], s.outer[..n],
          Emit(s.outer[n], Group(o.regnum, Inner(s), Whole(s.top))))
  }

  /** What a close parenthesis does to the program. */
  function ClosedCode(c: seq<byte>, s: State): seq<byte>
    requires s.begalt <= |c| && (s.fixup.Some? ==> s.fixup.value + 3 == s.begalt)
    requires s.stack != [] && 0 < Base(s) <= |Patched(c, s)|
  {
    var c', n, k := Patched(c, s), s.stack[|s.stack| - 1].regnum, Inner(s);
    c'[..Base(s) - 1] + [k % 256] + c'[Base(s)..]
    + (if s.fixup.Some? then [PUSH_DUMMY_FAILURE] else []) + [STOP_MEMORY, n % 256, k % 256]
  }

  lemma {:induction false} ClosingNumbers(s: State)
    requires s.stack != [] && |s.stack| == |s.outer| && LevelsOk(s.outer) && LevelOk(s.top, First(s.outer))
    requires s.regnum + 1 == First(s.outer) + GroupCount(Whole(s.top))
    requires s.stack[|s.stack| - 1].regnum + 1 == First(s.outer)
    ensures Inner(s) >= 0 && LevelsOk(ClosedGroup(s).outer) && LevelOk(ClosedGroup(s).top, First(ClosedGroup(s).outer))
    ensures s.regnum + 1 == First(ClosedGroup(s).outer) + GroupCount(Whole(ClosedGroup(s).top))
    ensures LevelSpell(ClosedGroup(s).top) == LevelSpell(s.outer[|s.outer| - 1]) + [TOpen] + LevelSpell(s.top) + [TClose]
  {
    hide Shaped, ShapedItem, ShapedCat, Headless, Placed, AltOf, Numbered, Unparse, GroupCount, AltsSpell;
    var n := |s.stack| - 1;
    var l, body := s.outer[n], Whole(s.top);
    var x := Group(s.stack[n].regnum, Inner(s), body);
    GroupShape(x);
    EmitOk(l, x, First(s.outer[..n]));
    WholeSpell(s.top.alts, Cur(s.top));
  }

  lemma GroupShape(x: Re)
    requires x.Group? && Shaped(x.body) && Placed(x.body) && Numbered(x.body, x.n + 1) && x.inner == GroupCount(x.body)
    ensures ShapedItem(x) && Placed(x) && Numbered(x, x.n) && !Headless(x)
    ensures GroupCount(x) == 1 + GroupCount(x.body) && Unparse(x) == [TOpen] + Unparse(x.body) + [TClose]
  {
  }

  lemma {:induction false} GroupClosed(c: seq<byte>, s: State)
    requires Consistent(c, s) && s.stack != [] && s.regnum <= 255
    ensures Inner(s) >= 0 && s.begalt <= |c| && (s.fixup.Some? ==> s.fixup.value + 3 == s.begalt)
    ensures 0 < Base(s) <= |Patched(c, s)|
    ensures Consistent(ClosedCode(c, s), ClosedGroup(s))
  {
    hide PendingOk, Shaped, Placed, Numbered, AltOf, Unparse, AltsAt, AltsLen, ShapedItem, At, Code, LevelOk, LevelsOk, LevelSpell, ClosedCode;
    var n := |s.stack| - 1;
    var o, l, c', s' := s.stack[n], s.outer[n], ClosedCode(c, s), ClosedGroup(s);
    var e, p' := o.laststart, o.begalt - AltsLen(l.alts);
    ClosingNumbers(s);
    LevelClosed(c, s);
    GroupAssembled(c, s);
    var x := Group(o.regnum, Inner(s), Whole(s.top));
    assert c'[..e] == c[..e];
    CatCode(l, x);
    AltsKept(c, c', p', l.alts, e);
    StackKept(c, c', s'.stack, s'.outer, p');
    AtKept(c, c', o.begalt, Code(Cur(l)), e);
    AtConcat(c', o.begalt, Code(Cur(l)), Code(x));
    NoPending(c', s');
  }

  lemma {:induction false} ClosedSpell(c: seq<byte>, s: State)
    requires Consistent(c, s) && s.stack != []
    ensures Inner(s) >= 0 && |s.stack| == |s.outer|
    ensures Spell(ClosedGroup(s).outer, ClosedGroup(s).top) == Spell(s.outer, s.top) + [TClose]
  {
    hide PendingOk, Shaped, Placed, Numbered, AltOf, Unparse, LevelAt, LevelOk, LevelsOk, LevelSpell;
    ClosingNumbers(s);
  }

  /** The closed group's own code. */
  lemma {:induction false} GroupAssembled(c: seq<byte>, s: State)
    requires Consistent(c, s) && s.stack != [] && s.regnum <= 255
    ensures Inner(s) >= 0 && s.begalt <= |c| && (s.fixup.Some? ==> s.fixup.value + 3 == s.begalt)
    ensures 3 <= Base(s) <= |Patched(c, s)|
    ensures var x, c' := Group(s.stack[|s.stack| - 1].regnum, Inner(s), Whole(s.top)), ClosedCode(c, s);
      At(c', Base(s) - 3, Code(x)) && |c'| == Base(s) - 3 + |Code(x)| && c'[..Base(s) - 3] == c[..Base(s) - 3]
  {
    hide PendingOk, Shaped, Placed, Numbered, AltOf, Unparse, AltsAt, AltsLen, ShapedItem, At, LevelOk, LevelsOk, LevelAt;
    var o := s.stack[|s.stack| - 1];
    assert Inner(s) >= 0 by { ClosingNumbers(s); }
    LevelClosed(c, s);
    var c', c1, p := ClosedCode(c, s), Patched(c, s), Base(s);
    var body := Whole(s.top);
    var x := Group(o.regnum, Inner(s), body);
    assert Code(x) == [START_MEMORY, x.n % 256, x.inner % 256] + Code(body) + EndOfAlts(body) + [STOP_MEMORY, x.n % 256, x.inner % 256];
    hide Code;
    AtTail(c1, p, Code(body));
    assert c1[p - 3] == c1[..p][p - 3] == c[p - 3] && c1[p - 2] == c1[..p][p - 2] == c[p - 2];
    GroupBytes(c1, p, Code(body), EndOfAlts(body), x.n % 256, x.inner % 256, c');
    AtSelf(c', c1[..p - 3], Code(x), p - 3);
    assert c1[..p - 3] == c1[..p][..p - 3] == c[..p - 3];
  }

  lemma GroupBytes(c: seq<byte>, p: nat, code: seq<byte>, e: seq<byte>, n: byte, k: byte, c': seq<byte>)
    requires 3 <= p <= |c| && c[p..] == code && c[p - 3] == START_MEMORY && c[p - 2] == n
    requires c' == c[..p - 1] + [k] + c[p..] + e + [STOP_MEMORY, n, k]
    ensures c' == c[..p - 3] + ([START_MEMORY, n, k] + code + e + [STOP_MEMORY, n, k])
  {
    assert c[..p - 1] == c[..p - 3] + [START_MEMORY, n];
  }
}
