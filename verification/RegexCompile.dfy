/** `regex_compile`: one pass over the pattern that emits code into a growing buffer, goes back to insert jumps in front
    of code that is already there, and patches the jumps between alternatives. */
module RegexCompile {
  import opened Helpers
  import opened RegexSyntax
  import opened RegexCode
  import opened RegexJumps
  import opened RegexParse
  import opened RegexLayout

  const INIT_BUF_SIZE: nat := 32
  const MAX_BUF_SIZE: nat := 65536
  const MAX_REGNUM: nat := 255

  /** The bytes from `loc` up to `b` have moved up by `n`. */
  lemma Moved(c: seq<byte>, c': seq<byte>, loc: nat, b: nat, n: nat)
    requires loc <= b && b + n <= |c| == |c'|
    requires forall i | 0 <= i < loc :: c'[i] == c[i]
    requires forall i | loc + n <= i < b + n :: c'[i] == c[i - n]
    ensures c'[..loc] == c[..loc] && c'[loc + n..b + n] == c[loc..b]
  {
    var x, y := c'[loc + n..b + n], c[loc..b];
    forall k | 0 <= k < |y| ensures x[k] == y[k] {
      assert c'[loc + n + k] == c[loc + n + k - n];
    }
  }

  /** New bytes stand in front of the code from `loc` on. */
  lemma MadeRoom(c: seq<byte>, c': seq<byte>, loc: nat, s: seq<byte>)
    requires loc <= |c| && |c'| == |c| + |s|
    requires c'[..loc] == c[..loc] && c'[loc..loc + |s|] == s && c'[loc + |s|..] == c[loc..]
    ensures c' == c[..loc] + s + c[loc..]
  {
    assert c' == c'[..loc] + c'[loc..loc + |s|] + c'[loc + |s|..];
  }

  /** The local variables of `regex_compile`. Pointers into the buffer are offsets. */
  class Compiler {
    var buffer: array<byte>
    var b: nat
    var begalt: nat
    var laststart: Option<nat>
    var fixup: Option<nat>
    var pending: Option<nat>
    var regnum: nat
    var stack: seq<Open>
    ghost var outer: seq<Level>
    ghost var top: Level

    ghost predicate Sized()
      reads this
    {
      b <= buffer.Length && INIT_BUF_SIZE <= buffer.Length <= MAX_BUF_SIZE
    }

    /** The code emitted so far. */
    ghost function Emitted(): seq<byte>
      requires Sized()
      reads this, buffer
    {
      buffer[..b]
    }

    ghost function Reading(): State
      reads this
    {
      State(begalt, laststart, fixup, pending, regnum, stack, outer, top)
    }

    ghost predicate Valid()
      reads this, buffer
    {
      Sized() && Consistent(Emitted(), Reading()) && regnum <= MAX_REGNUM
    }

    constructor ()
      ensures Valid() && fresh(buffer) && b == 0 && regnum == 0 && outer == [] && top == EMPTY_LEVEL && stack == []
    {
      buffer := new byte[INIT_BUF_SIZE];
      b, begalt, laststart, fixup, pending, regnum, stack := 0, 0, None, None, None, 0, [];
      outer, top := [], EMPTY_LEVEL;
      new;
      EmptyOk(1);
      EmptyAt([]);
      assert buffer[..0] == [];
    }

    // ---- The buffer ----

    /** GET_BUFFER_SPACE: doubles the buffer until `n` more bytes fit, up to the maximal size. */
    method GetBufferSpace(n: nat) returns (ok: bool)
      requires Sized()
      modifies this`buffer
      ensures Sized() && Emitted() == old(Emitted()) && (buffer == old(buffer) || fresh(buffer))
      ensures ok <==> b + n <= MAX_BUF_SIZE
      ensures ok ==> b + n <= buffer.Length
    {
      while b + n > buffer.Length
        invariant Sized() && Emitted() == old(Emitted()) && (buffer == old(buffer) || fresh(buffer))
        decreases MAX_BUF_SIZE - buffer.Length
      {
        if buffer.Length == MAX_BUF_SIZE { return false; }
        var size := 2 * buffer.Length;
        if size > MAX_BUF_SIZE { size := MAX_BUF_SIZE; }
        var larger := new byte[size];
        forall i | 0 <= i < buffer.Length { larger[i] := buffer[i]; }
        assert larger[..b] == buffer[..b];
        buffer := larger;
      }
      ok := true;
    }

    /** BUF_PUSH and its variants for two and three bytes. */
    method Push(s: seq<byte>) returns (ok: bool)
      requires Sized()
      modifies this`buffer, this`b, buffer
      ensures Sized() && (buffer == old(buffer) || fresh(buffer))
      ensures ok <==> old(b) + |s| <= MAX_BUF_SIZE
      ensures ok ==> Emitted() == old(Emitted()) + s && b == old(b) + |s|
      ensures !ok ==> b == old(b)
    {
      ok := GetBufferSpace(|s|);
      if !ok { return; }
      ghost var c := Emitted();
      var start := b;
      for i := 0 to |s|
        invariant b == start + i && start + |s| <= buffer.Length && buffer[..b] == c + s[..i]
        invariant (buffer == old(buffer) || fresh(buffer)) && Sized()
      {
        buffer[b] := s[i];
        b := b + 1;
      }
    }

    method StoreOp1(op: byte, loc: nat, arg: int)
      requires loc + 3 <= buffer.Length
      modifies buffer
      ensures buffer[..] == old(buffer[..])[..loc] + Jmp(op, arg) + old(buffer[..])[loc + 3..]
      ensures Sized() && loc + 3 <= b ==>
        Emitted() == old(buffer[..b])[..loc] + Jmp(op, arg) + old(buffer[..b])[loc + 3..]
    {
      buffer[loc] := op;
      buffer[loc + 1] := arg % 256;
      buffer[loc + 2] := (arg / 256) % 256;
    }

    method StoreOp2(op: byte, loc: nat, arg1: int, arg2: int)
      requires loc + 5 <= buffer.Length
      modifies buffer
      ensures buffer[..] == old(buffer[..])[..loc] + Op2(op, arg1, arg2) + old(buffer[..])[loc + 5..]
    {
      buffer[loc] := op;
      buffer[loc + 1] := arg1 % 256;
      buffer[loc + 2] := (arg1 / 256) % 256;
      buffer[loc + 3] := arg2 % 256;
      buffer[loc + 4] := (arg2 / 256) % 256;
    }

    /** Moves the bytes from `loc` up to the end of the code up by `n`. */
    method MoveUp(loc: nat, n: nat)
      requires loc <= b && b + n <= buffer.Length
      modifies buffer
      ensures buffer[..loc] == old(buffer[..loc]) && buffer[loc + n..b + n] == old(buffer[loc..b])
    {
      ghost var was := buffer[..];
      var from := b;
      while from != loc
        invariant loc <= from <= b
        invariant forall i | 0 <= i < from :: buffer[i] == was[i]
        invariant forall i | from + n <= i < b + n :: buffer[i] == was[i - n]
      {
        from := from - 1;
        buffer[from + n] := buffer[from];
      }
      Moved(was, buffer[..], loc, b, n);
    }

    /** Opens up three bytes in front of the code from `loc` on. */
    method InsertOp1(op: byte, loc: nat, arg: int)
      requires Sized() && loc <= b && b + 3 <= buffer.Length
      modifies this`b, buffer
      ensures Sized() && b == old(b) + 3
      ensures Emitted() == old(Emitted())[..loc] + Jmp(op, arg) + old(Emitted())[loc..]
    {
      ghost var was := buffer[..b];
      MoveUp(loc, 3);
      ghost var moved := buffer[..];
      StoreOp1(op, loc, arg);
      assert buffer[..loc] == moved[..loc] && buffer[loc..loc + 3] == Jmp(op, arg) && buffer[loc + 3..b + 3] == moved[loc + 3..b + 3];
      b := b + 3;
      MadeRoom(was, buffer[..b], loc, Jmp(op, arg));
    }

    method InsertOp2(op: byte, loc: nat, arg1: int, arg2: int)
      requires Sized() && loc <= b && b + 5 <= buffer.Length
      modifies this`b, buffer
      ensures Sized() && b == old(b) + 5
      ensures Emitted() == old(Emitted())[..loc] + Op2(op, arg1, arg2) + old(Emitted())[loc..]
    {
      ghost var was := buffer[..b];
      MoveUp(loc, 5);
      ghost var moved := buffer[..];
      StoreOp2(op, loc, arg1, arg2);
      assert buffer[..loc] == moved[..loc] && buffer[loc..loc + 5] == Op2(op, arg1, arg2) && buffer[loc + 5..b + 5] == moved[loc + 5..b + 5];
      b := b + 5;
      MadeRoom(was, buffer[..b], loc, Op2(op, arg1, arg2));
    }

    // ---- Tokens ----

    /** The pattern's next tokens `ts` have been read: the code is consistent again. If there was no room, it would have
        taken the buffer past its maximal size. */
    twostate predicate Took(ok: bool, ts: seq<Token>, room: nat)
      reads this, buffer
    {
      && (buffer == old(buffer) || fresh(buffer))
      && (!ok ==> old(b) + room > MAX_BUF_SIZE)
      && (ok ==> Valid() && b <= old(b) + room && Spell(outer, top) == old(Spell(outer, top)) + ts)
    }

    /** '.' */
    method Dot() returns (ok: bool)
      requires Valid()
      modifies this, buffer
      ensures Took(ok, [TDot], 1) && regnum == old(regnum) && |outer| == |old(outer)|
      ensures ok ==> top.last == Some(Any)
    {
      hide Consistent, Spell, Code, PendingOk;
      ghost var c, s := Emitted(), Reading();
      var start := b;
      ok := Push([ANYCHAR]);
      if !ok { return; }
      ItemReady(c, s, Any, pending);
      laststart := Some(start);
      top := Emit(top, Any);
      ItemEmitted(c, s, Any, pending);
    }

    /** A bracket expression whose bitmap is `bits`. */
    method Bracket(neg: bool, bits: seq<byte>) returns (ok: bool)
      requires Valid() && |bits| <= 32
      modifies this, buffer
      ensures Took(ok, [TSet(neg, bits)], 34) && regnum == old(regnum) && |outer| == |old(outer)|
      ensures ok ==> top.last == Some(Set(neg, bits))
    {
      hide Consistent, Spell, Code, PendingOk;
      ghost var c, s := Emitted(), Reading();
      ok := GetBufferSpace(34);
      if !ok { return; }
      var start := b;
      ok := Push([if neg then CHARSET_NOT else CHARSET, |bits|]);
      ok := Push(bits);
      ItemReady(c, s, Set(neg, bits), pending);
      assert Emitted() == c + Code(Set(neg, bits));
      laststart := Some(start);
      top := Emit(top, Set(neg, bits));
      ItemEmitted(c, s, Set(neg, bits), pending);
    }

    /** An ordinary character, appended to the last exact-match command if it can be; not if a repetition follows. */
    method Normal(ch: byte, repeated: bool) returns (ok: bool)
      requires Valid()
      modifies this, buffer
      ensures Took(ok, [TChar(ch)], 3) && regnum == old(regnum) && |outer| == |old(outer)|
      ensures ok ==> top.last.Some? && top.last.value.Lit? && (repeated ==> |top.last.value.s| == 1)
    {
      hide Consistent, Spell, Code, PendingOk, LevelOk, LevelsOk;
      if pending.Some? { PendingIsLast(Emitted(), Reading()); }
      if pending.None? || pending.value + buffer[pending.value] + 1 != b || buffer[pending.value] == 255 || repeated {
        ok := NewExact(ch);
      } else {
        ok := LongerExact(ch);
      }
    }

    method NewExact(ch: byte) returns (ok: bool)
      requires Valid()
      modifies this, buffer
      ensures Took(ok, [TChar(ch)], 3) && regnum == old(regnum) && |outer| == |old(outer)|
      ensures ok ==> top.last == Some(Lit([ch]))
    {
      hide Consistent, Spell, Code, PendingOk, LevelOk, LevelsOk, Unparse, ShapedItem, Placed, Numbered, GroupCount, Headless;
      ghost var c, s := Emitted(), Reading();
      var start := b;
      ok := Push([EXACTN, 0]);
      if !ok { return; }
      laststart := Some(start);
      pending := Some(b - 1);
      ok := Push([ch]);
      if !ok { return; }
      buffer[pending.value] := buffer[pending.value] + 1;
      top := Emit(top, Lit([ch]));
      assert Emitted() == c + [EXACTN, 1, ch];
      ItemReady(c, s, Lit([ch]), pending);
      ItemEmitted(c, s, Lit([ch]), pending);
    }

    method LongerExact(ch: byte) returns (ok: bool)
      requires Valid() && pending.Some? && pending.value < b && pending.value + buffer[pending.value] + 1 == b
      requires buffer[pending.value] < 255
      modifies this, buffer
      ensures Took(ok, [TChar(ch)], 3) && regnum == old(regnum) && |outer| == |old(outer)|
      ensures ok ==> top.last.Some? && top.last.value.Lit?
    {
      hide Consistent, Spell, Code, PendingOk, LevelOk, LevelsOk;
      ghost var c, s := Emitted(), Reading();
      PendingIsLast(c, s);
      ok := Push([ch]);
      if !ok { return; }
      buffer[pending.value] := buffer[pending.value] + 1;
      ghost var x := Lit(top.last.value.s + [ch]);
      top := Replace(top, x);
      assert Emitted() == c[s.pending.value := c[s.pending.value] + 1] + [ch];
      LongerLiteral(c, s, ch, Emitted());
      ItemWrapped(c, s, x, pending, Emitted(), [TChar(ch)]);
    }

    /** Stores an operation at the end of the code. */
    method AppendOp1(op: byte, arg: int)
      requires Sized() && b + 3 <= buffer.Length
      modifies this`b, buffer
      ensures Sized() && b == old(b) + 3 && Emitted() == old(Emitted()) + Jmp(op, arg)
    {
      StoreOp1(op, b, arg);
      b := b + 3;
    }

    method AppendOp2(op: byte, arg1: int, arg2: int)
      requires Sized() && b + 5 <= buffer.Length
      modifies this`b, buffer
      ensures Sized() && b == old(b) + 5 && Emitted() == old(Emitted()) + Op2(op, arg1, arg2)
    {
      StoreOp2(op, b, arg1, arg2);
      b := b + 5;
    }

    /** Wraps the code from `at` on into a loop or an option. */
    method InsertRepeat(at: nat, zero: bool, many: bool) returns (ok: bool)
      requires Sized() && at <= b
      modifies this`buffer, this`b, buffer
      ensures Sized() && (buffer == old(buffer) || fresh(buffer))
      ensures ok ==> Emitted() == old(Emitted())[..at] + RepCode(old(Emitted())[at..], zero, many) && b <= old(b) + 9
      ensures !ok ==> old(b) + 9 > MAX_BUF_SIZE
    {
      hide RepCode, Jmp;
      ghost var c := Emitted();
      if many {
        ok := GetBufferSpace(3);
        if !ok { return; }
        AppendOp1(MAYBE_POP_JUMP, at - 3 - b - 3);
      }
      ok := GetBufferSpace(3);
      if !ok { return; }
      InsertOp1(ON_FAILURE_JUMP, at, b + 3 - at - 3);
      if !zero {
        ok := GetBufferSpace(3);
        if !ok { return; }
        InsertOp1(DUMMY_FAILURE_JUMP, at, at + 6 - at - 3);
      }
      RepBytes(c, at, c[at..], zero, many, Emitted());
    }

    /** Puts the counting commands of an interval around the code from `at` on. */
    method InsertInterval(at: nat, lo: nat, hi: nat) returns (ok: bool)
      requires Sized() && at <= b
      modifies this`buffer, this`b, buffer
      ensures Sized() && (buffer == old(buffer) || fresh(buffer))
      ensures ok ==> Emitted() == old(Emitted())[..at] + IntervalCode(old(Emitted())[at..], lo, hi) && b <= old(b) + 20
      ensures !ok ==> old(b) + 20 > MAX_BUF_SIZE
    {
      hide IntervalCode, Jmp, Op2;
      ghost var c := Emitted();
      if hi == 0 {
        ok := GetBufferSpace(3);
        if !ok { return; }
        InsertOp1(JUMP, at, b + 3 - at - 3);
      } else {
        ok := GetBufferSpace(if hi > 1 then 20 else 10);
        if !ok { return; }
        InsertOp2(SUCCEED_N, at, b + 5 + (if hi > 1 then 5 else 0) - at - 3, lo);
        InsertOp2(SET_NUMBER_AT, at, 5, lo);
        if hi > 1 {
          AppendOp2(JUMP_N, at + 5 - b - 3, hi - 1);
          InsertOp2(SET_NUMBER_AT, at, b - at, hi - 1);
        }
      }
      IntervalBytes(c, at, c[at..], lo, hi, Emitted());
    }

    /** A run of repetition characters that together allow no repetition if `zero`, and several if `many`. */
    method Repeat(zero: bool, many: bool, ghost ops: seq<Op>) returns (ok: bool)
      requires Valid() && ops != [] && zero == ZeroOk(ops) && many == ManyOk(ops)
      requires top.last.Some? ==> Repeatable(top.last.value)
      modifies this, buffer
      ensures Took(ok, Ops(ops), 9) && regnum == old(regnum) && |outer| == |old(outer)|
      ensures ok && top.last.Some? ==> top.last.value.Rep?
    {
      hide Consistent, Spell, Code, LevelOk, LevelsOk;
      ghost var c, s := Emitted(), Reading();
      Pointers(c, s);
      if laststart.None? {
        OpsSkipped(c, s, ops);
        top := SkipOps(top, ops);
        return true;
      }
      LastItem(c, s);
      RepReady(c, s, ops);
      ok := InsertRepeat(laststart.value, zero, many);
      if !ok { return; }
      pending := None;
      ghost var x := Rep(top.last.value, ops);
      top := Replace(top, x);
      NoPending(Emitted(), Reading());
      ItemWrapped(c, s, x, None, Emitted(), Ops(ops));
    }

    /** An interval `{lo,hi}`. With nothing to repeat, it repeats the empty expression. */
    method Bounds(lo: nat, hi: nat) returns (ok: bool)
      requires Valid() && lo <= hi <= 32767 && (top.last.Some? ==> Countable(top.last.value))
      modifies this, buffer
      ensures Took(ok, [TInterval(lo, hi)], 20) && regnum == old(regnum) && |outer| == |old(outer)|
      ensures ok ==> top.last.Some? && top.last.value.Interval?
    {
      hide Consistent, Spell, IntervalCode, LevelOk, LevelsOk, PendingOk;
      ghost var c, s := Emitted(), Reading();
      IntervalReady(c, s, lo, hi);
      if laststart.None? { laststart := Some(b); }
      ok := InsertInterval(laststart.value, lo, hi);
      if !ok { return; }
      pending := None;
      ghost var x := Interval(if top.last.Some? then top.last.value else Eps, lo, hi);
      top := if s.laststart.None? then Emit(top, x) else Replace(top, x);
      IntervalTaken(c, s, lo, hi, Emitted(), Reading());
    }

    /** The first part of '|': a jump in front of the alternative, and the patch of the previous one's jump. */
    method JumpOver() returns (ok: bool)
      requires Valid()
      modifies this`buffer, this`b, buffer
      ensures Sized() && (buffer == old(buffer) || fresh(buffer)) && (!ok ==> old(b) + 3 > MAX_BUF_SIZE)
      ensures begalt <= old(b) && (fixup.Some? ==> fixup.value + 3 == begalt)
      ensures ok ==> Emitted() == Barred(old(Emitted()), old(Reading()), []) && b == old(b) + 3
    {
      hide Consistent, Barred, Jmp;
      ghost var c, s := Emitted(), Reading();
      Pointers(c, s);
      ok := GetBufferSpace(3);
      if !ok { return; }
      InsertOp1(ON_FAILURE_JUMP, begalt, b + 6 - begalt - 3);
      if fixup.Some? { StoreOp1(JUMP_PAST_ALT, fixup.value, b - fixup.value - 3); }
      BarBytes(c, s, Emitted());
    }

    /** '|': the rest leaves room for the alternative's own jump. */
    method Bar() returns (ok: bool)
      requires Valid()
      modifies this, buffer
      ensures Took(ok, [TBar], 6) && regnum == old(regnum) && |outer| == |old(outer)| && (ok ==> top.last.None?)
    {
      hide Consistent, Spell, Barred;
      ghost var c, s := Emitted(), Reading();
      ok := JumpOver();
      if !ok { return; }
      ok := GetBufferSpace(3);
      if !ok { return; }
      pending, fixup := None, Some(b);
      b := b + 3;
      laststart := None;
      begalt := b;
      ghost var hole := buffer[b - 3..b];
      assert Emitted() == Barred(c, s, []) + hole;
      MoreRoom(c, s, hole);
      top := NextAlt(top);
      AlternativeEmitted(c, s, hole);
    }

    /** '(' */
    method OpenGroup() returns (ok: bool)
      requires Valid() && regnum < MAX_REGNUM
      modifies this, buffer
      ensures Took(ok, [TOpen], 3)
      ensures ok ==> regnum == old(regnum) + 1 && |outer| == |old(outer)| + 1 && top.last.None?
    {
      hide Consistent, Spell, Code, LevelOk, LevelsOk;
      ghost var c, s := Emitted(), Reading();
      regnum := regnum + 1;
      stack := stack + [Open(begalt, fixup, b + 2, b, regnum)];
      ok := Push([START_MEMORY, regnum, 0]);
      if !ok { return; }
      fixup, laststart, begalt, pending := None, None, b, None;
      outer, top := outer + [top], EMPTY_LEVEL;
      GroupOpened(c, s);
    }

    /** The first part of ')': several alternatives end with a dummy failure point, and the last but one is made to jump
        to it. */
    method EndAlternatives() returns (ok: bool)
      requires Valid()
      modifies this`b, this`buffer, buffer
      ensures Sized() && (buffer == old(buffer) || fresh(buffer)) && (!ok ==> old(b) + 1 > MAX_BUF_SIZE)
      ensures begalt <= old(b) && (fixup.Some? ==> fixup.value + 3 == begalt)
      ensures ok ==> Emitted() == Patched(old(Emitted()), old(Reading())) + if fixup.Some? then [PUSH_DUMMY_FAILURE] else []
    {
      hide Consistent, Code, Jmp;
      Pointers(Emitted(), Reading());
      ok := true;
      if fixup.Some? {
        ok := Push([PUSH_DUMMY_FAILURE]);
        if !ok { return; }
        StoreOp1(JUMP_PAST_ALT, fixup.value, b - 1 - fixup.value - 3);
        EndBytes(old(Emitted()), old(Reading()), Emitted());
      }
    }

    /** The rest of ')': the number of inner groups is now known. */
    method CloseGroup(ghost c: seq<byte>) returns (ok: bool)
      requires Sized() && stack != [] && Consistent(c, Reading()) && regnum <= MAX_REGNUM && |c| <= b
      requires begalt <= |c| && (fixup.Some? ==> fixup.value + 3 == begalt)
      requires Emitted() == Patched(c, Reading()) + if fixup.Some? then [PUSH_DUMMY_FAILURE] else []
      modifies this, buffer
      ensures (buffer == old(buffer) || fresh(buffer)) && (!ok ==> old(b) + 3 > MAX_BUF_SIZE)
      ensures ok ==>
        && Valid() && b == old(b) + 3 && Spell(outer, top) == Spell(old(outer), old(top)) + [TClose]
        && regnum == old(regnum) && |outer| + 1 == |old(outer)| && top.last.Some? && top.last.value.Group?
    {
      hide Consistent, Spell, Code, LevelOk, LevelsOk, Patched;
      ghost var s, e := Reading(), Emitted();
      var n := |stack| - 1;
      GroupClosed(c, s);
      ClosedSpell(c, s);
      InnerPlace(c, s);
      var o := stack[n];
      begalt, fixup, laststart, pending := o.begalt, o.fixup, Some(o.laststart), None;
      stack := stack[..n];
      var inner := regnum - o.regnum;
      buffer[o.inner] := inner;
      ok := Push([STOP_MEMORY, o.regnum, inner]);
      if !ok { return; }
      assert Emitted() == e[o.inner := inner] + [STOP_MEMORY, o.regnum, inner];
      ClosingBytes(c, s, e, Emitted());
      outer, top := outer[..n], Emit(outer[n], Group(o.regnum, inner, Whole(top)));
    }

    /** The end of the pattern: the jump of the last alternative but one is patched. */
    method Finish()
      requires Valid()
      modifies buffer
      ensures begalt <= b && (fixup.Some? ==> fixup.value + 3 == begalt)
      ensures Emitted() == Patched(old(Emitted()), Reading())
    {
      hide Consistent, Code, Jmp;
      Pointers(Emitted(), Reading());
      if fixup.Some? { StoreOp1(JUMP_PAST_ALT, fixup.value, b - fixup.value - 3); }
    }
  }

  lemma {:induction false} Pointers(c: seq<byte>, s: State)
    requires Consistent(c, s)
    ensures s.begalt <= |c| && (s.fixup.Some? ==> s.fixup.value + 3 == s.begalt)
    ensures s.laststart.Some? <==> s.top.last.Some?
  {
  }

  lemma BarBytes(c: seq<byte>, s: State, c': seq<byte>)
    requires s.begalt <= |c| && (s.fixup.Some? ==> s.fixup.value + 3 == s.begalt)
    requires var c1 := c[..s.begalt] + Jmp(ON_FAILURE_JUMP, |c| + 6 - s.begalt - 3) + c[s.begalt..];
      c' == if s.fixup.None? then c1
            else c1[..s.fixup.value] + Jmp(JUMP_PAST_ALT, |c| + 3 - s.fixup.value - 3) + c1[s.fixup.value + 3..]
    ensures c' == Barred(c, s, []) && |c'| == |c| + 3
  {
  }

  lemma EndBytes(c: seq<byte>, s: State, c': seq<byte>)
    requires s.begalt <= |c| && s.fixup.Some? && s.fixup.value + 3 == s.begalt
    requires var c1, f := c + [PUSH_DUMMY_FAILURE], s.fixup.value;
      c' == c1[..f] + Jmp(JUMP_PAST_ALT, |c1| - 1 - f - 3) + c1[f + 3..]
    ensures c' == Patched(c, s) + [PUSH_DUMMY_FAILURE]
  {
  }

  lemma MoreRoom(c: seq<byte>, s: State, hole: seq<byte>)
    requires s.begalt <= |c| && (s.fixup.Some? ==> s.fixup.value + 3 == s.begalt)
    ensures Barred(c, s, hole) == Barred(c, s, []) + hole
  {
  }

  lemma {:induction false} InnerPlace(c: seq<byte>, s: State)
    requires Consistent(c, s) && s.stack != [] && s.regnum <= 255
    ensures var o := s.stack[|s.stack| - 1];
      |s.stack| == |s.outer| && o.inner + 1 == Base(s) && Base(s) <= |c| && o.laststart + 3 == Base(s) && o.regnum <= s.regnum
  {
    hide Code, AltsAt, At;
  }

  lemma ClosingBytes(c: seq<byte>, s: State, e: seq<byte>, c': seq<byte>)
    requires s.begalt <= |c| && (s.fixup.Some? ==> s.fixup.value + 3 == s.begalt)
    requires s.stack != [] && 0 < Base(s) <= |Patched(c, s)| && 0 <= Inner(s) <= s.regnum <= 255
    requires e == Patched(c, s) + if s.fixup.Some? then [PUSH_DUMMY_FAILURE] else []
    requires var o := s.stack[|s.stack| - 1];
      o.inner == Base(s) - 1 && o.regnum <= 255 && c' == e[o.inner := Inner(s)] + [STOP_MEMORY, o.regnum, Inner(s)]
    ensures c' == ClosedCode(c, s)
  {
  }

  lemma RepBytes(c: seq<byte>, at: nat, code: seq<byte>, zero: bool, many: bool, c': seq<byte>)
    requires at <= |c| && c[at..] == code
    requires var c1 := if many then c + Jmp(MAYBE_POP_JUMP, at - 3 - |c| - 3) else c;
      var c2 := c1[..at] + Jmp(ON_FAILURE_JUMP, |c1| + 3 - at - 3) + c1[at..];
      c' == if zero then c2 else c2[..at] + Jmp(DUMMY_FAILURE_JUMP, 3) + c2[at..]
    ensures c' == c[..at] + RepCode(code, zero, many)
  {
    var c1 := if many then c + Jmp(MAYBE_POP_JUMP, at - 3 - |c| - 3) else c;
    var c2 := c1[..at] + Jmp(ON_FAILURE_JUMP, |c1| + 3 - at - 3) + c1[at..];
    assert c1[..at] == c[..at] && c1[at..] == code + if many then Jmp(MAYBE_POP_JUMP, -(|code| + 6)) else [];
    assert c2[..at] == c[..at] && c2[at..] == Jmp(ON_FAILURE_JUMP, |code| + if many then 3 else 0) + c1[at..];
  }

  lemma Inserted(c: seq<byte>, at: nat, x: seq<byte>, c': seq<byte>)
    requires at <= |c| && c' == c[..at] + x + c[at..]
    ensures c'[..at] == c[..at] && c'[at..] == x + c[at..]
  {
  }

  lemma Op2Length(op: byte, n: int, k: int)
    ensures |Op2(op, n, k)| == 5
  {
  }

  lemma Appended(c: seq<byte>, at: nat, x: seq<byte>)
    requires at <= |c|
    ensures (c + x)[..at] == c[..at] && (c + x)[at..] == c[at..] + x
  {
  }

  lemma Regrouped(p: seq<byte>, x3: seq<byte>, x2: seq<byte>, x1: seq<byte>, code: seq<byte>, x4: seq<byte>)
    ensures p + x3 + (x2 + (x1 + code) + x4) == p + (x3 + x2 + x1 + code + x4)
    ensures p + x2 + (x1 + code) == p + (x2 + x1 + code)
  {
  }

  lemma IntervalBytes(c: seq<byte>, at: nat, code: seq<byte>, lo: nat, hi: nat, c': seq<byte>)
    requires at <= |c| && c[at..] == code
    requires c' ==
      if hi == 0 then c[..at] + Jmp(JUMP, |c| + 3 - at - 3) + c[at..]
      else
        var c1 := c[..at] + Op2(SUCCEED_N, |c| + 5 + (if hi > 1 then 5 else 0) - at - 3, lo) + c[at..];
        var c2 := c1[..at] + Op2(SET_NUMBER_AT, 5, lo) + c1[at..];
        if hi == 1 then c2
        else
          var c3 := c2 + Op2(JUMP_N, at + 5 - |c2| - 3, hi - 1);
          c3[..at] + Op2(SET_NUMBER_AT, |c3| - at, hi - 1) + c3[at..]
    ensures c' == c[..at] + IntervalCode(code, lo, hi)
  {
    hide Op2;
    var x1 := Op2(SUCCEED_N, |code| + (if hi > 1 then 7 else 2), lo);
    var x2 := Op2(SET_NUMBER_AT, 5, lo);
    Op2Length(SUCCEED_N, |code| + (if hi > 1 then 7 else 2), lo);
    Op2Length(SET_NUMBER_AT, 5, lo);
    if hi > 0 {
      var c1 := c[..at] + x1 + c[at..];
      var c2 := c1[..at] + x2 + c1[at..];
      Inserted(c, at, x1, c1);
      Inserted(c1, at, x2, c2);
      if hi == 1 {
        Regrouped(c[..at], [], x2, x1, code, []);
      } else {
        var x3, x4 := Op2(SET_NUMBER_AT, |code| + 15, hi - 1), Op2(JUMP_N, -(|code| + 8), hi - 1);
        Op2Length(JUMP_N, -(|code| + 8), hi - 1);
        Appended(c2, at, x4);
        Regrouped(c[..at], x3, x2, x1, code, x4);
      }
    }
  }

  lemma {:induction false} RepReady(c: seq<byte>, s: State, ops: seq<Op>)
    requires Consistent(c, s) && s.top.last.Some? && Repeatable(s.top.last.value) && ops != []
    ensures var body, x := s.top.last.value, Rep(s.top.last.value, ops);
      && ShapedItem(x) && Placed(x) && (Headless(x) ==> Headless(body)) && GroupCount(x) == GroupCount(body)
      && Unparse(x) == Unparse(body) + Ops(ops) && (forall k: nat | Numbered(body, k) :: Numbered(x, k))
      && Code(x) == RepCode(Code(body), ZeroOk(ops), ManyOk(ops))
  {
    WholeParts(s.top, 0);
  }

  lemma {:induction false} IntervalReady(c: seq<byte>, s: State, lo: nat, hi: nat)
    requires Consistent(c, s) && (s.top.last.Some? ==> Countable(s.top.last.value)) && lo <= hi <= 32767
    ensures s.laststart.Some? <==> s.top.last.Some?
    ensures var body := if s.top.last.Some? then s.top.last.value else Eps;
      var x, at := Interval(body, lo, hi), if s.laststart.Some? then s.laststart.value else |c|;
      && ShapedItem(x) && Placed(x) && (Headless(x) ==> Headless(body)) && GroupCount(x) == GroupCount(body)
      && Unparse(x) == Unparse(body) + [TInterval(lo, hi)] && (forall k: nat | Numbered(body, k) :: Numbered(x, k))
      && at <= |c| && Code(x) == IntervalCode(c[at..], lo, hi)
    ensures s.top.last.None? ==>
      var x := Interval(Eps, lo, hi);
      && Blank(Cur(s.top)) && GroupCount(x) == 0 && Unparse(x) == [TInterval(lo, hi)]
      && (forall k: nat :: Numbered(x, k)) && c[..|c|] == c
  {
    WholeParts(s.top, 0);
    if s.laststart.Some? { LastItem(c, s); }
  }

  /** The interval in place of what it repeats, or behind everything. */
  lemma {:induction false} IntervalTaken(c: seq<byte>, s: State, lo: nat, hi: nat, c': seq<byte>, s': State)
    requires Consistent(c, s) && (s.top.last.Some? ==> Countable(s.top.last.value)) && lo <= hi <= 32767
    requires var at := if s.laststart.Some? then s.laststart.value else |c|;
      at <= |c| && c' == c[..at] + IntervalCode(c[at..], lo, hi)
    requires var x := Interval(if s.top.last.Some? then s.top.last.value else Eps, lo, hi);
      s' == if s.laststart.None? then RegexLayout.Emitted(s, x, |c|, None) else Wrapped(s, x, None)
    ensures Consistent(c', s') && Spell(s'.outer, s'.top) == Spell(s.outer, s.top) + [TInterval(lo, hi)]
  {
    hide Consistent, Spell, Code, IntervalCode, LevelOk, LevelsOk, Unparse, ShapedItem, Placed, Numbered, GroupCount, Headless;
    IntervalReady(c, s, lo, hi);
    var x := Interval(if s.top.last.Some? then s.top.last.value else Eps, lo, hi);
    NoPending(c', s');
    if s.laststart.None? {
      ItemEmitted(c, s, x, None);
    } else {
      ItemWrapped(c, s, x, None, c', [TInterval(lo, hi)]);
    }
  }

  /** A plain item can be emitted. */
  lemma {:induction false} ItemReady(c: seq<byte>, s: State, x: Re, pending: Option<nat>)
    requires Consistent(c, s) && (x.Any? || (x.Set? && |x.bits| <= 32) || (x.Lit? && |x.s| == 1))
    requires pending == if x.Lit? then Some(|c| + 1) else s.pending
    ensures Code(x) == (match x case Lit(l) => [EXACTN, 1, l[0]]
                                case Set(neg, bits) => [if neg then CHARSET_NOT else CHARSET, |bits|] + bits
                                case _ => [ANYCHAR])
    ensures Unparse(x) == (match x case Lit(l) => [TChar(l[0])] case Set(neg, bits) => [TSet(neg, bits)] case _ => [TDot])
    ensures ShapedItem(x) && Placed(x) && GroupCount(x) == 0 && !Headless(x) && forall k: nat :: Numbered(x, k)
    ensures PendingOk(c + Code(x), RegexLayout.Emitted(s, x, |c|, pending))
  {
    if x.Lit? {
      assert x == Lit([x.s[0]]);
      var s' := RegexLayout.Emitted(s, x, |c|, pending);
    } else {
      PendingStays(c, s, Code(x), RegexLayout.Emitted(s, x, |c|, pending));
    }
  }

  lemma {:induction false} PendingIsLast(c: seq<byte>, s: State)
    requires Consistent(c, s) && s.pending.Some?
    ensures s.pending.value < |c|
    ensures s.pending.value + 1 + c[s.pending.value] == |c| ==>
      && s.top.last.Some? && s.top.last.value.Lit? && s.laststart == Some(s.pending.value - 1)
  {
  }

  lemma {:induction false} LongerLiteral(c: seq<byte>, s: State, ch: byte, c': seq<byte>)
    requires Consistent(c, s) && s.pending.Some? && s.pending.value < |c| && c[s.pending.value] < 255
    requires s.pending.value + 1 + c[s.pending.value] == |c| && s.top.last.Some? && s.top.last.value.Lit?
    requires s.laststart == Some(s.pending.value - 1) && c' == c[s.pending.value := c[s.pending.value] + 1] + [ch]
    ensures var lit, x := s.top.last.value, Lit(s.top.last.value.s + [ch]);
      && ShapedItem(x) && Placed(x) && !Headless(x) && GroupCount(x) == GroupCount(lit) && (forall k: nat :: Numbered(x, k))
      && Unparse(x) == Unparse(lit) + [TChar(ch)] && c' == c[..s.laststart.value] + Code(x)
      && PendingOk(c', Wrapped(s, x, s.pending))
  {
    LastItem(c, s);
    var p, lit := s.laststart.value, s.top.last.value.s;
    assert ShapedItem(Lit(lit));
    hide Consistent;
    LongerBytes(c, p, lit, ch, c');
    assert LastStart(Wrapped(s, Lit(lit + [ch]), s.pending)) == LastStart(s);
  }

  lemma LongerBytes(c: seq<byte>, p: nat, lit: seq<byte>, ch: byte, c': seq<byte>)
    requires p + 2 <= |c| && c[p..] == Code(Lit(lit)) && 1 <= |lit| <= 255 && c[p + 1] < 255
    requires c' == c[p + 1 := c[p + 1] + 1] + [ch]
    ensures |lit| < 255 && c' == c[..p] + Code(Lit(lit + [ch]))
    ensures Unparse(Lit(lit + [ch])) == Unparse(Lit(lit)) + [TChar(ch)]
  {
    assert Code(Lit(lit)) == [EXACTN, |lit|] + lit;
    assert c[p..][1] == |lit| == c[p + 1];
    assert Code(Lit(lit + [ch])) == [EXACTN, |lit| + 1] + lit + [ch];
    assert c == c[..p] + [EXACTN, |lit|] + lit;
  }

  // ---- The whole pattern ----

  /** Collapses the run of repetition characters that starts at `i`. */
  method CollapseRun(pattern: seq<Token>, i: nat) returns (j: nat, zero: bool, many: bool, ghost ops: seq<Op>)
    requires i < |pattern| && pattern[i].TOp?
    ensures i < j <= |pattern| && pattern[i..j] == Ops(ops) && ops != [] && zero == ZeroOk(ops) && many == ManyOk(ops)
    ensures j < |pattern| ==> !pattern[j].TOp?
    ensures (zero <==> Star in ops || Quest in ops) && (many <==> Star in ops || Plus in ops)
  {
    j, zero, many, ops := i, false, false, [];
    while j < |pattern| && pattern[j].TOp?
      invariant i <= j <= |pattern| && pattern[i..j] == Ops(ops) && zero == ZeroOk(ops) && many == ManyOk(ops)
      invariant ops == [] <==> j == i
    {
      var o := pattern[j].op;
      assert pattern[i..j + 1] == pattern[i..j] + [TOp(o)] && Ops(ops + [o]) == Ops(ops) + [TOp(o)];
      zero, many := zero || o != Plus, many || o != Quest;
      MoreOps(ops, o);
      ops := ops + [o];
      j := j + 1;
    }
    RunAllows(ops);
  }

  /** Whether the character before `i` must stand alone, since a repetition or an interval follows. */
  predicate Repeated(pattern: seq<Token>, i: nat) {
    i < |pattern| && (pattern[i].TOp? || pattern[i].TInterval?)
  }

  /** What a repetition or an interval at `i` finds before it. */
  predicate Ready(pattern: seq<Token>, i: nat, l: Level) {
    i < |pattern| && l.last.Some? ==>
      (pattern[i].TOp? ==> Repeatable(l.last.value)) && (pattern[i].TInterval? ==> Countable(l.last.value))
  }

  lemma {:induction false} TokenRead(pattern: seq<Token>, i: nat, depth: nat)
    requires i < |pattern|
    ensures Parens(pattern[i..], depth) ==
      if pattern[i].TOpen? then Parens(pattern[i + 1..], depth + 1)
      else if !pattern[i].TClose? then Parens(pattern[i + 1..], depth)
      else if depth == 0 then ERPAREN
      else Parens(pattern[i + 1..], depth - 1)
    ensures pattern[i..] == [pattern[i]] + pattern[i + 1..] && pattern[..i] + [pattern[i]] == pattern[..i + 1]
    ensures Opens(pattern[i..]) == (if pattern[i].TOpen? then 1 else 0) + Opens(pattern[i + 1..])
  {
    assert pattern[i..][1..] == pattern[i + 1..];
  }

  lemma {:induction false} RunRead(pattern: seq<Token>, i: nat, j: nat, depth: nat)
    requires i <= j <= |pattern| && forall k | i <= k < j :: pattern[k].TOp?
    ensures Parens(pattern[i..], depth) == Parens(pattern[j..], depth) && Opens(pattern[i..]) == Opens(pattern[j..])
    ensures pattern[..i] + pattern[i..j] == pattern[..j]
    decreases j - i
  {
    if i < j {
      TokenRead(pattern, i, depth);
      RunRead(pattern, i + 1, j, depth);
    }
  }

  /** Reads any token other than a repetition or a close parenthesis. */
  method OneToken(s: Compiler, pattern: seq<Token>, i: nat) returns (ok: bool)
    requires s.Valid() && i < |pattern| && Lexical(pattern[i]) && Ready(pattern, i, s.top)
    requires !pattern[i].TOp? && !pattern[i].TClose? && (pattern[i].TOpen? ==> s.regnum < MAX_REGNUM)
    modifies s, s.buffer
    ensures (s.buffer == old(s.buffer) || fresh(s.buffer)) && (!ok ==> old(s.b) + 34 > MAX_BUF_SIZE)
    ensures ok ==>
      && s.Valid() && s.b <= old(s.b) + 34 && Spell(s.outer, s.top) == old(Spell(s.outer, s.top)) + [pattern[i]]
      && Ready(pattern, i + 1, s.top)
      && s.regnum == old(s.regnum) + (if pattern[i].TOpen? then 1 else 0)
      && |s.outer| == |old(s.outer)| + (if pattern[i].TOpen? then 1 else 0)
  {
    hide Consistent, Spell, Unparse;
    match pattern[i] {
      case TChar(c) => ok := s.Normal(c, Repeated(pattern, i + 1));
      case TDot => ok := s.Dot();
      case TSet(neg, bits) => ok := s.Bracket(neg, bits);
      case TOpen => ok := s.OpenGroup();
      case TBar => ok := s.Bar();
      case TInterval(lo, hi) => ok := s.Bounds(lo, hi);
    }
  }

  /** Reads a close parenthesis. */
  method CloseToken(s: Compiler) returns (err: Error)
    requires s.Valid()
    modifies s, s.buffer
    ensures s.buffer == old(s.buffer) || fresh(s.buffer)
    ensures err == ESIZE ==> old(s.b) + 4 > MAX_BUF_SIZE
    ensures err != ESIZE ==> err == if old(s.outer) == [] then ERPAREN else NoError
    ensures err == NoError ==>
      && s.Valid() && s.b <= old(s.b) + 4 && Spell(s.outer, s.top) == old(Spell(s.outer, s.top)) + [TClose]
      && s.regnum == old(s.regnum) && |s.outer| + 1 == |old(s.outer)| && s.top.last.Some? && s.top.last.value.Group?
  {
    hide Spell, LevelOk, LevelsOk, StackAt, LevelAt, PendingOk;
    ghost var c := s.Emitted();
    var ok := s.EndAlternatives();
    if !ok { return ESIZE; }
    if s.stack == [] { return ERPAREN; }
    PatchedLength(c, s.Reading());
    ok := s.CloseGroup(c);
    err := if ok then NoError else ESIZE;
  }

  lemma PatchedLength(c: seq<byte>, s: State)
    requires s.begalt <= |c| && (s.fixup.Some? ==> s.fixup.value + 3 == s.begalt)
    ensures |Patched(c, s)| == |c|
  {
  }

  /** The invariant of the main loop: the first `i` tokens have been read. */
  ghost predicate Upto(s: Compiler, pattern: seq<Token>, i: nat)
    reads s, s.buffer
  {
    && i <= |pattern| && s.Valid() && s.b <= 34 * i
    && Spell(s.outer, s.top) == pattern[..i] && Ready(pattern, i, s.top)
    && Parens(pattern, 0) == Parens(pattern[i..], |s.outer|)
    && s.regnum + Opens(pattern[i..]) == Opens(pattern)
  }

  /** How one turn of the main loop ends. */
  twostate predicate Turned(s: Compiler, pattern: seq<Token>, i: nat, err: Error, j: nat)
    reads s, s.buffer
  {
    && (s.buffer == old(s.buffer) || fresh(s.buffer))
    && (err == NoError ==> i < j && Upto(s, pattern, j))
    && (err == ESIZE ==> 34 * |pattern| > MAX_BUF_SIZE)
    && (err == NoError || err == ESIZE || err == Parens(pattern, 0))
  }

  method RunTurn(s: Compiler, pattern: seq<Token>, i: nat) returns (err: Error, j: nat)
    requires Upto(s, pattern, i) && i < |pattern| && pattern[i].TOp?
    modifies s, s.buffer
    ensures Turned(s, pattern, i, err, j)
  {
    hide Consistent, Spell, Opens, Parens;
    var k, zero, many, ops := CollapseRun(pattern, i);
    RunRead(pattern, i, k, |s.outer|);
    j := k;
    var ok := s.Repeat(zero, many, ops);
    err := if ok then NoError else ESIZE;
  }

  method CloseTurn(s: Compiler, pattern: seq<Token>, i: nat) returns (err: Error, j: nat)
    requires Upto(s, pattern, i) && i < |pattern| && pattern[i].TClose?
    modifies s, s.buffer
    ensures Turned(s, pattern, i, err, j)
  {
    hide Consistent, Spell, Opens, Parens;
    TokenRead(pattern, i, |s.outer|);
    err := CloseToken(s);
    j := i + 1;
  }

  method TokenTurn(s: Compiler, pattern: seq<Token>, i: nat) returns (err: Error, j: nat)
    requires Upto(s, pattern, i) && i < |pattern| && !pattern[i].TOp? && !pattern[i].TClose? && Lexical(pattern[i])
    requires Opens(pattern) <= MAX_REGNUM
    modifies s, s.buffer
    ensures Turned(s, pattern, i, err, j)
  {
    hide Consistent, Spell, Opens, Parens;
    TokenRead(pattern, i, |s.outer|);
    var ok := OneToken(s, pattern, i);
    err := if ok then NoError else ESIZE;
    j := i + 1;
  }

  /** `regex_compile`. */
  method Compile(pattern: seq<Token>) returns (err: Error, buffer: array<byte>, used: nat, ghost r: Re)
    requires (forall i | 0 <= i < |pattern| :: Lexical(pattern[i])) && Opens(pattern) <= MAX_REGNUM
    ensures err == ESIZE || err == Parens(pattern, 0)
    ensures err == ESIZE ==> 34 * |pattern| > MAX_BUF_SIZE
    ensures err == NoError ==> Reads(pattern, r) && used <= buffer.Length && buffer[..used] == Code(r)
    ensures err == NoError ==> used <= 34 * |pattern|
    ensures err == NoError && used < 32768 ==> WellJumping(buffer[..used])
  {
    hide Consistent, Spell, Unparse, LevelOk, LevelsOk, WellJumping, Code, Reads, Opens, Parens;
    var s := new Compiler();
    buffer, used, r := s.buffer, 0, Eps;
    var i := 0;
    Beginning(s, pattern);
    while i < |pattern|
      invariant fresh(s) && fresh(s.buffer) && Upto(s, pattern, i)
    {
      if pattern[i].TOp? {
        err, i := RunTurn(s, pattern, i);
      } else if pattern[i].TClose? {
        err, i := CloseTurn(s, pattern, i);
      } else {
        err, i := TokenTurn(s, pattern, i);
      }
      if err != NoError { return; }
    }
    ghost var c, st := s.Emitted(), s.Reading();
    AtTheEnd(c, st, pattern);
    s.Finish();
    if s.stack != [] { err := EPAREN; return; }
    r := Whole(st.top);
    PatternFinished(c, st);
    err, buffer, used := NoError, s.buffer, s.b;
    if used < 32768 { ReadsWell(pattern, r); }
  }

  lemma {:induction false} Beginning(s: Compiler, pattern: seq<Token>)
    requires s.Valid() && s.b == 0 && s.regnum == 0 && s.outer == [] && s.top == EMPTY_LEVEL
    ensures Upto(s, pattern, 0)
  {
    hide Consistent, LevelOk, Whole;
    EmptyOk(1);
    assert pattern[0..] == pattern && pattern[..0] == [];
  }

  lemma {:induction false} AtTheEnd(c: seq<byte>, s: State, pattern: seq<Token>)
    requires Consistent(c, s) && Parens(pattern, 0) == Parens(pattern[|pattern|..], |s.outer|)
    ensures Parens(pattern, 0) == if s.stack == [] then NoError else EPAREN
    ensures |s.stack| == |s.outer| && pattern[..|pattern|] == pattern
  {
  }

  lemma {:induction false} ReadsWell(pattern: seq<Token>, r: Re)
    requires Reads(pattern, r) && |Code(r)| < 32768
    ensures WellJumping(Code(r))
  {
    FinishedProgram(r);
  }
}
