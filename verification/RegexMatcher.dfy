/** `re_match_2` itself: the loop over the program bytes, with its failure stack, its register flags and its best match
    so far. Each opcode is proved to do what `RegexMachine.Step` says, and rewritten opcodes stay in the buffer. */
module RegexMatcher {
  import opened RegexSyntax
  import opened RegexCode
  import opened RegexJumps
  import opened RegexEffect
  import opened RegexMachine
  import opened RegexKont
  import opened RegexThreads
  import opened RegexProperties
  import opened RegexAlternatives
  import opened RegexFollow
  import opened RegexMatch
  import opened RegexRewrite

  /** How one turn of the main loop ends. */
  datatype Turn = Continue | Accept | Fail

  /** The local variables of `re_match_2`. */
  class Matcher {
    const buffer: array<byte>
    const text: seq<byte>
    const flags: Flags
    var p: nat
    var d: nat
    var lowest: nat
    var highest: nat
    const info: array<Reg>
    var stack: seq<RegexMachine.Fail>
    var best: Best

    constructor (buffer: array<byte>, text: seq<byte>, flags: Flags, pos: nat)
      ensures this.buffer == buffer && this.text == text && this.flags == flags
      ensures fresh(info) && State() == Start(pos)
    {
      this.buffer, this.text, this.flags := buffer, text, flags;
      p, d := 0, pos;
      lowest, highest := NO_LOWEST_ACTIVE_REG, NO_HIGHEST_ACTIVE_REG;
      info := new Reg[REGISTERS](_ => Reg(false, false));
      stack, best := [], NoBest;
      new;
      assert info[..] == Start(pos).regs;
    }

    ghost function State(): Machine
      reads this, info
    {
      Machine(p, d, lowest, highest, info[..], stack, best)
    }

    ghost function Program(): seq<byte>
      reads buffer
    {
      buffer[..]
    }

    method Byte(i: int) returns (b: byte)
      ensures b == B(Program(), i)
    {
      b := if 0 <= i < buffer.Length then buffer[i] else 0;
    }

    method ExtractNumber(i: int) returns (n: int)
      ensures n == Extract(Program(), i)
    {
      var lo := Byte(i);
      var hi := Byte(i + 1);
      var sign: int := if hi < 128 then hi as int else hi as int - 256;
      n := lo as int + 256 * sign;
    }

    method JumpTarget(i: int) returns (n: int)
      ensures n == Target(Program(), i)
    {
      var k := ExtractNumber(i + 1);
      n := i + 3 + k;
    }

    method PushFailurePoint(place: Place)
      modifies this`stack
      ensures State() == Push(old(State()), place)
    {
      stack := stack + [RegexMachine.Fail(place, lowest, highest, info[..])];
    }

    method SetRegsMatched()
      modifies info
      ensures State() == old(State()).(regs := MarkMatched(old(info[..]), lowest, highest))
    {
      var r := lowest;
      while r <= highest && r < info.Length
        invariant lowest <= r
        invariant forall i | 0 <= i < info.Length ::
          info[i] == if lowest <= i <= highest && i < r then old(info[i]).(matched := true) else old(info[i])
      {
        info[r] := info[r].(matched := true);
        r := r + 1;
      }
      assert info[..] == MarkMatched(old(info[..]), lowest, highest);
    }

    /** POP_FAILURE_POINT into the current variables. */
    method PopFailurePoint() returns (place: Place)
      requires stack != []
      modifies this, info
      ensures place == old(stack)[|old(stack)| - 1].place
      ensures State() == Popped(old(State()))
    {
      var top := stack[|stack| - 1];
      stack := stack[..|stack| - 1];
      place := top.place;
      if place.Place? { p, d := place.p, place.d; }
      lowest, highest := top.low, top.high;
      var n := info.Length;
      var r := if highest < n then highest + 1 else n;
      while r > lowest
        modifies info
        invariant r <= n && r <= highest + 1
        invariant forall i | 0 <= i < n ::
          info[i] == if lowest <= i <= highest && r <= i && i < |top.regs| then top.regs[i] else old(info[i])
      {
        r := r - 1;
        if r < |top.regs| { info[r] := top.regs[r]; }
      }
      assert info[..] == Restored(old(info[..]), top.regs, top.low, top.high);
    }

    method LoopEndAt(q: nat) returns (b: bool)
      ensures b == IsLoopEnd(Program(), q)
    {
      var op := Byte(q);
      var h := JumpTarget(q);
      var op' := Byte(h);
      b := (op == MAYBE_POP_JUMP || op == POP_FAILURE_JUMP || op == JUMP) && op' == ON_FAILURE_JUMP;
    }

    /** The code at label `fail`. */
    method Backtracking() returns (more: bool)
      modifies this, info
      ensures best == old(best) && Program() == old(Program())
      ensures match Backtrack(Program(), old(State()))
        case Running(m) => more && State() == m
        case _ => !more
    {
      ghost var c, m := Program(), State();
      while stack != []
        invariant Backtrack(c, State()) == Backtrack(c, m) && best == m.best && Program() == c
        decreases |stack|
      {
        var place := PopFailurePoint();
        if place.Place? {
          var again := LoopEndAt(place.p);
          if !again { return true; }
        }
      }
      more := false;
    }

    /** Compare the text with the `n` bytes after the count. */
    method Exactn() returns (ok: bool)
      requires p < buffer.Length && B(Program(), p + 1) > 0 && p + 2 + B(Program(), p + 1) <= buffer.Length
      requires d <= |text|
      modifies this, info
      ensures Program() == old(Program())
      ensures var m, n := old(State()), B(Program(), old(p) + 1);
        if m.d + n <= |text| && text[m.d..m.d + n] == Program()[m.p + 2..m.p + 2 + n]
        then ok && Running(State()) == Consume(m, m.p + 2 + n, n)
        else !ok && State() == m
    {
      var n := Byte(p + 1);
      ghost var lit := Program()[p + 2..p + 2 + n];
      var i := 0;
      while i < n
        invariant i <= n && d + i <= |text| && text[d..d + i] == lit[..i]
      {
        if d + i == |text| { return false; }
        if text[d + i] != buffer[p + 2 + i] {
          assert text[d..d + i + 1][i] != lit[i];
          if d + n <= |text| { assert text[d..d + n][i] != lit[i]; }
          return false;
        }
        assert text[d..d + i + 1] == text[d..d + i] + [text[d + i]];
        i := i + 1;
      }
      p, d := p + 2 + n, d + n;
      SetRegsMatched();
      ok := true;
    }

    method Anychar() returns (ok: bool)
      requires d <= |text|
      modifies this, info
      ensures Program() == old(Program())
      ensures var m := old(State());
        if m.d < |text| && AnyHas(flags, text[m.d]) then ok && Running(State()) == Consume(m, m.p + 1, 1)
        else !ok && State() == m
    {
      if d == |text| { return false; }
      if !AnyHas(flags, text[d]) { return false; }
      p, d := p + 1, d + 1;
      SetRegsMatched();
      ok := true;
    }

    method Charset(neg: bool) returns (ok: bool)
      requires p < buffer.Length && p + 2 + B(Program(), p + 1) <= buffer.Length && d <= |text|
      modifies this, info
      ensures Program() == old(Program())
      ensures var m, n := old(State()), B(Program(), old(p) + 1);
        if m.d < |text| && SetHas(neg, Program()[m.p + 2..m.p + 2 + n], text[m.d])
        then ok && Running(State()) == Consume(m, m.p + 2 + n, 1)
        else !ok && State() == m
    {
      if d == |text| { return false; }
      var n: int := Byte(p + 1);
      var ch: int := text[d];
      var inMap := ch < 8 * n && Bit(buffer[p + 2 + ch / 8], ch % 8);
      assert inMap == InMap(Program()[p + 2..p + 2 + n], ch);
      if inMap == neg { return false; }
      p, d := p + 2 + n, d + 1;
      SetRegsMatched();
      ok := true;
    }

    method StartMemory()
      requires p < buffer.Length
      modifies this, info
      ensures Program() == old(Program())
      ensures Running(State()) == StepStart(Program(), old(State()))
    {
      var r := Byte(p + 1);
      if r < info.Length { info[r] := Reg(true, false); }
      highest := r;
      if lowest == NO_LOWEST_ACTIVE_REG { lowest := r; }
      p := p + 3;
    }

    /** The group stops being active, and the new highest active one is searched. */
    method CloseGroup(r: nat)
      modifies this, info
      ensures Program() == old(Program())
      ensures State() == Closed(old(State()), r)
    {
      if r < info.Length { info[r] := info[r].(active := false); }
      ghost var regs := info[..];
      if lowest == highest {
        lowest, highest := NO_LOWEST_ACTIVE_REG, NO_HIGHEST_ACTIVE_REG;
      } else {
        var h: nat := if r == 0 then 0 else r - 1;
        while h > 0 && !(h < info.Length && info[h].active)
          invariant h < r || h == r == 0
          invariant r > 0 ==> HighestActive(regs, r - 1) == HighestActive(regs, h)
        {
          h := h - 1;
        }
        if h == 0 {
          lowest, highest := NO_LOWEST_ACTIVE_REG, NO_HIGHEST_ACTIVE_REG;
        } else {
          highest := h;
        }
      }
    }

    method LoopsBack(q: nat, r: nat) returns (b: bool)
      ensures b == LoopsBackTo(Program(), q, r)
    {
      var op := Byte(q);
      if !(op == POP_FAILURE_JUMP || op == MAYBE_POP_JUMP || op == JUMP || op == DUMMY_FAILURE_JUMP) { return false; }
      var mcnt := ExtractNumber(q + 1);
      var h := JumpTarget(q);
      var o1 := Byte(h);
      var o2 := Byte(h + 3);
      var o3 := Byte(h + 4);
      b := mcnt < 0 && o1 == ON_FAILURE_JUMP && o2 == START_MEMORY && o3 == r;
    }

    /** Leaves a loop whose last iteration matched nothing, by failing to the loop's exit. */
    method StopMemory() returns (ok: bool)
      requires p < buffer.Length && !StepStop(Program(), State()).Stuck?
      modifies this, info
      ensures Program() == old(Program()) && best == old(best)
      ensures if ok then Running(State()) == StepStop(Program(), old(State()))
              else Backtrack(Program(), State()) == StepStop(Program(), old(State()))
    {
      hide Popped, Backtrack, HighestActive, Extract;
      var r := Byte(p + 1);
      var matched := r < info.Length && info[r].matched;
      var before := Byte(p - 2);
      CloseGroup(r);
      if (!matched || before == START_MEMORY) && p + 3 < buffer.Length {
        var loops := LoopsBack(p + 3, r);
        if loops {
          var h := JumpTarget(p + 3);
          var exit := JumpTarget(h);
          PushFailurePoint(Place(exit, d));
          return false;
        }
      }
      p := p + 3;
      ok := true;
    }

    method OnFailureJump()
      requires p < buffer.Length && Target(Program(), p) >= 0
      modifies this
      ensures Running(State()) == StepOnFailure(Program(), old(State()))
    {
      var op := Byte(p + 3);
      if op == START_MEMORY {
        var r: int := Byte(p + 4);
        var inner: int := Byte(p + 5);
        highest := r + inner;
        if lowest == NO_LOWEST_ACTIVE_REG { lowest := r; }
      }
      var exit := JumpTarget(p);
      PushFailurePoint(Place(exit, d));
      p := p + 3;
    }

    /** The first instruction from `from` on that is not an open- or close-group command. */
    method PastGroups(from: nat) returns (q: nat)
      ensures q == SkipGroups(Program(), from)
    {
      q := from;
      while q + 2 < buffer.Length && (buffer[q] == START_MEMORY || buffer[q] == STOP_MEMORY)
        invariant SkipGroups(Program(), q) == SkipGroups(Program(), from)
        decreases buffer.Length - q
      {
        q := q + 3;
      }
    }

    /** Whether the loop body at `i`, a literal or a set, cannot match `ch`. */
    method CannotMatch(i: int, ch: byte) returns (b: bool)
      ensures b == (if B(Program(), i) == EXACTN then B(Program(), i + 2) != ch
                    else if B(Program(), i) == CHARSET then !NarrowedMapHas(Program(), i + 1, ch)
                    else B(Program(), i) == CHARSET_NOT && NarrowedMapHas(Program(), i + 1, ch))
    {
      var first := Byte(i);
      if first == EXACTN {
        var lit := Byte(i + 2);
        b := lit != ch;
      } else if first == CHARSET || first == CHARSET_NOT {
        var size: int := Byte(i + 1);
        var bits := Byte(i + 2 + ch / 8);
        var inMap := ch < (8 * size) % 256 && Bit(bits, ch % 8);
        b := inMap == (first == CHARSET_NOT);
      } else {
        b := false;
      }
    }

    /** Whether nothing that the loop body matches can be what follows the loop. */
    method MustNotBacktrack() returns (b: bool)
      requires p < buffer.Length
      ensures b == CanPop(Program(), p)
    {
      var q := PastGroups(p + 3);
      if q == buffer.Length { return true; }
      var op := Byte(q);
      if op != EXACTN { return false; }
      var ch := Byte(q + 2);
      var h := JumpTarget(p);
      b := CannotMatch(h + 3, ch);
    }

    method UnconditionalJump()
      requires Target(Program(), p) >= 0
      modifies this`p
      ensures Running(State()) == Goto(old(State()), Target(Program(), old(p)))
    {
      var h := JumpTarget(p);
      p := h;
    }

    method PopFailureJump()
      requires stack != [] && Target(Program(), p) >= 0
      modifies this
      ensures Running(State()) == StepPopJump(Program(), old(State()))
    {
      stack := stack[..|stack| - 1];
      UnconditionalJump();
    }

    /** The end of the program: accept, or remember the match and fail to look for a longer one. */
    method EndOfPattern() returns (turn: Turn)
      modifies this, info
      ensures Program() == old(Program())
      ensures TurnIs(AtEnd(text, Program(), old(State())), turn, State())
    {
      if d != |text| {
        if stack != [] {
          if best.NoBest? || d > best.end { best := Best(d); }
          turn := Failing();
          return;
        } else if best.Best? {
          d := best.end;
        }
      }
      turn := Accept;
    }

    /** `goto fail`; when nothing is left, the best match is restored. */
    method Failing() returns (turn: Turn)
      modifies this, info
      ensures Program() == old(Program())
      ensures TurnIs(Backtrack(Program(), old(State())), turn, State())
    {
      ghost var c, m := Program(), State();
      BacktrackEnds(c, m);
      var more := Backtracking();
      if more { return Continue; }
      if best.Best? {
        d := best.end;
        return Accept;
      }
      turn := Turn.Fail;
    }

    /** Executes one instruction. A `maybe_pop_jump` is overwritten with what it turns out to be. */
    method OneTurn() returns (turn: Turn)
      requires p <= buffer.Length && d <= |text| && !Step(flags, text, Program(), State()).Stuck?
      modifies this, info, buffer
      ensures Program() == Rewritten(old(Program()), old(State()))
      ensures TurnIs(Step(flags, text, old(Program()), old(State())), turn, State())
    {
      ghost var c, m := Program(), State();
      if p == buffer.Length {
        turn := EndOfPattern();
        return;
      }
      turn := Continue;
      var ok := true;
      var op := buffer[p];
      if op == EXACTN {
        ok := Exactn();
      } else if op == ANYCHAR {
        ok := Anychar();
      } else if op == CHARSET || op == CHARSET_NOT {
        ok := Charset(op == CHARSET_NOT);
      } else if op == START_MEMORY {
        StartMemory();
      } else if op == STOP_MEMORY {
        ok := StopMemory();
      } else if op == ON_FAILURE_JUMP {
        OnFailureJump();
      } else if op == PUSH_DUMMY_FAILURE {
        PushFailurePoint(Nowhere);
        p := p + 1;
      } else if op == DUMMY_FAILURE_JUMP {
        PushFailurePoint(Nowhere);
        UnconditionalJump();
      } else {
        turn := Jumping(op);
        return;
      }
      if !ok { turn := Failing(); }
    }

    /** The jumps; `maybe_pop_jump` decides and falls through. */
    method Jumping(op: byte) returns (turn: Turn)
      requires p < buffer.Length && buffer[p] == op && d <= |text|
      requires !Step(flags, text, Program(), State()).Stuck?
      requires op >= JUMP && op != ON_FAILURE_JUMP && op != DUMMY_FAILURE_JUMP && op != PUSH_DUMMY_FAILURE
      modifies this, buffer
      ensures Program() == Rewritten(old(Program()), old(State()))
      ensures TurnIs(Step(flags, text, old(Program()), old(State())), turn, State())
    {
      var h := JumpTarget(p);
      turn := Continue;
      if op == MAYBE_POP_JUMP {
        var pop := MustNotBacktrack();
        buffer[p] := if pop then POP_FAILURE_JUMP else JUMP;
        if pop { stack := stack[..|stack| - 1]; }
        p := h;
      } else if op == POP_FAILURE_JUMP {
        PopFailureJump();
      } else {
        UnconditionalJump();
      }
    }
  }

  ghost predicate TurnIs(o: Outcome, turn: Turn, m: Machine) {
    match o
    case Running(m') => turn == Continue && m == m'
    case Matched(end) => turn == Accept && m.d == end
    case NoMatch => turn == Turn.Fail
    case Stuck => false
  }

  lemma {:induction false} BacktrackEnds(c: seq<byte>, m: Machine)
    ensures match Backtrack(c, m)
      case Running(_) => true
      case Matched(end) => m.best == Best(end)
      case NoMatch => m.best.NoBest?
      case Stuck => false
    decreases |m.stack|
  {
    if m.stack != [] {
      var x := m.stack[|m.stack| - 1];
      if x.place.Nowhere? || IsLoopEnd(c, x.place.p) { BacktrackEnds(c, Popped(m)); }
    }
  }

  /** `val` is the answer for a run that ended in `o`: the length of the match, or -1. */
  predicate AnswerOf(o: Outcome, pos: int, val: int) {
    if o.Matched? then o.end >= pos && val == o.end - pos else val == -1
  }

  /** What `re_match_2` promises for a match from `pos`: its value is the length of a match, or -1. */
  ghost predicate Promised(f: Flags, r: Re, t: seq<byte>, pos: nat, val: int) {
    var E := Effect(r);
    && (if val < 0 then val == -1 else InLanguage(f, E, t, pos, pos + val) && InLanguage(f, r, t, pos, pos + val))
    && (val >= 0 <==> exists e: nat :: InLanguage(f, E, t, pos, e))
    && (EndsWell(r, End, OwnLoop) && InLanguage(f, E, t, pos, |t|) ==> val == |t| - pos)
    && (EndsWell(r, End, AtomLoop) ==> Longest(f, r, t, pos, val))
    && (Exact(r) ==> Decides(f, r, t, pos, val))
  }

  /** It says whether the pattern has a match there; and if the pattern ends in a character or a repetition of one, how long
      the longest is. */
  ghost predicate Decides(f: Flags, r: Re, t: seq<byte>, pos: nat, val: int) {
    && (val >= 0 <==> exists e: nat :: InLanguage(f, r, t, pos, e))
    && (EndsPlainly(r) ==> forall e: nat | InLanguage(f, r, t, pos, e) :: e <= pos + val)
  }

  /** It is the longest; of several alternatives, the last can be overlooked, exactly then if it has no choice in it. */
  ghost predicate Longest(f: Flags, r: Re, t: seq<byte>, pos: nat, val: int) {
    var E := Effect(r);
    && (forall e: nat | InLanguage(f, E, t, pos, e) ::
          val >= 0 && (e <= pos + val || (r.Alt? && Missed(f, r, t, pos, pos + val, e))))
    && (r.Alt? && Quiet(LastBranch(r)) ==>
          forall e: nat | InLanguage(f, LastBranch(E), t, pos, e) ::
            pos + val < e <==> e < |t| && EarlierBelow(f, E, t, pos, e))
  }

  /** `re_match_2` on one string. `buffer` may have been rewritten by earlier calls. */
  method ReMatch2(buffer: array<byte>, flags: Flags, text: seq<byte>, pos: int, ghost r: Re) returns (val: int)
    requires Compiled(r) && Variant(Code(r), buffer[..])
    modifies buffer
    ensures Variant(Code(r), buffer[..])
    ensures !(0 <= pos <= |text|) ==> val == -1
    ensures 0 <= pos <= |text| ==> exists o :: Result(flags, text, Code(r), pos, o) && AnswerOf(o, pos, val)
    ensures pos >= 0 ==> Promised(flags, r, text, pos, val)
  {
    hide Lang, InLanguage, Run, Follows, OnBoundaries, Total, Variant, Rewritten, Step, Code, Result, Compiled, Promised;
    if pos < 0 || pos > |text| {
      if pos > |text| { NothingOutside(flags, r, text, pos); }
      return -1;
    }
    ghost var c := Code(r);
    StartsRight(flags, r, text, pos);
    var s := new Matcher(buffer, text, flags, pos);
    ghost var search, lag, n, o := First(r, pos), 2, 0, Running(Start(pos));
    var turn := Continue;
    while turn == Continue
      modifies s, s.info, buffer
      invariant Variant(c, buffer[..]) && Run(flags, text, c, Start(pos), n) == o && TurnIs(o, turn, s.State())
      invariant o.Running? ==> OnTrack(flags, c, text, o.m, search, lag)
      decreases if o.Running? then 1 + Left(flags, c, text, o.m, search, lag) else 0
    {
      ghost var m, cur := s.State(), buffer[..];
      search, lag := TurnOk(flags, c, cur, text, m, search, lag);
      turn := s.OneTurn();
      RunMore(flags, text, c, Start(pos), n, m);
      n, o := n + 1, Step(flags, text, c, m);
    }
    val := if turn == Accept then s.d - pos else -1;
    Answers(flags, r, text, pos, o, n, val);
  }

  /** The invariant of a run: the machine follows the search. */
  ghost predicate OnTrack(f: Flags, c: seq<byte>, t: seq<byte>, m: Machine, s: Search, lag: nat) {
    Follows(f, c, t, m, s, lag) && Sane(t, s) && OnBoundaries(c, m) && WellJumping(c) && |c| < 32768
  }

  function Left(f: Flags, c: seq<byte>, t: seq<byte>, m: Machine, s: Search, lag: nat): nat
    requires OnTrack(f, c, t, m, s, lag)
  {
    3 * Total(t, s) + lag
  }

  lemma {:induction false} StartsRight(f: Flags, r: Re, t: seq<byte>, pos: nat)
    requires Compiled(r) && pos <= |t|
    ensures OnTrack(f, Code(r), t, Start(pos), First(r, pos), 2)
    ensures Run(f, t, Code(r), Start(pos), 0) == Running(Start(pos))
  {
    FinishedProgram(r);
    Started(f, r, t, pos);
    assert SweepTo(Code(r), 0, 0);
  }

  /** One turn on the rewritten program. */
  lemma {:induction false} TurnOk(f: Flags, c: seq<byte>, cur: seq<byte>, t: seq<byte>, m: Machine, s: Search, lag: nat)
    returns (s': Search, lag': nat)
    requires OnTrack(f, c, t, m, s, lag) && Variant(c, cur)
    ensures m.p <= |cur| && m.d <= |t| && Step(f, t, cur, m) == Step(f, t, c, m) && !Step(f, t, c, m).Stuck?
    ensures Variant(c, Rewritten(cur, m))
    ensures var o := Step(f, t, c, m);
      o.Running? ==> OnTrack(f, c, t, o.m, s', lag') && Left(f, c, t, o.m, s', lag') < Left(f, c, t, m, s, lag)
  {
    SameStep(f, t, c, cur, m);
    s', lag' := StepFollows(f, c, t, m, s, lag);
    hide Step, Rewritten, Lay, Fits, Ordered, RegsTrack, WellJumping, StackFits, ThreadFits;
  }

  lemma {:induction false} NothingOutside(f: Flags, r: Re, t: seq<byte>, pos: nat)
    requires pos > |t|
    ensures Promised(f, r, t, pos, -1)
  {
    hide Lang, Effect, Quiet, EndsWell;
    assert forall x, e: nat :: !InLanguage(f, x, t, pos, e);
  }

  lemma {:induction false} RunMore(f: Flags, t: seq<byte>, c: seq<byte>, m0: Machine, n: nat, m: Machine)
    requires Run(f, t, c, m0, n) == Running(m)
    ensures Run(f, t, c, m0, n + 1) == Step(f, t, c, m)
    decreases n
  {
    if n > 0 {
      RunMore(f, t, c, Step(f, t, c, m0).m, n - 1, m);
    } else {
      var o := Step(f, t, c, m);
      if o.Running? { assert Run(f, t, c, o.m, 0) == o; }
    }
  }

  lemma {:induction false} Answers(f: Flags, r: Re, t: seq<byte>, pos: nat, o: Outcome, n: nat, val: int)
    requires Compiled(r) && pos <= |t| && !o.Running? && Run(f, t, Code(r), Start(pos), n) == o
    requires val == if o.Matched? then o.end - pos else -1
    ensures Result(f, t, Code(r), pos, o) && AnswerOf(o, pos, val) && Promised(f, r, t, pos, val)
  {
    hide Lang, Code, Run, Effect, EndsWell, Compiled, Quiet, Longest, Decides, Exact;
    var o' := MatcherIsRight(f, r, t, pos);
    assert Result(f, t, Code(r), pos, o);
    ResultUnique(f, t, Code(r), pos, o, o');
    assert o.Matched? ==> o.end >= pos;
    if EndsWell(r, End, AtomLoop) { AnswerIsLongest(f, r, t, pos, o, val); }
    if Exact(r) { AnswerDecides(f, r, t, pos, o, val); }
  }

  lemma {:induction false} AnswerDecides(f: Flags, r: Re, t: seq<byte>, pos: nat, o: Outcome, val: int)
    requires Compiled(r) && pos <= |t| && Result(f, t, Code(r), pos, o) && AnswerOf(o, pos, val) && Exact(r)
    ensures Decides(f, r, t, pos, val)
  {
    hide InLanguage, Code, Run, Compiled, Result, Exact;
    var o' := MatcherIsRight(f, r, t, pos);
    ResultUnique(f, t, Code(r), pos, o, o');
    assert o.Matched? ==> o.end >= pos by { if o.Matched? { MatchWithin(f, r, t, pos, o.end); } }
    if EndsPlainly(r) {
      forall e: nat | InLanguage(f, r, t, pos, e) ensures e <= pos + val { LongestOfPlain(f, r, t, pos, o, e); }
    }
  }

  lemma {:induction false} AnswerIsLongest(f: Flags, r: Re, t: seq<byte>, pos: nat, o: Outcome, val: int)
    requires Compiled(r) && pos <= |t| && Result(f, t, Code(r), pos, o) && AnswerOf(o, pos, val)
    requires EndsWell(r, End, AtomLoop)
    ensures Longest(f, r, t, pos, val)
  {
    hide InLanguage, Code, Run, Effect, EndsWell, Compiled, Quiet, Result, Missed, EarlierBelow;
    forall e: nat | InLanguage(f, Effect(r), t, pos, e)
      ensures val >= 0 && (e <= pos + val || (r.Alt? && Missed(f, r, t, pos, pos + val, e)))
    {
      LongestMatch(f, r, t, pos, o, e);
    }
    forall e: nat | r.Alt? && Quiet(LastBranch(r)) && InLanguage(f, LastBranch(Effect(r)), t, pos, e)
      ensures pos + val < e <==> e < |t| && EarlierBelow(f, Effect(r), t, pos, e)
    {
      MissedExactly(f, r, t, pos, o, e);
    }
  }
}
