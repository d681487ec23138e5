/** The backtracking machine of `re_match_2` as a step function: one call of `Step` is one turn of its main loop.
    Reported submatch registers are left out; the per-group flags that steer the matching are not. */
module RegexMachine {
  import opened RegexSyntax
  import opened RegexCode

  /** The two bits of `register_info_type` that decide control flow. */
  datatype Reg = Reg(active: bool, matched: bool)

  const REGISTERS: nat := 256
  const NO_HIGHEST_ACTIVE_REG: nat := 256
  const NO_LOWEST_ACTIVE_REG: nat := 257

  /** Where a failure resumes; `Nowhere` is the null pattern place of a dummy failure point. */
  datatype Place = Nowhere | Place(p: nat, d: nat)

  /** A failure point. `regs` holds all groups; a pop takes back only `low..high`, the ones that are pushed. */
  datatype Fail = Fail(place: Place, low: nat, high: nat, regs: seq<Reg>)

  datatype Best = NoBest | Best(end: nat)

  datatype Machine = Machine(p: nat, d: nat, low: nat, high: nat, regs: seq<Reg>, stack: seq<Fail>, best: Best)

  datatype Outcome =
    | Running(m: Machine)
    | Matched(end: nat)
    | NoMatch
    | Stuck

  function Start(pos: nat): Machine {
    Machine(0, pos, NO_LOWEST_ACTIVE_REG, NO_HIGHEST_ACTIVE_REG, seq(REGISTERS, i => Reg(false, false)), [], NoBest)
  }

  function GetReg(regs: seq<Reg>, r: nat): Reg {
    if r < |regs| then regs[r] else Reg(false, false)
  }

  function SetReg(regs: seq<Reg>, r: nat, x: Reg): seq<Reg> {
    if r < |regs| then regs[r := x] else regs
  }

  /** SET_REGS_MATCHED. */
  function MarkMatched(regs: seq<Reg>, low: nat, high: nat): (s: seq<Reg>)
    ensures |s| == |regs|
    ensures forall i | 0 <= i < |regs| :: s[i] == if low <= i <= high then regs[i].(matched := true) else regs[i]
  {
    seq(|regs|, i requires 0 <= i < |regs| => if low <= i <= high then regs[i].(matched := true) else regs[i])
  }

  /** The registers after a pop: the saved ones in `low..high`, the present ones elsewhere. */
  function Restored(regs: seq<Reg>, saved: seq<Reg>, low: nat, high: nat): (s: seq<Reg>)
    ensures |s| == |regs|
    ensures forall i | 0 <= i < |regs| :: s[i] == if low <= i <= high && i < |saved| then saved[i] else regs[i]
  {
    seq(|regs|, i requires 0 <= i < |regs| => if low <= i <= high && i < |saved| then saved[i] else regs[i])
  }

  /** The highest active register from `r` down, or 0. */
  function HighestActive(regs: seq<Reg>, r: nat): (h: nat)
    ensures h <= r && (h > 0 ==> GetReg(regs, h).active)
    ensures forall i | h < i <= r :: !GetReg(regs, i).active
  {
    if r == 0 || GetReg(regs, r).active then r else HighestActive(regs, r - 1)
  }

  // ---- maybe_pop_jump: is there anything to backtrack into? ----

  /** The first instruction from `p` on that is not an open-group or close-group command. */
  function SkipGroups(c: seq<byte>, p: nat): nat
    decreases |c| - p
  {
    if p + 2 < |c| && (c[p] == START_MEMORY || c[p] == STOP_MEMORY) then SkipGroups(c, p + 3) else p
  }

  /** The char test of the bitmap at `p`, whose size in bits is first narrowed to a byte. */
  predicate NarrowedMapHas(c: seq<byte>, p: int, ch: byte) {
    ch < (8 * B(c, p)) % 256 && Bit(B(c, p + 1 + ch / 8), ch % 8)
  }

  /** Whether `maybe_pop_jump` at `p` becomes `pop_failure_jump`. */
  predicate CanPop(c: seq<byte>, p: nat) {
    var q := SkipGroups(c, p + 3);
    var h := Target(c, p);
    if q == |c| then true
    else if B(c, q) != EXACTN then false
    else
      var ch := B(c, q + 2);
      if B(c, h + 3) == EXACTN then B(c, h + 5) != ch
      else if B(c, h + 3) == CHARSET then !NarrowedMapHas(c, h + 4, ch)
      else if B(c, h + 3) == CHARSET_NOT then NarrowedMapHas(c, h + 4, ch)
      else false
  }

  // ---- Failing ----

  predicate IsLoopEnd(c: seq<byte>, p: nat) {
    && (B(c, p) == MAYBE_POP_JUMP || B(c, p) == POP_FAILURE_JUMP || B(c, p) == JUMP)
    && B(c, Target(c, p)) == ON_FAILURE_JUMP
  }

  function Popped(m: Machine): Machine
    requires m.stack != []
  {
    var top := m.stack[|m.stack| - 1];
    m.(p := if top.place.Place? then top.place.p else m.p,
       d := if top.place.Place? then top.place.d else m.d,
       low := top.low, high := top.high,
       regs := Restored(m.regs, top.regs, top.low, top.high),
       stack := m.stack[..|m.stack| - 1])
  }

  /** The code at label `fail`: pop failure points until one is usable, or give up with the best match so far. */
  function Backtrack(c: seq<byte>, m: Machine): Outcome
    decreases |m.stack|
  {
    if m.stack == [] then
      if m.best.Best? then Matched(m.best.end) else NoMatch
    else if m.stack[|m.stack| - 1].place.Nowhere? || IsLoopEnd(c, m.stack[|m.stack| - 1].place.p) then
      Backtrack(c, Popped(m))
    else
      Running(Popped(m))
  }

  // ---- One turn of the loop ----

  function Push(m: Machine, place: Place): Machine {
    m.(stack := m.stack + [Fail(place, m.low, m.high, m.regs)])
  }

  function Goto(m: Machine, p: int): Outcome {
    if p < 0 then Stuck else Running(m.(p := p))
  }

  function Consume(m: Machine, p: nat, n: nat): Outcome {
    Running(m.(p := p, d := m.d + n, regs := MarkMatched(m.regs, m.low, m.high)))
  }

  function AtEnd(t: seq<byte>, c: seq<byte>, m: Machine): Outcome {
    if m.d == |t| then Matched(m.d)
    else if m.stack != [] then
      Backtrack(c, if m.best.NoBest? || m.d > m.best.end then m.(best := Best(m.d)) else m)
    else if m.best.Best? then Matched(m.best.end)
    else Matched(m.d)
  }

  function StepExactn(t: seq<byte>, c: seq<byte>, m: Machine): Outcome {
    var n := B(c, m.p + 1);
    if n == 0 || m.p + 2 + n > |c| then Stuck
    else if m.d + n <= |t| && t[m.d..m.d + n] == c[m.p + 2..m.p + 2 + n] then Consume(m, m.p + 2 + n, n)
    else Backtrack(c, m)
  }

  function StepAnychar(f: Flags, t: seq<byte>, c: seq<byte>, m: Machine): Outcome {
    if m.d < |t| && AnyHas(f, t[m.d]) then Consume(m, m.p + 1, 1) else Backtrack(c, m)
  }

  function StepCharset(t: seq<byte>, c: seq<byte>, m: Machine, neg: bool): Outcome {
    var n := B(c, m.p + 1);
    if m.p + 2 + n > |c| then Stuck
    else if m.d < |t| && SetHas(neg, c[m.p + 2..m.p + 2 + n], t[m.d]) then Consume(m, m.p + 2 + n, 1)
    else Backtrack(c, m)
  }

  function StepStart(c: seq<byte>, m: Machine): Outcome {
    var r := B(c, m.p + 1);
    Running(m.(p := m.p + 3,
               low := if m.low == NO_LOWEST_ACTIVE_REG then r else m.low, high := r,
               regs := SetReg(m.regs, r, Reg(true, false))))
  }

  /** The group stops being active. */
  function Closed(m: Machine, r: nat): Machine {
    var regs := SetReg(m.regs, r, GetReg(m.regs, r).(active := false));
    var h := if r == 0 then 0 else HighestActive(regs, r - 1);
    if m.low == m.high || h == 0
    then m.(regs := regs, low := NO_LOWEST_ACTIVE_REG, high := NO_HIGHEST_ACTIVE_REG)
    else m.(regs := regs, high := h)
  }

  /** The instruction at `q` jumps back to an on_failure_jump right before the start of group `r`. */
  predicate LoopsBackTo(c: seq<byte>, q: nat, r: nat) {
    && (B(c, q) == POP_FAILURE_JUMP || B(c, q) == MAYBE_POP_JUMP || B(c, q) == JUMP || B(c, q) == DUMMY_FAILURE_JUMP)
    && Extract(c, q + 1) < 0
    && B(c, Target(c, q)) == ON_FAILURE_JUMP
    && B(c, Target(c, q) + 3) == START_MEMORY
    && B(c, Target(c, q) + 4) == r
  }

  /** stop_memory. If nothing was matched this time around a loop, leave the loop. The second reason to leave reads
      the byte two before the instruction, whatever it is. */
  function StepStop(c: seq<byte>, m: Machine): Outcome {
    var r := B(c, m.p + 1);
    var m' := Closed(m, r);
    if (!GetReg(m.regs, r).matched || B(c, m.p - 2) == START_MEMORY) && m.p + 3 < |c| && LoopsBackTo(c, m.p + 3, r) then
      var exit := Target(c, Target(c, m.p + 3));
      if exit < 0 then Stuck else Backtrack(c, Push(m', Place(exit, m.d)))
    else
      Running(m'.(p := m.p + 3))
  }

  /** Before a group, all its registers are saved with the failure point. */
  function Saving(c: seq<byte>, m: Machine): Machine {
    if B(c, m.p + 3) == START_MEMORY
    then m.(high := B(c, m.p + 4) + B(c, m.p + 5), low := if m.low == NO_LOWEST_ACTIVE_REG then B(c, m.p + 4) else m.low)
    else m
  }

  function StepOnFailure(c: seq<byte>, m: Machine): Outcome {
    if Target(c, m.p) < 0 then Stuck
    else Running(Push(Saving(c, m), Place(Target(c, m.p), m.d)).(p := m.p + 3))
  }

  function StepPopJump(c: seq<byte>, m: Machine): Outcome {
    if m.stack == [] then Stuck else Goto(m.(stack := m.stack[..|m.stack| - 1]), Target(c, m.p))
  }

  function Step(f: Flags, t: seq<byte>, c: seq<byte>, m: Machine): Outcome {
    if m.p >= |c| then
      if m.p == |c| then AtEnd(t, c, m) else Stuck
    else
      var op := c[m.p];
      if op == EXACTN then StepExactn(t, c, m)
      else if op == ANYCHAR then StepAnychar(f, t, c, m)
      else if op == CHARSET then StepCharset(t, c, m, false)
      else if op == CHARSET_NOT then StepCharset(t, c, m, true)
      else if op == START_MEMORY then StepStart(c, m)
      else if op == STOP_MEMORY then StepStop(c, m)
      else if op == ON_FAILURE_JUMP then StepOnFailure(c, m)
      else if op == MAYBE_POP_JUMP then
        if CanPop(c, m.p) then StepPopJump(c, m) else Goto(m, Target(c, m.p))
      else if op == POP_FAILURE_JUMP then StepPopJump(c, m)
      else if op == JUMP || op == JUMP_PAST_ALT then Goto(m, Target(c, m.p))
      else if op == DUMMY_FAILURE_JUMP then Goto(Push(m, Nowhere), Target(c, m.p))
      else if op == PUSH_DUMMY_FAILURE then Running(Push(m, Nowhere).(p := m.p + 1))
      else Stuck
  }

  /** The outcome after at most `n` turns. */
  function Run(f: Flags, t: seq<byte>, c: seq<byte>, m: Machine, n: nat): Outcome
    decreases n
  {
    if n == 0 then Running(m)
    else
      var o := Step(f, t, c, m);
      if o.Running? then Run(f, t, c, o.m, n - 1) else o
  }
}
