/** `re_compile_fastmap`: the walk over the program, with its stack of addresses still to be visited. */
module RegexWalk {
  import opened RegexSyntax
  import opened RegexCode
  import opened RegexMachine
  import opened RegexFastmap

  /** A bound on the turns of the walk from `p`. */
  function Cost(c: seq<byte>, p: nat): nat
    decreases |c| - p
  {
    if p >= |c| then 0
    else if Consuming(c[p]) then 1
    else if c[p] == ON_FAILURE_JUMP then 2 + Cost(c, p + 3) + if Target(c, p) > p then Cost(c, Target(c, p)) else 0
    else 1 + if After(c, p) > p then Cost(c, After(c, p)) else 0
  }

  function Costs(c: seq<byte>, stack: seq<nat>): nat {
    if stack == [] then 0 else Costs(c, stack[..|stack| - 1]) + Cost(c, stack[|stack| - 1]) + 1
  }

  /** The walk is at `p`, with the addresses in `stack` still to be followed; all of it stays inside the program. */
  ghost predicate InProgram(c: seq<byte>, p: nat, stack: seq<nat>) {
    p <= |c| && Walks(c, p) && forall s | s in stack :: s < |c| && Walks(c, s)
  }

  /** Going round a loop, the walk arrives at the failure point on top of the stack and drops it. */
  predicate Drops(c: seq<byte>, p: nat, stack: seq<nat>)
    requires p < |c|
  {
    && JUMP <= c[p] <= DUMMY_FAILURE_JUMP && c[p] != ON_FAILURE_JUMP
    && Extract(c, p + 1) <= 0 && B(c, Target(c, p)) == ON_FAILURE_JUMP
    && stack != [] && stack[|stack| - 1] == After(c, p)
  }

  function Dropped(stack: seq<nat>, drops: bool): seq<nat>
    requires drops ==> stack != []
  {
    if drops then stack[..|stack| - 1] else stack
  }

  /** The stack after the on_failure_jump at `p`: a failure point at the end of the program is not pushed. */
  function Remembered(c: seq<byte>, p: nat, stack: seq<nat>): seq<nat>
    requires Target(c, p) >= 0
  {
    if Target(c, p) < |c| then stack + [Target(c, p)] else stack
  }

  /** Each turn stays inside the program and gets closer to the end of the walk. */
  lemma {:induction false} TurnInside(c: seq<byte>, p: nat, stack: seq<nat>)
    requires InProgram(c, p, stack)
    ensures p == |c| && stack != [] ==>
      var n := |stack| - 1;
      stack[n] < |c| && InProgram(c, stack[n], stack[..n]) && Cost(c, stack[n]) + Costs(c, stack[..n]) < Cost(c, p) + Costs(c, stack)
    ensures p < |c| && Consuming(c[p]) ==> InProgram(c, |c|, stack) && Cost(c, |c|) < Cost(c, p)
    ensures p < |c| && c[p] == ON_FAILURE_JUMP ==>
      && p < Target(c, p) <= |c| && p + 3 <= |c| && InProgram(c, p + 3, Remembered(c, p, stack))
      && Cost(c, p + 3) + Costs(c, Remembered(c, p, stack)) < Cost(c, p) + Costs(c, stack)
    ensures p < |c| && !Consuming(c[p]) && c[p] != ON_FAILURE_JUMP ==>
      && (c[p] == START_MEMORY || c[p] == STOP_MEMORY || c[p] == PUSH_DUMMY_FAILURE || JUMP <= c[p] <= DUMMY_FAILURE_JUMP)
      && p < After(c, p) <= |c| && InProgram(c, After(c, p), stack) && InProgram(c, After(c, p), Dropped(stack, Drops(c, p, stack)))
      && Cost(c, After(c, p)) < Cost(c, p) && Costs(c, Dropped(stack, Drops(c, p, stack))) <= Costs(c, stack)
  {
    if p == |c| && stack != [] { assert stack[|stack| - 1] in stack; }
    if p < |c| && c[p] == ON_FAILURE_JUMP {
      var h := Target(c, p);
      assert Walks(c, p + 3) && Walks(c, h);
      assert (stack + [h])[..|stack|] == stack;
    }
    if p < |c| && !Consuming(c[p]) && c[p] != ON_FAILURE_JUMP { assert Walks(c, After(c, p)); }
  }

  /** The consuming instructions in the order in which the walk comes to them. */
  function Visits(c: seq<byte>, p: nat, stack: seq<nat>): seq<nat>
    requires InProgram(c, p, stack)
    decreases Cost(c, p) + Costs(c, stack)
  {
    TurnInside(c, p, stack);
    if p == |c| then
      if stack == [] then [] else Visits(c, stack[|stack| - 1], stack[..|stack| - 1])
    else if Consuming(c[p]) then [p] + Visits(c, |c|, stack)
    else if c[p] == ON_FAILURE_JUMP then Visits(c, p + 3, Remembered(c, p, stack))
    else Visits(c, After(c, p), Dropped(stack, Drops(c, p, stack)))
  }

  /** `q` is still to be visited. */
  ghost predicate Pending(c: seq<byte>, p: nat, stack: seq<nat>, q: nat) {
    q in Firsts(c, p) || exists s :: s in stack && q in Firsts(c, s)
  }

  /** A path that is still to be followed leads to the end. */
  ghost predicate NullPending(c: seq<byte>, p: nat, pathNull: bool, stack: seq<nat>) {
    (pathNull && NullAt(c, p)) || exists s :: s in stack && NullAt(c, s)
  }

  lemma {:induction false} PoppedStack(c: seq<byte>, stack: seq<nat>)
    requires stack != []
    ensures forall s :: s in stack <==> s in stack[..|stack| - 1] || s == stack[|stack| - 1]
  {
    assert stack == stack[..|stack| - 1] + [stack[|stack| - 1]];
  }

  /** The walk visits exactly the instructions that can be reached without consuming anything. */
  /** What is pending after a turn is what was pending before, but for the instruction visited. */
  lemma {:induction false} PendingAfter(c: seq<byte>, p: nat, stack: seq<nat>, q: nat)
    requires InProgram(c, p, stack)
    ensures p == |c| ==>
      (Pending(c, p, stack, q) <==> stack != [] && Pending(c, stack[|stack| - 1], stack[..|stack| - 1], q))
    ensures p < |c| && Consuming(c[p]) ==> (Pending(c, p, stack, q) <==> q == p || Pending(c, |c|, stack, q))
    ensures p < |c| && c[p] == ON_FAILURE_JUMP ==>
      0 <= Target(c, p) && (Pending(c, p, stack, q) <==> Pending(c, p + 3, Remembered(c, p, stack), q))
    ensures p < |c| && !Consuming(c[p]) && c[p] != ON_FAILURE_JUMP ==>
      After(c, p) >= 0 && (Pending(c, p, stack, q) <==> Pending(c, After(c, p), Dropped(stack, Drops(c, p, stack)), q))
  {
    hide Extract, Target, Through, Walks, Cost, Costs;
    TurnInside(c, p, stack);
    if stack != [] { PoppedStack(c, stack); }
    if p < |c| && c[p] == ON_FAILURE_JUMP { assert Firsts(c, p) == Firsts(c, p + 3) + Firsts(c, Target(c, p)); }
  }

  lemma {:induction false} VisitsAreFirsts(c: seq<byte>, p: nat, stack: seq<nat>, q: nat)
    requires InProgram(c, p, stack)
    ensures q in Visits(c, p, stack) <==> Pending(c, p, stack, q)
    decreases Cost(c, p) + Costs(c, stack)
  {
    hide Firsts, Pending, Extract, Target, Through, Walks, Cost, Costs;
    TurnInside(c, p, stack);
    PendingAfter(c, p, stack, q);
    if p == |c| {
      if stack != [] { VisitsAreFirsts(c, stack[|stack| - 1], stack[..|stack| - 1], q); }
    } else if Consuming(c[p]) {
      VisitsAreFirsts(c, |c|, stack, q);
    } else if c[p] == ON_FAILURE_JUMP {
      VisitsAreFirsts(c, p + 3, Remembered(c, p, stack), q);
    } else {
      VisitsAreFirsts(c, After(c, p), Dropped(stack, Drops(c, p, stack)), q);
    }
  }

  // ---- The entry for a character ----

  /** The entry for `ch` after these instructions: each adds what it takes, except that '.' sets all entries anew. */
  predicate Entry(f: Flags, c: seq<byte>, visited: seq<nat>, ch: byte) {
    visited != [] &&
    var q := visited[|visited| - 1];
    Takes(f, c, q, ch) || (B(c, q) != ANYCHAR && Entry(f, c, visited[..|visited| - 1], ch))
  }

  /** What is left to take `ch` from place `k` of the visits on, no '.' coming later. */
  ghost predicate Keeps(f: Flags, c: seq<byte>, visited: seq<nat>, ch: byte, k: nat) {
    && k < |visited| && Takes(f, c, visited[k], ch)
    && forall i | k < i < |visited| :: B(c, visited[i]) != ANYCHAR
  }

  /** The entry is set exactly if some instruction takes the character and every '.' that is visited later takes it, too. */
  lemma {:induction false} EntryExactly(f: Flags, c: seq<byte>, visited: seq<nat>, ch: byte)
    ensures Entry(f, c, visited, ch) <==> exists k: nat :: Keeps(f, c, visited, ch, k)
    decreases |visited|
  {
    if visited != [] {
      var n := |visited| - 1;
      EntryExactly(f, c, visited[..n], ch);
      if Entry(f, c, visited, ch) {
        if Takes(f, c, visited[n], ch) {
          assert Keeps(f, c, visited, ch, n);
        } else {
          var k: nat :| Keeps(f, c, visited[..n], ch, k);
          assert Keeps(f, c, visited, ch, k);
        }
      }
      if k: nat :| Keeps(f, c, visited, ch, k) {
        if k < n { assert Keeps(f, c, visited[..n], ch, k); }
      }
    }
  }

  /** What the map of a program says about `ch`. */
  predicate Allows(f: Flags, c: seq<byte>, ch: byte)
    requires Walks(c, 0)
  {
    Entry(f, c, Visits(c, 0, []), ch)
  }

  /** The entry for newline is wrong: some instruction takes newline, but a '.' is visited after the last one that does. */
  ghost predicate NewlineLost(f: Flags, c: seq<byte>)
    requires Walks(c, 0)
  {
    !f.dotNewline && CanStart(f, c, 0, 10) && forall k: nat :: !Keeps(f, c, Visits(c, 0, []), 10, k)
  }

  /** Every entry is right, except that for newline when it is lost. */
  lemma {:induction false} AllowsExactly(f: Flags, c: seq<byte>, ch: byte)
    requires Walks(c, 0)
    ensures Allows(f, c, ch) <==> CanStart(f, c, 0, ch) && !(ch == 10 && NewlineLost(f, c))
  {
    var vs := Visits(c, 0, []);
    EntryExactly(f, c, vs, ch);
    forall q: nat ensures q in vs <==> q in Firsts(c, 0) { VisitsAreFirsts(c, 0, [], q); }
    hide Visits, Firsts, Entry;
    if CanStart(f, c, 0, ch) && (f.dotNewline || ch != 10) {
      var q :| q in Firsts(c, 0) && Takes(f, c, q, ch);
      LastTaker(f, c, vs, ch, q);
    }
    if k: nat :| Keeps(f, c, vs, ch, k) { assert vs[k] in vs; }
  }

  /** If every '.' takes the character, one that takes it is visited last. */
  lemma {:induction false} LastTaker(f: Flags, c: seq<byte>, visited: seq<nat>, ch: byte, q: nat)
    requires q in visited && Takes(f, c, q, ch) && (f.dotNewline || ch != 10)
    ensures exists k: nat :: Keeps(f, c, visited, ch, k)
    decreases |visited|
  {
    var n := |visited| - 1;
    if Takes(f, c, visited[n], ch) {
      assert Keeps(f, c, visited, ch, n);
    } else {
      assert visited == visited[..n] + [visited[n]];
      LastTaker(f, c, visited[..n], ch, q);
      var k: nat :| Keeps(f, c, visited[..n], ch, k);
      assert Keeps(f, c, visited, ch, k);
    }
  }

  // ---- Whether the pattern can be empty ----

  /** The walk has found out that the pattern can be empty, or can still find out. */
  ghost predicate NullKnown(c: seq<byte>, p: nat, pathNull: bool, stack: seq<nat>, canBeNull: bool) {
    (p < |c| ==> pathNull) && (NullAt(c, 0) <==> canBeNull || NullPending(c, p, pathNull, stack))
  }

  lemma {:induction false} TurnNull(c: seq<byte>, p: nat, pathNull: bool, stack: seq<nat>, canBeNull: bool)
    requires InProgram(c, p, stack) && NullKnown(c, p, pathNull, stack, canBeNull)
    ensures p == |c| && stack != [] ==>
      NullKnown(c, stack[|stack| - 1], true, stack[..|stack| - 1], canBeNull || pathNull)
    ensures p == |c| && stack == [] ==> (NullAt(c, 0) <==> canBeNull || pathNull)
    ensures p < |c| && Consuming(c[p]) ==> NullKnown(c, |c|, false, stack, canBeNull)
    ensures p < |c| && c[p] == ON_FAILURE_JUMP ==>
      Target(c, p) >= 0 && NullKnown(c, p + 3, true, Remembered(c, p, stack), canBeNull || Target(c, p) == |c|)
    ensures p < |c| && !Consuming(c[p]) && c[p] != ON_FAILURE_JUMP ==>
      After(c, p) >= 0 && NullKnown(c, After(c, p), true, Dropped(stack, Drops(c, p, stack)), canBeNull)
  {
    TurnInside(c, p, stack);
    if stack != [] { PoppedStack(c, stack); }
    if p < |c| && c[p] == ON_FAILURE_JUMP {
      assert NullAt(c, p) <==> NullAt(c, p + 3) || NullAt(c, Target(c, p));
      assert forall s :: s in stack + [Target(c, p)] <==> s in stack || s == Target(c, p);
    }
  }

  // ---- The walk itself ----

  function Byte(buffer: array<byte>, i: int): (b: byte)
    reads buffer
    ensures b == B(buffer[..], i)
  {
    if 0 <= i < buffer.Length then buffer[i] else 0
  }

  function JumpTo(buffer: array<byte>, p: nat): (h: int)
    reads buffer
    ensures h == Target(buffer[..], p)
  {
    var hi: int := Byte(buffer, p + 2);
    p + 3 + Byte(buffer, p + 1) + 256 * (if hi < 128 then hi else hi - 256)
  }

  /** Marks the characters that the consuming instruction at `q` can take; '.' marks all and clears newline. */
  method Mark(buffer: array<byte>, f: Flags, q: nat, fastmap: array<bool>)
    requires q < buffer.Length && Consuming(buffer[q]) && fastmap.Length == 256
    modifies fastmap
    ensures forall ch: byte ::
      fastmap[ch] == (Takes(f, buffer[..], q, ch) || (buffer[q] != ANYCHAR && old(fastmap[ch])))
  {
    var op := buffer[q];
    if op == EXACTN {
      fastmap[Byte(buffer, q + 2)] := true;
    } else if op == ANYCHAR {
      for j := 0 to 256
        invariant forall i | 0 <= i < j :: fastmap[i]
      {
        fastmap[j] := true;
      }
      if !f.dotNewline { fastmap[10] := false; }
    } else {
      MarkSet(buffer, q + 1, op == CHARSET_NOT, fastmap);
    }
  }

  method MarkSet(buffer: array<byte>, p: nat, neg: bool, fastmap: array<bool>)
    requires fastmap.Length == 256
    modifies fastmap
    ensures forall ch: byte :: fastmap[ch] == (old(fastmap[ch]) || MapHas(buffer[..], p, ch) != neg)
  {
    var size: int := Byte(buffer, p);
    var j := 256;
    if neg {
      while j > 8 * size
        invariant 0 <= j <= 256 && (j >= 8 * size || j == 256)
        invariant forall ch: byte :: fastmap[ch] == (old(fastmap[ch]) || (ch >= j && !MapHas(buffer[..], p, ch)))
      {
        j := j - 1;
        fastmap[j] := true;
      }
    }
    j := if 8 * size < 256 then 8 * size else 256;
    while j > 0
      invariant 0 <= j <= 256 && j <= 8 * size
      invariant forall ch: byte :: fastmap[ch] == (old(fastmap[ch]) || (ch >= j && MapHas(buffer[..], p, ch) != neg))
    {
      j := j - 1;
      var inMap := Bit(Byte(buffer, p + 1 + j / 8), j % 8);
      if inMap != neg { fastmap[j] := true; }
    }
  }

  /** The next address after an instruction that matches the empty string. Going round a loop leads to its exit, and a
      failure point equal to that address is redundant. */
  method Pass(buffer: array<byte>, p: nat, stack: seq<nat>) returns (next: nat, stack': seq<nat>)
    requires p < buffer.Length && After(buffer[..], p) > p
    requires buffer[p] == START_MEMORY || buffer[p] == STOP_MEMORY || buffer[p] == PUSH_DUMMY_FAILURE || JUMP <= buffer[p] <= DUMMY_FAILURE_JUMP
    requires buffer[p] != ON_FAILURE_JUMP
    ensures next == After(buffer[..], p) && stack' == Dropped(stack, Drops(buffer[..], p, stack))
  {
    var op := buffer[p];
    stack' := stack;
    if op == START_MEMORY || op == STOP_MEMORY { return p + 3, stack; }
    if op == PUSH_DUMMY_FAILURE { return p + 1, stack; }
    var h := JumpTo(buffer, p);
    assert After(buffer[..], p) == Through(buffer[..], p) && Extract(buffer[..], p + 1) == h - p - 3;
    if h > p + 3 || Byte(buffer, h) != ON_FAILURE_JUMP { return h, stack; }
    next := JumpTo(buffer, h);
    if stack != [] && stack[|stack| - 1] == next { stack' := stack[..|stack| - 1]; }
  }

  /** The walk is at `p`; it has visited these instructions, and knows so much about whether the pattern can be empty. */
  ghost predicate Walking(c: seq<byte>, p: nat, pathNull: bool, stack: seq<nat>, canBeNull: bool, visited: seq<nat>) {
    && InProgram(c, p, stack) && NullKnown(c, p, pathNull, stack, canBeNull)
    && Walks(c, 0) && visited + Visits(c, p, stack) == Visits(c, 0, [])
  }

  lemma {:induction false} WalkStarts(c: seq<byte>)
    requires Walks(c, 0)
    ensures Walking(c, 0, true, [], false, [])
  {
  }

  lemma {:induction false} WalkEnds(c: seq<byte>, pathNull: bool, canBeNull: bool, visited: seq<nat>)
    requires Walking(c, |c|, pathNull, [], canBeNull, visited)
    ensures visited == Visits(c, 0, []) && (NullAt(c, 0) <==> canBeNull || pathNull)
  {
    TurnNull(c, |c|, pathNull, [], canBeNull);
  }

  lemma {:induction false} WalkInside(c: seq<byte>, p: nat, pathNull: bool, stack: seq<nat>, canBeNull: bool, visited: seq<nat>)
    requires Walking(c, p, pathNull, stack, canBeNull, visited)
    ensures p <= |c| && (forall s | s in stack :: s < |c|) && Walks(c, 0) && (canBeNull ==> NullAt(c, 0))
  {
  }

  /** The next path. */
  lemma {:induction false} WalkResumes(c: seq<byte>, pathNull: bool, stack: seq<nat>, canBeNull: bool, visited: seq<nat>)
    requires Walking(c, |c|, pathNull, stack, canBeNull, visited) && stack != []
    ensures var p, rest := stack[|stack| - 1], stack[..|stack| - 1];
      p < |c| && Walking(c, p, true, rest, canBeNull || pathNull, visited) && Cost(c, p) + Costs(c, rest) < Cost(c, |c|) + Costs(c, stack)
  {
    TurnInside(c, |c|, stack);
    TurnNull(c, |c|, pathNull, stack, canBeNull);
  }

  /** One turn. */
  lemma {:induction false} WalkTurns(c: seq<byte>, p: nat, pathNull: bool, stack: seq<nat>, canBeNull: bool, visited: seq<nat>)
    requires Walking(c, p, pathNull, stack, canBeNull, visited) && p < |c|
    ensures Consuming(c[p]) ==>
      Walking(c, |c|, false, stack, canBeNull, visited + [p]) && Cost(c, |c|) < Cost(c, p)
    ensures c[p] == ON_FAILURE_JUMP ==>
      && Target(c, p) >= 0
      && Walking(c, p + 3, pathNull, Remembered(c, p, stack), canBeNull || Target(c, p) >= |c|, visited)
      && Cost(c, p + 3) + Costs(c, Remembered(c, p, stack)) < Cost(c, p) + Costs(c, stack)
    ensures !Consuming(c[p]) && c[p] != ON_FAILURE_JUMP ==>
      && (c[p] == START_MEMORY || c[p] == STOP_MEMORY || c[p] == PUSH_DUMMY_FAILURE || JUMP <= c[p] <= DUMMY_FAILURE_JUMP)
      && p < After(c, p) <= |c|
      && Walking(c, After(c, p), pathNull, Dropped(stack, Drops(c, p, stack)), canBeNull, visited)
      && Cost(c, After(c, p)) + Costs(c, Dropped(stack, Drops(c, p, stack))) < Cost(c, p) + Costs(c, stack)
  {
    TurnInside(c, p, stack);
    TurnNull(c, p, pathNull, stack, canBeNull);
    hide Walks, Firsts, NullAt, Cost, Costs, After, Drops, Target;
    assert visited + [p] + Visits(c, |c|, stack) == visited + ([p] + Visits(c, |c|, stack));
  }

  /** `re_compile_fastmap`. */
  method CompileFastmap(buffer: array<byte>, f: Flags, fastmap: array<bool>) returns (canBeNull: bool)
    requires Walks(buffer[..], 0) && fastmap.Length == 256
    modifies fastmap
    ensures canBeNull <==> NullAt(buffer[..], 0)
    ensures !canBeNull ==> forall ch: byte :: fastmap[ch] <==> Allows(f, buffer[..], ch)
  {
    hide Walks, Firsts, NullAt, Cost, Costs, Takes, After, Drops, Target, Walking;
    ghost var c := buffer[..];
    for i := 0 to 256
      invariant forall ch: byte | ch < i :: !fastmap[ch]
    {
      fastmap[i] := false;
    }
    var p: nat, pathNull: bool, stack: seq<nat> := 0, true, [];
    ghost var visited: seq<nat> := [];
    canBeNull := false;
    WalkStarts(c);
    while p != buffer.Length || stack != []
      invariant c == buffer[..] && Walking(c, p, pathNull, stack, canBeNull, visited)
      invariant forall ch: byte :: fastmap[ch] <==> Entry(f, c, visited, ch)
      decreases Cost(c, p) + Costs(c, stack)
    {
      if p == buffer.Length {
        WalkResumes(c, pathNull, stack, canBeNull, visited);
        canBeNull := canBeNull || pathNull;
        pathNull := true;
        p := stack[|stack| - 1];
        stack := stack[..|stack| - 1];
      }
      WalkInside(c, p, pathNull, stack, canBeNull, visited);
      WalkTurns(c, p, pathNull, stack, canBeNull, visited);
      var op := buffer[p];
      if Consuming(op) {
        Mark(buffer, f, p, fastmap);
        assert (visited + [p])[..|visited|] == visited;
        visited := visited + [p];
        if op == ANYCHAR && f.dotNewline && canBeNull { return; }
        pathNull := false;
        p := buffer.Length;
      } else if op == ON_FAILURE_JUMP {
        var h := JumpTo(buffer, p);
        if h < buffer.Length { stack := stack + [h]; } else { canBeNull := true; }
        p := p + 3;
      } else {
        p, stack := Pass(buffer, p, stack);
      }
    }
    WalkEnds(c, pathNull, canBeNull, visited);
    canBeNull := canBeNull || pathNull;
  }
}
