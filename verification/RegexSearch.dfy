/** `re_search_2` on one string: tries the matcher at one position after the other, skipping positions whose character
    the fastmap rules out. */
module RegexSearch {
  import opened RegexSyntax
  import opened RegexCode
  import opened RegexMachine
  import opened RegexJumps
  import opened RegexRewrite
  import opened RegexFastmap
  import opened RegexWalk
  import opened RegexEffect
  import opened RegexAlternatives
  import opened RegexMatch
  import opened RegexMatcher

  // ---- The fastmap and rewritten programs ----

  lemma {:induction false} SameThrough(c: seq<byte>, cur: seq<byte>, p: nat)
    requires WellJumping(c) && Variant(c, cur) && SweepTo(c, 0, p) && p < |c| && JUMP <= c[p] <= DUMMY_FAILURE_JUMP
    ensures Through(cur, p) == Through(c, p) && 0 <= Through(c, p) && OnBoundary(c, Through(c, p))
    ensures Target(cur, p) == Target(c, p) && Extract(cur, p + 1) == Extract(c, p + 1)
    ensures 0 <= Target(c, p) && OnBoundary(c, Target(c, p))
  {
    SameTarget(c, cur, p);
    JumpLands(c, p);
    var h := Target(c, p);
    SameOpcode(c, cur, h);
    if h < |c| && c[h] == ON_FAILURE_JUMP {
      SameTarget(c, cur, h);
      JumpLands(c, h);
    }
  }

  /** Rewriting jumps does not change the walk. */
  lemma {:induction false} SameWalk(c: seq<byte>, cur: seq<byte>, p: nat)
    requires WellJumping(c) && Variant(c, cur) && OnBoundary(c, p)
    ensures Firsts(cur, p) == Firsts(c, p) && NullAt(cur, p) == NullAt(c, p) && Walks(cur, p) == Walks(c, p)
    ensures forall q | q in Firsts(c, p) :: OnBoundary(c, q) && q < |c| && Consuming(c[q])
    decreases |c| - p
  {
    hide SweepTo, WellJumping, Variant, Through, Target, Extract;
    SameOpcode(c, cur, p);
    if p < |c| && !Consuming(c[p]) {
      NextBoundary(c, p);
      if JUMP <= c[p] <= DUMMY_FAILURE_JUMP {
        SameThrough(c, cur, p);
        if c[p] == ON_FAILURE_JUMP {
          SameWalk(c, cur, p + 3);
          if Target(c, p) > p { SameWalk(c, cur, Target(c, p)); }
        } else if Through(c, p) > p {
          SameWalk(c, cur, Through(c, p));
        }
      } else {
        assert Len(cur, p) == Len(c, p);
        SameWalk(c, cur, p + Len(c, p));
      }
    }
  }

  /** Nor the order of its visits. */
  lemma {:induction false} SameVisits(c: seq<byte>, cur: seq<byte>, p: nat, stack: seq<nat>)
    requires WellJumping(c) && Variant(c, cur) && OnBoundary(c, p) && forall s | s in stack :: OnBoundary(c, s)
    requires InProgram(c, p, stack)
    ensures InProgram(cur, p, stack) && Visits(cur, p, stack) == Visits(c, p, stack)
    decreases Cost(c, p) + Costs(c, stack)
  {
    TurnInside(c, p, stack);
    SameInside(c, cur, p, stack);
    SameOpcode(c, cur, p);
    hide Walks, Cost, Costs, WellJumping, Variant, Through;
    if p == |c| {
      if stack != [] {
        assert stack[|stack| - 1] in stack;
        SameVisits(c, cur, stack[|stack| - 1], stack[..|stack| - 1]);
      }
    } else if Consuming(c[p]) {
      OnEnd(c, p);
      SameVisits(c, cur, |c|, stack);
    } else {
      NextBoundary(c, p);
      if c[p] == ON_FAILURE_JUMP {
        SameThrough(c, cur, p);
        SameVisits(c, cur, p + 3, Remembered(c, p, stack));
      } else {
        SameAfter(c, cur, p, stack);
        SameVisits(c, cur, After(c, p), Dropped(stack, Drops(c, p, stack)));
      }
    }
  }

  /** A walk inside the program stays inside it when jumps are rewritten. */
  lemma {:induction false} SameInside(c: seq<byte>, cur: seq<byte>, p: nat, stack: seq<nat>)
    requires WellJumping(c) && Variant(c, cur) && OnBoundary(c, p) && forall s | s in stack :: OnBoundary(c, s)
    requires InProgram(c, p, stack)
    ensures InProgram(cur, p, stack) && |cur| == |c|
  {
    SameWalk(c, cur, p);
    forall s | s in stack ensures Walks(cur, s) { SameWalk(c, cur, s); }
    hide Walks, WellJumping;
  }

  lemma OnEnd(c: seq<byte>, p: nat)
    requires WellJumping(c) && OnBoundary(c, p)
    ensures OnBoundary(c, |c|)
  {
  }

  lemma {:induction false} SameAfter(c: seq<byte>, cur: seq<byte>, p: nat, stack: seq<nat>)
    requires WellJumping(c) && Variant(c, cur) && OnBoundary(c, p) && p < |c| && p < |cur|
    requires c[p] != ON_FAILURE_JUMP && !Consuming(c[p]) && After(c, p) >= 0
    requires c[p] == START_MEMORY || c[p] == STOP_MEMORY || c[p] == PUSH_DUMMY_FAILURE || JUMP <= c[p] <= DUMMY_FAILURE_JUMP
    ensures After(cur, p) == After(c, p) && OnBoundary(c, After(c, p)) && Drops(cur, p, stack) == Drops(c, p, stack)
    ensures cur[p] != ON_FAILURE_JUMP && !Consuming(cur[p])
  {
    SameOpcode(c, cur, p);
    NextBoundary(c, p);
    if JUMP <= c[p] <= DUMMY_FAILURE_JUMP {
      SameThrough(c, cur, p);
      SameOpcode(c, cur, Target(c, p));
    }
  }

  lemma SameTakes(f: Flags, c: seq<byte>, cur: seq<byte>, q: nat, ch: byte)
    requires WellJumping(c) && Variant(c, cur) && OnBoundary(c, q) && q < |c| && Consuming(c[q])
    ensures Takes(f, cur, q, ch) == Takes(f, c, q, ch) && B(cur, q) == B(c, q)
  {
    SameOpcode(c, cur, q);
    NextBoundary(c, q);
    if c[q] == EXACTN { SameOperand(c, cur, q, q + 2); }
    if c[q] == CHARSET || c[q] == CHARSET_NOT {
      SameOperand(c, cur, q, q + 1);
      if ch < 8 * B(c, q + 1) { SameOperand(c, cur, q, q + 2 + ch / 8); }
    }
  }

  lemma {:induction false} SameEntry(f: Flags, c: seq<byte>, cur: seq<byte>, visited: seq<nat>, ch: byte)
    requires WellJumping(c) && Variant(c, cur)
    requires forall q | q in visited :: OnBoundary(c, q) && q < |c| && Consuming(c[q])
    ensures Entry(f, cur, visited, ch) == Entry(f, c, visited, ch)
    decreases |visited|
  {
    if visited != [] {
      var n := |visited| - 1;
      assert visited[n] in visited;
      SameTakes(f, c, cur, visited[n], ch);
      SameEntry(f, c, cur, visited[..n], ch);
    }
  }

  /** The patterns whose fastmap walk stays inside the program (see `WalksExactly`): if nothing is behind the last bar at
      the top, none of the alternatives before it can be empty. */
  predicate Searchable(r: Re) {
    Compiled(r) && !(EmptyEnd(r) && EarlierNullable(r))
  }

  /** The walk over the whole program. */
  lemma {:induction false} WholeFound(f: Flags, r: Re, ch: byte)
    requires Compiled(r)
    ensures Walks(Code(r), 0) <==> Searchable(r)
    ensures (Starts(f, r, ch) ==> CanStart(f, Code(r), 0, ch) || NullAt(Code(r), 0)) && (Nullable(r) ==> NullAt(Code(r), 0))
  {
    var c := Code(r);
    ShapedIsPlain(r);
    assert At(c, 0, c) && NullAt(c, |c|);
    hide Code, Starts, Nullable, At, Plain;
    WalksExactly(c, 0, r);
    if r.Alt? && EmptyEnd(r) {
      EmptyEndNull(c, 0, r);
    } else {
      PieceFound(f, c, 0, r, ch);
    }
  }

  /** A match of the pattern at `pos` starts with a character that some first instruction takes, unless the pattern can be
      empty. */
  lemma {:induction false} FilterIsSafe(f: Flags, r: Re, t: seq<byte>, pos: nat, e: nat)
    requires Compiled(r) && InLanguage(f, r, t, pos, e)
    ensures NullAt(Code(r), 0) || (pos < |t| && CanStart(f, Code(r), 0, t[pos]))
  {
    hide Code, Walks, NullAt, Starts, Nullable, CanStart, Simple, Lang, M, EmptyEnd;
    ShapedParts(r);
    PositionsAreWords(f, r, t, pos, e);
    StartsOk(f, r, t, pos, e);
    WholeFound(f, r, if pos < |t| then t[pos] else 0);
  }

  /** The fastmap of a rewritten program is that of the program as compiled. */
  lemma {:induction false} SameFilter(f: Flags, r: Re, cur: seq<byte>, ch: byte)
    requires Searchable(r) && Variant(Code(r), cur)
    ensures Walks(Code(r), 0) && Walks(cur, 0) && NullAt(cur, 0) == NullAt(Code(r), 0)
    ensures Allows(f, cur, ch) == Allows(f, Code(r), ch)
  {
    hide Code, Variant, WellJumping, Walks, NullAt, Starts, Nullable, EmptyEnd, Entry, Visits;
    var c := Code(r);
    FinishedProgram(r);
    WholeFound(f, r, ch);
    assert OnBoundary(c, 0);
    SameWalk(c, cur, 0);
    SameVisits(c, cur, 0, []);
    forall q: nat ensures q in Visits(c, 0, []) <==> q in Firsts(c, 0) { VisitsAreFirsts(c, 0, [], q); }
    SameEntry(f, c, cur, Visits(c, 0, []), ch);
  }

  // ---- What a search returns ----

  /** The matcher, started at `pos`, returns a match. */
  ghost predicate MatchesAt(f: Flags, r: Re, t: seq<byte>, pos: int) {
    0 <= pos <= |t| && exists o :: Result(f, t, Code(r), pos, o) && o.Matched?
  }

  function Abs(n: int): nat {
    if n < 0 then -n else n
  }

  /** The map rules out the character at position `i`. */
  ghost predicate Blocked(f: Flags, r: Re, t: seq<byte>, i: int) {
    && Searchable(r) && 0 <= i < |t|
    && (WholeFound(f, r, 0); !NullAt(Code(r), 0) && !Allows(f, Code(r), t[i]))
  }

  /** Trying every position in turn: `range` positions after `start`, or before it if `range` is negative. */
  ghost function Scan(f: Flags, r: Re, t: seq<byte>, start: int, range: int): int
    decreases Abs(range)
  {
    if MatchesAt(f, r, t, start) then start
    else if range == 0 then -1
    else if range > 0 then Scan(f, r, t, start + 1, range - 1)
    else Scan(f, r, t, start - 1, range + 1)
  }

  /** The same with a map. The last position of a forward search is tried whatever the map says about it, if the one before
      it has been skipped. */
  ghost function FilteredScan(f: Flags, r: Re, t: seq<byte>, start: int, range: int): int
    decreases Abs(range)
  {
    if range == 1 && Blocked(f, r, t, start) then
      if MatchesAt(f, r, t, start + 1) then start + 1 else -1
    else if MatchesAt(f, r, t, start) && !Blocked(f, r, t, start) then start
    else if range == 0 then -1
    else if range > 0 then FilteredScan(f, r, t, start + 1, range - 1)
    else FilteredScan(f, r, t, start - 1, range + 1)
  }

  /** The range of a search, cut down to the text. */
  function Clamped(t: seq<byte>, start: int, range: int): int {
    if start + range < -1 then -1 - start
    else if start + range > |t| then |t| - start
    else range
  }

  /** `pos` is one of the positions from `start` to `end`, in either direction. */
  predicate Between(start: int, pos: int, end: int) {
    start <= pos <= end || end <= pos <= start
  }

  /** The scan returns the position nearest to `start` at which there is a match, or -1. */
  lemma {:induction false} ScanFindsNearest(f: Flags, r: Re, t: seq<byte>, start: int, range: int)
    requires -1 <= start <= |t| && -1 <= start + range <= |t|
    ensures var pos := Scan(f, r, t, start, range);
      if pos < 0 then
        pos == -1 && forall i | Between(start, i, start + range) :: !MatchesAt(f, r, t, i)
      else
        && MatchesAt(f, r, t, pos) && Between(start, pos, start + range)
        && forall i | Between(start, i, pos) && i != pos :: !MatchesAt(f, r, t, i)
    decreases Abs(range)
  {
    if !MatchesAt(f, r, t, start) && range != 0 {
      var d := if range > 0 then 1 else -1;
      ScanFindsNearest(f, r, t, start + d, range - d);
    }
  }

  /** `pos` is the match nearest to `start` on the way from there to `end`, or -1 if there is none on the way. */
  ghost predicate Nearest(f: Flags, r: Re, t: seq<byte>, start: int, end: int, pos: int) {
    if pos < 0 then
      pos == -1 && forall i | Between(start, i, end) :: !MatchesAt(f, r, t, i)
    else
      && MatchesAt(f, r, t, pos) && Between(start, pos, end)
      && forall i | Between(start, i, pos) && i != pos :: !MatchesAt(f, r, t, i)
  }

  /** Cutting the range down to the text loses nothing. */
  lemma {:induction false} ScanIsNearest(f: Flags, r: Re, t: seq<byte>, start: int, range: int)
    requires 0 <= start <= |t|
    ensures Nearest(f, r, t, start, start + range, Scan(f, r, t, start, Clamped(t, start, range)))
  {
    ScanFindsNearest(f, r, t, start, Clamped(t, start, range));
    assert forall i :: MatchesAt(f, r, t, i) ==> 0 <= i <= |t|;
    hide MatchesAt, Scan;
  }

  /** The matcher returns a match exactly where what is in effect matched has one. */
  lemma {:induction false} MatchesWhereLanguage(f: Flags, r: Re, t: seq<byte>, pos: nat)
    requires Compiled(r) && pos <= |t|
    ensures MatchesAt(f, r, t, pos) <==> exists e: nat :: InLanguage(f, Effect(r), t, pos, e)
    ensures Exact(r) ==> (MatchesAt(f, r, t, pos) <==> exists e: nat :: InLanguage(f, r, t, pos, e))
  {
    hide Code, Lang, InLanguage, Result, Compiled, Effect, Exact;
    var o := MatcherIsRight(f, r, t, pos);
    if MatchesAt(f, r, t, pos) {
      var o' :| Result(f, t, Code(r), pos, o') && o'.Matched?;
      ResultUnique(f, t, Code(r), pos, o, o');
    }
  }

  /** A pattern that cannot be empty matches only where one of its first instructions takes the character. */
  lemma {:induction false} MatchesWhereStarts(f: Flags, r: Re, t: seq<byte>, pos: nat)
    requires Compiled(r) && pos <= |t| && !NullAt(Code(r), 0) && MatchesAt(f, r, t, pos)
    ensures pos < |t| && CanStart(f, Code(r), 0, t[pos])
  {
    hide Code, Lang, NullAt, CanStart, InLanguage, EmptyEnd, Compiled, Effect, MatchesAt;
    MatchesWhereLanguage(f, r, t, pos);
    var e: nat :| InLanguage(f, Effect(r), t, pos, e);
    EffectInLanguage(f, r, t, pos, e);
    FilterIsSafe(f, r, t, pos, e);
  }

  /** The map rules a match out exactly if it starts with newline and the entry for newline is lost. */
  lemma {:induction false} BlockedExactly(f: Flags, r: Re, t: seq<byte>, i: int)
    requires Searchable(r) && MatchesAt(f, r, t, i)
    ensures Walks(Code(r), 0)
    ensures Blocked(f, r, t, i) <==> !NullAt(Code(r), 0) && i < |t| && t[i] == 10 && NewlineLost(f, Code(r))
  {
    hide Code, NullAt, CanStart, EmptyEnd, Compiled, Walks, Allows, NewlineLost;
    assert 0 <= i <= |t|;
    hide MatchesAt;
    WholeFound(f, r, 0);
    if !NullAt(Code(r), 0) {
      MatchesWhereStarts(f, r, t, i);
      AllowsExactly(f, Code(r), t[i]);
    }
  }

  /** So unless newline is lost, a search with the map finds what a search without it finds. */
  lemma {:induction false} MapMakesNoDifference(f: Flags, r: Re, t: seq<byte>, start: int, range: int)
    requires Searchable(r) && Walks(Code(r), 0) && !NewlineLost(f, Code(r))
    ensures FilteredScan(f, r, t, start, range) == Scan(f, r, t, start, range)
    decreases Abs(range)
  {
    hide Code, EmptyEnd, Compiled, Walks, NewlineLost, MatchesAt, Blocked;
    if MatchesAt(f, r, t, start) { BlockedExactly(f, r, t, start); }
    if !MatchesAt(f, r, t, start) && range != 0 {
      MapMakesNoDifference(f, r, t, if range > 0 then start + 1 else start - 1, if range > 0 then range - 1 else range + 1);
    }
  }

  /** The map loses no newline. */
  ghost predicate MapIsRight(f: Flags, r: Re)
    requires Searchable(r)
  {
    WholeFound(f, r, 0);
    !NewlineLost(f, Code(r))
  }

  /** The compiled pattern with its fastmap, `re_pattern_buffer`. */
  class PatternBuffer {
    const buffer: array<byte>
    const flags: Flags
    const fastmap: array?<bool>
    var fastmapAccurate: bool
    var canBeNull: bool
    ghost const re: Re

    ghost predicate Valid()
      reads this, buffer, fastmap
    {
      && Compiled(re) && Variant(Code(re), buffer[..])
      && (fastmap != null ==> fastmap.Length == 256 && Searchable(re))
      && (fastmap != null && fastmapAccurate ==> Filters())
    }

    /** The fastmap is what a walk over the program makes it. */
    ghost predicate Filters()
      requires fastmap != null && fastmap.Length == 256 && Searchable(re)
      reads this, fastmap
    {
      WholeFound(flags, re, 0);
      && (canBeNull <==> NullAt(Code(re), 0))
      && (!canBeNull ==> forall ch: byte :: fastmap[ch] <==> Allows(flags, Code(re), ch))
    }

    constructor (buffer: array<byte>, flags: Flags, fastmap: array?<bool>, ghost r: Re)
      requires Compiled(r) && Variant(Code(r), buffer[..])
      requires fastmap != null ==> fastmap.Length == 256 && Searchable(r)
      ensures Valid() && this.buffer == buffer && this.flags == flags && this.fastmap == fastmap && re == r
      ensures !fastmapAccurate
    {
      this.buffer, this.flags, this.fastmap, re := buffer, flags, fastmap, r;
      fastmapAccurate, canBeNull := false, false;
    }

    method UpdateFastmap()
      requires Valid() && fastmap != null
      modifies this, fastmap
      ensures Valid() && fastmapAccurate
    {
      hide Searchable, Variant, Code, NullAt, Allows, Walks;
      SameFilter(flags, re, buffer[..], 0);
      canBeNull := CompileFastmap(buffer, flags, fastmap);
      fastmapAccurate := true;
      forall ch: byte
        ensures Allows(flags, buffer[..], ch) == Allows(flags, Code(re), ch)
      {
        SameFilter(flags, re, buffer[..], ch);
      }
    }

    /** Skips forward over characters that the map rules out. */
    method SkipForward(t: seq<byte>, start: nat, range: nat) returns (start': nat, range': nat)
      requires Valid() && fastmap != null && fastmapAccurate && !canBeNull && start < |t| && 0 < range && start + range <= |t|
      ensures start' + range' == start + range && start <= start'
      ensures range' > 0 ==> !Blocked(flags, re, t, start')
      ensures range' == 0 ==> Blocked(flags, re, t, start' - 1)
      ensures FilteredScan(flags, re, t, start, range) ==
              if range' > 0 then FilteredScan(flags, re, t, start', range')
              else if MatchesAt(flags, re, t, start') then start' else -1
    {
      hide Searchable, Variant, Code, NullAt, Allows, MatchesAt;
      start', range' := start, range;
      while range' > 0 && !fastmap[t[start']]
        invariant start' + range' == start + range && start <= start'
        invariant range' == 0 ==> Blocked(flags, re, t, start' - 1)
        invariant FilteredScan(flags, re, t, start, range) ==
                  if range' > 0 then FilteredScan(flags, re, t, start', range')
                  else if MatchesAt(flags, re, t, start') then start' else -1
        decreases range'
      {
        assert Blocked(flags, re, t, start');
        start', range' := start' + 1, range' - 1;
      }
    }

    /** The map, once it is accurate, rules out exactly what is blocked. */
    lemma {:induction false} MapBlocks(t: seq<byte>, i: int)
      requires Valid() && fastmap != null && fastmapAccurate
      ensures Blocked(flags, re, t, i) <==> !canBeNull && 0 <= i < |t| && !fastmap[t[i]]
    {
      hide Code, NullAt, Allows, Variant, Compiled, EmptyEnd;
    }

    /** What a search returns. */
    ghost function Answer(t: seq<byte>, start: int, range: int): int
      requires Valid()
      reads this, buffer, fastmap
    {
      if fastmap == null then Scan(flags, re, t, start, range) else FilteredScan(flags, re, t, start, range)
    }

    lemma {:induction false} AnswerIsNearest(t: seq<byte>, start: int, range: int)
      requires Valid() && 0 <= start <= |t| && (fastmap == null || MapIsRight(flags, re))
      ensures Nearest(flags, re, t, start, start + range, Answer(t, start, Clamped(t, start, range)))
    {
      hide Code, MatchesAt, Compiled, EmptyEnd, Nearest, Scan, FilteredScan, Variant;
      ScanIsNearest(flags, re, t, start, range);
      if fastmap != null {
        WholeFound(flags, re, 0);
        MapMakesNoDifference(flags, re, t, start, Clamped(t, start, range));
      }
    }

    /** `re_search_2` on the single string `t`. */
    method Search(t: seq<byte>, startpos: int, range: int) returns (pos: int)
      requires Valid()
      modifies this, buffer, fastmap
      ensures Valid()
      ensures pos == if 0 <= startpos <= |t| then Answer(t, startpos, Clamped(t, startpos, range)) else -1
      ensures 0 <= startpos <= |t| && (fastmap == null || MapIsRight(flags, re)) ==>
        Nearest(flags, re, t, startpos, startpos + range, pos)
    {
      hide Variant, Code, NullAt, Allows, MatchesAt, Compiled, EmptyEnd, Promised, Blocked, Searchable, Nearest, MapIsRight;
      if 0 <= startpos <= |t| && (fastmap == null || MapIsRight(flags, re)) { AnswerIsNearest(t, startpos, range); }
      if startpos < 0 || startpos > |t| { return -1; }
      if fastmap != null && !fastmapAccurate { UpdateFastmap(); }
      var start, left := startpos, Clamped(t, startpos, range);
      ghost var result := Answer(t, start, left);
      while true
        invariant Valid() && (fastmap != null ==> fastmapAccurate)
        invariant -1 <= start <= |t| && -1 <= start + left <= |t| && (left > 0 ==> start >= 0)
        invariant result == Answer(t, start, left)
        decreases Abs(left)
      {
        var skip := false;
        ghost var last := false;
        if fastmap != null && start < |t| && !canBeNull {
          if left > 0 {
            start, left := SkipForward(t, start, left);
            last := left == 0;
          } else {
            // A backward search may look at the byte before the text; nothing depends on it.
            skip := start < 0 || !fastmap[t[start]];
          }
        }
        if fastmap != null {
          MapBlocks(t, start);
          if !canBeNull { NothingAtEnd(flags, re, t); }
        }
        assert result == if last then if MatchesAt(flags, re, t, start) then start else -1 else Answer(t, start, left);
        if left >= 0 && start == |t| && fastmap != null && !canBeNull { return -1; }
        if !skip {
          var val := ReMatch2(buffer, flags, t, start, re);
          Answered(flags, re, t, start, val);
          if val >= 0 { return start; }
        }
        if left == 0 { return -1; }
        start, left := if left > 0 then start + 1 else start - 1, if left > 0 then left - 1 else left + 1;
      }
    }
  }

  /** At the end of the text, a pattern that cannot be empty does not match. */
  lemma {:induction false} NothingAtEnd(f: Flags, r: Re, t: seq<byte>)
    requires Compiled(r) && !NullAt(Code(r), 0)
    ensures !MatchesAt(f, r, t, |t|)
  {
    hide MatchesAt, Compiled, Code, NullAt;
    if MatchesAt(f, r, t, |t|) { MatchesWhereStarts(f, r, t, |t|); }
  }

  /** The matcher's return value says whether there is a match. */
  lemma {:induction false} Answered(f: Flags, r: Re, t: seq<byte>, pos: int, val: int)
    requires !(0 <= pos <= |t|) ==> val == -1
    requires 0 <= pos <= |t| ==> exists o :: Result(f, t, Code(r), pos, o) && AnswerOf(o, pos, val)
    ensures val >= 0 <==> MatchesAt(f, r, t, pos)
  {
    hide Result;
    if 0 <= pos <= |t| {
      var o' :| Result(f, t, Code(r), pos, o') && AnswerOf(o', pos, val);
      if MatchesAt(f, r, t, pos) {
        var o :| Result(f, t, Code(r), pos, o) && o.Matched?;
        ResultUnique(f, t, Code(r), pos, o, o');
      }
    }
  }

  // ---- A newline that the map loses ----

  /** Newline, or any other character. */
  const ANYTHING := Alt(Lit([10]), Any)

  /** The map of `\n|.` does not allow newline if `.` does not: it is visited last. So a search with the map does not find
      a newline that one without it finds. */
  lemma {:induction false} NewlineMissed(f: Flags)
    requires !f.dotNewline
    ensures Searchable(ANYTHING) && Walks(Code(ANYTHING), 0) && NewlineLost(f, Code(ANYTHING))
    ensures FilteredScan(f, ANYTHING, [10], 0, 1) == -1 && Scan(f, ANYTHING, [10], 0, 1) == 0
  {
    AnythingCode(f);
    hide Code, NullAt, Visits, Walks, NewlineLost, InLanguage, Effect;
    assert InLanguage(f, ANYTHING, [10], 0, 1) by { assert [10][0..1] == [10] && Lang(f, Lit([10]), [10]); }
    assert Effect(ANYTHING) == ANYTHING;
    MatchesWhereLanguage(f, ANYTHING, [10], 0);
    BlockedExactly(f, ANYTHING, [10], 0);
    NothingAtEnd(f, ANYTHING, [10]);
  }

  /** The program of `\n|.`, and the walk over it. */
  lemma {:induction false} AnythingCode(f: Flags)
    requires !f.dotNewline
    ensures Compiled(ANYTHING) && Searchable(ANYTHING) && !NullAt(Code(ANYTHING), 0)
    ensures Walks(Code(ANYTHING), 0) && NewlineLost(f, Code(ANYTHING))
  {
    var c := Code(ANYTHING);
    assert Code(Lit([10])) == [EXACTN, 1, 10] && Code(Any) == [ANYCHAR];
    assert c == [ON_FAILURE_JUMP, 6, 0, EXACTN, 1, 10, JUMP_PAST_ALT, 1, 0, ANYCHAR];
    assert ShapedCat(Lit([10])) && Shaped(Any) && !EmptyEnd(Any);
    hide Code;
    AnythingWalk(f, c);
  }

  lemma {:induction false} AnythingWalk(f: Flags, c: seq<byte>)
    requires !f.dotNewline && c == [ON_FAILURE_JUMP, 6, 0, EXACTN, 1, 10, JUMP_PAST_ALT, 1, 0, ANYCHAR]
    ensures !NullAt(c, 0) && Walks(c, 0) && NewlineLost(f, c)
  {
    assert Target(c, 0) == 9;
    assert Walks(c, 3) && Walks(c, 9) && Walks(c, 0) && !NullAt(c, 3) && !NullAt(c, 9);
    assert Visits(c, 10, []) == [] && Visits(c, 9, []) == [9] && Visits(c, 10, [9]) == [9] && Visits(c, 3, [9]) == [3, 9];
    assert Remembered(c, 0, []) == [9] && Visits(c, 0, []) == [3, 9];
    assert 3 in Firsts(c, 3) && 3 in Firsts(c, 0) && Takes(f, c, 3, 10) && CanStart(f, c, 0, 10);
    hide Visits, Firsts, Walks;
    forall k: nat ensures !Keeps(f, c, [3, 9], 10, k) { assert B(c, [3, 9][1]) == ANYCHAR; }
  }
}
