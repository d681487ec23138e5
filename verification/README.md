# Verification of fllog

A model, in Dafny, of the parts of fllog that compute something hard, with proofs that they do what they are for. The
program itself is C and C++; the model follows its branches, constants and error returns, and its imperative parts are
methods on arrays and fields.

## What is modelled

**Regular expressions** (`src/compat/regex.c`). The log window searches with a private copy of the GNU matcher.
`RegexSyntax` holds expressions and their language, `RegexLaws` its laws, `RegexCode` the byte program of an expression,
`RegexJumps` its jumps. The compiler is `RegexParse` (tokens, and which of the expressions spelled by the same tokens is
meant), `RegexGrammar` (the language of the tokens themselves, which is that of the expression), `RegexLayout` (what the
buffer and the pointers into it mean in the middle of a pattern) and `RegexCompile` (`regex_compile` on a buffer that grows,
is shifted and is patched). The matcher is `RegexMachine` (one turn of the main loop as a function),
`RegexMatcher` (`re_match_2` itself) and `RegexRewrite` (opcodes overwritten during a run). What it computes is shown in
steps: `RegexEffect` says what pattern is in effect matched, `RegexKont` and `RegexAccept` what is left to match, as a nested
continuation laid out in the program, and which positions it accepts; `RegexThreads` is the search among such threads without
a program, `RegexOutcome`, `RegexLongest` and `RegexAlternatives` what it finds, depending on how the pattern ends
(`RegexProperties`); `RegexMoves` and `RegexFollow` show that the machine on the bytes does just that, and `RegexMatch` puts it
together. `RegexFastmap`, `RegexWalk` and `RegexSearch` are the first-character filter and the search, `RegexPosix` `regcomp`,
`regexec` and the class that wraps them, and `RegexExamples` the inputs on which the matcher misses something.

**ADIF logs** (`src/logbook/adif_io.cxx`): `AdifTable` (field names and the packed table that is searched for them),
`AdifText` (what a text means, and the text of a log), `AdifRoundTrip` (reading back what was written), `AdifOther` (the logs
of other programs) and `AdifIo` (the reader with its accumulating buffer, and the writer).

**The table widget** (`src/widgets/table.cxx`): `TableSort` and `TableView`. **The record store**
(`src/logbook/qso_db.cxx`): `QsoDb`, `QsoOrders` with `Orders`, and `QsoDuplicate`. **Arithmetic and small state machines**:
`CalendarDate`, `Crc16` and `LogRotation`.

## What was found

- *Longest match.* At the end of the pattern with an empty failure stack the matcher restores the best match so far even
  if the present one is longer (`src/compat/regex.c:3398-3418`). So `a|ab` matches only `a` in `abc`, although the comment at
  `src/compat/regex.c:3367-3368` speaks of the longest match; `LongestAlternativeMissed` shows it for a whole family. Only
  alternatives at the top can lose a match in this way: `LongestMatch` says that a pattern which ends in no loop, or only in
  loops over a character, a dot or a set, gets its longest match, but for one of the last alternative, and `MissedExactly`
  says exactly when, if that one has no choice in it.
- *Loop at the end.* A jump back at the end of the pattern always pops (`src/compat/regex.c:3988`). So `(x?(xy)?)*` matches
  only the first character of `xy` (`FinalLoopNotLongest`), although the whole text matches. That cannot happen if the body of
  the loop is a group of several alternatives or has no choice in it (`EndIsFound`), but a longest match short of the end of
  the text can still be lost: `x?(xx)*` matches one character of `xxy` (`FinalPairNotLongest`).
- *Byte 5.* `src/compat/regex.c:3695` looks two bytes back for an opcode, but may find an operand. A repeated group whose last
  literal has byte 5 next to last (`ByteFiveMissesMatch`), or whose last inner group has number 5, as in
  `((a)(b)(c)(d))*x` (`FifthGroupMissesMatch`), is left after one iteration.
- *Full sets.* `src/compat/regex.c:4020` keeps only eight bits of the size of a bitmap, so a bitmap of 32 bytes counts as
  empty: a loop over such a set, followed by a literal that starts with a character of it, matches nothing
  (`FullSetMissesMatch`).
- These two are all: `Effect` replaces the loops that they hit by what the matcher makes of them, which can be read off the
  pattern, and the matcher finds a match exactly if the result has one (`MatcherIsRight`). So it is right about a pattern and
  a text exactly if the pattern and its `Effect` agree there (`RightWhereEffectAgrees`), and always if no `*` or `+` stands
  behind a bitmap of 32 bytes or a group with byte 5 five bytes before its end (`ExactIsClean`). Soundness and termination hold
  for all expressions.
- *Fastmap.* `.` clears newline in the map even if another alternative starts with newline (`src/compat/regex.c:2628-2629`).
  `AllowsExactly` says when the entry is wrong, by the order of the visits, `BlockedExactly` that nothing else is lost, and
  `NewlineMissed` shows a search that fails for it. If nothing follows the last bar at the top and an earlier alternative can
  be empty, the walk follows a jump of offset 0 as if it led backwards, past the end of the program
  (`src/compat/regex.c:2687-2697`); `WalksExactly` says that this is the only case, and `Search` asks, with a fastmap, that it is
  not at hand. `regcomp` uses no fastmap. The last position of a forward search is tried even if the map rules it out
  (`src/compat/regex.c:2925-2934`), and a backward search looks at the byte before the text
  (`src/compat/regex.c:2937-2945`); nothing depends on what is there.
- *Comments.* The comment on `Table::search` says that the column is set to where the match was found; the code leaves it
  unchanged (`src/widgets/table.cxx:1826-1828`). The comments in `Table::sort` have ascending and descending exchanged
  (`src/widgets/table.cxx:1463-1467`). The correction in `scrolled` (`src/widgets/table.cxx:1715-1718`) never applies.
- `fillfield` takes the size of a field from the row of the table whose number is the field's type
  (`src/logbook/adif_io.cxx:235`); the model keeps field types and rows the same.

## Conventions

Text is a sequence of bytes to which the `translate` table has been applied, and pointers are offsets. The tokens of a
pattern are what the lexical part of the compiler delivers: a character, a bracket expression with its bitmap, an
interval with its bounds. Two recurring ideas: `Code` is the program of an expression as the finished code looks, and a
continuation (`Kont`) is what the machine still has to match, so that "the machine is here" is a statement about bytes and
"this can still be accepted" one about the language. Contracts of methods give the whole new state, as a function of the old;
what such a function means is said once more without it, by row numbers, by keys, by letters or by tokens.

## Model

| member | source | states |
|---|---|---|
| RegexSyntax.PositionsAreWords | src/compat/regex.c:3132-3143 | Matching by positions, with loops that never iterate over nothing, is the same as the usual language of the expression on the slice between the positions, for every construct, interval included. |
| RegexLaws.RepetitionMeans | src/compat/regex.c:1220-1225 | `?` is at most one word, `*` any number of words and `+` at least one, said without the tests that the compiler and the matcher use. |
| RegexLaws.StarUnfolds | src/compat/regex.c:1220-1225 | `*` is nothing, or a word that is not empty and then `*` again; `+` is a word and then `*`. |
| RegexLaws.RunMeans | src/compat/regex.c:1208-1255 | Collapsing is right: behind a run, one more repetition character repeats what the run makes. |
| RegexLaws.DotMeans | src/compat/regex.c:3545-3558 | `.` is any character, newline and NUL as the two syntax bits say. |
| RegexLaws.SetMeans | src/compat/regex.c:3562-3586 | A set is the characters whose bit is on, or all others. |
| RegexLaws.BitsAddUp | src/compat/regex.c:990-992 | The bit for a character counts one, two, four and so on from the first of its eight: the byte is the sum of the bits that are on. |
| RegexGrammar.ReadsMeans | src/compat/regex.c:1155-2041 | The expression that the compiler reads has the language of the tokens, which is defined on them alone: alternatives between bars outside parentheses, items one after the other, and behind each the repetition characters and intervals that apply to it, one after the other. |
| RegexParse.ParensMeans | src/compat/regex.c:1603-1634 | The errors for parentheses, by counting: one is unmatched on the right exactly if up to some place more are closed than opened, and otherwise on the left exactly if fewer are closed than opened in all. |
| RegexCode.NumberRoundTrip | src/compat/regex.c:363-400 | A two-byte offset between -32768 and 32767, stored low byte first, is read back with its sign. |
| RegexJumps.CodeSweep | src/compat/regex.c:1262-1321 | The bytes of every construct split into complete instructions; no instruction is cut by code inserted in front of it. |
| RegexJumps.JumpsStayInside | src/compat/regex.c:1793-1866 | Inside the code of every expression, wherever it stands, each jump, `succeed_n` and `jump_n` leads to an instruction of that code or to its end, and each `set_number_at` to the count of its own `succeed_n` or `jump_n`. |
| RegexJumps.FinishedProgram | src/compat/regex.c:2019-2041 | The same for a whole program below 32768 bytes, intervals included: it is a run of complete instructions, every jump lands on one or on the end, every `set_number_at` on its own count. |
| RegexJumps.IntervalRepeats | src/compat/regex.c:1789-1850 | Read as `succeed_n`, `jump_n` and `set_number_at` count (src/compat/regex.c:4113-4165), the code of an interval lets its body be gone through exactly from its lower to its upper bound, both included, times; the instructions in front set both counts anew to what they are; an upper bound of 0 is a jump over the body. |
| RegexCompile.Compiler.GetBufferSpace | src/compat/regex.c:861-943 | Doubling the buffer keeps the code; there is room exactly if the new size is at most 65536, and otherwise REG_ESIZE. |
| RegexCompile.Compiler.Push | src/compat/regex.c:866-889 | Appends exactly the given bytes, or fails exactly if they do not fit 65536 bytes. |
| RegexCompile.Compiler.StoreOp1 | src/compat/regex.c:2047-2055 | Overwrites three bytes at the place, and nothing else. |
| RegexCompile.Compiler.StoreOp2 | src/compat/regex.c:2060-2069 | Overwrites five bytes at the place, and nothing else. |
| RegexCompile.Compiler.InsertOp1 | src/compat/regex.c:2075-2089 | Opens three bytes by moving the later code up backwards: the code before the place and the code after it are both as they were. |
| RegexCompile.Compiler.InsertOp2 | src/compat/regex.c:2094-2108 | The same for five bytes. |
| RegexCompile.Compiler.Normal | src/compat/regex.c:1984-2014 | A character goes into the current exact-match command or starts a new one (255 reached, or a repetition follows): the buffer is again the code of what has been read, one token more. |
| RegexCompile.Compiler.Dot | src/compat/regex.c:1325-1328 | `.`: the buffer is again the code of what has been read. |
| RegexCompile.Compiler.Bracket | src/compat/regex.c:1331-1507 | A bracket expression, given its bitmap without the zero bytes at its end: the buffer is again the code of what has been read. |
| RegexCompile.CollapseRun | src/compat/regex.c:1208-1255 | A run of repetition characters is taken whole; zero repetitions are allowed exactly if a `*` or a `?` is in it, and several exactly if a `*` or a `+` is. |
| RegexCompile.Compiler.Repeat | src/compat/regex.c:1192-1322 | The loop is built around code that has already been emitted (jump back at the end, one or two instructions inserted in front), with nothing to repeat it is skipped: the buffer is again the code of what has been read. |
| RegexCompile.Compiler.Bounds | src/compat/regex.c:1780-1868 | An interval, upper bound 0, 1 or more: up to four instructions, three of them inserted in front, with their offsets computed while the code moves. |
| RegexCompile.Compiler.Bar | src/compat/regex.c:1677-1716 | A bar inserts a jump in front of the alternative just read, patches the jump left behind by the one before it, and leaves room for its own. |
| RegexCompile.Compiler.OpenGroup | src/compat/regex.c:1559-1601 | `(` saves the state of the enclosing level and starts a new one. |
| RegexCompile.Compiler.CloseGroup | src/compat/regex.c:1638-1670 | `)` restores the enclosing level and back-patches the number of inner groups. |
| RegexLayout.ItemEmitted | src/compat/regex.c:1984-2014 | Appending the code of one item keeps the state of the compiler consistent with the tokens read. |
| RegexLayout.ItemWrapped | src/compat/regex.c:1262-1321 | Replacing the code of the last item by the code of that item repeated keeps it consistent. |
| RegexLayout.AlternativeEmitted | src/compat/regex.c:1681-1715 | What a bar does to the bytes keeps it consistent: all finished alternatives still jump to each other in a chain. |
| RegexLayout.GroupOpened | src/compat/regex.c:1572-1600 | What `(` does keeps it consistent, with one level more. |
| RegexLayout.GroupClosed | src/compat/regex.c:1615-1669 | What `)` does keeps it consistent, with one level less: the whole group has become the last item of the level around it. |
| RegexLayout.PatternFinished | src/compat/regex.c:2019-2030 | With no group open, patching the last jump turns the buffer into the code of the whole expression, which is a reading of the tokens. |
| RegexCompile.Compile | src/compat/regex.c:1155-2041 | For every pattern (intervals included) with at most 255 groups: the result is an error exactly if a parenthesis is unmatched, which one of the two included, or REG_ESIZE, which needs more than 65536/34 tokens; otherwise the buffer holds the code of an expression whose tokens are the pattern, at most 34 bytes a token, and below 32768 bytes every jump in it is right. |
| RegexKont.NormThread | src/compat/regex.c:3359-3363 | Taking the next instruction out of the nested rest of the expression does not change where the machine is. |
| RegexEffect.EffectIsPart | src/compat/regex.c:3694-3695 | Whatever is in effect matched, with the misread loops taken for what the matcher makes of them, is matched by the pattern as written. |
| RegexEffect.ExactIsClean | src/compat/regex.c:4015-4031 | A pattern in which no `*` or `+` stands behind a bitmap of 32 bytes or behind a group whose code has byte 5 five bytes before its end is matched as it is written. |
| RegexEffect.PopIsRight | src/compat/regex.c:3998-4031 | When a loop over one character or set is followed by a literal whose first character it cannot take, that literal cannot start where an iteration began, so popping that failure point is right. |
| RegexEffect.DoomedStops | src/compat/regex.c:4015-4031 | A loop over a full bitmap that holds the first character of the literal behind it stops only where that literal cannot start: such a loop matches nothing. |
| RegexAccept.RepAcc | src/compat/regex.c:3919-3957 | From the head of a loop the accepted positions are those of its exit, if no iteration is required, and those of one iteration that goes on with the loop; iterations over nothing add none, and a misread loop has one at most. |
| RegexAccept.AltAcc | src/compat/regex.c:3907-3915 | The accepted positions of alternatives are those of the first, past the others, and those of the rest. |
| RegexAccept.GroupAcc | src/compat/regex.c:3637-3760 | Entering a group and leaving its loop when nothing was matched in it neither adds nor loses an accepted position. |
| RegexAccept.ScanAcc | src/compat/regex.c:4044-4078 | Where a loop that gives nothing back takes one more character, it goes on accepting all it accepted; only at the end of the pattern the position in front of that character is given up, and a longer one is accepted. |
| RegexThreads.TurnKeeps | src/compat/regex.c:3359-4270 | What every turn of the search keeps: waiting threads fit the stack, a loop body without choices has the exit of its loop on top, a repeated group of alternatives its dummy; and a bound on the turns left goes down. |
| RegexOutcome.TurnDoes | src/compat/regex.c:3359-4270 | Every turn ends a thread that accepts nothing, or leaves the accepted positions as they are, shares them out between two threads, gives up one position for a longer one, or, at the jump back of a loop that ends the pattern, pops one waiting thread where the present position is accepted. |
| RegexOutcome.FoundIsAccepted | src/compat/regex.c:3359-4328 | Over a whole search: what is found was accepted at its beginning, and something is found exactly if something was. |
| RegexOutcome.EndIsFound | src/compat/regex.c:3398-3418 | If no loop ends the pattern but one whose own failure point is on top when it pops, a match of the whole rest of the text is found whenever there is one. |
| RegexLongest.Phase | src/compat/regex.c:3367-3396 | As long as something waits below, all threads above it are gone through and the longest match among them is taken along, unless a match of the whole rest of the text ends the search. |
| RegexLongest.AloneJudged | src/compat/regex.c:3398-3418 | Of a thread with nothing below it the longest match is returned, or in its place the best one of before, although it is shorter; then the longer one does not reach the end of the text, and is all that the thread accepts if no loop ends the pattern. |
| RegexAlternatives.LongestFound | src/compat/regex.c:3398-3418 | With no loop at the end but over a character, a dot or a set, the search finds the longest match, but for one of the last of several alternatives at the top. |
| RegexAlternatives.QuietMissed | src/compat/regex.c:3398-3418 | If the last alternative has no choice in it, its match is missed exactly if it ends before the text, the others have a match, and all of theirs are shorter. |
| RegexMoves.MisreadSeen | src/compat/regex.c:3694-3695 | The byte that `stop_memory` takes for an opcode is 5 exactly if the code of the group has a 5 five bytes before its end. |
| RegexFollow.SeenIs | src/compat/regex.c:3981-3996 | What `maybe_pop_jump` finds behind its loop, group commands skipped, is what follows in the pattern: its end, a literal with its first character, or something else. |
| RegexFollow.PopsIs | src/compat/regex.c:3966-4041 | The three tests of `maybe_pop_jump` on the bytes of the program, the size of a bitmap cut to a byte included, are a condition on the pattern. |
| RegexFollow.StepFollows | src/compat/regex.c:3359-4270 | Every turn of the machine on the byte program, whatever the opcode, is a turn of the search among threads, or one of at most three that make one. |
| RegexMatch.ResultUnique | src/compat/regex.c:3359-4328 | The result of a run does not depend on how long one waits for it. |
| RegexMatch.RunFollows | src/compat/regex.c:3359-4328 | From every state of the machine that follows a search, the machine halts, with what the search finds. |
| RegexMatch.MatcherIsRight | src/compat/regex.c:3359-4328 | For every compiled expression, text and start: the run halts; what it returns is a prefix in the language, even of the pattern that is in effect matched; it returns one exactly if that pattern has one, and, if no `*` or `+` stands behind a full bitmap or a group with byte 5 five bytes before its end, exactly if the pattern itself has one; and if no loop ends the pattern but one with its own failure point on top, it returns the whole rest of the text whenever that matches. |
| RegexMatch.RightWhereEffectAgrees | src/compat/regex.c:3694-3695 | The answer whether there is a match is right exactly where the pattern and what is in effect matched agree about it. |
| RegexMatch.LongestMatch | src/compat/regex.c:3367-3418 | With no loop at the end but over a character, a dot or a set: the longest match is returned, but for a match of the last of several alternatives at the top that ends before the text and is longer than a match of the others, which is then returned. |
| RegexMatch.LongestOfPlain | src/compat/regex.c:3363-3418 | Said of the pattern alone: with no such bitmap or group repeated, a pattern that ends in a character, a dot or a set, or in a repetition of one, gets the longest match there is. |
| RegexMatch.MissedExactly | src/compat/regex.c:3398-3418 | If the last alternative has no choice in it, its match is missed exactly if it ends before the text, the others have a match, and all of theirs are shorter. |
| RegexRewrite.SameDecision | src/compat/regex.c:3962-4032 | What a `maybe_pop_jump` is changed to does not depend on which others have been changed before. |
| RegexRewrite.SameStep | src/compat/regex.c:3359-4270 | On a program some of whose `maybe_pop_jump` have been changed by earlier runs, every turn does the same as on the program as compiled. |
| RegexRewrite.RewritingIsInvisible | src/compat/regex.c:3962-4041 | Every run, however long, on a program that earlier runs have rewritten ends as on the program as compiled, and leaves it a program of the same kind. |
| RegexMatcher.Matcher.PushFailurePoint | src/compat/regex.c:2337-2430 | Pushes the place and the register flags, and changes nothing else. |
| RegexMatcher.Matcher.PopFailurePoint | src/compat/regex.c:2446-2501 | Restores the position, the active range and the flags of the registers in that range; a null string position keeps the present one. |
| RegexMatcher.Matcher.Exactn | src/compat/regex.c:3517-3543 | Compares as many bytes as the count says; on success both positions move past them. |
| RegexMatcher.Matcher.Charset | src/compat/regex.c:3562-3586 | One character, looked up in a bitmap that may end before it. |
| RegexMatcher.Matcher.StartMemory | src/compat/regex.c:3594-3631 | The group becomes active, with nothing matched. |
| RegexMatcher.Matcher.CloseGroup | src/compat/regex.c:3654-3687 | The group stops being active; the new highest active one is found by searching down. |
| RegexMatcher.Matcher.StopMemory | src/compat/regex.c:3637-3764 | Leaves the loop that the group ends by failing to its exit, or goes on. |
| RegexMatcher.Matcher.OnFailureJump | src/compat/regex.c:3919-3957 | Saves the registers of the group that follows and pushes the jump's target. |
| RegexMatcher.Matcher.MustNotBacktrack | src/compat/regex.c:3966-4032 | Decides whether a `maybe_pop_jump` may pop, skipping group commands after it. |
| RegexMatcher.Matcher.Backtracking | src/compat/regex.c:4274-4319 | Pops failure points until one is not a dummy and does not lead back into a loop, or none is left. |
| RegexMatcher.Matcher.EndOfPattern | src/compat/regex.c:3363-3418 | Accepts at the end of the text; elsewhere remembers the longest match and fails, and with an empty stack takes the remembered one. |
| RegexMatcher.Matcher.OneTurn | src/compat/regex.c:3359-4270 | Each instruction does what the step function says, and a `maybe_pop_jump` is overwritten in the buffer. |
| RegexMatcher.ReMatch2 | src/compat/regex.c:3146-4328 | The loop on the byte buffer terminates, on any start position and on a buffer rewritten before, and returns -1 or a length with all that `MatcherIsRight`, `LongestMatch`, `LongestOfPlain` and `MissedExactly` say; the buffer stays fit for the next call. |
| RegexExamples.LongestAlternativeMissed | src/compat/regex.c:3398-3418 | The alternatives `s` and `su` on every text that begins with `su` and goes on: the longer match is lost, because an empty stack restores the best one so far. |
| RegexExamples.FinalLoopNotLongest | src/compat/regex.c:3987-3996 | `(x?(xy)?)*` on `xy`: a loop at the end of the pattern pops a failure point of its own body and loses the longer match. |
| RegexExamples.ByteFiveMissesMatch | src/compat/regex.c:3694-3695 | `(s)*x` with byte 5 next to last in `s` does not match `ssx`: an operand byte is taken for an opcode. |
| RegexExamples.MisreadMissesMatch | src/compat/regex.c:3694-3695 | Every repeated group that is misread, has one word `w` only and is followed by a character that `w` does not begin with: `wwx` is in the language and is not matched. |
| RegexExamples.FifthGroupMissesMatch | src/compat/regex.c:3694-3695 | `((a)(b)(c)(d))*x` does not match `abcdabcdx`: the number of the fifth group is taken for an opcode. |
| RegexExamples.FinalPairNotLongest | src/compat/regex.c:3987-3996 | `x?(xx)*` on `xxy` returns one character although two match, so a loop at the end whose body has no choice can lose the longest match, too. |
| RegexExamples.FullSetMissesMatch | src/compat/regex.c:4015-4031 | A loop over a set with a full bitmap, followed by a character of the set: the size is cut to a byte and the only match is lost. |
| RegexFastmap.StartsOk | src/compat/regex.c:2503-2506 | A match of an expression is empty only if the expression can be, and otherwise begins with one of its first characters. |
| RegexFastmap.PieceFound | src/compat/regex.c:2550-2786 | The walk over the code of any part of the program finds every first character of that part, reaches its end if it can be empty, and never goes backwards but round a loop to its exit. |
| RegexFastmap.TakesMeans | src/compat/regex.c:2585-2629 | What an instruction marks is what its item can begin with: the characters of a set, the first one of a literal, any for `.` but newline where that is excluded. |
| RegexFastmap.WalksExactly | src/compat/regex.c:2687-2697 | The walk stays inside the program exactly if it is not the case that nothing follows the last bar at the top and an alternative before it can be empty. |
| RegexWalk.Mark | src/compat/regex.c:2585-2638 | What one consuming instruction does to the map: it adds its characters, and `.` marks all and clears newline. |
| RegexWalk.Pass | src/compat/regex.c:2681-2710 | Where the walk goes after an instruction that takes nothing, and which redundant failure point it drops. |
| RegexWalk.WalkTurns | src/compat/regex.c:2550-2780 | What every turn of the walk keeps: what has been visited and what will be visited are together the visits of the whole walk, what is known about emptiness stays right, and the work left goes down. |
| RegexWalk.VisitsAreFirsts | src/compat/regex.c:2550-2780 | The walk visits exactly the instructions that can be reached from the start without consuming anything. |
| RegexWalk.EntryExactly | src/compat/regex.c:2585-2638 | The entry for a character is set exactly if an instruction takes it and no `.` visited later clears it. |
| RegexWalk.AllowsExactly | src/compat/regex.c:2619-2629 | The map is right for every character but newline, and wrong for newline exactly if some first instruction takes it, `.` does not, and a `.` is visited after the last that does. |
| RegexWalk.CompileFastmap | src/compat/regex.c:2517-2786 | The walk terminates; `can_be_null` says whether the end of the program can be reached without a character, and if not, every entry of the map is what the visits, in their order, make it. |
| RegexSearch.SameFilter | src/compat/regex.c:2898-2901 | The map computed from a rewritten program is the one of the program as compiled. |
| RegexSearch.FilterIsSafe | src/compat/regex.c:2898-2945 | Wherever the language has a match, some first instruction takes the character there, or the pattern can be empty. |
| RegexSearch.BlockedExactly | src/compat/regex.c:2898-2945 | The map rules out a match exactly if the pattern cannot be empty, the match starts with newline and the entry for newline is lost. |
| RegexSearch.MapMakesNoDifference | src/compat/regex.c:2898-2945 | So unless newline is lost, the search with a map returns what the search without one returns. |
| RegexSearch.NewlineMissed | src/compat/regex.c:2628-2629 | For a newline or any other character, with a `.` that does not match newline: in a text of one newline the search with a map finds nothing, the one without finds it. |
| RegexSearch.PatternBuffer.SkipForward | src/compat/regex.c:2909-2935 | Skips exactly the positions that the map rules out, up to the last position of the range, which is tried whatever the map says. |
| RegexSearch.PatternBuffer.Search | src/compat/regex.c:2862-2975 | For every start and range, forward and backward: without a map, or with one that loses no newline, the nearest position on the way from the start to the end of the range, as far as that is inside the text, at which there is a match, and -1 only if there is none; with a map that loses newline, what trying every position that it does not rule out returns. |
| RegexSearch.ScanFindsNearest | src/compat/regex.c:2840-2859 | That is the position nearest to the start, in the direction of the range, at which there is a match, and -1 only if there is none. |
| RegexSearch.MatchesWhereLanguage | src/compat/regex.c:2952-2955 | The matcher finds a match at a position exactly if what is in effect matched has one there; and exactly if the pattern has one, if it is matched as it is written. |
| RegexPosix.RegComp | src/compat/regex.c:4724-4782 | With a `)` that closes nothing taken as a character: an error exactly if a `(` is left open, or REG_ESIZE; otherwise a buffer ready to be searched with, whose expression is read from the pattern. |
| RegexPosix.NothingStray | src/compat/regex.c:1615-1634 | In a pattern whose close parentheses all close something, none is taken as a character. |
| RegexPosix.RegExec | src/compat/regex.c:4799-4861 | Says yes exactly if a word of what is in effect matched occurs somewhere in the text, and then one of the language does; exactly if one of the language does, if the pattern is matched as it is written; however often the buffer has been used before. |
| RegexPosix.MatchAll | src/misc/re.cxx:77-92 | From the tokens of a pattern to the answers for any number of texts: an error exactly for an open parenthesis left over; otherwise yes only for texts that hold something the tokens denote, and exactly for those if no `*` or `+` stands behind a full bitmap or a group with byte 5 five bytes before its end. |
| AdifIo.InitFields | src/logbook/adif_io.cxx:155-173 | The packed table has every name at a multiple of the greatest length plus one, filled up with spaces. |
| AdifTable.NotInsideEarlier | src/logbook/adif_io.cxx:53-125 | No name of the table occurs inside an earlier one. |
| AdifTable.OccursInOneName | src/logbook/adif_io.cxx:164-172 | An occurrence of a name in the packed table lies inside one name, never across two. |
| AdifTable.LookupFindsName | src/logbook/adif_io.cxx:188-192 | So the substring search finds every name in its own row. |
| AdifIo.AdifReader.FindField | src/logbook/adif_io.cxx:175-196 | The row of the tag, -1 for an end tag, -2 for anything else; the name is upper-cased in the buffer and nothing else changes. A name in any mixture of capital and small letters is found as its field. |
| AdifIo.AdifReader.FillField | src/logbook/adif_io.cxx:214-256 | Stores the value, its first characters if it is longer than the field, with zeros up to six behind a shorter time, and changes no other field; returns the position after the value; without a colon before the bracket it stores nothing and says so. |
| AdifIo.AdifReader.Slot | src/logbook/adif_io.cxx:320 | The record in which fields are stored; the database hands out a blank one when the first field is found. |
| AdifIo.AdifReader.Store | src/logbook/adif_io.cxx:253 | Stores one field in that record and changes no other record. |
| AdifIo.AdifReader.OneTag | src/logbook/adif_io.cxx:317-330 | One turn of the loop over tags: what is still to be read of the record means the same after it, or its end has been found. |
| AdifText.DigitsOfDecimal | src/logbook/adif_io.cxx:222-229 | The length prefix that was printed is the number that is read, for every length. |
| AdifText.TagReadBack | src/logbook/adif_io.cxx:175-256 | A tag with the name of a field, in capital or small letters, is read as that field with the length it gives, whatever kind stands behind the length, whatever the value holds and whatever follows. |
| AdifText.FieldsReadBack | src/logbook/adif_io.cxx:475-486 | All non-empty fields of a record, printed one after the other, are read back into an empty record as they were, and none reaches beyond the text. |
| AdifRoundTrip.NoStraddle | src/logbook/adif_io.cxx:338-339 | An end tag cannot arise across the border of two pieces that do not hold it. |
| AdifRoundTrip.RecordReadBack | src/logbook/adif_io.cxx:312-332 | The text of a record is read as exactly that record. |
| AdifRoundTrip.LogReadBack | src/logbook/adif_io.cxx:558-563 | The text of a whole log is well-formed and is read as exactly its records, in order. |
| AdifOther.AllRead | src/logbook/adif_io.cxx:312-332 | The tags of a record written by any program, in any order and with text between them: each field holds what is kept of the last value given for it, the others are as they were. |
| AdifOther.LogRead | src/logbook/adif_io.cxx:258-347 | A log of another program is well-formed, and is read as one record for each part that has a field, in order. |
| AdifOther.EndInAnyCase | src/logbook/adif_io.cxx:177-178 | The end tag in any mixture of capital and small letters ends the record. |
| AdifIo.Source.Read | src/logbook/adif_io.cxx:284-285 | A block of the file; a short one sets the end-of-file mark. |
| AdifIo.AdifReader.FillBuffer | src/logbook/adif_io.cxx:338-346 | Appends blocks until an end tag is in the buffer or the file has ended; the position found is the first in the whole rest of the file. |
| AdifIo.AdifReader.ReadRecord | src/logbook/adif_io.cxx:314-331 | The loop over tags reads what the text up to the end tag says, and leaves the text from the end tag on as it is. |
| AdifIo.AdifReader.ReadFile | src/logbook/adif_io.cxx:258-347 | For every file without NUL whose records end with `<EOR>` and whose header ends in the first block, every block size and every state of the database: the records of the file read at once are appended to it. The reading terminates on every file and never touches an older record; without an end of header in the first block nothing is appended. |
| AdifIo.AdifRecord | src/logbook/adif_io.cxx:470-490 | The text of a record: its non-empty fields in table order, and the end tag. |
| AdifIo.WriteLog | src/logbook/adif_io.cxx:533-572 | The text of the file: the header, and the records in order. |
| AdifIo.WriteAndRead | src/logbook/adif_io.cxx:533-572 | Writing a log from one database and reading it back into another, whatever has been done to that one before, in blocks of any size that holds the header, appends exactly the written records, field for field. |
| AdifIo.ReadOther | src/logbook/adif_io.cxx:258-347 | Reading the file of another program into any database, in blocks of any size that holds the header: one record is appended for each part of the log that has a field, and its fields hold what was given, cut to size, with zeros behind a short time. |
| TableSort.Approach | src/widgets/table.cxx:1379-1386 | The three inner loops: the cursors stay inside, the second one because a row not above the pivot is left of it, and they meet only on a row equal to the pivot. |
| TableSort.Partition | src/widgets/table.cxx:1374-1394 | The partition terminates and leaves the range rearranged, rows not above the pivot on the left, not below it on the right, and at the meeting point one equal to it. |
| TableSort.ASort | src/widgets/table.cxx:1368-1401 | For every total preorder: the range is in ascending order, a permutation of what it was, and nothing outside it has changed. |
| TableSort.DescendingApproach | src/widgets/table.cxx:1414-1421 | The three inner loops of the descending sort: the mirror image of the others. |
| TableSort.DescendingPartition | src/widgets/table.cxx:1408-1429 | Its partition: rows not below the pivot on the left, not above it on the right, and at the meeting point one equal to it. |
| TableSort.DSort | src/widgets/table.cxx:1404-1437 | For every total preorder: the range is in descending order, a permutation of what it was, and nothing outside it has changed. |
| TableSort.Sort | src/widgets/table.cxx:1447-1470 | The whole table is ordered as asked, every row at most as large as any later one or at least as large, and holds the same rows. |
| TableView.SearchRow | src/widgets/table.cxx:1806-1817 | One column, or any column if the column number is the number of columns. |
| TableView.CyclicVisitsAll | src/widgets/table.cxx:1843-1859 | The cyclic order visits every row exactly once. |
| TableView.Search | src/widgets/table.cxx:1832-1862 | The search succeeds exactly if the arguments are valid and some row matches; it returns the first match going down from the start row and on from the top, or going up and on from the bottom, by row numbers; it looks at no row twice. |
| TableView.View.Scrolled | src/widgets/table.cxx:1705-1723 | The first and the last row to be drawn. |
| TableView.View.RowsInside | src/widgets/table.cxx:1709-1723 | Every row that reaches into the window is among the rows drawn. |
| TableView.View.RowsOutside | src/widgets/table.cxx:1709-1723 | Every row drawn reaches up to the window. |
| TableView.View.ScrollTo | src/widgets/table.cxx:1324-1344 | Scrolls to the nearest position that keeps the window inside the table, and not at all if no row is out of the window. |
| TableView.View.FirstRow | src/widgets/table.cxx:976-980 | The first row is selected and scrolled to; from every state whose selected row is fully visible, it is so again. |
| TableView.View.PrevPage | src/widgets/table.cxx:982-995 | The selection moves up by the rows of a page, to the first row at most; from every state whose selected row is fully visible, it is so again. |
| TableView.View.PrevRow | src/widgets/table.cxx:997-1008 | The selection moves up one row, and the table is scrolled only if the row is above the window; from every state whose selected row is fully visible, it is so again. |
| TableView.View.NextRow | src/widgets/table.cxx:1010-1022 | The selection moves down one row, and the table is scrolled only if the row is below the window; from every state whose selected row is fully visible, it is so again. |
| TableView.View.NextPage | src/widgets/table.cxx:1024-1032 | The selection moves down by the rows of a page, to the last row at most; from every state whose selected row is fully visible, it is so again. |
| TableView.View.LastRow | src/widgets/table.cxx:1034-1039 | The last row is selected; from every state whose selected row is fully visible, it is so again. |
| TableView.View.GotoRow | src/widgets/table.cxx:1041-1047 | The given row is selected if it exists; from every state whose selected row is fully visible, it is so again. |
| QsoDb.Database.constructor | src/logbook/qso_db.cxx:326-332 | A new database is empty and all its slots are blank. |
| QsoDb.Database.Copy | src/logbook/qso_db.cxx:334-343 | A copy holds the same records. |
| QsoDb.Database.Grow | src/logbook/qso_db.cxx:384-391 | Growing keeps the records, and every new slot is blank. |
| QsoDb.Database.QsoNewRec | src/logbook/qso_db.cxx:368-381 | Appends the record. Frequency and band make each other, the band in small letters; of the start and the end of the contact, what is empty is filled from the other; all other fields stay. |
| QsoDb.IsCompleted | src/logbook/qso_db.cxx:66-90 | What completing does to a record, field by field. |
| QsoDb.Database.NewRec | src/logbook/qso_db.cxx:383-394 | Hands out the next slot, which is blank. |
| QsoDb.Database.QsoDelRec | src/logbook/qso_db.cxx:396-403 | Deletes the record, keeps the order of the others, and blanks the slot that becomes spare; a number out of range changes nothing. |
| QsoDb.Database.QsoUpdRec | src/logbook/qso_db.cxx:405-411 | Replaces the record, with frequency and band made from each other if one of them is empty. |
| QsoDb.Database.DeleteRecs | src/logbook/qso_db.cxx:349-355 | Leaves an empty database whose slots are blank. |
| QsoDb.Run | src/logbook/qso_db.cxx:326-411 | Over every run of the operations the database is the plain sequence that the same operations make, and every slot past the count is blank. |
| QsoDb.NewAfterDelete | src/logbook/qso_db.cxx:396-403 | A deleted record leaves no trace in the next new one. |
| Orders.SortedUpToTies | src/logbook/qso_db.cxx:413-428 | Two orderings of the same elements differ only in the places of elements that tie. |
| Orders.ReversedIsMirrored | src/logbook/qso_db.cxx:216-222 | A sequence is in the reversed order exactly if read backwards it is in the order. |
| QsoOrders.OrdersArePreorders | src/logbook/qso_db.cxx:186-283 | All four orders, forward and reversed, are total preorders, and they tie on exactly the same pairs: date, time, call, mode and frequency equal. |
| QsoOrders.SortedByDate | src/logbook/qso_db.cxx:213-230 | In order by date: of two records the later one has no earlier date; with equal dates no earlier time, then call, then mode, by the first character that differs, and then no lower frequency. Reversed, the other way round. |
| QsoOrders.SortedByMode | src/logbook/qso_db.cxx:232-248 | The same with the mode first, then date, time, call and frequency. |
| QsoOrders.SortedByCall | src/logbook/qso_db.cxx:250-266 | The same with the call first, then date, time, mode and frequency. |
| QsoOrders.SortedByFreq | src/logbook/qso_db.cxx:268-284 | The same with the frequency first, then date, time, call and mode. |
| Orders.StrCmpMeans | src/logbook/qso_db.cxx:186-211 | One string is before another exactly if it has the smaller character at the first difference, or ends there. |
| QsoOrders.OnlyTiesMove | src/logbook/qso_db.cxx:413-428 | Any series of sorts gives what its last sort alone gives, but for the places of records that tie. |
| QsoOrders.ReverseIsMirror | src/logbook/qso_db.cxx:213-229 | Sorting in reverse gives the mirror image, but for records that tie. |
| QsoDuplicate.Duplicate | src/logbook/qso_db.cxx:527-618 | The scan returns 1 exactly if some record is a full duplicate, otherwise 2 exactly if some record has the call, in both directions; it reports the first full duplicate in scan order, or else the last record scanned with the call. |
| QsoDuplicate.FullMatchMeans | src/logbook/qso_db.cxx:547-585 | A full duplicate, field by field: the call is the same but for the case of letters; state, mode and exchange hold the text looked for somewhere, in any case; the frequency has the same whole part; each only if it is asked for. |
| QsoDuplicate.FieldsByName | src/logbook/qso_db.cxx:548-572 | The fields compared are CALL, FREQ, STATE, MODE and SRX_STRING of the table. |
| QsoDuplicate.VerdictOfPermutation | src/logbook/qso_db.cxx:545-617 | The verdict is the same for the records in any order. |
| Crc16.Ccrc16.Update | src/include/adif_io.h:74-82 | The eight turns of the bit loop are the byte step. |
| Crc16.Ccrc16.Crc16 | src/include/adif_io.h:87-92 | The CRC of a string, from a reset register. |
| Crc16.StepIsBijection | src/include/adif_io.h:74-82 | For each byte, the step is one-to-one on the 65536 states and reaches each of them, with the inverse given. |
| Crc16.DifferenceStays | src/include/adif_io.h:87-92 | Registers that differ still differ after any common string. |
| Crc16.AdjacentDifferenceDetected | src/include/adif_io.h:74-92 | Strings of equal length that differ only within two adjacent bytes have different CRCs. |
| Crc16.ByteDifferenceDetected | src/include/adif_io.h:74-92 | Strings that differ in exactly one byte, however short, have different CRCs. |
| Crc16.OwnCrcGivesZero | src/include/adif_io.h:74-92 | A string followed by its own CRC, low byte first, has CRC 0. |
| Crc16.CheckValue | src/include/adif_io.h:62-92 | The CRC of the nine digits is 4B37 in hexadecimal, the check value of this CRC. |
| CalendarDate.DayOfEpoch | src/widgets/date.cxx:172-197 | The formula over 400, 100, 4 and 1 years, with the table of days, gives the number of days counted one by one. |
| CalendarDate.DaysAreNumbered | src/widgets/date.cxx:178-197 | The day reached from 1 January of year 1 after any number of days is valid and has that number plus one. |
| CalendarDate.EveryDateIsCounted | src/widgets/date.cxx:178-197 | Every valid date is reached in this way. |
| CalendarDate.NumbersAreOrdered | src/widgets/date.cxx:356-364 | Day numbers are in the order of the dates, and no two dates share one. |
| CalendarDate.KnownDays | src/widgets/date.cxx:172-197 | The first of January 1970 has number 719163, and the leap day of 2000 has number 730179. |
| CalendarDate.Date.EndOfMonth | src/widgets/date.cxx:301-307 | True exactly for the last day of the month, February in leap years included. |
| CalendarDate.Date.HelpIncrement | src/widgets/date.cxx:309-320 | The next day: the date stays valid and its number grows by one. |
| CalendarDate.Date.Add | src/widgets/date.cxx:335-340 | The date stays valid and its number grows by exactly the days added; by none for a negative number. |
| CalendarDate.Date.Less | src/widgets/date.cxx:356-364 | The order of the dates, which for valid dates is the order of their day numbers. |
| LogRotation.Directory.Copy | src/logbook/logbook.cxx:63-80 | The copy loop, block by block until the end has been met, makes an equal file for every length. |
| LogRotation.Directory.RotateLog | src/logbook/logbook.cxx:45-81 | Each backup moves up by one, where one is missing the next number is left without a file (the fifth keeps what it had), the log becomes the first, and no other file changes. |
| LogRotation.Starts | src/logbook/logbook.cxx:45-81 | After any number of starts with the log present and no earlier backups, backup k is the log as it stood at the k-th most recent start, up to five. |

## Left out

- RegexMatch.MissedExactly: if the last alternative has a choice in it, which of its matches is missed depends on the order of the search; `LongestMatch` then bounds what can be missed, and says exactly what is returned in its place.
- RegexMatch.LongestMatch: for a pattern that ends in a loop over a group nothing is said about the longest match short of the end of the text; it can be lost.
- RegexCompile.Compile: bracket expressions, escapes, interval bounds and `{` as an ordinary character are read by the lexical part, which is not modelled; nor are anchors, word operators, back-references, the `.*` followed by newline shortcut and more than 255 groups, of which the source emits no commands for those past the 255th. `^` after a character starts a new exact-match command in the program and not in the model.
- RegexCompile.Compiler.OpenGroup: the 256th group and later ones, which emit no command, are not modelled.
- RegexCompile.Compile: a `)` with nothing to close is an error, as without RE_UNMATCHED_RIGHT_PAREN_ORD; `RegComp` takes it for a character before it calls `Compile`.
- RegexMatcher.ReMatch2: the positions of groups that it reports, the two-string case and the stack limit are left out, so the failure stack is unbounded and there is no return of -2; intervals are compiled, and their counts shown to allow what they should (`IntervalRepeats`), but programs with them are not executed.
- RegexWalk.CompileFastmap: the instructions of intervals, anchors and back-references are left out, and so are the programs on which the walk leaves the program.
- RegexPosix.RegComp: memory allocation always succeeds. Not followed any further are patterns with intervals or more than 255 groups, those in which a `)` that closes nothing stands behind a `|` at the top, where the code also emits a stray instruction, and programs of 32768 bytes or more. REG_NEWLINE and the anchors are left out.
- AdifIo.AdifReader.ReadFile: nothing is said about files with a NUL byte, with `<eor>` in small letters, with a value that reaches beyond its record or a length that does not fit an int, or whose header ends beyond the first block, but that the reading terminates. Messages about fields that are too large are left out.
- AdifIo.WriteLog: the name of the file, the clock and the messages are left out. Updating each record while writing changes only its band and frequency, and the text of a record is taken before that.
- TableSort.Sort: the comparison is any total preorder; what `strcasecmp` and the other comparisons compute is left out. A column without a comparison, which is not sorted, is the caller's case.
- TableView.Search: the expression is any test of a string; `valid` says whether it could be compiled.
- View: only rows are modelled; columns, hidden columns, drawing, the scroll bars and callbacks are left out.
- QsoOrders.OnlyTiesMove: a sort may be any that orders by the comparison; how `qsort` does it is left out. `atof` is any function to the real numbers, so there is no NaN.
- QsoDuplicate.Duplicate: the comparison of date and time works on raw character codes in the source and is any predicate of a record here; the numbers in frequencies are any function of the text.
- QsoDb.Run: the tables of bands are any functions, reading and writing the old file format is left out, and a record is a value, so `newrec` hands out the number of a slot, through which the reader stores fields.
- Crc16: printing the CRC as four digits is left out.
- CalendarDate.DayOfEpoch: `isvalid`, which accepts day 31 of 30-day months in leap years, and the steps by month and year built on it are left out, as are printing and the system clock. `dayofepoch` is stated for valid dates from year 1 on.
- LogRotation.Directory.RotateLog: opening, reading and writing always succeed, and a file is its name and content.
- Threads, the XML-RPC server, Cabrillo and text export, the user interface, preferences and the tables of modes and bands are not part of this model.
