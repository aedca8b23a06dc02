# match — a verified model of the N-way merge engine

`match` compares N sorted text files line by line. It is a generalisation of
`comm` to any number of inputs. For every distinct line it works out which
inputs hold that line. That set of inputs is a pattern of N letters Y/N.
The line is written to the output file named by that pattern.

This project models the engine of `main.go` in Dafny and proves its
properties:

- `Lines.dfy` covers lines as Go strings (byte sequences), Go's `<` on
  strings, and `bufio.Reader.ReadString('\n')` over the bytes not yet read.
  It also defines the sentinel an exhausted input holds.
- `Patterns.dfy` covers the pattern labels (`allPats`) and their binary
  reading, the membership mask built by `|= 1 << i`, and the in-place
  reversal of the argument list (`flip`).
- `Cursor.dfy` covers the read-ahead cursor `inT` and `get`, as a function
  with lemmas about order, counting, -nodup, progress and the sentinel.
- `Engine.dfy` covers `min`, `allEOD` and `compare`. Each is a method proved
  against a specification function, and that function's meaning is proved.
- `Merge.dfy` covers the session `allT` as a class over arrays, with `get`,
  the dispatch of a matched line and `matchAll`. Each method is proved equal
  to a functional run whose termination, bookkeeping and per-step effect
  are proved.
- `Runs.dfy` covers whole runs of `matchAll` over files of sorted
  '\n'-terminated lines, where a line may repeat the one before it: the cursor after k gets, a turn of the loop over
  such cursors, and the two cases of the unit test of `process`. These runs
  are without -nodup, and they are runs of the model's loop, whose
  comparison leaves done cursors out. `Merge.MatchAllAgrees` proves that
  this loop gives the source's run whenever every line sorts below the
  sentinel.
- `Examples.dfy` holds the other unit-test cases, and the inputs behind
  the findings below.

The sentinel is `string(byte(0xFF))`. Go converts an integer to the UTF-8
encoding of that code point, so the sentinel is U+00FF, the two bytes
C3 BF, and not the single byte 0xFF. The model follows the code. The engine's comparison
leaves exhausted inputs out (see Findings). Lemma `Engine.ComparisonAgrees`
proves that this gives exactly the source's comparison whenever every line
sorts before the sentinel.

## Model

| member | source | states |
|---|---|---|
| Patterns.AllPats | main.go:154-174 | no labels for 0 inputs; otherwise 2^n labels, label i being the n-letter Y/N rendering of i, whose binary reading is i |
| Patterns.Label | main.go:162-170 | the label of a pattern index for n inputs has n letters, each 'Y' or 'N' |
| Patterns.Mask | main.go:246-250 | the mask built by setting bit i for each holding input is a pattern index below 2^N |
| Patterns.LabelOf | main.go:162-170 | the letters built for one index, most significant bit first, are exactly that index's label |
| Patterns.ValueOfLabel | main.go:148-153 | reading a label with Y=1, N=0, most significant first, gives back its index |
| Patterns.LabelOfValue | main.go:148-153 | every Y/N word of length n is the label of its own binary value, which is below 2^n |
| Patterns.LabelsDistinct | main.go:159-172 | different pattern indices have different labels |
| Patterns.MaskLabel | main.go:246-250 | the mask built by setting bit i for each holding input is below 2^N, and its label has 'Y' exactly at the holding inputs, counted from the right |
| Patterns.MaskPositive | main.go:246-250 | a mask with at least one holding input is not the all-N pattern 0 |
| Patterns.Flip | main.go:48-56 | afterwards element i is the old element len-1-i, for every length |
| Patterns.ReversedAt | main.go:48-56 | element k of the reversal is element len-1-k of the original |
| Patterns.ReversedTwice | main.go:48-56 | flipping twice restores the list |
| Patterns.ReversedOf | main.go:48-56 | a list whose element k is element len-1-k of another is that other's reversal |
| Lines.LessMeaning | main.go:274 | Go's `<` on strings holds exactly when the first is a proper prefix of the second, or has the smaller byte at the first position where they differ |
| Lines.LessIrreflexive | main.go:274 | no string sorts before itself |
| Lines.LessTransitive | main.go:274 | string order is transitive |
| Lines.LessTotal | main.go:274 | of two different strings one sorts before the other |
| Lines.LessAsymmetric | main.go:322 | two strings never sort before each other |
| Lines.ReadString | main.go:293 | the line read and the rest make up the input; EOF is reported exactly when the line has no '\n', and then nothing is left; otherwise the line ends at the first '\n' |
| Lines.Chomp | main.go:310-312 | exactly one trailing '\n' is removed, and only when present |
| Lines.LineCountOfTerminated | main.go:293 | a line taken off through its '\n' is one physical line |
| Lines.LineCountOfUnterminated | main.go:306-308 | a final line without '\n' is one physical line |
| Lines.TerminatorsAppend | main.go:293 | the count of '\n' bytes adds up over concatenation |
| Cursor.Get | main.go:285-329 | get keeps the input's name, and a wrong-sequence error carries that name and the line held before |
| Cursor.ReadAgain | main.go:292-328 | the readagain loop keeps the input's name, and a wrong-sequence error carries that name and the line held before |
| Cursor.GetAtEnd | main.go:299-304 | EOF with no data sets eof and eod, holds the sentinel and leaves count alone |
| Cursor.GetAfterEof | main.go:286-290 | after EOF with data, get only sets eod and the sentinel; later calls change nothing |
| Cursor.GetOneLine | main.go:306-326 | a line read and not skipped is counted once and has one '\n' stripped; EOF with data sets eof only; the line is held when it does not sort before the held line, else get fails and the held line stays |
| Cursor.ReadAgainLoop | main.go:292-328 | the readagain loop on the cursor's fields ends in the state and status the get function gives: the sentinel at end of data, a skipped repeat read again, the wrong-sequence error, or the new line held |
| Cursor.GetNonDecreasing | main.go:321-326 | the held line never goes down, and on error it is unchanged |
| Cursor.GetSkipsRepeats | main.go:316-319 | with -nodup a newly held line never equals the previous one |
| Cursor.GetCountsLines | main.go:314-319 | count rises by exactly the physical lines consumed, repeats skipped under -nodup included, and the reader only moves forward |
| Cursor.GetProgress | main.go:285-329 | on a cursor that is not done, get strictly lowers the work left, and flags stay consistent |
| Cursor.GetKeepsSound | main.go:286-329 | if every line sorts before the sentinel, get keeps "done holds the sentinel, live holds a line below it" |
| Cursor.FreshSound | main.go:80-88 | a new input is sound exactly when all its lines sort before the sentinel |
| Engine.Minimum | main.go:268-279 | "" for no values, otherwise one of the values (that nothing sorts before it is MinimumIsLeast) |
| Engine.MinimumIsLeast | main.go:268-279 | the minimum of a non-empty list is one of its values and nothing sorts before it |
| Engine.MinimumUnique | main.go:268-279 | any value nothing sorts before is the minimum |
| Engine.Min | main.go:268-279 | "" for no values; otherwise a value of the list that nothing sorts before |
| Engine.AllEod | main.go:256-266 | true exactly when every cursor is done, and for no cursors |
| Engine.LiveRecsMembers | main.go:240-243 | the lines compared are exactly those of cursors that are not done |
| Engine.Indices | main.go:249 | the indices are in range and hold the line, every holder is listed, and the list ascends |
| Engine.Comparison | main.go:235-254 | pattern 0 exactly when all cursors are done, and then no indices; otherwise the pattern is below 2^N and the indices are live cursors in ascending order |
| Engine.ComparisonOfLeast | main.go:240-253 | a live cursor whose line no live line sorts before fixes the comparison: its pattern and indices are those of the live cursors holding that line |
| Engine.ComparisonAsWritten | main.go:235-254 | compare as written, done cursors included: pattern 0 exactly when all are done, and then no indices; otherwise a pattern below 2^N, and cursor i is among the ascending indices exactly when its line equals the least of all lines, done or not |
| Engine.ComparisonMeaning | main.go:240-253 | input i takes part iff it is live and no live line sorts before its line; the pattern is non-zero and has 'Y' exactly at the taking-part inputs |
| Engine.ComparisonMembers | main.go:240-251 | input i is among the indices exactly when it is live and no live line sorts before its line |
| Engine.ComparisonLabel | main.go:246-250 | a comparison with some live cursor gives a non-zero pattern whose label has 'Y' at position N-1-i exactly when input i is among the indices |
| Engine.ArgumentPositions | main.go:72 | with the cursors in the order flip leaves the arguments (cursor k is argument N-1-k), label position j is 'Y' exactly when the cursor of argument j takes part |
| Engine.ComparisonAgrees | main.go:244-250 | when every line sorts before the sentinel, the source's comparison (sentinels included) equals the model's |
| Engine.SentinelNeverLeast | main.go:244 | under that condition the least of all lines is the least live line, and it sorts before the sentinel |
| Engine.Compare | main.go:235-254 | the pattern and indices of the comparison; pattern 0 exactly when all cursors are done |
| Engine.LiveLines | main.go:240-243 | the first loop of compare, with done cursors left out as in Findings, collects exactly the lines of the cursors that are not done, in order |
| Engine.Members | main.go:246-251 | the second loop of compare, with done cursors left out as in Findings, sets bit i and lists i exactly for the live cursors that hold the least line |
| Merge.GetEach | main.go:217-222 | get on each listed cursor in order; the number of cursors is unchanged |
| Merge.GetEachFrame | main.go:217-222 | cursors not listed are untouched |
| Merge.GetEachStops | main.go:218-221 | after the first error no further cursor is read and that error is the result |
| Merge.GetEachProgress | main.go:217-222 | getting on distinct live cursors lowers the total work left by at least one per cursor |
| Merge.Dispatch | main.go:211-215 | the output of the pattern receives the line, and its count rises by 1, exactly when it is active; every other output is unchanged |
| Merge.Step | main.go:211-222 | one match keeps the number of cursors and outputs |
| Merge.StepShaped | main.go:211-222 | a match keeps one output per pattern, each named by its label |
| Merge.StepEffect | main.go:209-224 | each step writes exactly one line, the first participant's, which every participant holds; it goes to outs[pat-1] only if active, whose count rises by 1; other outputs and non-participating cursors are unchanged |
| Merge.Loop | main.go:206-227 | the loop keeps the number of cursors and outputs; it terminates because each step lowers the total work left |
| Merge.LoopStep | main.go:208-226 | one turn of the loop: a non-zero pattern has an output and participants, and the loop goes on from the step's result |
| Merge.LoopEndsDone | main.go:208 | a loop that ends without error ends with every cursor done |
| Merge.LoopBookkeeping | main.go:211-215 | over the whole run, names and activation never change, inactive outputs receive nothing, lines are only appended, and counts rise with the lines |
| Merge.MatchAllRun | main.go:198-230 | initial readings then the loop, keeping the shape of the session |
| Merge.GetEachKeepsSound | main.go:217-222 | getting on any cursors keeps every cursor sound: done ones hold the sentinel, live ones a line below it |
| Merge.LoopAsWritten | main.go:206-227 | the loop with compare as written keeps the number of cursors and outputs, on sound cursors |
| Merge.LoopAgrees | main.go:206-227 | on sound cursors the whole loop as written gives the same cursors, outputs and status as the model's loop |
| Merge.MatchAllAsWritten | main.go:198-230 | matchAll as written, on sound inputs (where it terminates), keeps the number of cursors and outputs |
| Merge.MatchAllAgrees | main.go:198-230 | on inputs read from the start whose lines all sort before the sentinel, matchAll as written and the model's give the same run |
| Merge.Session.constructor | main.go:40-45 | the session holds the given patterns, option, inputs and outputs |
| Merge.Session.Get | main.go:285-329 | the goto loop of get leaves cursor i as the get function says; other cursors are untouched |
| Merge.Session.GetAll | main.go:200-205 | get on the listed cursors in order, stopping at the first error |
| Merge.Session.Write | main.go:211-215 | outputs become the dispatch of the line |
| Merge.Session.Turn | main.go:211-222 | one match writes the first participant's line and gets on the participants, ending in the state and status of the functional step |
| Merge.Session.MatchAll | main.go:198-230 | the final cursors, outputs and status are those of the functional run; with no error every cursor is done |
| Runs.ReadLine | main.go:293 | reading from a '\n'-terminated line without '\n' inside takes that line and its '\n' and leaves the rest, without EOF |
| Runs.GetPos | main.go:285-329 | on a file of sorted lines, repeats allowed, the get after k lines holds line k+1, and the get after the last line makes the cursor done, without error (without -nodup) |
| Runs.GetEachCursors | main.go:217-222 | gets on ascending live cursors over such files move each listed cursor on by one line, fail for none and leave the others (without -nodup) |
| Runs.DispatchOuts | main.go:211-215 | with every output active, a matched line is appended to the lines of the output of its pattern |
| Runs.TurnAt | main.go:208-226 | given the comparison and the gets on its members, one turn writes the line to its pattern's output and the loop goes on from the new cursors |
| Runs.CursorsTurn | main.go:208-226 | on cursors over sorted files, the least line goes to the output of the pattern of its holders, each holder moves on one line, and the loop goes on from there (without -nodup, in the model's loop) |
| Runs.OneInputFrom | main.go:206-227 | with one input, the loop from line k on writes every remaining line, in order, to the one output and ends without error (without -nodup, in the model's loop) |
| Runs.ProcessOneInput | match_test.go:160-173 | over one sorted file, matchAll writes all its lines, in order, to the output "Y" and ends without error with the input done (without -nodup, in the model's loop) |
| Runs.ProcessOneInputCase | match_test.go:160-173 | the input "a, aa, aaa" gives the output "Y" holding "a, aa, aaa", without error (without -nodup, in the model's loop) |
| Runs.AscendingOrder | match_test.go:161-191 | lines that ascend strictly from each to the next (the eight lines of the three-input case) are distinct and ascend pair by pair |
| Runs.ProcessRepeatedLine | main.go:321-326 | a file "a\na\n" that repeats a line is accepted, and both lines reach the output "Y", without error (without -nodup, in the model's loop) |
| Runs.TurnOfThree | main.go:208-226 | a turn of the loop over three sorted files sends the least line to the output of its holders' pattern (without -nodup, in the model's loop) |
| Runs.StartOfThree | main.go:200-206 | a session over three sorted files starts by reading the first line of each, without error (without -nodup) |
| Runs.ProcessThreeInputs | match_test.go:174-209 | over any eight ascending lines spread as in the test, matchAll ends without error and every output NNY .. YYY receives exactly the lines of its pattern (without -nodup, in the model's loop) |
| Runs.ProcessThreeInputsCase | match_test.go:174-209 | the test's three inputs give NNY=a, NYN=b, NYY=ab, YNN=c,cc, YNY=ac, YYN=bc, YYY=abc, without error (without -nodup, in the model's loop) |
| Examples.AllPatsCases | match_test.go:48-51 | labels for 1, 2 and 3 inputs in the order of the test |
| Examples.ReversedCases | match_test.go:17-23 | flipping 0 to 3 strings reverses them |
| Examples.MinimumCases | match_test.go:76-80 | min of the test's lists |
| Examples.AllDoneCases | match_test.go:96-102 | allEOD of the test's sessions |
| Examples.ComparisonCasesDone | match_test.go:119-121 | no cursors or only a done one gives pattern 0, for compare as written and for the model's comparison |
| Examples.ComparisonCaseOne | match_test.go:122 | "A" alone gives pattern 1 with index 0, for compare as written and for the model's comparison |
| Examples.ComparisonCaseAB | match_test.go:123 | "A","B" gives pattern 1 with index 0, for compare as written and for the model's comparison |
| Examples.ComparisonCaseBA | match_test.go:124 | "B","A" gives pattern 2 with index 1, for compare as written and for the model's comparison |
| Examples.ComparisonCaseAA | match_test.go:125 | "A","A" gives pattern 3 with indices 0,1, for compare as written and for the model's comparison |
| Examples.ComparisonCaseAAB | match_test.go:126 | "A","A","B" gives pattern 3 with indices 0,1, for compare as written and for the model's comparison |
| Examples.ComparisonCaseBAA | match_test.go:127 | "B","A","A" gives pattern 6 with indices 1,2, for compare as written and for the model's comparison |
| Examples.SentinelOutranked | main.go:244-250 | with a live line above the sentinel, the comparison as written picks the done cursor alone and its get changes nothing; the model's comparison picks the live cursor |
| Examples.SentinelJoins | main.go:244-250 | with a live line equal to the sentinel beside a done cursor, the comparison as written lists both (pattern 3) while the model's comparison picks the live cursor alone (pattern 1) |
| Examples.SentinelOutrankedByFiles | main.go:198-223 | a file holding "Ж\n" beside one holding "a\n": after the initial readings "a" is the only least line, and the get that follows leaves "Ж" live beside a done cursor, the state of SentinelOutranked |

## Left out

- `main`, `process`, `mustOpen`, `mustCreate` and `mustWrite` (main.go:61-121, 177-195, 331-357) are not modelled. They open files, set up bufio, flush and close. An output is a sequence of lines plus an active flag, which stands for `bufwriter != nil`. Writing a line appends it; the '\n' `mustWrite` adds is not modelled.
- `reportHead` and `reportFoot` (main.go:123-146) are not modelled: report formatting only.
- args.go is not part of this model (command-line parsing and file checks).
- The read-error branch of get (main.go:295-297) is not modelled: the reader is an in-memory byte sequence that never fails. `log.Fatalln` is not modelled either; errors are returned as a `Status`.
- Go's distinction between a nil and an empty slice is not modelled: `allPats(0)` and an empty `inInxs` are `[]`. `allEOD(nil)` is the session with no inputs.
- Integers are unbounded. `1 << i` overflowing `int` for 63 or more inputs, and `count` overflowing, are not modelled.
- Runs.ProcessOneInput, Runs.ProcessThreeInputs and their test cases are stated without -nodup (under -nodup an empty first line would be skipped, main.go:316-319), and for the model's run `MatchAllRun`. They are not restated for the source's run `MatchAllAsWritten`: `Merge.MatchAllAgrees` gives the equality when every line sorts below the sentinel, but that hypothesis is not discharged here for the concrete files.
- Runs.GetPos, Runs.GetEachCursors, Runs.CursorsTurn, Runs.OneInputFrom, Runs.ProcessOneInput, Runs.TurnOfThree and Runs.StartOfThree: files are sequences of '\n'-terminated lines. A last line without '\n', which get accepts and marks with eof (main.go:306-308), is not covered by these run lemmas. Cursor.GetOneLine and Cursor.GetAfterEof cover that read on its own.
- Runs.ProcessOneInputCase and Runs.ProcessThreeInputsCase compare the lines each output receives, while the unit test compares the bytes written, each line followed by the '\n' of `mustWrite`. The flush of the bufio writers in `process` (main.go:182-187) is not modelled.
- Merge.Session.MatchAll searches `all.pats` for the pattern index (main.go:209-210), but the model goes straight to it. The search always succeeds because the index is below 2^N = len(pats).
- Merge.Session.MatchAll requires one output per non-zero pattern and 2^N labels (the shape `main` builds at main.go:90-111). `main` is not modelled, so this is a precondition.

## Findings

| source | as written | input that shows it | evidently intended | confidence | as-written member | corrected member |
|---|---|---|---|---|---|---|
| main.go:244-250 | An exhausted input holds `string(byte(0xFF))`, the UTF-8 bytes C3 BF, and `compare` takes it into the minimum like any line. A real line that sorts after C3 BF (any line starting with a byte from C4 up, e.g. "Ж" = D0 96) makes the exhausted input the least. Its get changes nothing, so `matchAll` writes the sentinel to that pattern forever. | one file holding "Ж\n" beside one holding "a\n" | exhausted inputs never take part in a comparison | not executed | Examples.SentinelOutranked | Engine.Comparison |
| main.go:244-250 | The same comparison counts an exhausted input as holding a real line equal to the sentinel, "ÿ" = C3 BF. That input then joins the line's pattern, so the line goes to the output of the wrong pattern. | one file holding "ÿ\n" beside one holding "a\n" | exhausted inputs never take part in a comparison | not executed | Examples.SentinelJoins | Engine.Comparison |
