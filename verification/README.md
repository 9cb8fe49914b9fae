# Passwords, a recurrence and an arc file, modelled in Dafny

This project models three small pieces of pure logic from a collection of
Python lab programs and proves properties of them.

- **Password enumeration** (`Lab/5laba.py`, module `Passwords`). A
  password has length K and distinct characters from the ordered alphabet
  `letters_and_digits`: a–z, then A–Z, then 0–9. Its first T positions hold
  letters, and it contains at least one digit. The program builds these
  passwords in two ways:
  - `generate_passwords_algorithmic` uses backtracking with `path`/`used`;
  - `generate_passwords_functional` filters `itertools.permutations`.

  `generate_optimized_passwords` adds one more test, that the first
  character is uppercase. `fewest_uppercase` counts uppercase characters,
  and `min(..., key=fewest_uppercase)` picks the best password.
  `itertools.permutations` is modelled as extending a partial tuple with
  pool characters it does not yet contain, in pool order. This matches the
  library only for a pool without repeated characters, which
  `letters_and_digits` is proved to be. The model is generic over K and T.
  The two generators are proved to return the same list in the same order. The optimised list is proved to be the
  algorithmic one filtered by the first-character test.
- **Factorial and a two-term recurrence** (`6laba.py`, module
  `Recurrence`). `get_fact`, `F_rec` and `F_iter` are modelled on exact
  rationals (`real`). `F_iter`'s three-slot window is proved to compute
  `F_rec`. `Lab/7laba.py:6-40` repeats the same three functions word for
  word (as 6laba.py:4-38), so one model covers both files.
- **Arc file and arc geometry** (`arcs_app.py`, modules `Arcs` and
  `ArcFile`). The model covers:
  - the extent an `Arc` is built with;
  - `move` and `rotate`;
  - `parse_line`;
  - the per-line loop of `load_from_file`.

  `Text` models the Python string operations these rely on: `strip()`,
  `split(",")` and `split()`. `float()` is a parameter
  `toReal: string -> Option<real>`. Whether the canvas accepts a colour
  name is a parameter `knownColor`.

Modules `Wrappers` (the `Option` type) and `Lists` (order-preserving filter
and map) are shared helpers.

Python's float `x % 360` is modelled as x − 360·⌊x/360⌋ on exact reals. Its
result has the sign of the divisor.

## Model

| member | source | states |
|---|---|---|
| Passwords.MembershipTests | Lab/5laba.py:8-10 | `c in letters`, `c in digits` and `c in ascii_uppercase` hold exactly for the characters in the ranges a–z/A–Z, 0–9 and A–Z |
| Passwords.AlphabetFacts | Lab/5laba.py:8-10 | `letters_and_digits` has 62 distinct characters: the 52 letters first, then the 10 digits |
| Passwords.Candidates | Lab/5laba.py:21 | every candidate offered at any position is a character of `letters_and_digits` |
| Passwords.DistinctSnoc | Lab/5laba.py:23-25 | appending a character that is not yet used keeps the path free of repeats |
| Passwords.Backtrack | Lab/5laba.py:16-28 | `backtrack` appends to the result exactly the accepted completions of `path`, in search order, and gives back `path` and `used` with the contents they had on entry |
| Passwords.TryCandidate | Lab/5laba.py:22-28 | a used character adds nothing; an unused one adds the completions of `path + [ch]`; in both cases `path` and `used` come back unchanged |
| Passwords.GeneratePasswordsAlgorithmic | Lab/5laba.py:14-31 | a password is in the result exactly when it has length K, distinct characters from the alphabet, letters in its first T positions and at least one digit |
| Passwords.Permutations | Lab/5laba.py:42 | `itertools.permutations` as modelled: the extensions of the prefix by pool characters not yet in it, in pool order, which is the library's order for a pool without repeated characters; it carries no contract of its own, and `PermutationsMembers` states what it returns |
| Passwords.PermutationsMembers | Lab/5laba.py:42 | the permutations continued from a prefix are exactly the length-r extensions of that prefix by distinct characters of the pool |
| Passwords.FunctionalMembers | Lab/5laba.py:42-44 | the functional list holds exactly the K-permutations of the alphabet whose first T characters are letters and which contain a digit |
| Passwords.GeneratePasswordsFunctional | Lab/5laba.py:38-45 | the loop over all K-permutations keeps, in order, those passing the filter, so its members are the valid K-permutations |
| Passwords.DigitsAtLetterPositionsFail | Lab/5laba.py:21 | no valid password continues a path with a digit at one of the first T positions, so offering only letters there loses nothing |
| Passwords.CompletionsAreFiltered | Lab/5laba.py:16-28 | from any path whose first T characters are letters, the search lists the same passwords, in the same order, as the permutations of that path filtered by validity |
| Passwords.GeneratorsAgree | Lab/5laba.py:14-45 | both generators return the same list in the same order |
| Passwords.StrongerLeafTestFilters | Lab/5laba.py:58-71 | running the same search with one more test at the leaves gives the first search's output filtered by that test, in order |
| Passwords.OptimizedFiltersAlgorithmic | Lab/5laba.py:56-74 | the optimised list is the algorithmic list with only the passwords that start with an uppercase letter, order preserved |
| Passwords.GenerateOptimizedPasswords | Lab/5laba.py:56-74 | the optimised generator's members are the valid K-permutations whose first character is uppercase |
| Passwords.OptimizedMembers | Lab/5laba.py:59-62 | a password is optimised exactly when it is a valid K-permutation that starts with an uppercase letter |
| Passwords.CountUpper | Lab/5laba.py:81-82 | the count lies between 0 and the length; it is 0 exactly when no character is uppercase and equals the length exactly when all are |
| Passwords.CountUpperAppend | Lab/5laba.py:81-82 | the count of a concatenation is the sum of the counts |
| Passwords.FewestUppercase | Lab/5laba.py:84 | on an empty list the result is None, which stands for the ValueError `min` raises there and which would stop the script; otherwise it yields a listed password whose count is at most every other count, and every earlier password has a strictly larger count |
| Passwords.OptimizedHasUpper | Lab/5laba.py:59-62 | every optimised password has at least one uppercase character |
| Recurrence.Fact | 6laba.py:4-10 | `get_fact(n)` is at least 1 for every n |
| Recurrence.GetFact | 6laba.py:4-10 | the loop's running product is n! for n ≥ 0 and 1 for every n ≤ 1 |
| Recurrence.FRec | 6laba.py:12-18 | `F_rec` as written: 1 below 2, otherwise the sign (−1 for odd n) times 2·F(n−1)/n! + F(n−3)/(2n)!; it carries no contract of its own and is the reference that `FRecBelowTwo` and `FIter` are stated against |
| Recurrence.FRecBelowTwo | 6laba.py:12-14 | `F_rec(n)` is 1 for every n < 2, negative n included |
| Recurrence.FIter | 6laba.py:20-38 | the sliding-window loop, with its special case at i = 2, returns `F_rec(n)` for every n |
| Text.Strip | arcs_app.py:96 | `strip()` keeps the part of the line after its leading whitespace, with only whitespace after it; the result is empty exactly when the line is all whitespace, and otherwise neither starts nor ends with whitespace |
| Text.StripIdempotent | arcs_app.py:96 | stripping a stripped line changes nothing |
| Text.StripUnchanged | arcs_app.py:96 | a non-empty line that neither starts nor ends with whitespace is left as it is |
| Text.Split | arcs_app.py:99 | `split(",")` always gives at least one piece |
| Text.SplitPiecesHaveNoSep | arcs_app.py:99 | no piece of `split(",")` contains a comma |
| Text.JoinSplit | arcs_app.py:99 | joining the pieces of `split(",")` with commas gives back the line |
| Text.SplitJoin | arcs_app.py:99 | splitting a comma-join of comma-free pieces gives back the pieces |
| Text.JoinAvoids | arcs_app.py:99 | a character that is not the separator and occurs in no piece does not occur in their join, so a space-joined line of comma-free pieces takes the `split()` branch |
| Text.Words | arcs_app.py:99 | `split()` as written: skip leading whitespace, take the run up to the next whitespace, repeat; it carries no contract of its own, and the lemmas below state what it returns |
| Text.WordsAreWords | arcs_app.py:99 | every field of `split()` is non-empty and holds no whitespace |
| Text.WordsKeepAllText | arcs_app.py:99 | the fields of `split()`, run together, are exactly the line's non-whitespace characters in order |
| Text.WordsTakeWholeRun | arcs_app.py:99 | a non-empty run without whitespace at the start of a line, followed by whitespace or the end of the line, is one whole field: `split()` neither cuts it short nor joins it to the next run |
| Text.WordsDropSpace | arcs_app.py:99 | a whitespace character in front of a line adds no field and changes none |
| Text.WordsJoin | arcs_app.py:99 | `split()` of non-empty, whitespace-free fields joined by single spaces gives back exactly those fields |
| Arcs.Mod360 | arcs_app.py:12 | `x % 360` lies in [0, 360) and differs from x by a whole number of turns |
| Arcs.Mod360Characterised | arcs_app.py:12 | `x % 360` is the only value in [0, 360) that differs from x by whole turns |
| Arcs.Mod360Congruent | arcs_app.py:45 | angles that differ by whole turns have the same remainder |
| Arcs.Extent | arcs_app.py:12 | the extent lies in (0, 360] and differs from end − start by whole turns; it is 360 exactly when end − start is a whole number of turns |
| Arcs.NewArc | arcs_app.py:6-13 | an arc keeps the centre, radius, angles and colour it was given; start + extent points at the end angle; the extent is in (0, 360] and is a full circle exactly when the two angles point the same way |
| Arcs.ExtentOfSameAngles | arcs_app.py:12 | writing the start or end angle with extra whole turns does not change the extent |
| Arcs.Move | arcs_app.py:39-42 | `move` shifts the centre by exactly (dx, dy) and changes nothing else |
| Arcs.MoveInverse | arcs_app.py:39-42 | moving by (−dx, −dy) undoes a move by (dx, dy) |
| Arcs.MoveCompose | arcs_app.py:39-42 | two moves equal one move by the summed offsets |
| Arcs.Rotate | arcs_app.py:44-46 | `rotate` leaves the start angle in [0, 360), pointing the way start + angle points; end angle, extent, centre, radius and colour are unchanged |
| Arcs.RotateCompose | arcs_app.py:44-46 | two rotations equal one rotation by the summed angle |
| Arcs.RotateInverse | arcs_app.py:44-46 | for a start angle in [0, 360), rotating by −angle undoes a rotation by angle |
| Arcs.RotateFullTurn | arcs_app.py:44-46 | rotating by 360 has the same effect as rotating by 0 |
| ArcFile.FirstNonNumber | arcs_app.py:105-109 | finds the first of the five numeric fields that `float()` rejects: every field before it converts, and so does every field when it reports none |
| ArcFile.IsBlank | arcs_app.py:96-98 | the skip test as written: after `strip()` the line is empty or starts with `#`; `ParseLine` is proved to skip exactly these lines |
| ArcFile.Fields | arcs_app.py:99 | the field split as written: on commas when the line holds one, else on whitespace; `SplitJoin`, `WordsJoin` and the two round trips below state what it returns |
| ArcFile.CheckFields | arcs_app.py:102-115 | five or more fields give a record exactly when all five numbers convert, r > 0 and both angles are in [0, 360]; the record echoes the numbers, and the colour is field 6 or "black"; each refusal names its cause in the source's order: first bad number, then radius, then angle |
| ArcFile.ParseLine | arcs_app.py:95-115 | a line is skipped, not refused, exactly when it is blank or a `#` comment after stripping; it is refused for too few fields exactly when its comma or whitespace split has fewer than five; it is accepted exactly when its fields are acceptable, and the record then echoes them; a line with five or more fields gets the verdict of `CheckFields`, so a refusal names the first bad number, then the radius, then the angles |
| ArcFile.FormatLineFields | arcs_app.py:96-99 | a comma-joined line of comma-free fields, trimmed at its ends, is not blank and splits back into its fields |
| ArcFile.FormatThenParse | arcs_app.py:95-115 | writing a valid record as `x,y,r,a1,a2,color` with number texts that `float()` reads back gives a line that `parse_line` returns the same record for |
| ArcFile.SpacedLineFields | arcs_app.py:96-99 | a space-joined line of non-empty fields without whitespace or commas, whose first field does not start with `#`, is not blank, holds no comma, and splits on whitespace back into its fields |
| ArcFile.SpacedThenParse | arcs_app.py:95-115 | writing a valid record as `x y r a1 a2 color`, with number texts that `float()` reads back and a colour name without whitespace or commas, gives a line that `parse_line` returns the same record for |
| ArcFile.LineOutcome | arcs_app.py:130-144 | a line is skipped exactly when it is blank; it is kept exactly when it parses and its colour is drawable, and the kept arc carries the parsed values with the extent `Arc.__init__` gives them: in (0, 360], start + extent pointing at the end angle, and a full circle exactly when the two angles point the same way; a parse failure is reported with its cause, and a rejected colour with the colour of the parsed row |
| ArcFile.Collect | arcs_app.py:128-144 | the loop as written, over the outcomes of lines 1, 2, …: a kept arc is appended, a failure is reported with its line number, a skipped line adds nothing; the `Collect…` lemmas below state what it returns |
| ArcFile.Load | arcs_app.py:128-144 | the loop over the lines of a file: each line's outcome, folded by `Collect`; `LoadAppend` and `LoadLines` state what it returns |
| ArcFile.CollectAppend | arcs_app.py:128-144 | over two runs of lines, the loop keeps the first run's arcs and then the second's, and reports the first run's failures and then the second's with their numbers shifted |
| ArcFile.LoadAppend | arcs_app.py:128-144 | loading a + b keeps a's arcs then b's and reports a's failures then b's, so a bad line never stops later lines |
| ArcFile.CollectReportsFailures | arcs_app.py:141-144 | every report names an existing line, whose outcome is that failure, and report numbers strictly increase |
| ArcFile.CollectReportsEveryFailure | arcs_app.py:141-144 | every failing line is reported with its 1-based number |
| ArcFile.CollectKeepsArcs | arcs_app.py:133-140 | every kept line contributes its arc, and every loaded arc comes from a kept line |
| ArcFile.CollectAccountsEveryLine | arcs_app.py:130-144 | the number of arcs plus the number of reports equals the number of lines that are not skipped |
| ArcFile.LoadLines | arcs_app.py:128-144 | the loop, counting lines from 1, ends with the arcs and reports of the model's fold, and with no more of them than there are lines |

## Left out

- Everything graphical is left out, because it is user interface and event wiring:
  - the tkinter windows and widgets, including the `Lab/7laba.py` window;
  - `Arc.draw`, `recolor` and `change_color`;
  - the file and colour dialogs and the message boxes;
  - the status line and the arc menu;
  - the arc names "Дуга n";
  - `update_selected_arc`.
- In `load_from_file`, the parts outside the per-line loop are left out as I/O:
  - choosing the file;
  - opening it as UTF-8 with BOM;
  - the whole-file error handler;
  - clearing the canvas;
  - selecting the first arc afterwards.

  The loop sees the file as a sequence of lines.
- A row whose colour the canvas rejects is reported as `UnknownColor`. `knownColor` abstracts that judgement, which belongs to the windowing system.
- `move_selected`'s bounds check is left out, because it reads the live canvas size.
- Timing with `time.time`/`time.perf_counter` is left out as I/O and wall-clock. So are the printed tables and `compare`/`compare_performance`, and the top-level script statements of `Lab/5laba.py` apart from `min` at line 84.
- Float arithmetic is left out: `float()` parsing, NaN and infinities, rounding, and the OverflowError that huge factorials raise when divided as floats. Numbers are exact `real`s and `float()` is the parameter `toReal`. A "nan" radius or angle, which every comparison in `parse_line` lets through, cannot be expressed this way.
- Python's `RecursionError` is a runtime limit, not program logic, so it is left out.
- Negative K or T are left out. K and T are `nat`. Python slices with a negative T from the end, and `permutations` raises for a negative K.
- Whitespace beyond ASCII is left out. `Text.IsSpace` accepts space, `\t \n \v \f \r` and `\x1c`–`\x1f`; Python's `str.isspace()` also accepts Unicode spaces.
- Recurrence.Fact: the contract states only that the result is at least 1. That it is n! is the function's definition, which `Recurrence.GetFact` is proved to compute.
- Arcs.Mod360: stated on exact reals. Float `%` can round a tiny negative remainder up to 360.0, and that is not modelled.
- The Django views (`site_vizitka_new/main/views.py`) are left out, because they are web-framework glue with external side effects.
