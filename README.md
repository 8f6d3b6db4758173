# aoc2020, days 1 and 2, in Dafny

This project models the two puzzle solvers in `src/main.rs` and proves their
contracts.

- **Day 1: the expense report.** `find_product_of_entries_with_sum` looks for
  `num_entries` entries that add up to `sum`. It walks the combinations of
  entry positions in the order the combinations iterator yields them. It
  returns the product of the first combination that matches, or `BadEntries`
  when none does. This is `EntrySearch`, in `entry_search.dfy`.
  - `Combinations` lists the combinations in iteration order.
  - `FindProductOfEntriesWithSum` is the `for` loop over that list, returning
    at the first match.
  - Its contract does not depend on the list. The result is the product of
    the lexicographically first combination whose entries add up to `sum`
    (`IsFirstMatch`). `BadEntries` means that no combination adds up to `sum`
    (`NoMatch`).
- **Day 2: the password database.** `parse_password` is a parser combinator
  chain for `<min>-<max> <letters>: <password>`. In `PasswordParser`
  (`password_parser.dfy`) it is a function over `seq<char>` built from the
  recognisers `digit1`, `alpha1`, `space1` and `char`. Each recogniser returns
  the remaining input together with what it recognised.
- **The day-2 loop.** The loop in `day_2` counts the valid lines and aborts at
  the first line that does not parse. It is `CountValidPasswords` in
  `PasswordPolicy` (`password_policy.dfy`), a method over the sequence of
  lines with the counter `numValid`.
- **Errors.** The error enum `AocError`, and the `Result`/`Option` wrappers
  that carry it, are in `errors.dfy`.

The parser is proved two ways:

- **Complete.** Every well-formed line parses to the entry it spells
  (`ParsesWellFormed`).
- **Sound.** Whatever parses is such a line (`ParsedIsWellFormed`).

From these come the round trip through the `"{min}-{max} {letters}: {password}"`
format and one rejection lemma for each field that can be missing.

Two behaviours of the code are worth noting:

- **No end-of-input check.** `parse_password` does not check for end of
  input. It returns whatever follows the password's letters as the
  remainder, and `day_2` discards it (`PasswordParser.ParsesWellFormed`,
  `PasswordPolicy.TrailingTextIgnored`).
- **Zero entries.** `num_entries == 0` is accepted. The iterator yields one
  empty combination, with sum 0 and product 1 (`EntrySearch.NoEntries`).

## Model

| member | source | states |
|---|---|---|
| EntrySearch.FindProductOfEntriesWithSum | src/main.rs:20-28 | `Ok(p)`: some combination of `num_entries` increasing positions is the first in lexicographic order whose entries add up to `sum`, and `p` is the product of its entries. `Err`: it is `BadEntries` and no combination adds up to `sum`. |
| EntrySearch.Combinations | src/main.rs:21 | The combinations of `num_entries` positions, in the iterator's order. Its contract is stated by `CombinationsSound`, `CombinationsComplete` and `CombinationsSorted`. |
| EntrySearch.CombinationsSound | src/main.rs:21 | Every sequence the iteration yields has `k` strictly increasing positions within range. |
| EntrySearch.CombinationsComplete | src/main.rs:21 | Every combination of `k` strictly increasing positions within range is yielded. |
| EntrySearch.CombinationsSorted | src/main.rs:21 | The iteration yields combinations in strictly increasing lexicographic order, so each comes once. |
| EntrySearch.CombinationFitsRange | src/main.rs:21 | A non-empty combination of `k` positions from `lo..n` needs `lo + k <= n`. |
| EntrySearch.FullCombinationIsRange | src/main.rs:21 | Choosing every position of a range leaves only the range itself, in order. |
| EntrySearch.FirstListedMatch | src/main.rs:21-23 | The first yielded combination that adds up to `sum` is the lexicographically first match among all combinations. |
| EntrySearch.NoListedMatch | src/main.rs:21-27 | If no yielded combination adds up to `sum`, then no combination at all does, which justifies `BadEntries`. |
| EntrySearch.FirstMatchUnique | src/main.rs:21-23 | At most one combination is the first match, so the result is determined by the entries. |
| EntrySearch.TooManyEntries | src/main.rs:21-27 | Asking for more entries than there are finds no match, so the search ends in `BadEntries`. |
| EntrySearch.AllEntries | src/main.rs:21-23 | Asking for all entries matches exactly when their total is `sum`. The match is the whole report, whose product is returned. |
| EntrySearch.NoEntries | src/main.rs:21-23 | With zero entries, the empty combination is the first match when `sum` is 0 (product 1). Otherwise nothing matches. |
| EntrySearch.ExampleTwoEntries | src/main.rs:38 | In the puzzle's example report, the first pair adding to 2020 is 1721 and 299, with product 514579. |
| EntrySearch.ExampleThreeEntries | src/main.rs:42 | In the same report, the first triple adding to 2020 is 979, 366 and 675, with product 241861950. |
| PasswordParser.SpanLength | src/main.rs:56-65 | Helper of `TakeWhile1`: the length of the longest prefix made of the class's characters: everything before it is in the class, and the next character is not. |
| PasswordParser.TakeWhile1 | src/main.rs:56-65 | `digit1`/`alpha1`/`space1` succeed exactly when the input starts with a character of the class. They split the input into a non-empty maximal run of the class and the rest. |
| PasswordParser.Char | src/main.rs:57-62 | `char(c)` succeeds exactly when the input starts with `c`, and consumes only that character. |
| PasswordParser.Decimal | src/main.rs:55-71 | Helper of `RoundTrip`: the `{}` formatting, which the program itself never performs. The decimal writing of `n` is a non-empty run of digits that denotes `n`, with no leading zero. |
| PasswordParser.ParseUsizeOfDecimal | src/main.rs:56-58 | `str::parse::<usize>` gives back any `n` written in decimal when `n` fits in a `usize`. When `n` does not fit, it fails. |
| PasswordParser.ParseUsizeLeadingZero | src/main.rs:56-58 | `str::parse::<usize>` accepts a leading zero and gives the same result as without it. |
| PasswordParser.Number | src/main.rs:56-58 | `map_res(digit1, str::parse::<usize>)`: on success it has consumed a non-empty run of digits. `NumberOfRun` states its full contract. |
| PasswordParser.TakeWhile1Exact | src/main.rs:56-65 | A recogniser applied to a maximal run followed by a non-class character consumes exactly that run. |
| PasswordParser.NumberOfRun | src/main.rs:56 | `map_res(digit1, parse)` on a maximal run of digits returns its value, or fails when the value overflows `usize`. |
| PasswordParser.ParsePassword | src/main.rs:55-72 | `parse_password`: on success it consumes at least one character. `ParsesWellFormed`, `ParsedIsWellFormed` and `RoundTrip` state its full contract. |
| PasswordParser.ParseSteps | src/main.rs:55-71 | When the eight steps succeed one after another, the parse succeeds with the entry built from their outputs and with the last step's remainder. |
| PasswordParser.ParsedSteps | src/main.rs:55-71 | A successful parse means each of the eight steps succeeded on what the previous one left. |
| PasswordParser.ParsesBounds | src/main.rs:56-58 | `<min>-<max>` followed by a non-digit is consumed by the first three steps, giving both values. |
| PasswordParser.ParsesPolicy | src/main.rs:59-65 | The blanks, letters, `:`, blanks and password of a well-formed line are consumed by the last five steps. |
| PasswordParser.ParsesWellFormed | src/main.rs:55-71 | Completeness: a well-formed line followed by anything that does not continue the password's letters parses to its own entry, with that text as the remainder. |
| PasswordParser.ParsedIsWellFormed | src/main.rs:55-71 | Soundness: every input that parses is a well-formed line followed by the remainder, the entry is the one that line spells, and the remainder does not start with a letter. |
| PasswordParser.RoundTrip | src/main.rs:55-71 | Formatting `min`, `max`, letters and password as `"{min}-{max} {letters}: {password}"` and parsing gives back `min..=max`, the letters and the password, with nothing left over. |
| PasswordParser.RejectsMissingMin | src/main.rs:56 | A line that does not start with a digit is rejected. |
| PasswordParser.RejectsMissingDash | src/main.rs:57 | A line containing no `-` is rejected. |
| PasswordParser.RejectsMissingColon | src/main.rs:62 | A line containing no `:` is rejected. |
| PasswordParser.RejectsMissingDashAfterMin | src/main.rs:57 | The digits of `min` followed by anything but `-` are rejected. |
| PasswordParser.RejectsMissingMax | src/main.rs:58 | A `-` not followed by a digit is rejected, because the `max` field is missing. |
| PasswordParser.RejectsMissingGap | src/main.rs:59 | `<min>-<max>` not followed by a space or tab is rejected. |
| PasswordParser.RejectsMissingLetters | src/main.rs:61 | An empty letter field is rejected. |
| PasswordParser.RejectsMissingColonAfterLetters | src/main.rs:62 | A letter field followed by anything but `:` is rejected. |
| PasswordParser.RejectsMissingGapAfterColon | src/main.rs:63 | A `:` not followed by a space or tab is rejected. |
| PasswordParser.RejectsMissingPassword | src/main.rs:65 | An empty password is rejected. |
| PasswordParser.RejectsSampleWithoutPassword | src/main.rs:65 | `"1-3 a: "` is rejected. |
| PasswordParser.ParsesSampleFirst | src/main.rs:55-71 | `"1-3 a: abcde"` parses to `1..=3`, `a`, `abcde`, with nothing left. |
| PasswordParser.ParsesSampleSecond | src/main.rs:55-71 | `"1-3 b: cdefg"` parses to `1..=3`, `b`, `cdefg`, with nothing left. |
| PasswordParser.ParsesSampleThird | src/main.rs:55-71 | `"2-9 c: ccccccccc"` parses to `2..=9`, `c`, `ccccccccc`, with nothing left. |
| PasswordPolicy.CountMatches | src/main.rs:85 | Non-overlapping matches of a non-empty pattern cannot cover more than the string. (The program never passes an empty pattern, because the required letters come from `alpha1`.) |
| PasswordPolicy.CountMatchesOneLetter | src/main.rs:85 | For a one-letter pattern, the match count is the number of occurrences of that letter. |
| PasswordPolicy.IsValid | src/main.rs:85 | An entry whose range has `min > max` is never valid. |
| PasswordPolicy.ValidByOccurrences | src/main.rs:85 | With one required letter, an entry is valid exactly when `min <=` (occurrences of the letter in the password) `<= max`. |
| PasswordPolicy.IsValidLine | src/main.rs:80-86 | A line counts when it parses to a valid entry. Its contract is stated by `TrailingTextIgnored` (a well-formed line, whatever follows it, counts exactly when its entry is valid) and `ValidByOccurrences` (the validity of an entry). |
| PasswordPolicy.TrailingTextIgnored | src/main.rs:80-85 | Text after the password does not stop a line from parsing or change whether it is valid. |
| PasswordPolicy.CountWhere | src/main.rs:85-86 | A count of the elements that satisfy a condition never exceeds the number of elements. |
| PasswordPolicy.ValidCount | src/main.rs:79-88 | The number of valid lines, at most the number of lines. `ValidCountAppend` and `ValidCountAll` state how it adds up. |
| PasswordPolicy.CountValidPasswords | src/main.rs:77-88 | Fails exactly when some line does not parse, and then with `PasswordParsingError`. Otherwise returns the number of valid lines, which is at most the number of lines. |
| PasswordPolicy.CountWhereAppend | src/main.rs:79-88 | Counting over two pieces one after the other adds their counts. |
| PasswordPolicy.CountWhereAll | src/main.rs:79-88 | The count equals the length exactly when every element satisfies the condition. |
| PasswordPolicy.ValidCountAppend | src/main.rs:79-88 | The number of valid lines of a concatenated database is the sum over its parts. |
| PasswordPolicy.ValidCountAll | src/main.rs:79-88 | Every line counts exactly when every line is valid. |
| PasswordPolicy.SampleFirstValid | src/main.rs:85 | `"1-3 a: abcde"` is valid. |
| PasswordPolicy.SampleSecondInvalid | src/main.rs:85 | `"1-3 b: cdefg"` is not valid. |
| PasswordPolicy.SampleThirdValid | src/main.rs:85 | `"2-9 c: ccccccccc"` is valid. |
| PasswordPolicy.SampleParses | src/main.rs:79-83 | Every line of the puzzle's sample database parses, so the loop does not fail on it. |
| PasswordPolicy.SampleCount | src/main.rs:77-88 | Two of the three sample lines are valid, so the loop returns 2. |

## Left out

- **File I/O, output and glue.** Reading the input files, `println!`, `main` and the `day_1` driver (src/main.rs:30-46, 75, 90-100) are not modelled. The day-1 entries and the day-2 lines are parameters.
- **Line splitting.** `str::lines()` is not modelled, including its handling of `\r\n`. The database is given as its sequence of lines.
- EntrySearch.FindProductOfEntriesWithSum: does not model `i32` wrap-around or overflow panics in `sum` and `product`. Entries, sums and products are unbounded integers.
- PasswordPolicy.CountValidPasswords: the counter `num_valid` is an `i32` in the program and unbounded here, so the model does not capture overflow past 2^31 - 1 valid lines.
- **Lazy iteration.** The combinations iterator produces combinations lazily. The model builds the whole list (`Combinations`) and loops over it. Only the order and the set of combinations are modelled, not the iterator's internal state.
- **`usize` width.** It is taken to be 64 bits (`UsizeMax`). On a 32-bit target, the overflow bound of `str::parse::<usize>` would be smaller.
- **Parser errors.** Error values from the parser (`nom::Err`, error kinds and positions) are all collapsed into `None`, because `day_2` discards them. The `anyhow`/`thiserror` conversions and error messages are left out.
- **Unicode.** Only ASCII letters, digits, spaces and tabs are recognised, as `alpha1`, `digit1` and `space1` do. Characters are `char`s, and UTF-8 byte offsets are not modelled.
