/**
  Day 2: the parser for one line of the password database,
  `<min>-<max> <letters>: <password>`, written in the combinator style of the
  program. Each recogniser takes the remaining input and, on success, returns
  what is left of it together with what it recognised; `None` is a parse error.
*/
module PasswordParser {
  import opened Errors

  predicate IsDigit(c: char) { '0' <= c <= '9' }

  predicate IsAlpha(c: char) { 'a' <= c <= 'z' || 'A' <= c <= 'Z' }

  predicate IsSpace(c: char) { c == ' ' || c == '\t' }

  /** The character classes of the `digit1`, `alpha1` and `space1` recognisers. */
  datatype CharClass = Digits | Letters | Blanks

  predicate InClass(c: char, cls: CharClass) {
    match cls
    case Digits => IsDigit(c)
    case Letters => IsAlpha(c)
    case Blanks => IsSpace(c)
  }

  predicate AllIn(s: seq<char>, cls: CharClass) {
    forall i :: 0 <= i < |s| ==> InClass(s[i], cls)
  }

  /** What a recogniser leaves unconsumed, and what it produced. */
  datatype Step<+T> = Step(rest: seq<char>, output: T)

  /** The length of the longest prefix of `s` made of `cls` characters. */
  function SpanLength(s: seq<char>, cls: CharClass): (n: nat)
    ensures n <= |s|
    ensures AllIn(s[..n], cls)
    ensures n == |s| || !InClass(s[n], cls)
  {
    if s == [] || !InClass(s[0], cls) then 0 else 1 + SpanLength(s[1..], cls)
  }

  /** `digit1`, `alpha1`, `space1`: the longest non-empty run of `cls` characters. */
  function TakeWhile1(input: seq<char>, cls: CharClass): (r: Option<Step<seq<char>>>)
    ensures r.Some? <==> |input| > 0 && InClass(input[0], cls)
    ensures r.Some? ==> && r.value.output + r.value.rest == input
                        && |r.value.output| > 0
                        && AllIn(r.value.output, cls)
                        && (r.value.rest == [] || !InClass(r.value.rest[0], cls))
  {
    var n := SpanLength(input, cls);
    if n == 0 then None
    else
      assert input[..n] + input[n..] == input;
      Some(Step(input[n..], input[..n]))
  }

  /** `char(c)`: exactly the character `c`. */
  function Char(c: char, input: seq<char>): (r: Option<Step<char>>)
    ensures r.Some? <==> |input| > 0 && input[0] == c
    ensures r.Some? ==> [c] + r.value.rest == input && r.value.output == c
  {
    if |input| > 0 && input[0] == c then Some(Step(input[1..], c)) else None
  }

  // ---------------------------------------------------------------------------
  // Decimal numbers

  /** The largest `usize` on a 64-bit target. */
  const UsizeMax: nat := 0xFFFF_FFFF_FFFF_FFFF

  function DigitValue(c: char): nat
    requires IsDigit(c)
  {
    c as int - '0' as int
  }

  function DigitChar(d: nat): (c: char)
    requires d < 10
    ensures IsDigit(c) && DigitValue(c) == d
  {
    ('0' as int + d) as char
  }

  /** The number a run of decimal digits denotes (leading zeros allowed). */
  function DecimalValue(s: seq<char>): nat
    requires AllIn(s, Digits)
  {
    if s == [] then 0 else 10 * DecimalValue(s[..|s| - 1]) + DigitValue(s[|s| - 1])
  }

  /** `n` written in decimal, without leading zeros: the inverse of `DecimalValue`. */
  function Decimal(n: nat): (s: seq<char>)
    ensures |s| > 0 && AllIn(s, Digits)
    ensures DecimalValue(s) == n
    ensures s[0] == '0' ==> s == "0"
  {
    if n < 10 then [DigitChar(n)]
    else
      var s := Decimal(n / 10) + [DigitChar(n % 10)];
      assert s[..|s| - 1] == Decimal(n / 10);
      s
  }

  /** `str::parse::<usize>` on a run of digits: fails only when the value does not fit. */
  function ParseUsize(digits: seq<char>): (r: Option<nat>)
    requires AllIn(digits, Digits)
    ensures r.Some? <==> DecimalValue(digits) <= UsizeMax
    ensures r.Some? ==> r.value == DecimalValue(digits)
  {
    var v := DecimalValue(digits);
    if v <= UsizeMax then Some(v) else None
  }

  /** Parsing what `{}` writes for `n` gives `n` back, exactly when `n` fits in a `usize`. */
  lemma ParseUsizeOfDecimal(n: nat)
    ensures n <= UsizeMax ==> ParseUsize(Decimal(n)) == Some(n)
    ensures n > UsizeMax ==> ParseUsize(Decimal(n)).None?
  {
  }

  /** A leading zero does not change the value of a run of digits. */
  lemma {:induction false} LeadingZeroValue(d: seq<char>)
    requires AllIn(d, Digits)
    ensures AllIn(['0'] + d, Digits) && DecimalValue(['0'] + d) == DecimalValue(d)
  {
    var z := ['0'] + d;
    if d == [] {
      assert z[..0] == [];
    } else {
      var init := d[..|d| - 1];
      assert z[..|z| - 1] == ['0'] + init;
      assert z[|z| - 1] == d[|d| - 1];
      LeadingZeroValue(init);
    }
  }

  /** `str::parse::<usize>` accepts leading zeros and ignores them. */
  lemma ParseUsizeLeadingZero(d: seq<char>)
    requires AllIn(d, Digits)
    ensures AllIn(['0'] + d, Digits) && ParseUsize(['0'] + d) == ParseUsize(d)
  {
    LeadingZeroValue(d);
  }

  /** `map_res(digit1, str::parse::<usize>)`. */
  function Number(input: seq<char>): (r: Option<Step<nat>>)
    ensures r.Some? ==> exists digits :: IsRun(digits, Digits) && input == digits + r.value.rest
  {
    var digits :- TakeWhile1(input, Digits);
    var value :- ParseUsize(digits.output);
    Some(Step(digits.rest, value))
  }

  // ---------------------------------------------------------------------------
  // Password entries

  /** `min..=max`. */
  datatype RangeInclusive = RangeInclusive(start: nat, end: nat) {
    predicate Contains(x: nat) { start <= x <= end }
  }

  datatype PasswordEntry = PasswordEntry(occurences: RangeInclusive, requiredLetter: seq<char>, password: seq<char>)

  /**
    Parses `<min>-<max> <letters>: <password>` at the start of `input`.
    Nothing requires the input to end after the password: what follows its
    letters is returned as the remaining input.
  */
  function ParsePassword(input: seq<char>): (r: Option<Step<PasswordEntry>>)
    ensures r.Some? ==> |r.value.rest| < |input|
  {
    var min :- Number(input);
    var dash :- Char('-', min.rest);
    var max :- Number(dash.rest);
    var gap1 :- TakeWhile1(max.rest, Blanks);
    var letter :- TakeWhile1(gap1.rest, Letters);
    var colon :- Char(':', letter.rest);
    var gap2 :- TakeWhile1(colon.rest, Blanks);
    var password :- TakeWhile1(gap2.rest, Letters);
    Some(Step(password.rest, PasswordEntry(RangeInclusive(min.output, max.output), letter.output, password.output)))
  }

  // ---------------------------------------------------------------------------
  // The grammar the parser accepts

  /** The pieces of a well-formed line, in order. */
  datatype Layout = Layout(
    minDigits: seq<char>, maxDigits: seq<char>, gap1: seq<char>,
    letters: seq<char>, gap2: seq<char>, password: seq<char>)

  predicate IsRun(s: seq<char>, cls: CharClass) {
    |s| > 0 && AllIn(s, cls)
  }

  predicate WellFormed(l: Layout) {
    && IsRun(l.minDigits, Digits) && DecimalValue(l.minDigits) <= UsizeMax
    && IsRun(l.maxDigits, Digits) && DecimalValue(l.maxDigits) <= UsizeMax
    && IsRun(l.gap1, Blanks)
    && IsRun(l.letters, Letters)
    && IsRun(l.gap2, Blanks)
    && IsRun(l.password, Letters)
  }

  /** The line the pieces of `l` spell, followed by `rest`. */
  function Render(l: Layout, rest: seq<char>): seq<char> {
    l.minDigits + (['-'] + (l.maxDigits + (l.gap1 + (l.letters + ([':'] + (l.gap2 + (l.password + rest)))))))
  }

  function EntryOf(l: Layout): PasswordEntry
    requires WellFormed(l)
  {
    PasswordEntry(RangeInclusive(DecimalValue(l.minDigits), DecimalValue(l.maxDigits)), l.letters, l.password)
  }

  /** What may follow the password: anything that does not continue its run of letters. */
  predicate EndsRun(rest: seq<char>) {
    rest == [] || !IsAlpha(rest[0])
  }

  lemma {:induction false} SpanOfRun(run: seq<char>, rest: seq<char>, cls: CharClass)
    requires AllIn(run, cls)
    requires rest == [] || !InClass(rest[0], cls)
    ensures SpanLength(run + rest, cls) == |run|
  {
    if run == [] {
      assert run + rest == rest;
    } else {
      assert (run + rest)[0] == run[0];
      assert (run + rest)[1..] == run[1..] + rest;
      SpanOfRun(run[1..], rest, cls);
    }
  }

  /** A recogniser consumes exactly a maximal run that is followed by something outside its class. */
  lemma TakeWhile1Exact(run: seq<char>, rest: seq<char>, cls: CharClass)
    requires IsRun(run, cls)
    requires rest == [] || !InClass(rest[0], cls)
    ensures TakeWhile1(run + rest, cls) == Some(Step(rest, run))
  {
    SpanOfRun(run, rest, cls);
    assert (run + rest)[..|run|] == run;
    assert (run + rest)[|run|..] == rest;
  }

  /** `map_res(digit1, ...)` on a maximal run of digits: its value, unless that overflows `usize`. */
  lemma NumberOfRun(digits: seq<char>, rest: seq<char>)
    requires IsRun(digits, Digits)
    requires rest == [] || !IsDigit(rest[0])
    ensures Number(digits + rest)
         == if DecimalValue(digits) <= UsizeMax then Some(Step(rest, DecimalValue(digits))) else None
  {
    TakeWhile1Exact(digits, rest, Digits);
  }

  /** The parser is the sequence of its eight steps, each taking the input the previous one left. */
  lemma ParseSteps(s0: seq<char>, s1: seq<char>, s2: seq<char>, s3: seq<char>, s4: seq<char>,
                   s5: seq<char>, s6: seq<char>, s7: seq<char>, rest: seq<char>)
    requires Number(s0).Some? && Number(s0).value.rest == s1
    requires Char('-', s1) == Some(Step(s2, '-'))
    requires Number(s2).Some? && Number(s2).value.rest == s3
    requires TakeWhile1(s3, Blanks).Some? && TakeWhile1(s3, Blanks).value.rest == s4
    requires TakeWhile1(s4, Letters).Some? && TakeWhile1(s4, Letters).value.rest == s5
    requires Char(':', s5) == Some(Step(s6, ':'))
    requires TakeWhile1(s6, Blanks).Some? && TakeWhile1(s6, Blanks).value.rest == s7
    requires TakeWhile1(s7, Letters).Some? && TakeWhile1(s7, Letters).value.rest == rest
    ensures ParsePassword(s0) == Some(Step(rest, PasswordEntry(
      RangeInclusive(Number(s0).value.output, Number(s2).value.output),
      TakeWhile1(s4, Letters).value.output, TakeWhile1(s7, Letters).value.output)))
  {
  }

  /** Conversely, a successful parse means each of the eight steps succeeded on what the previous one left. */
  lemma ParsedSteps(s0: seq<char>)
    ensures ParsePassword(s0).Some? ==>
      && Number(s0).Some?
      && Char('-', Number(s0).value.rest).Some?
      && Number(Char('-', Number(s0).value.rest).value.rest).Some?
      && var s3 := Number(Char('-', Number(s0).value.rest).value.rest).value.rest;
         && TakeWhile1(s3, Blanks).Some?
         && TakeWhile1(TakeWhile1(s3, Blanks).value.rest, Letters).Some?
         && var s5 := TakeWhile1(TakeWhile1(s3, Blanks).value.rest, Letters).value.rest;
            && Char(':', s5).Some?
            && TakeWhile1(Char(':', s5).value.rest, Blanks).Some?
            && TakeWhile1(TakeWhile1(Char(':', s5).value.rest, Blanks).value.rest, Letters).Some?
  {
  }

  /** The first three steps consume `<min>-<max>`, leaving what follows the upper bound. */
  lemma ParsesBounds(minDigits: seq<char>, maxDigits: seq<char>, tail: seq<char>)
    requires IsRun(minDigits, Digits) && DecimalValue(minDigits) <= UsizeMax
    requires IsRun(maxDigits, Digits) && DecimalValue(maxDigits) <= UsizeMax
    requires tail == [] || !IsDigit(tail[0])
    ensures Number(minDigits + (['-'] + (maxDigits + tail)))
         == Some(Step(['-'] + (maxDigits + tail), DecimalValue(minDigits)))
    ensures Char('-', ['-'] + (maxDigits + tail)) == Some(Step(maxDigits + tail, '-'))
    ensures Number(maxDigits + tail) == Some(Step(tail, DecimalValue(maxDigits)))
  {
    NumberOfRun(minDigits, ['-'] + (maxDigits + tail));
    NumberOfRun(maxDigits, tail);
  }

  /** The last five steps consume `<blanks><letters>:<blanks><password>`, leaving `rest`. */
  lemma ParsesPolicy(l: Layout, rest: seq<char>)
    requires WellFormed(l) && EndsRun(rest)
    ensures TakeWhile1(l.gap1 + (l.letters + ([':'] + (l.gap2 + (l.password + rest)))), Blanks)
         == Some(Step(l.letters + ([':'] + (l.gap2 + (l.password + rest))), l.gap1))
    ensures TakeWhile1(l.letters + ([':'] + (l.gap2 + (l.password + rest))), Letters)
         == Some(Step([':'] + (l.gap2 + (l.password + rest)), l.letters))
    ensures Char(':', [':'] + (l.gap2 + (l.password + rest))) == Some(Step(l.gap2 + (l.password + rest), ':'))
    ensures TakeWhile1(l.gap2 + (l.password + rest), Blanks) == Some(Step(l.password + rest, l.gap2))
    ensures TakeWhile1(l.password + rest, Letters) == Some(Step(rest, l.password))
  {
    TakeWhile1Exact(l.gap1, l.letters + ([':'] + (l.gap2 + (l.password + rest))), Blanks);
    TakeWhile1Exact(l.letters, [':'] + (l.gap2 + (l.password + rest)), Letters);
    TakeWhile1Exact(l.gap2, l.password + rest, Blanks);
    TakeWhile1Exact(l.password, rest, Letters);
  }

  /** Completeness: every well-formed line parses, to its own entry, leaving what follows the password. */
  lemma ParsesWellFormed(l: Layout, rest: seq<char>)
    requires WellFormed(l) && EndsRun(rest)
    ensures ParsePassword(Render(l, rest)) == Some(Step(rest, EntryOf(l)))
  {
    var s3 := l.gap1 + (l.letters + ([':'] + (l.gap2 + (l.password + rest))));
    ParsesBounds(l.minDigits, l.maxDigits, s3);
    ParsesPolicy(l, rest);
    ParseSteps(Render(l, rest), ['-'] + (l.maxDigits + s3), l.maxDigits + s3, s3,
      l.letters + ([':'] + (l.gap2 + (l.password + rest))), [':'] + (l.gap2 + (l.password + rest)),
      l.gap2 + (l.password + rest), l.password + rest, rest);
  }

  /** Soundness: whatever parses is a well-formed line followed by something that ends the password. */
  lemma ParsedIsWellFormed(input: seq<char>)
    requires ParsePassword(input).Some?
    ensures exists l :: && WellFormed(l)
                        && input == Render(l, ParsePassword(input).value.rest)
                        && ParsePassword(input).value.output == EntryOf(l)
                        && EndsRun(ParsePassword(input).value.rest)
  {
    var min := Number(input);
    assert min.Some?;
    var dash := Char('-', min.value.rest);
    assert dash.Some?;
    var max := Number(dash.value.rest);
    assert max.Some?;
    var gap1 := TakeWhile1(max.value.rest, Blanks);
    assert gap1.Some?;
    var letter := TakeWhile1(gap1.value.rest, Letters);
    assert letter.Some?;
    var colon := Char(':', letter.value.rest);
    assert colon.Some?;
    var gap2 := TakeWhile1(colon.value.rest, Blanks);
    assert gap2.Some?;
    var password := TakeWhile1(gap2.value.rest, Letters);
    assert password.Some?;
    var minDigits := TakeWhile1(input, Digits).value;
    var maxDigits := TakeWhile1(dash.value.rest, Digits).value;
    var l := Layout(minDigits.output, maxDigits.output, gap1.value.output, letter.value.output,
                    gap2.value.output, password.value.output);
    assert ParseUsize(minDigits.output).Some? && min.value.rest == minDigits.rest;
    assert ParseUsize(maxDigits.output).Some? && max.value.rest == maxDigits.rest;
    var t7 := password.value.output + password.value.rest;
    var t6 := gap2.value.output + t7;
    var t5 := [':'] + t6;
    var t4 := letter.value.output + t5;
    var t3 := gap1.value.output + t4;
    var t2 := maxDigits.output + t3;
    var t1 := ['-'] + t2;
    assert t7 == gap2.value.rest;
    assert t6 == colon.value.rest;
    assert t5 == letter.value.rest;
    assert t4 == gap1.value.rest;
    assert t3 == max.value.rest;
    assert t2 == dash.value.rest;
    assert t1 == min.value.rest;
    assert input == Render(l, password.value.rest);
    assert WellFormed(l);
    ParsesWellFormed(l, password.value.rest);
  }

  // ---------------------------------------------------------------------------
  // Round trip and rejected lines

  /** The line `"{min}-{max} {letters}: {password}"`. */
  function Format(min: nat, max: nat, letters: seq<char>, password: seq<char>): seq<char> {
    Decimal(min) + "-" + Decimal(max) + " " + letters + ": " + password
  }

  /** Parsing a formatted entry gives the entry back and consumes the whole line. */
  lemma RoundTrip(min: nat, max: nat, letters: seq<char>, password: seq<char>)
    requires min <= UsizeMax && max <= UsizeMax
    requires IsRun(letters, Letters) && IsRun(password, Letters)
    ensures ParsePassword(Format(min, max, letters, password))
         == Some(Step([], PasswordEntry(RangeInclusive(min, max), letters, password)))
  {
    var l := Layout(Decimal(min), Decimal(max), " ", letters, " ", password);
    assert Format(min, max, letters, password) == Render(l, []);
    ParsesWellFormed(l, []);
  }

  /** A line that does not start with a digit is rejected. */
  lemma RejectsMissingMin(input: seq<char>)
    requires input == [] || !IsDigit(input[0])
    ensures ParsePassword(input).None?
  {
  }

  /** A line without `-` is rejected. */
  lemma RejectsMissingDash(input: seq<char>)
    requires '-' !in input
    ensures ParsePassword(input).None?
  {
    if ParsePassword(input).Some? {
      ParsedIsWellFormed(input);
    }
  }

  /** A line without `:` is rejected. */
  lemma RejectsMissingColon(input: seq<char>)
    requires ':' !in input
    ensures ParsePassword(input).None?
  {
    if ParsePassword(input).Some? {
      ParsedIsWellFormed(input);
    }
  }

  /** `min` must be followed by `-`. */
  lemma RejectsMissingDashAfterMin(minDigits: seq<char>, tail: seq<char>)
    requires IsRun(minDigits, Digits)
    requires tail == [] || (!IsDigit(tail[0]) && tail[0] != '-')
    ensures ParsePassword(minDigits + tail).None?
  {
    ParsedSteps(minDigits + tail);
    NumberOfRun(minDigits, tail);
  }

  /** The `-` must be followed by the digits of `max`. */
  lemma RejectsMissingMax(minDigits: seq<char>, tail: seq<char>)
    requires IsRun(minDigits, Digits)
    requires tail == [] || !IsDigit(tail[0])
    ensures ParsePassword(minDigits + (['-'] + tail)).None?
  {
    ParsedSteps(minDigits + (['-'] + tail));
    NumberOfRun(minDigits, ['-'] + tail);
  }

  /** `max` must be followed by at least one space or tab. */
  lemma RejectsMissingGap(minDigits: seq<char>, maxDigits: seq<char>, tail: seq<char>)
    requires IsRun(minDigits, Digits) && IsRun(maxDigits, Digits)
    requires tail == [] || (!IsDigit(tail[0]) && !IsSpace(tail[0]))
    ensures ParsePassword(minDigits + (['-'] + (maxDigits + tail))).None?
  {
    ParsedSteps(minDigits + (['-'] + (maxDigits + tail)));
    NumberOfRun(minDigits, ['-'] + (maxDigits + tail));
    NumberOfRun(maxDigits, tail);
  }

  /** The letter field must not be empty. */
  lemma RejectsMissingLetters(minDigits: seq<char>, maxDigits: seq<char>, gap: seq<char>, tail: seq<char>)
    requires IsRun(minDigits, Digits) && IsRun(maxDigits, Digits) && IsRun(gap, Blanks)
    requires tail == [] || (!IsSpace(tail[0]) && !IsAlpha(tail[0]))
    ensures ParsePassword(minDigits + (['-'] + (maxDigits + (gap + tail)))).None?
  {
    ParsedSteps(minDigits + (['-'] + (maxDigits + (gap + tail))));
    NumberOfRun(minDigits, ['-'] + (maxDigits + (gap + tail)));
    NumberOfRun(maxDigits, gap + tail);
    TakeWhile1Exact(gap, tail, Blanks);
  }

  /** The letter field must be followed by `:`. */
  lemma RejectsMissingColonAfterLetters(minDigits: seq<char>, maxDigits: seq<char>, gap: seq<char>,
                                        letters: seq<char>, tail: seq<char>)
    requires IsRun(minDigits, Digits) && IsRun(maxDigits, Digits) && IsRun(gap, Blanks)
    requires IsRun(letters, Letters)
    requires tail == [] || (!IsAlpha(tail[0]) && tail[0] != ':')
    ensures ParsePassword(minDigits + (['-'] + (maxDigits + (gap + (letters + tail))))).None?
  {
    ParsedSteps(minDigits + (['-'] + (maxDigits + (gap + (letters + tail)))));
    NumberOfRun(minDigits, ['-'] + (maxDigits + (gap + (letters + tail))));
    NumberOfRun(maxDigits, gap + (letters + tail));
    TakeWhile1Exact(gap, letters + tail, Blanks);
    TakeWhile1Exact(letters, tail, Letters);
  }

  /** `:` must be followed by at least one space or tab. */
  lemma RejectsMissingGapAfterColon(minDigits: seq<char>, maxDigits: seq<char>, gap: seq<char>,
                                    letters: seq<char>, tail: seq<char>)
    requires IsRun(minDigits, Digits) && IsRun(maxDigits, Digits) && IsRun(gap, Blanks)
    requires IsRun(letters, Letters)
    requires tail == [] || !IsSpace(tail[0])
    ensures ParsePassword(minDigits + (['-'] + (maxDigits + (gap + (letters + ([':'] + tail)))))).None?
  {
    ParsedSteps(minDigits + (['-'] + (maxDigits + (gap + (letters + ([':'] + tail))))));
    NumberOfRun(minDigits, ['-'] + (maxDigits + (gap + (letters + ([':'] + tail)))));
    NumberOfRun(maxDigits, gap + (letters + ([':'] + tail)));
    TakeWhile1Exact(gap, letters + ([':'] + tail), Blanks);
    TakeWhile1Exact(letters, [':'] + tail, Letters);
  }

  /** The password must not be empty. */
  lemma RejectsMissingPassword(minDigits: seq<char>, maxDigits: seq<char>, gap1: seq<char>,
                               letters: seq<char>, gap2: seq<char>, tail: seq<char>)
    requires IsRun(minDigits, Digits) && IsRun(maxDigits, Digits) && IsRun(gap1, Blanks)
    requires IsRun(letters, Letters) && IsRun(gap2, Blanks)
    requires tail == [] || (!IsSpace(tail[0]) && !IsAlpha(tail[0]))
    ensures ParsePassword(minDigits + (['-'] + (maxDigits + (gap1 + (letters + ([':'] + (gap2 + tail))))))).None?
  {
    ParsedSteps(minDigits + (['-'] + (maxDigits + (gap1 + (letters + ([':'] + (gap2 + tail)))))));
    NumberOfRun(minDigits, ['-'] + (maxDigits + (gap1 + (letters + ([':'] + (gap2 + tail))))));
    NumberOfRun(maxDigits, gap1 + (letters + ([':'] + (gap2 + tail))));
    TakeWhile1Exact(gap1, letters + ([':'] + (gap2 + tail)), Blanks);
    TakeWhile1Exact(letters, [':'] + (gap2 + tail), Letters);
    TakeWhile1Exact(gap2, tail, Blanks);
  }

  /** The sample line with an empty password is rejected. */
  lemma RejectsSampleWithoutPassword()
    ensures ParsePassword("1-3 a: ").None?
  {
    assert "1-3 a: " == "1" + (['-'] + ("3" + (" " + ("a" + ([':'] + (" " + []))))));
    RejectsMissingPassword("1", "3", " ", "a", " ", []);
  }

  /** The three sample lines of the puzzle parse to the entries they spell out. */
  lemma ParsesSampleFirst()
    ensures ParsePassword("1-3 a: abcde") == Some(Step([], PasswordEntry(RangeInclusive(1, 3), "a", "abcde")))
  {
    var l := Layout("1", "3", " ", "a", " ", "abcde");
    assert DecimalValue("1") == 1 && DecimalValue("3") == 3;
    assert Render(l, []) == "1-3 a: abcde";
    ParsesWellFormed(l, []);
  }

  lemma ParsesSampleSecond()
    ensures ParsePassword("1-3 b: cdefg") == Some(Step([], PasswordEntry(RangeInclusive(1, 3), "b", "cdefg")))
  {
    var l := Layout("1", "3", " ", "b", " ", "cdefg");
    assert DecimalValue("1") == 1 && DecimalValue("3") == 3;
    assert Render(l, []) == "1-3 b: cdefg";
    ParsesWellFormed(l, []);
  }

  lemma ParsesSampleThird()
    ensures ParsePassword("2-9 c: ccccccccc") == Some(Step([], PasswordEntry(RangeInclusive(2, 9), "c", "ccccccccc")))
  {
    var l := Layout("2", "9", " ", "c", " ", "ccccccccc");
    assert DecimalValue("2") == 2 && DecimalValue("9") == 9;
    assert "ccccccccc" + [] == "ccccccccc";
    assert Render(l, []) == "2-9 c: " + "ccccccccc";
    assert "2-9 c: " + "ccccccccc" == "2-9 c: ccccccccc";
    ParsesWellFormed(l, []);
  }
}
