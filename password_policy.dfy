/**
  Day 2: the password policy (the required letters must occur a number of
  times within the entry's range) and the loop that counts the valid lines of
  the password database.
*/
module PasswordPolicy {
  import opened Errors
  import opened PasswordParser

  /**
    The number of non-overlapping occurrences of `pattern` in `s`, found from
    left to right (what `str::matches(pattern).count()` returns). The empty
    pattern matches at each of the `|s| + 1` positions.
  */
  function CountMatches(s: seq<char>, pattern: seq<char>): (r: nat)
    ensures pattern != [] ==> r * |pattern| <= |s|
    ensures pattern == [] ==> r == |s| + 1
    decreases |s|
  {
    if pattern == [] then |s| + 1
    else if |s| < |pattern| then 0
    else if s[..|pattern|] == pattern then
      var rest := CountMatches(s[|pattern|..], pattern);
      OneMoreMatch(rest, |pattern|, |s| - |pattern|);
      1 + rest
    else CountMatches(s[1..], pattern)
  }

  lemma OneMoreMatch(count: nat, width: nat, room: nat)
    requires count * width <= room
    ensures (1 + count) * width <= width + room
  {
    assert (1 + count) * width == width + count * width;
  }

  /** The number of times `c` occurs in `s`. */
  function Occurrences(s: seq<char>, c: char): nat {
    multiset(s)[c]
  }

  /** For a single letter, the matches are exactly its occurrences. */
  lemma {:induction false} CountMatchesOneLetter(s: seq<char>, c: char)
    ensures CountMatches(s, [c]) == Occurrences(s, c)
    decreases |s|
  {
    if s != [] {
      assert s == [s[0]] + s[1..];
      assert multiset(s) == multiset([s[0]]) + multiset(s[1..]);
      assert s[..1] == [s[0]];
      assert s[1..] == s[|[c]|..];
      CountMatchesOneLetter(s[1..], c);
    }
  }

  /** A line's entry is valid when its letters occur a number of times within its range. */
  function IsValid(entry: PasswordEntry): (r: bool)
    ensures entry.occurences.start > entry.occurences.end ==> !r
  {
    entry.occurences.Contains(CountMatches(entry.password, entry.requiredLetter))
  }

  /** With a single required letter, validity is a bound on how often that letter occurs in the password. */
  lemma ValidByOccurrences(entry: PasswordEntry, c: char)
    requires entry.requiredLetter == [c]
    ensures IsValid(entry) <==>
      entry.occurences.start <= Occurrences(entry.password, c) <= entry.occurences.end
  {
    CountMatchesOneLetter(entry.password, c);
  }

  /** A line of the database that parses to a valid entry. */
  function IsValidLine(line: seq<char>): bool {
    match ParsePassword(line)
    case Some(step) => IsValid(step.output)
    case None => false
  }

  /**
    Whatever follows the password on a line is ignored: the line is valid
    exactly when the entry its well-formed prefix spells is.
  */
  lemma TrailingTextIgnored(l: Layout, rest: seq<char>)
    requires WellFormed(l) && EndsRun(rest)
    ensures ParsePassword(Render(l, rest)).Some?
    ensures IsValidLine(Render(l, rest)) == IsValid(EntryOf(l))
  {
    ParsesWellFormed(l, rest);
  }

  /** Every line of the database parses. */
  predicate AllParse(lines: seq<seq<char>>) {
    forall i :: 0 <= i < |lines| ==> ParsePassword(lines[i]).Some?
  }

  /** The number of elements of `xs` that satisfy `p`. */
  function CountWhere<T>(xs: seq<T>, p: T -> bool): (r: nat)
    ensures r <= |xs|
  {
    if xs == [] then 0
    else CountWhere(xs[..|xs| - 1], p) + (if p(xs[|xs| - 1]) then 1 else 0)
  }

  /** The number of valid lines. */
  function ValidCount(lines: seq<seq<char>>): (r: nat)
    ensures r <= |lines|
  {
    CountWhere(lines, IsValidLine)
  }

  /**
    Counts the valid lines of the database, or fails with
    `PasswordParsingError` at the first line that does not parse.
  */
  method CountValidPasswords(lines: seq<seq<char>>) returns (r: Result<nat>)
    ensures r.Err? <==> !AllParse(lines)
    ensures r.Err? ==> r.error == PasswordParsingError
    ensures r.Ok? ==> r.value == ValidCount(lines) && r.value <= |lines|
  {
    var numValid := 0;
    for i := 0 to |lines|
      invariant forall j :: 0 <= j < i ==> ParsePassword(lines[j]).Some?
      invariant numValid == ValidCount(lines[..i])
    {
      assert lines[..i + 1][..i] == lines[..i] && lines[..i + 1][i] == lines[i];
      match ParsePassword(lines[i]) {
        case None =>
          FailingLine(lines, i);
          return Err(PasswordParsingError);
        case Some(step) =>
          AllParseExtend(lines, i);
          if IsValid(step.output) {
            numValid := numValid + 1;
          }
      }
    }
    assert lines[..|lines|] == lines;
    return Ok(numValid);
  }

  lemma AllParseExtend(lines: seq<seq<char>>, i: nat)
    requires i < |lines| && ParsePassword(lines[i]).Some?
    requires forall j :: 0 <= j < i ==> ParsePassword(lines[j]).Some?
    ensures forall j :: 0 <= j <= i ==> ParsePassword(lines[j]).Some?
  {
  }

  lemma FailingLine(lines: seq<seq<char>>, i: nat)
    requires i < |lines| && ParsePassword(lines[i]).None?
    ensures !AllParse(lines)
  {
  }

  // ---------------------------------------------------------------------------
  // Properties of the count

  /** Counting over a concatenation adds the counts of its parts. */
  lemma {:induction false} CountWhereAppend<T>(a: seq<T>, b: seq<T>, p: T -> bool)
    ensures CountWhere(a + b, p) == CountWhere(a, p) + CountWhere(b, p)
    decreases |b|
  {
    if b == [] {
      assert a + b == a;
    } else {
      assert (a + b)[..|a + b| - 1] == a + b[..|b| - 1];
      CountWhereAppend(a, b[..|b| - 1], p);
    }
  }

  /** Every element counts exactly when every element satisfies `p`. */
  lemma {:induction false} CountWhereAll<T>(xs: seq<T>, p: T -> bool)
    ensures CountWhere(xs, p) == |xs| <==> forall i :: 0 <= i < |xs| ==> p(xs[i])
    decreases |xs|
  {
    if xs != [] {
      var init := xs[..|xs| - 1];
      CountWhereAll(init, p);
      assert forall i :: 0 <= i < |init| ==> init[i] == xs[i];
    }
  }

  /** The count of a database is the sum of the counts of its parts. */
  lemma ValidCountAppend(a: seq<seq<char>>, b: seq<seq<char>>)
    ensures ValidCount(a + b) == ValidCount(a) + ValidCount(b)
  {
    CountWhereAppend(a, b, IsValidLine);
  }

  /** Every line counts exactly when every line is valid. */
  lemma ValidCountAll(lines: seq<seq<char>>)
    ensures ValidCount(lines) == |lines| <==> forall i :: 0 <= i < |lines| ==> IsValidLine(lines[i])
  {
    CountWhereAll(lines, IsValidLine);
  }

  // ---------------------------------------------------------------------------
  // The puzzle's sample database

  const Sample: seq<seq<char>> := ["1-3 a: abcde", "1-3 b: cdefg", "2-9 c: ccccccccc"]

  /** `a` occurs once in `abcde`, within 1..=3. */
  lemma SampleFirstValid()
    ensures IsValidLine(Sample[0])
  {
    ParsesSampleFirst();
    CountMatchesOneLetter("abcde", 'a');
    assert multiset("abcde")['a'] == 1;
  }

  /** `b` does not occur in `cdefg`, outside 1..=3. */
  lemma SampleSecondInvalid()
    ensures !IsValidLine(Sample[1])
  {
    ParsesSampleSecond();
    CountMatchesOneLetter("cdefg", 'b');
    assert multiset("cdefg")['b'] == 0;
  }

  /** `c` occurs nine times in `ccccccccc`, within 2..=9. */
  lemma SampleThirdValid()
    ensures IsValidLine(Sample[2])
  {
    ParsesSampleThird();
    CountMatchesOneLetter("ccccccccc", 'c');
    assert multiset("ccccccccc")['c'] == 9;
  }

  /** Every sample line parses. */
  lemma SampleParses()
    ensures AllParse(Sample)
  {
    ParsesSampleFirst();
    ParsesSampleSecond();
    ParsesSampleThird();
    AllParseOfThree(Sample[0], Sample[1], Sample[2]);
    assert Sample == [Sample[0], Sample[1], Sample[2]];
  }

  lemma AllParseOfThree(a: seq<char>, b: seq<char>, c: seq<char>)
    requires ParsePassword(a).Some? && ParsePassword(b).Some? && ParsePassword(c).Some?
    ensures AllParse([a, b, c])
  {
    var lines := [a, b, c];
    forall i | 0 <= i < |lines|
      ensures ParsePassword(lines[i]).Some?
    {
      assert lines[i] == if i == 0 then a else if i == 1 then b else c;
    }
  }

  /** Two of the three sample lines are valid. */
  lemma SampleCount()
    ensures ValidCount(Sample) == 2
  {
    SampleFirstValid();
    SampleSecondInvalid();
    SampleThirdValid();
    assert Sample[..2][..1] == Sample[..1] && Sample[..1][..0] == [];
    assert CountWhere(Sample[..1], IsValidLine) == 1;
    assert CountWhere(Sample[..2], IsValidLine) == 1;
  }
}
