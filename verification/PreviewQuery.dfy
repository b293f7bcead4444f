/** Runs of entries as a query writes them: `a-b`, `a` or `-n`, with commas between. */
module PreviewQuery {
  import opened Collections
  import opened Preview

  const USIZE_MAX: nat := 0xffff_ffff_ffff_ffff

  datatype Invalid = Invalid(run: string)

  predicate IsDigit(c: char) {
    '0' <= c <= '9'
  }

  predicate AllDigits(text: string) {
    forall i :: 0 <= i < |text| ==> IsDigit(text[i])
  }

  /** The number digits stand for. */
  function ValueOf(digits: string): (n: nat)
    requires AllDigits(digits)
  {
    if digits == "" then 0
    else 10 * ValueOf(digits[..|digits| - 1]) + (digits[|digits| - 1] - '0') as int
  }

  /** An unsigned 64-bit number: digits, a plus before them allowed. */
  function ParseIndex(text: string): (n: Option<nat>)
    ensures n.Some? ==> n.value <= USIZE_MAX
  {
    var digits := if |text| > 1 && text[0] == '+' then text[1..] else text;
    if digits == "" || !AllDigits(digits) || ValueOf(digits) > USIZE_MAX then None
    else Some(ValueOf(digits))
  }

  /** Where the first `c` of `text` is. */
  function IndexOf(text: string, c: char): (i: Option<nat>)
    ensures i.None? ==> c !in text
    ensures i.Some? ==> i.value < |text| && text[i.value] == c && c !in text[..i.value]
  {
    if text == "" then None
    else if text[0] == c then Some(0)
    else
      match IndexOf(text[1..], c)
      case None => None
      case Some(i) => assert text[..i + 1] == [text[0]] + text[1..][..i]; Some(i + 1)
  }

  function ParseRun(text: string): Result<Run, Invalid> {
    if text != "" && text[0] == '-' then
      match ParseIndex(text[1..])
      case None => Err(Invalid(text))
      case Some(count) => Ok(Last(count))
    else
      var dash := IndexOf(text, '-');
      var from := ParseIndex(if dash.Some? then text[..dash.value] else text);
      var to := if dash.Some? then ParseIndex(text[dash.value + 1..]) else from;
      if from.None? || to.None? || from.value > to.value then Err(Invalid(text))
      else Ok(Span(from.value, to.value))
  }

  // ----- Writing a run

  function Digits(n: nat): (digits: string)
    ensures digits != "" && AllDigits(digits)
  {
    if n < 10 then ['0' + n as char] else Digits(n / 10) + ['0' + (n % 10) as char]
  }

  lemma {:induction false} DigitsReadBack(n: nat)
    ensures ValueOf(Digits(n)) == n
  {
    if n >= 10 {
      DigitsReadBack(n / 10);
      assert Digits(n)[..|Digits(n)| - 1] == Digits(n / 10);
    }
  }

  lemma IndexReadsBack(n: nat)
    requires n <= USIZE_MAX
    ensures ParseIndex(Digits(n)) == Some(n)
  {
    DigitsReadBack(n);
    assert IsDigit(Digits(n)[0]);
  }

  function WrittenRun(run: Run): string {
    match run
    case Last(count) => "-" + Digits(count)
    case Span(from, to) => if from == to then Digits(from) else Digits(from) + "-" + Digits(to)
  }

  /** A run a query can ask for. */
  predicate IsRun(run: Run) {
    match run
    case Last(count) => count <= USIZE_MAX
    case Span(from, to) => from <= to <= USIZE_MAX
  }

  lemma {:induction false} FirstAfter(a: string, c: char, b: string)
    requires c !in a
    ensures IndexOf(a + [c] + b, c) == Some(|a|)
  {
    var text := a + [c] + b;
    if a != "" {
      assert text[1..] == a[1..] + [c] + b;
      assert a[0] in a;
      FirstAfter(a[1..], c, b);
    }
  }

  lemma LastReadsBack(count: nat)
    requires count <= USIZE_MAX
    ensures ParseRun("-" + Digits(count)) == Ok(Last(count))
  {
    IndexReadsBack(count);
    assert ("-" + Digits(count))[1..] == Digits(count);
  }

  lemma OneReadsBack(i: nat)
    requires i <= USIZE_MAX
    ensures ParseRun(Digits(i)) == Ok(Span(i, i))
  {
    IndexReadsBack(i);
    assert '-' !in Digits(i);
    assert Digits(i)[0] != '-';
  }

  lemma SpanReadsBack(from: nat, to: nat)
    requires from <= to <= USIZE_MAX
    ensures ParseRun(Digits(from) + "-" + Digits(to)) == Ok(Span(from, to))
  {
    var a, b := Digits(from), Digits(to);
    var text := a + "-" + b;
    IndexReadsBack(from);
    IndexReadsBack(to);
    assert '-' !in a;
    FirstAfter(a, '-', b);
    assert text[0] == a[0] && text[..|a|] == a && text[|a| + 1..] == b;
  }

  /** Every run reads back as it was written. */
  lemma RunReadsBack(run: Run)
    requires IsRun(run)
    ensures ParseRun(WrittenRun(run)) == Ok(run)
  {
    match run {
      case Last(count) => LastReadsBack(count);
      case Span(from, to) =>
        if from == to {
          OneReadsBack(from);
        } else {
          SpanReadsBack(from, to);
        }
    }
  }

  /** What is read is a run, and one that asks for nothing backwards. */
  lemma ReadRunsAreRuns(text: string)
    ensures ParseRun(text).Ok? ==> IsRun(ParseRun(text).value)
  {
  }

  // ----- A whole query

  /** The parts of `text` between commas. */
  function Split(text: string): (parts: seq<string>)
    ensures parts != []
  {
    match IndexOf(text, ',')
    case None => [text]
    case Some(i) => [text[..i]] + Split(text[i + 1..])
  }

  /** `text` without blanks at either end. */
  function Trim(blank: char -> bool, text: string): string {
    if text == "" then ""
    else if blank(text[0]) then Trim(blank, text[1..])
    else if blank(text[|text| - 1]) then Trim(blank, text[..|text| - 1])
    else text
  }

  /** Every part a run, or the first that is none. */
  function ParseRuns(blank: char -> bool, parts: seq<string>): Result<seq<Run>, Invalid> {
    if parts == [] then Ok([])
    else
      match ParseRun(Trim(blank, parts[0]))
      case Err(e) => Err(e)
      case Ok(run) =>
        match ParseRuns(blank, parts[1..])
        case Err(e) => Err(e)
        case Ok(rest) => Ok([run] + rest)
  }

  function ParseQuery(blank: char -> bool, entries: Option<string>): Result<Option<seq<Run>>, Invalid> {
    match entries
    case None => Ok(None)
    case Some(text) =>
      match ParseRuns(blank, Split(text))
      case Err(e) => Err(e)
      case Ok(runs) => Ok(Some(runs))
  }

  function WrittenRuns(runs: seq<Run>): string
    requires runs != []
  {
    if |runs| == 1 then WrittenRun(runs[0]) else WrittenRun(runs[0]) + "," + WrittenRuns(runs[1..])
  }

  /** A written run holds digits and dashes only. */
  lemma WrittenCharacters(run: Run)
    ensures WrittenRun(run) != ""
    ensures forall i :: 0 <= i < |WrittenRun(run)| ==> IsDigit(WrittenRun(run)[i]) || WrittenRun(run)[i] == '-'
  {
  }

  predicate KeepsDigits(blank: char -> bool) {
    !blank('-') && forall c :: IsDigit(c) ==> !blank(c)
  }

  lemma PartReadsBack(blank: char -> bool, run: Run)
    requires KeepsDigits(blank) && IsRun(run)
    ensures ',' !in WrittenRun(run) && Trim(blank, WrittenRun(run)) == WrittenRun(run)
    ensures ParseRun(Trim(blank, WrittenRun(run))) == Ok(run)
  {
    var a := WrittenRun(run);
    WrittenCharacters(run);
    RunReadsBack(run);
    assert IsDigit(a[0]) || a[0] == '-';
    assert IsDigit(a[|a| - 1]) || a[|a| - 1] == '-';
  }

  lemma SplitAtComma(a: string, rest: string)
    requires ',' !in a
    ensures Split(a) == [a]
    ensures Split(a + "," + rest) == [a] + Split(rest)
  {
    var text := a + "," + rest;
    FirstAfter(a, ',', rest);
    assert text[..|a|] == a && text[|a| + 1..] == rest;
  }

  /** Every list of runs reads back as it was written. */
  lemma {:induction false} RunsReadBack(blank: char -> bool, runs: seq<Run>)
    requires KeepsDigits(blank) && runs != [] && forall k :: 0 <= k < |runs| ==> IsRun(runs[k])
    ensures ParseRuns(blank, Split(WrittenRuns(runs))) == Ok(runs)
  {
    PartReadsBack(blank, runs[0]);
    var a := WrittenRun(runs[0]);
    if |runs| == 1 {
      SplitAtComma(a, "");
      NoMoreRuns(blank, a);
      assert runs == [runs[0]];
    } else {
      SplitAtComma(a, WrittenRuns(runs[1..]));
      RunsReadBack(blank, runs[1..]);
      OneMoreRun(blank, a, Split(WrittenRuns(runs[1..])));
      assert runs == [runs[0]] + runs[1..];
    }
  }

  lemma NoMoreRuns(blank: char -> bool, a: string)
    requires ParseRun(Trim(blank, a)).Ok?
    ensures ParseRuns(blank, [a]) == Ok([ParseRun(Trim(blank, a)).value])
  {
    assert ParseRuns(blank, []) == Ok([]);
    OneMoreRun(blank, a, []);
    var run := ParseRun(Trim(blank, a)).value;
    assert [a] + [] == [a] && [run] + [] == [run];
  }

  lemma OneMoreRun(blank: char -> bool, a: string, parts: seq<string>)
    requires ParseRun(Trim(blank, a)).Ok? && ParseRuns(blank, parts).Ok?
    ensures ParseRuns(blank, [a] + parts) == Ok([ParseRun(Trim(blank, a)).value] + ParseRuns(blank, parts).value)
  {
    assert ([a] + parts)[1..] == parts;
  }

  /** So does a whole query, and one without entries asks for all. */
  lemma QueryReadsBack(blank: char -> bool, runs: Option<seq<Run>>)
    requires KeepsDigits(blank)
    requires runs.Some? ==> runs.value != [] && forall k :: 0 <= k < |runs.value| ==> IsRun(runs.value[k])
    ensures ParseQuery(blank, if runs.Some? then Some(WrittenRuns(runs.value)) else None) == Ok(runs)
  {
    if runs.Some? {
      RunsReadBack(blank, runs.value);
    }
  }
}
