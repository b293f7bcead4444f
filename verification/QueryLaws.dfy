/** Which queries are read, and as what. */
module QueryLaws {
  import opened Collections
  import opened Preview
  import opened PreviewQuery

  /** `text` is a number: digits, perhaps behind a plus. */
  ghost predicate IsNumber(text: string, digits: string) {
    && digits != "" && (forall k :: 0 <= k < |digits| ==> '0' <= digits[k] <= '9')
    && (text == digits || text == "+" + digits)
  }

  /** Digits stand for their sum of tens. */
  lemma DigitsCount(digits: string, c: char)
    requires AllDigits(digits) && '0' <= c <= '9'
    ensures AllDigits(digits + [c]) && ValueOf(digits + [c]) == 10 * ValueOf(digits) + (c as int - '0' as int)
    ensures ValueOf("") == 0
  {
    assert (digits + [c])[..|digits|] == digits;
  }

  lemma NumbersAreRead(text: string, n: nat)
    ensures ParseIndex(text) == Some(n) <==>
              n <= 18446744073709551615
              && exists digits :: IsNumber(text, digits) && AllDigits(digits) && ValueOf(digits) == n
  {
    var digits := if |text| > 1 && text[0] == '+' then text[1..] else text;
    if ParseIndex(text) == Some(n) {
      assert IsNumber(text, digits);
    }
    forall d | IsNumber(text, d) ensures d == digits && AllDigits(digits) {
      assert '0' <= d[0] <= '9';
      if text != d {
        assert text[1..] == d;
      }
    }
  }

  ghost predicate DashAt(text: string, i: nat) {
    i < |text| && text[i] == '-' && '-' !in text[..i]
  }

  lemma FirstDash(text: string, i: nat)
    ensures DashAt(text, i) <==> IndexOf(text, '-') == Some(i)
  {
    var first := IndexOf(text, '-');
    if DashAt(text, i) {
      assert text[i] in text;
      forall k | 0 <= k < i ensures text[k] != '-' {
        assert text[..i][k] == text[k];
      }
      forall k | 0 <= k < first.value ensures text[k] != '-' {
        assert text[..first.value][k] == text[k];
      }
    }
  }

  /** A run is read from a dash and a count, from two numbers in order with a
      dash between, or from one. */
  lemma RunsAreRead(text: string)
    ensures forall n: nat :: ParseRun(text) == Ok(Last(n)) <==>
              text != "" && text[0] == '-' && ParseIndex(text[1..]) == Some(n)
    ensures forall a: nat, b: nat :: ParseRun(text) == Ok(Span(a, b)) <==>
              && a <= b && (text == "" || text[0] != '-')
              && (('-' !in text && a == b && ParseIndex(text) == Some(a))
                  || exists i: nat :: DashAt(text, i) && ParseIndex(text[..i]) == Some(a)
                                      && ParseIndex(text[i + 1..]) == Some(b))
    ensures ParseRun(text).Err? ==> ParseRun(text).error == Invalid(text)
  {
    forall i: nat ensures DashAt(text, i) <==> IndexOf(text, '-') == Some(i) {
      FirstDash(text, i);
    }
    var dash := IndexOf(text, '-');
    if dash.Some? {
      assert DashAt(text, dash.value) && text[dash.value] in text;
    }
  }

  function Joined(parts: seq<string>): string
    requires parts != []
  {
    if |parts| == 1 then parts[0] else parts[0] + "," + Joined(parts[1..])
  }

  /** A query is taken apart at every comma and nowhere else. */
  lemma {:induction false} PartsAreJoined(text: string)
    ensures Joined(Split(text)) == text
    ensures forall k :: 0 <= k < |Split(text)| ==> ',' !in Split(text)[k]
    decreases |text|
  {
    match IndexOf(text, ',') {
      case None =>
      case Some(i) =>
        PartsAreJoined(text[i + 1..]);
        assert Split(text)[1..] == Split(text[i + 1..]);
        assert text == text[..i] + "," + text[i + 1..];
    }
  }

  ghost predicate AllBlank(blank: char -> bool, s: string) {
    forall k :: 0 <= k < |s| ==> blank(s[k])
  }

  /** `text` is `core` between blanks. */
  ghost predicate BlankAround(blank: char -> bool, text: string, core: string) {
    exists a, b :: AllBlank(blank, a) && AllBlank(blank, b) && text == a + core + b
  }

  lemma BlankBefore(blank: char -> bool, text: string, core: string)
    requires text != "" && blank(text[0]) && BlankAround(blank, text[1..], core)
    ensures BlankAround(blank, text, core)
  {
    var a, b :| AllBlank(blank, a) && AllBlank(blank, b) && text[1..] == a + core + b;
    assert text == [text[0]] + text[1..] && [text[0]] + (a + core + b) == [text[0]] + a + core + b;
    assert AllBlank(blank, [text[0]] + a);
  }

  lemma BlankBehind(blank: char -> bool, text: string, core: string)
    requires text != "" && blank(text[|text| - 1]) && BlankAround(blank, text[..|text| - 1], core)
    ensures BlankAround(blank, text, core)
  {
    var n := |text| - 1;
    var a, b :| AllBlank(blank, a) && AllBlank(blank, b) && text[..n] == a + core + b;
    assert text == text[..n] + [text[n]] && a + core + b + [text[n]] == a + core + (b + [text[n]]);
    assert AllBlank(blank, b + [text[n]]);
  }

  /** Trimming takes off blanks at the ends, and all of them. */
  lemma {:induction false} TrimsBlanks(blank: char -> bool, text: string)
    ensures BlankAround(blank, text, Trim(blank, text))
    ensures var t := Trim(blank, text); t != "" ==> !blank(t[0]) && !blank(t[|t| - 1])
    decreases |text|
  {
    if text != "" && blank(text[0]) {
      TrimsBlanks(blank, text[1..]);
      BlankBefore(blank, text, Trim(blank, text));
    } else if text != "" && blank(text[|text| - 1]) {
      TrimsBlanks(blank, text[..|text| - 1]);
      BlankBehind(blank, text, Trim(blank, text));
    } else {
      assert AllBlank(blank, "") && text == "" + text + "";
    }
  }

  /** Every part, trimmed, is read as the run at its place. */
  ghost predicate AreRead(blank: char -> bool, parts: seq<string>, runs: seq<Run>) {
    |runs| == |parts| && forall k :: 0 <= k < |parts| ==> ParseRun(Trim(blank, parts[k])) == Ok(runs[k])
  }

  lemma {:induction false} PartsAreRead(blank: char -> bool, parts: seq<string>)
    ensures forall runs :: ParseRuns(blank, parts) == Ok(runs) <==> AreRead(blank, parts, runs)
  {
    if parts != [] {
      PartsAreRead(blank, parts[1..]);
      forall runs ensures ParseRuns(blank, parts) == Ok(runs) <==> AreRead(blank, parts, runs) {
        if AreRead(blank, parts, runs) {
          assert AreRead(blank, parts[1..], runs[1..]) && runs == [runs[0]] + runs[1..];
        }
        if ParseRuns(blank, parts) == Ok(runs) {
          assert AreRead(blank, parts[1..], runs[1..]);
          forall k | 0 <= k < |parts| ensures ParseRun(Trim(blank, parts[k])) == Ok(runs[k]) {
            assert k > 0 ==> parts[k] == parts[1..][k - 1] && runs[k] == runs[1..][k - 1];
          }
        }
      }
    }
  }

  /** `bad` is the first part, trimmed, that is no run. */
  ghost predicate IsFirstBad(blank: char -> bool, parts: seq<string>, bad: string) {
    exists k :: 0 <= k < |parts| && ParseRun(Trim(blank, parts[k])).Err? && bad == Trim(blank, parts[k])
                && forall l :: 0 <= l < k ==> ParseRun(Trim(blank, parts[l])).Ok?
  }

  /** What is refused names the first part that is no run. */
  lemma {:induction false} RefusalsNameTheFirst(blank: char -> bool, parts: seq<string>)
    ensures ParseRuns(blank, parts).Err? ==> IsFirstBad(blank, parts, ParseRuns(blank, parts).error.run)
  {
    if parts != [] && ParseRuns(blank, parts).Err? {
      var bad := ParseRuns(blank, parts).error.run;
      RunsAreRead(Trim(blank, parts[0]));
      if ParseRun(Trim(blank, parts[0])).Ok? {
        RefusalsNameTheFirst(blank, parts[1..]);
        var rest := parts[1..];
        var k :| 0 <= k < |rest| && ParseRun(Trim(blank, rest[k])).Err? && bad == Trim(blank, rest[k])
                 && forall l :: 0 <= l < k ==> ParseRun(Trim(blank, rest[l])).Ok?;
        assert parts[k + 1] == rest[k];
        forall l | 0 <= l < k + 1 ensures ParseRun(Trim(blank, parts[l])).Ok? {
          assert l > 0 ==> parts[l] == rest[l - 1];
        }
      }
    }
  }

  /** A query is read exactly when every part is a run; no query asks for all. */
  lemma QueriesAreRead(blank: char -> bool, text: string)
    ensures forall runs :: ParseQuery(blank, Some(text)) == Ok(Some(runs)) <==> AreRead(blank, Split(text), runs)
    ensures ParseQuery(blank, Some(text)).Ok? ==> ParseQuery(blank, Some(text)).value.Some?
    ensures ParseQuery(blank, Some(text)).Err? ==>
              IsFirstBad(blank, Split(text), ParseQuery(blank, Some(text)).error.run)
    ensures ParseQuery(blank, None) == Ok(None)
  {
    PartsAreRead(blank, Split(text));
    RefusalsNameTheFirst(blank, Split(text));
  }
}
