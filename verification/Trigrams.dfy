/** The trigrams that narrow a query's candidate texts, and the expression
    that asks a full-text index for them. */
module Trigrams {
  import opened Collections
  import opened Encodings

  const TRIGRAM_CHARACTERS: nat := 3

  const NUL: char := 0 as char

  function Window(q: string, i: nat): (t: string)
    requires i + TRIGRAM_CHARACTERS <= |q|
    ensures |t| == TRIGRAM_CHARACTERS
  {
    q[i..i + TRIGRAM_CHARACTERS]
  }

  /** How many windows a query has. */
  function WindowCount(q: string): nat {
    if |q| < TRIGRAM_CHARACTERS then 0 else |q| - TRIGRAM_CHARACTERS + 1
  }

  /** The distinct trigrams of the first `n` windows, those with NUL left out,
      in the order they come. */
  function Terms(q: string, n: nat): (terms: seq<string>)
    requires n <= WindowCount(q)
  {
    if n == 0 then []
    else
      var before, t := Terms(q, n - 1), Window(q, n - 1);
      if NUL in t || t in before then before else before + [t]
  }

  lemma {:induction false} TermsAreTrigrams(q: string, n: nat)
    requires n <= WindowCount(q)
    ensures Distinct(Terms(q, n))
    ensures forall t :: t in Terms(q, n) <==> NUL !in t && exists i :: 0 <= i < n && Window(q, i) == t
  {
    if n > 0 {
      TermsAreTrigrams(q, n - 1);
      var before, after := Terms(q, n - 1), Terms(q, n);
      forall t ensures t in after <==> NUL !in t && exists i :: 0 <= i < n && Window(q, i) == t {
        assert t in after <==> t in before || (t == Window(q, n - 1) && NUL !in t);
        if NUL !in t && exists i :: 0 <= i < n && Window(q, i) == t {
          var i :| 0 <= i < n && Window(q, i) == t;
        }
      }
    }
  }

  /** Whether `text` holds every one of `terms`. */
  ghost predicate HoldsAll(text: string, terms: seq<string>) {
    forall t :: t in terms ==> exists p :: 0 <= p <= |text| && OccursAt(text, t, p)
  }

  lemma WindowOccurs(text: string, q: string, k: nat, i: nat)
    requires OccursAt(text, q, k) && i < WindowCount(q)
    ensures OccursAt(text, Window(q, i), k + i)
  {
    var here, t := text[k + i..k + i + TRIGRAM_CHARACTERS], Window(q, i);
    forall j | 0 <= j < TRIGRAM_CHARACTERS ensures here[j] == t[j] {
      assert text[k..k + |q|][i + j] == text[k + i + j];
    }
    assert here == t;
  }

  /** A text that holds the query holds each of its trigrams. */
  lemma HoldersHoldEveryTerm(text: string, q: string, k: nat)
    requires OccursAt(text, q, k)
    ensures HoldsAll(text, Terms(q, WindowCount(q)))
  {
    TermsAreTrigrams(q, WindowCount(q));
    forall t | t in Terms(q, WindowCount(q)) ensures exists p :: 0 <= p <= |text| && OccursAt(text, t, p) {
      var i :| 0 <= i < WindowCount(q) && Window(q, i) == t;
      WindowOccurs(text, q, k, i);
    }
  }

  // ----- The expression

  /** `t` with every quote written twice. */
  function Escaped(t: string): (r: string) {
    if t == "" then "" else (if t[0] == '"' then "\"\"" else [t[0]]) + Escaped(t[1..])
  }

  function Quoted(t: string): string {
    "\"" + Escaped(t) + "\""
  }

  const AND: string := " AND "

  function JoinedTerms(terms: seq<string>): (r: string)
    requires terms != []
  {
    if |terms| == 1 then Quoted(terms[0]) else Quoted(terms[0]) + AND + JoinedTerms(terms[1..])
  }

  /** The index expression of a folded query; none when it has no trigram, and
      every text is then a candidate. */
  function Expression(q: string): (e: Option<string>) {
    var terms := Terms(q, WindowCount(q));
    if terms == [] then None else Some(JoinedTerms(terms))
  }

  // How a full-text index reads such an expression: strings in quotes, a
  // quote inside written twice, with AND between them.

  /** The string up to its closing quote, and what comes behind it. */
  function ReadString(s: string): (r: Option<(string, string)>)
    ensures r.Some? ==> |r.value.1| < |s|
  {
    if s == "" then None
    else if s[0] != '"' then
      match ReadString(s[1..])
      case None => None
      case Some((t, rest)) => Some(([s[0]] + t, rest))
    else if |s| > 1 && s[1] == '"' then
      match ReadString(s[2..])
      case None => None
      case Some((t, rest)) => Some(("\"" + t, rest))
    else Some(("", s[1..]))
  }

  function ReadTerms(s: string): (r: Option<seq<string>>)
    decreases |s|
  {
    if s == "" || s[0] != '"' then None
    else
      match ReadString(s[1..])
      case None => None
      case Some((t, rest)) =>
        if rest == "" then Some([t])
        else if AND <= rest then
          match ReadTerms(rest[|AND|..])
          case None => None
          case Some(ts) => Some([t] + ts)
        else None
  }

  lemma {:induction false} ReadsEscaped(t: string, rest: string)
    requires rest == "" || rest[0] != '"'
    ensures ReadString(Escaped(t) + "\"" + rest) == Some((t, rest))
  {
    var s := Escaped(t) + "\"" + rest;
    if t == "" {
      assert s == "\"" + rest;
      assert s[1..] == rest;
    } else {
      var tail := Escaped(t[1..]) + "\"" + rest;
      ReadsEscaped(t[1..], rest);
      assert t == [t[0]] + t[1..];
      if t[0] == '"' {
        assert s == "\"\"" + tail;
        assert s[2..] == tail;
      } else {
        assert s == [t[0]] + tail;
        assert s[1..] == tail;
      }
    }
  }

  /** The index reads back exactly the trigrams the expression was made of. */
  lemma {:induction false} ReadsJoined(terms: seq<string>)
    requires terms != []
    ensures ReadTerms(JoinedTerms(terms)) == Some(terms)
  {
    if |terms| == 1 {
      ReadsOne(terms[0]);
      assert terms == [terms[0]];
    } else {
      ReadsJoined(terms[1..]);
      ReadsBehind(terms[0], JoinedTerms(terms[1..]), terms[1..]);
      assert terms == [terms[0]] + terms[1..];
    }
  }

  lemma ReadsOne(t: string)
    ensures ReadTerms("\"" + Escaped(t) + "\"") == Some([t])
  {
    var s := "\"" + Escaped(t) + "\"";
    ReadsEscaped(t, "");
    assert s[1..] == Escaped(t) + "\"" + "";
  }

  lemma ReadsBehind(t: string, more: string, terms: seq<string>)
    requires ReadTerms(more) == Some(terms)
    ensures ReadTerms("\"" + Escaped(t) + "\"" + AND + more) == Some([t] + terms)
  {
    var s, rest := "\"" + Escaped(t) + "\"" + AND + more, AND + more;
    ReadsEscaped(t, rest);
    assert s[1..] == Escaped(t) + "\"" + rest;
    assert rest[|AND|..] == more;
  }

  /** The expression asks for exactly the query's trigrams, and there is none
      exactly when every window of the query holds NUL or it has none. */
  lemma ExpressionAsksForTerms(q: string)
    ensures Expression(q).Some? ==> ReadTerms(Expression(q).value) == Some(Terms(q, WindowCount(q)))
    ensures Expression(q).None? <==> forall i :: 0 <= i < WindowCount(q) ==> NUL in Window(q, i)
  {
    var n := WindowCount(q);
    TermsAreTrigrams(q, n);
    if Terms(q, n) == [] {
      forall i | 0 <= i < n ensures NUL in Window(q, i) {
        assert Window(q, i) !in Terms(q, n);
      }
    } else {
      ReadsJoined(Terms(q, n));
      assert Terms(q, n)[0] in Terms(q, n);
    }
  }
}
