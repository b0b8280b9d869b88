/**
  Ordinal string replacement as performed by .NET's String.Replace(string, string),
  and the description escaping built on it: every double quote gets a backslash in
  front of it so that the text can be placed inside a C# string literal.
 */
module Escaping {

  /**
    Scans `s` from left to right; every occurrence of `pattern` that does not
    overlap an earlier replaced one is replaced by `replacement`.
    .NET rejects an empty pattern, hence the precondition.
   */
  function Replace(s: string, pattern: string, replacement: string): string
    requires pattern != []
    decreases |s|
  {
    if |s| < |pattern| then s
    else if s[..|pattern|] == pattern then replacement + Replace(s[|pattern|..], pattern, replacement)
    else [s[0]] + Replace(s[1..], pattern, replacement)
  }

  /** `pattern` starts at position `i` of `s`. */
  ghost predicate OccursAt(s: string, pattern: string, i: int)
  {
    0 <= i && i + |pattern| <= |s| && s[i..i + |pattern|] == pattern
  }

  /** A string in which the pattern never occurs is left as it is. */
  lemma {:induction false} ReplaceAbsent(s: string, pattern: string, replacement: string)
    requires pattern != []
    requires forall i :: !OccursAt(s, pattern, i)
    ensures Replace(s, pattern, replacement) == s
    decreases |s|
  {
    if |s| >= |pattern| {
      assert !OccursAt(s, pattern, 0);
      assert s[0..|pattern|] == s[..|pattern|];
      forall i ensures !OccursAt(s[1..], pattern, i) {
        if OccursAt(s[1..], pattern, i) {
          assert s[1..][i..i + |pattern|] == s[i + 1..i + 1 + |pattern|];
          assert OccursAt(s, pattern, i + 1);
        }
      }
      ReplaceAbsent(s[1..], pattern, replacement);
      assert s == [s[0]] + s[1..];
    }
  }

  const Quote: string := "\""
  const EscapedQuote: string := "\\\""

  /** The escaping applied to every description: `Replace("\"", "\\\"")`. */
  function Escape(s: string): string
  {
    Replace(s, Quote, EscapedQuote)
  }

  /** The reverse replacement: every `\"` becomes `"` again. */
  function Unescape(s: string): string
  {
    Replace(s, EscapedQuote, Quote)
  }

  /** Escaping a non-empty string handles its first character and then the rest. */
  lemma EscapeCons(s: string)
    requires s != []
    ensures Escape(s) == (if s[0] == '"' then EscapedQuote else [s[0]]) + Escape(s[1..])
  {
    assert s[..1] == [s[0]];
  }

  /** A single character is escaped on its own: a quote gets a backslash, anything else stays. */
  lemma EscapeChar(c: char)
    ensures Escape([c]) == if c == '"' then EscapedQuote else [c]
  {
    EscapeCons([c]);
  }

  /** Escaping works character by character: it distributes over concatenation. */
  lemma {:induction false} EscapeAppend(a: string, b: string)
    ensures Escape(a + b) == Escape(a) + Escape(b)
    decreases |a|
  {
    if a == [] {
      assert a + b == b;
    } else {
      EscapeCons(a);
      EscapeCons(a + b);
      assert (a + b)[1..] == a[1..] + b;
      EscapeAppend(a[1..], b);
    }
  }

  /** The escaped text is one character longer per double quote of the input. */
  lemma {:induction false} EscapeLength(s: string)
    ensures |Escape(s)| == |s| + multiset(s)['"']
    decreases |s|
  {
    if s != [] {
      EscapeCons(s);
      EscapeLength(s[1..]);
      assert s == [s[0]] + s[1..];
      assert multiset(s) == multiset([s[0]]) + multiset(s[1..]);
    }
  }

  /** Every double quote of the escaped text directly follows a backslash. */
  lemma {:induction false} EscapeQuotesPreceded(s: string)
    ensures forall i :: 0 <= i < |Escape(s)| && Escape(s)[i] == '"' ==> 0 < i && Escape(s)[i - 1] == '\\'
    decreases |s|
  {
    if s != [] {
      EscapeCons(s);
      EscapeQuotesPreceded(s[1..]);
      var e, head, tail := Escape(s), (if s[0] == '"' then EscapedQuote else [s[0]]), Escape(s[1..]);
      forall i | 0 <= i < |e| && e[i] == '"' ensures 0 < i && e[i - 1] == '\\' {
        if i >= |head| {
          assert tail[i - |head|] == e[i];
          if i - |head| > 0 {
            assert e[i - 1] == tail[i - |head| - 1];
          } else {
            assert false;
          }
        }
      }
    }
  }

  /** The escaped text never begins with a double quote. */
  lemma EscapeHeadNotQuote(s: string)
    requires Escape(s) != []
    ensures Escape(s)[0] != '"'
  {
    EscapeQuotesPreceded(s);
  }

  /** Escaping changes a string exactly when the string holds a double quote. */
  lemma EscapeIdentity(s: string)
    ensures Escape(s) == s <==> '"' !in s
  {
    EscapeLength(s);
    if '"' !in s {
      ReplaceAbsent(s, Quote, EscapedQuote);
    }
  }

  /** Round trip: replacing each `\"` of the escaped text by `"` recovers the input. */
  lemma {:induction false} UnescapeEscape(s: string)
    ensures Unescape(Escape(s)) == s
    decreases |s|
  {
    var e := Escape(s);
    if s == [] {
    } else {
      EscapeCons(s);
      var tail := Escape(s[1..]);
      UnescapeEscape(s[1..]);
      if s[0] == '"' {
        assert e[..2] == EscapedQuote;
        assert e[2..] == tail;
        assert s == Quote + s[1..];
      } else if tail == [] {
        EscapeLength(s[1..]);
        assert s == [s[0]];
      } else {
        EscapeHeadNotQuote(s[1..]);
        assert e[..2][1] == tail[0];
        assert e[..2] != EscapedQuote;
        assert e[1..] == tail;
        assert s == [s[0]] + s[1..];
      }
    }
  }
}
