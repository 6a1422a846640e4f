/**
 The two bracket matchers of bp_json.c on any text at all, by counting brackets outside strings.
 */
module JsonMatchers {
  import opened JsonText
  import opened JsonParser
  import opened Options

  // in_str and esc
  datatype Flags = Flags(inStr: bool, esc: bool)

  const OUTSIDE := Flags(false, false)

  function After(f: Flags, c: char): Flags {
    if f.inStr then Flags(f.esc || c != '"', !f.esc && c == '\\')
    else Flags(c == '"', false)
  }

  function Weight(f: Flags, c: char, open: char, close: char): int {
    if f.inStr then 0 else if c == open then 1 else if c == close then -1 else 0
  }

  // Opening minus closing brackets outside strings, over the first n characters.
  function Net(s: string, n: nat, f: Flags, open: char, close: char): int
    requires n <= |s|
  {
    if n == 0 then 0 else Weight(f, s[0], open, close) + Net(s[1..], n - 1, After(f, s[0]), open, close)
  }

  function Braces(s: string, n: nat): int
    requires n <= |s|
  {
    Net(s, n, OUTSIDE, '{', '}')
  }

  function Squares(s: string, n: nat): int
    requires n <= |s|
  {
    Net(s, n, OUTSIDE, '[', ']')
  }

  // What a matcher counts.
  function Level(s: string, n: nat, f: Flags, squares: bool): int
    requires n <= |s|
  {
    Net(s, n, f, '{', '}') + if squares then Net(s, n, f, '[', ']') else 0
  }

  // From depth d, the count comes to zero at n and not before.
  ghost predicate Ends(s: string, n: nat, d: int, f: Flags, squares: bool) {
    0 < n <= |s| && d + Level(s, n, f, squares) == 0 && forall m | 0 < m < n :: d + Level(s, m, f, squares) > 0
  }

  function OneLevel(f: Flags, c: char, squares: bool): int {
    Weight(f, c, '{', '}') + if squares then Weight(f, c, '[', ']') else 0
  }

  lemma LevelStep(s: string, n: nat, f: Flags, squares: bool)
    requires 0 < n <= |s|
    ensures Level(s, n, f, squares) == OneLevel(f, s[0], squares) + Level(s[1..], n - 1, After(f, s[0]), squares)
  {
  }

  lemma NoLevel(s: string, f: Flags, squares: bool)
    ensures Level(s, 0, f, squares) == 0
  {
  }

  // One character further, while the count stays positive.
  lemma EndsStep(s: string, n: nat, d: int, f: Flags, squares: bool)
    requires s != "" && 0 < n
    requires var d' := d + OneLevel(f, s[0], squares); d' > 0
    ensures var d' := d + OneLevel(f, s[0], squares);
            Ends(s, n, d, f, squares) <==> Ends(s[1..], n - 1, d', After(f, s[0]), squares)
  {
    hide Level, OneLevel, After;
    var d', f', r := d + OneLevel(f, s[0], squares), After(f, s[0]), s[1..];
    NoLevel(r, f', squares);
    forall m | 0 < m <= |s|
      ensures d + Level(s, m, f, squares) == d' + Level(r, m - 1, f', squares)
    {
      LevelStep(s, m, f, squares);
    }
    if Ends(s, n, d, f, squares) {
      forall m | 0 < m < n - 1
        ensures d' + Level(r, m, f', squares) > 0
      {
        assert d + Level(s, m + 1, f, squares) > 0;
      }
    }
  }

  lemma EndsHere(s: string, n: nat, d: int, f: Flags, squares: bool)
    requires s != "" && d + OneLevel(f, s[0], squares) == 0
    ensures Ends(s, n, d, f, squares) <==> n == 1
  {
    hide Level, OneLevel, After;
    LevelStep(s, 1, f, squares);
    NoLevel(s[1..], After(f, s[0]), squares);
  }

  // What the loops do with one character.
  lemma PendingStep(s: string, d: nat, f: Flags, squares: bool)
    requires s != "" && d > 0 && (f.esc ==> f.inStr)
    ensures var d', f' := d + OneLevel(f, s[0], squares), After(f, s[0]);
            && d' >= 0
            && Pending(s, d, f.inStr, f.esc, squares)
            == if d' == 0 then Some(1) else Plus(1, Pending(s[1..], d', f'.inStr, f'.esc, squares))
  {
    if f.inStr {
      PendingInString(s, d, f.esc, squares);
      hide Match, StringEnd;
    } else {
      PendingOutside(s, d, f.esc, squares);
      if s[0] == '"' {
        PendingAtQuote(s, d, squares);
      } else {
        MatchStep(s, d, squares);
        hide Match, StringEnd;
        PendingOutside(s[1..], d, false, squares);
        PendingOutside(s[1..], d + 1, false, squares);
        if d > 1 { PendingOutside(s[1..], d - 1, false, squares); }
      }
    }
  }

  /** A matcher stops where the count of its brackets outside strings first comes to zero. */
  lemma {:induction false} PendingEnds(s: string, d: nat, f: Flags, squares: bool, n: nat)
    requires d > 0 && (f.esc ==> f.inStr)
    ensures Pending(s, d, f.inStr, f.esc, squares) == Some(n) <==> Ends(s, n, d, f, squares)
    decreases |s|
  {
    hide Pending, Level, OneLevel, Ends;
    if s == "" {
      PendingAtEnd(d, f.inStr, f.esc, squares);
      NothingEnds(s, n, d, f, squares);
    } else {
      var d', f' := d + OneLevel(f, s[0], squares), After(f, s[0]);
      PendingStep(s, d, f, squares);
      if d' == 0 {
        EndsHere(s, n, d, f, squares);
      } else if n == 0 {
        NothingEnds(s, n, d, f, squares);
      } else {
        EndsStep(s, n, d, f, squares);
        PendingEnds(s[1..], d', f', squares, n - 1);
      }
    }
  }

  lemma NothingEnds(s: string, n: nat, d: int, f: Flags, squares: bool)
    requires s == "" || n == 0
    ensures !Ends(s, n, d, f, squares)
  {
  }

  // json_object_at's span and skip_value's, of a text that starts with a brace.
  lemma SpanEnds(s: string, squares: bool, n: nat)
    requires s != "" && s[0] == '{'
    ensures (if squares then SkipValue(s) else ObjectSpan(s)) == Some(n) <==> Ends(s, n, 0, OUTSIDE, squares)
  {
    assert OneLevel(OUTSIDE, '{', squares) == 1 && After(OUTSIDE, '{') == OUTSIDE;
    PendingOutside(s[1..], 1, false, squares);
    hide Pending, Level, OneLevel, Ends, Match, After;
    if n == 0 {
      NothingEnds(s, n, 0, OUTSIDE, squares);
    } else {
      PendingEnds(s[1..], 1, OUTSIDE, squares, n - 1);
      EndsStep(s, n, 0, OUTSIDE, squares);
    }
  }

  // skip_value stops at the brace match as well: the square brackets balance there, and something stays open before.
  ghost predicate SquaresAgree(s: string, n: nat)
    requires n <= |s|
  {
    Squares(s, n) == 0 && forall m | 0 < m < n :: Braces(s, m) + Squares(s, m) > 0
  }

  // No end at all: the text runs out with something open.
  ghost predicate NeverEnds(s: string, squares: bool) {
    forall n: nat :: !Ends(s, n, 0, OUTSIDE, squares)
  }

  /** On any text that starts with a brace the two matchers agree exactly when neither count ever comes to zero, or the
      square brackets outside strings balance where the braces match and both together stay open before it. */
  lemma MatchersAgreeWhen(s: string)
    requires s != "" && s[0] == '{'
    ensures SkipValue(s) == ObjectSpan(s) <==>
        || (NeverEnds(s, false) && NeverEnds(s, true))
        || (exists n: nat :: Ends(s, n, 0, OUTSIDE, false) && SquaresAgree(s, n))
  {
    hide SkipValue, ObjectSpan, Ends, SquaresAgree;
    forall n: nat
      ensures ObjectSpan(s) == Some(n) <==> Ends(s, n, 0, OUTSIDE, false)
      ensures SkipValue(s) == Some(n) <==> Ends(s, n, 0, OUTSIDE, true)
    {
      SpanEnds(s, false, n);
      SpanEnds(s, true, n);
    }
    if ObjectSpan(s).Some? { SameEnd(s, ObjectSpan(s).value); }
    if SkipValue(s).Some? { assert Ends(s, SkipValue(s).value, 0, OUTSIDE, true); }
  }

  lemma SameEnd(s: string, n: nat)
    requires Ends(s, n, 0, OUTSIDE, false)
    ensures Ends(s, n, 0, OUTSIDE, true) <==> SquaresAgree(s, n)
  {
    hide Net;
    forall m | 0 < m <= |s|
      ensures Level(s, m, OUTSIDE, true) == Braces(s, m) + Squares(s, m) && Level(s, m, OUTSIDE, false) == Braces(s, m)
    {
    }
  }

  /** Where they do not: a square bracket closes a brace for one and not for the other. */
  lemma MatchersDiffer()
    ensures SkipValue("{]}") == Some(2) && ObjectSpan("{]}") == Some(3)
  {
    var s := "{]}";
    assert s[1..] == "]}" && "]}"[1..] == "}";
  }
}
