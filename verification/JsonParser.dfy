/**
 The loops of bp_json.c over a NUL-terminated text and an output buffer, against the functions of JsonText. `*p` is
 t[p], and p == |t| is the terminating NUL.
 */
module JsonParser {
  import opened Bits
  import opened JsonText
  import opened Options

  const NEEDLE_MAX := 64

  method SkipBlank(t: string, from: nat) returns (p: nat)
    requires from <= |t|
    ensures p == from + SkipWs(t[from..]) <= |t|
  {
    p := from;
    while p < |t| && IsWs(t[p])
      invariant from <= p <= |t| && SkipWs(t[from..]) == p - from + SkipWs(t[p..])
    {
      assert t[p..][1..] == t[p + 1..];
      p := p + 1;
    }
  }

  // The closing quote, from behind the opening one.
  method EndOfString(t: string, from: nat) returns (p: nat)
    requires from <= |t|
    ensures from <= p <= |t|
    ensures if p < |t| then StringEnd(t[from..]) == Some(p - from) else StringEnd(t[from..]).None?
  {
    hide StringEnd;
    p := from;
    while p < |t| && t[p] != '"'
      invariant from <= p <= |t| && StringEnd(t[from..]) == Plus(p - from, StringEnd(t[p..]))
    {
      EndStep(t, p);
      if t[p] == '\\' && p + 1 < |t| { p := p + 1; }
      p := p + 1;
    }
    EndStep(t, p);
  }

  lemma EndStep(t: string, p: nat)
    requires p <= |t|
    ensures p == |t| ==> StringEnd(t[p..]).None?
    ensures p < |t| && t[p] == '"' ==> StringEnd(t[p..]) == Some(0)
    ensures p + 1 < |t| && t[p] == '\\' ==> StringEnd(t[p..]) == Plus(2, StringEnd(t[p + 2..]))
    ensures p < |t| && t[p] != '"' && (t[p] != '\\' || p + 1 == |t|) ==>
        StringEnd(t[p..]) == Plus(1, StringEnd(t[p + 1..]))
  {
    if p < |t| { DropDrop(t, p, 1); }
    if p + 1 < |t| { DropDrop(t, p, 2); }
  }

  // ---- the bracket matchers' flags ----

  // What is left to match with the flags of either loop.
  function Pending(s: string, depth: nat, inStr: bool, esc: bool, squares: bool): Option<nat> {
    if !inStr then Match(s, depth, squares)
    else
      var skip := if esc then 1 else 0;
      if |s| < skip then None
      else
        var q := StringEnd(s[skip..]);
        if q.None? then None else Plus(skip + q.value + 1, Match(s[skip + q.value + 1..], depth, squares))
  }

  lemma PendingInString(s: string, depth: nat, esc: bool, squares: bool)
    requires s != ""
    ensures Pending(s, depth, true, esc, squares)
         == Plus(1, Pending(s[1..], depth, esc || s[0] != '"', !esc && s[0] == '\\', squares))
  {
    hide Match;
    if esc {
      var q := StringEnd(s[1..]);
      if q.Some? { assert s[1..][q.value + 1..] == s[q.value + 2..]; }
    } else if s[0] == '\\' {
      if |s| > 1 {
        assert s[1..][1..] == s[2..];
        var q := StringEnd(s[2..]);
        if q.Some? { assert s[1..][q.value + 2..] == s[q.value + 3..]; }
      }
    } else if s[0] != '"' {
      var q := StringEnd(s[1..]);
      if q.Some? { assert s[1..][q.value + 1..] == s[q.value + 2..]; }
    }
  }

  lemma PendingAtQuote(s: string, depth: nat, squares: bool)
    requires s != "" && s[0] == '"'
    ensures Match(s, depth, squares) == Plus(1, Pending(s[1..], depth, true, false, squares))
  {
    hide Match, StringEnd;
    MatchAtQuote(s, depth, squares);
    var q := StringEnd(s[1..]);
    assert s[1..][0..] == s[1..];
    if q.Some? { DropDrop(s, 1, q.value + 1); }
  }

  lemma MatchAtQuote(s: string, depth: nat, squares: bool)
    requires s != "" && s[0] == '"'
    ensures var q := StringEnd(s[1..]);
            Match(s, depth, squares) == if q.None? then None else
              Plus(q.value + 2, Match(s[q.value + 2..], depth, squares))
  {
    hide StringEnd;
  }

  lemma MatchStep(s: string, depth: nat, squares: bool)
    requires s != "" && s[0] != '"'
    ensures Opens(s[0], squares) ==> Match(s, depth, squares) == Plus(1, Match(s[1..], depth + 1, squares))
    ensures Closes(s[0], squares) ==>
        Match(s, depth, squares) == if depth <= 1 then Some(1) else Plus(1, Match(s[1..], depth - 1, squares))
    ensures !Opens(s[0], squares) && !Closes(s[0], squares) ==>
        Match(s, depth, squares) == Plus(1, Match(s[1..], depth, squares))
  {
  }

  method SkipBrackets(t: string, from: nat) returns (end: Option<nat>)
    requires from < |t| && Opens(t[from], true)
    ensures end == Plus(from, Match(t[from..], 0, true))
  {
    hide Match, Pending, StringEnd;
    var depth, inStr, esc, p := 0, false, false, from;
    assert Pending(t[from..], 0, false, false, true) ==
        Match(t[from..], 0, true) by { PendingOutside(t[from..], 0, false, true); }
    while p < |t|
      invariant from <= p <= |t| && depth >= 0 && (depth == 0 ==> p == from && !inStr) && (esc ==> inStr)
      invariant Match(t[from..], 0, true) == Plus(p - from, Pending(t[p..], depth, inStr, esc, true))
    {
      var s := t[p..];
      assert s[1..] == t[p + 1..] && s[0] == t[p];
      if esc {
        PendingInString(s, depth, esc, true);
        esc := false;
      } else if inStr {
        PendingInString(s, depth, esc, true);
        if t[p] == '\\' { esc := true; } else if t[p] == '"' { inStr := false; }
      } else {
        PendingOutside(s, depth, esc, true);
        if t[p] == '"' {
          PendingAtQuote(s, depth, true);
          inStr := true;
        } else {
          MatchStep(s, depth, true);
          if t[p] == '{' || t[p] == '[' {
            depth := depth + 1;
          } else if t[p] == '}' || t[p] == ']' {
            depth := depth - 1;
            if depth == 0 { return Some(p + 1); }
          }
          PendingOutside(s[1..], depth, esc, true);
        }
      }
      p := p + 1;
    }
    PendingAtEnd(depth, inStr, esc, true);
    assert t[p..] == "";
    return None;
  }

  lemma PendingOutside(s: string, depth: nat, esc: bool, squares: bool)
    ensures Pending(s, depth, false, esc, squares) == Match(s, depth, squares)
  {
  }

  lemma PendingAtEnd(depth: nat, inStr: bool, esc: bool, squares: bool)
    ensures Pending("", depth, inStr, esc, squares).None?
  {
  }

  // skip_value
  method Skip(t: string, from: nat) returns (end: Option<nat>)
    requires from <= |t|
    ensures end == Plus(from, SkipValue(t[from..]))
  {
    hide Match, StringEnd;
    if from < |t| && t[from] == '"' {
      var q := EndOfString(t, from + 1);
      assert t[from..][1..] == t[from + 1..];
      return if q < |t| then Some(q + 1) else None;
    }
    if from < |t| && (t[from] == '{' || t[from] == '[') {
      end := SkipBrackets(t, from);
      MatchStep(t[from..], 0, true);
      return;
    }
    var p := from;
    while p < |t| && !EndsScalar(t[p])
      invariant from <= p <= |t| && ScalarEnd(t[from..]) == p - from + ScalarEnd(t[p..])
    {
      assert t[p..][1..] == t[p + 1..];
      p := p + 1;
    }
    return Some(p);
  }

  // ---- lookup ----

  lemma {:induction false} PastBlanks(s: string, key: string)
    ensures FindMember(s, key) == Plus(SkipWs(s), FindMember(s[SkipWs(s)..], key))
  {
    if s != "" && IsWs(s[0]) {
      hide FindMember;
      PastBlanks(s[1..], key);
      DropDrop(s, 1, SkipWs(s[1..]));
      OneBlank(s, key);
    } else {
      assert s[0..] == s;
    }
  }

  lemma OneBlank(s: string, key: string)
    requires s != "" && IsWs(s[0])
    ensures FindMember(s, key) == Plus(1, FindMember(s[1..], key))
  {
  }

  lemma {:induction false} ColonAfterBlanks(s: string)
    ensures var n := SkipWs(s);
            AfterColon(s) == if n < |s| && s[n] == ':' then Some(n + 1 + SkipWs(s[n + 1..])) else None
  {
    if s != "" && IsWs(s[0]) {
      hide AfterColon, IsWs, SkipWs;
      ColonAfterBlanks(s[1..]);
      BlankBeforeColon(s);
      if SkipWs(s) < |s| { DropDrop(s, 1, SkipWs(s)); }
    } else {
      hide SkipWs, IsWs;
      NoBlank(s);
    }
  }

  lemma NoBlank(s: string)
    requires s == "" || !IsWs(s[0])
    ensures SkipWs(s) == 0
  {
  }

  lemma BlankBeforeColon(s: string)
    requires s != "" && IsWs(s[0])
    ensures AfterColon(s) == Plus(1, AfterColon(s[1..])) && SkipWs(s) == 1 + SkipWs(s[1..])
  {
    hide IsWs;
  }

  method ValueAfterKey(t: string, from: nat) returns (p: Option<nat>)
    requires from <= |t|
    ensures p == Plus(from, AfterColon(t[from..]))
  {
    hide AfterColon, SkipWs;
    var q := SkipBlank(t, from);
    ColonAfterBlanks(t[from..]);
    if q == |t| || t[q] != ':' { return None; }
    DropDrop(t, from, q - from + 1);
    var v := SkipBlank(t, q + 1);
    return Some(v);
  }

  // find_key_top
  method FindKeyTop(t: string, key: string) returns (found: Option<nat>)
    ensures found == FindTop(t, key)
  {
    hide FindMember, FindNamed, FindTop, SkipWs, IsWs;
    TopStarts(t, key);
    var p := SkipBlank(t, 0);
    assert t[0..] == t;
    if p == |t| || t[p] != '{' { return None; }
    p := p + 1;
    while true
      invariant p <= |t| && FindTop(t, key) == Plus(p, FindMember(t[p..], key))
      decreases |t| - p
    {
      BlankStep(t, p, key);
      p := SkipBlank(t, p);
      AtMember(t, p, key);
      if p < |t| && t[p] == ',' {
        p := p + 1;
      } else {
        if p == |t| || t[p] != '"' { return None; }
        var hit, next := ReadMember(t, p + 1, key);
        if hit.Some? || next.None? { return hit; }
        p := next.value;
      }
    }
  }

  lemma TopStarts(t: string, key: string)
    ensures var w := SkipWs(t);
            FindTop(t, key) == if w == |t| || t[w] != '{' then None else Plus(w + 1, FindMember(t[w + 1..], key))
  {
  }

  // From behind the opening quote of a key: the value if it is the one, else where to go on.
  method ReadMember(t: string, p: nat, key: string) returns (hit: Option<nat>, next: Option<nat>)
    requires p <= |t|
    ensures next.Some? ==> p <= next.value <= |t|
    ensures FindNamed(t[p..], key) == if hit.Some? then Some(hit.value - p) else
              if next.Some? then Plus(next.value - p, FindMember(t[next.value..], key)) else None
    ensures hit.Some? ==> hit.value >= p
  {
    hide FindMember, FindNamed, FindBehind, AfterColon, StringEnd, SkipValue;
    hit, next := None, None;
    var q := EndOfString(t, p);
    if q == |t| { NamedNone(t, p, key); return; }
    var v := ValueAfterKey(t, q + 1);
    NamedStep(t, p, q, key);
    if v.None? { return; }
    if t[p..q] == key { hit := v; return; }
    next := Skip(t, v.value);
    BehindStep(t, v.value, key);
  }

  lemma BlankStep(t: string, p: nat, key: string)
    requires p <= |t|
    ensures var n := SkipWs(t[p..]); FindMember(t[p..], key) == Plus(n, FindMember(t[p + n..], key))
    ensures var n := SkipWs(t[p..]); p + n < |t| ==> !IsWs(t[p + n])
  {
    hide FindMember;
    PastBlanks(t[p..], key);
    DropDrop(t, p, SkipWs(t[p..]));
  }

  lemma AtMember(t: string, p: nat, key: string)
    requires p <= |t| && (p < |t| ==> !IsWs(t[p]))
    ensures p < |t| && t[p] == ',' ==> FindMember(t[p..], key) == Plus(1, FindMember(t[p + 1..], key))
    ensures p < |t| && t[p] == '"' ==> FindMember(t[p..], key) == Plus(1, FindNamed(t[p + 1..], key))
    ensures p == |t| || (t[p] != ',' && t[p] != '"') ==> FindMember(t[p..], key).None?
  {
    hide FindNamed;
    if p < |t| { assert t[p..][1..] == t[p + 1..]; }
  }

  lemma NamedNone(t: string, p: nat, key: string)
    requires p <= |t| && StringEnd(t[p..]).None?
    ensures FindNamed(t[p..], key).None?
  {
  }

  lemma NamedStep(t: string, p: nat, q: nat, key: string)
    requires p <= q < |t| && StringEnd(t[p..]) == Some(q - p)
    ensures var a := AfterColon(t[q + 1..]);
            FindNamed(t[p..], key) ==
              if a.None? then None
              else if t[p..q] == key then Some(q + 1 - p + a.value)
              else Plus(q + 1 - p + a.value, FindBehind(t[q + 1 + a.value..], key))
  {
    hide StringEnd, AfterColon, FindBehind;
    DropDrop(t, p, q - p + 1);
    assert t[p..][..q - p] == t[p..q];
    var a := AfterColon(t[q + 1..]);
    if a.Some? { DropDrop(t, p, q + 1 - p + a.value); }
  }

  lemma BehindStep(t: string, p: nat, key: string)
    requires p <= |t|
    ensures var n := SkipValue(t[p..]);
            FindBehind(t[p..], key) == if n.None? then None else Plus(n.value, FindMember(t[p + n.value..], key))
  {
    hide SkipValue, FindMember;
    var n := SkipValue(t[p..]);
    if n.Some? { DropDrop(t, p, n.value); }
  }

  // find_key: a needle too long for its buffer is never found.
  method FindKey(t: string, key: string) returns (found: Option<nat>)
    ensures found == Flat(t, key)
    ensures found == if |key| + 2 < 64 then FindFlat(t, key) else None
  {
    hide IsKeyHere, SkipWs, FindFlat;
    var n := |key| + 2;
    if n >= NEEDLE_MAX { return None; }
    var p := 0;
    assert t[0..] == t;
    while p < |t|
      invariant p <= |t| && FindFlat(t, key) == Plus(p, FindFlat(t[p..], key))
    {
      FlatHere(t, p, key);
      KeyHere(t, p, key);
      if n <= |t| - p && t[p..p + n] == "\"" + key + "\"" {
        var q := SkipBlank(t, p + n);
        if q < |t| && t[q] == ':' {
          var v := SkipBlank(t, q + 1);
          return Some(v);
        }
      }
      p := p + 1;
    }
    assert t[p..] == "" && FindFlat("", key).None? by { NoKeyInNothing(key); }
    return None;
  }

  lemma NoKeyInNothing(key: string)
    ensures FindFlat("", key).None?
  {
  }

  function Flat(t: string, key: string): (p: Option<nat>)
    ensures p.Some? ==> p.value <= |t|
  {
    if |key| + 2 < NEEDLE_MAX then FindFlat(t, key) else None
  }

  lemma FlatUnfolds(s: string, key: string)
    requires s != ""
    ensures !IsKeyHere(s, key) ==> FindFlat(s, key) == Plus(1, FindFlat(s[1..], key))
    ensures var c := |key| + 2;
            IsKeyHere(s, key) ==> c <= |s| && var q := c + SkipWs(s[c..]);
            q < |s| && FindFlat(s, key) == Some(q + 1 + SkipWs(s[q + 1..]))
  {
    hide SkipWs, IsKeyHere;
    KeyFits(s, key);
  }

  lemma KeyFits(s: string, key: string)
    ensures IsKeyHere(s, key) ==> |key| + 2 <= |s| && |key| + 2 + SkipWs(s[|key| + 2..]) < |s|
  {
    hide SkipWs;
  }

  lemma FlatHere(t: string, p: nat, key: string)
    requires p < |t|
    ensures !IsKeyHere(t[p..], key) ==> FindFlat(t[p..], key) == Plus(1, FindFlat(t[p + 1..], key))
    ensures var c := p + |key| + 2;
            IsKeyHere(t[p..], key) ==> c <= |t| && var q := c + SkipWs(t[c..]);
            q < |t| && FindFlat(t[p..], key) == Some(q + 1 - p + SkipWs(t[q + 1..]))
  {
    hide SkipWs, IsKeyHere, FindFlat;
    FlatUnfolds(t[p..], key);
    DropDrop(t, p, 1);
    if IsKeyHere(t[p..], key) {
      var n := |key| + 2;
      DropDrop(t, p, n);
      DropDrop(t, p, n + SkipWs(t[p + n..]) + 1);
    }
  }

  lemma KeyHere(t: string, p: nat, key: string)
    requires p < |t|
    ensures var c := p + |key| + 2;
            IsKeyHere(t[p..], key) <==>
              c <= |t| && t[p..c] == "\"" + key + "\"" && var q := c + SkipWs(t[c..]); q < |t| && t[q] == ':'
  {
    hide SkipWs;
    var n := |key| + 2;
    if n <= |t| - p {
      assert t[p..][..n] == t[p..p + n];
      DropDrop(t, p, n);
    }
  }

  function Lookup(t: string, key: string, top: bool): (p: Option<nat>)
    ensures p.Some? ==> p.value <= |t|
  {
    if top then FindTop(t, key) else Flat(t, key)
  }

  method Find(t: string, key: string, top: bool) returns (p: Option<nat>)
    ensures p == Lookup(t, key, top)
  {
    if top { p := FindKeyTop(t, key); } else { p := FindKey(t, key); }
  }

  // ---- getters ----

  predicate IsQuoted(t: string, p: nat) {
    p < |t| && t[p] == '"'
  }

  // unescape: p is just behind the backslash
  method UnescapeAt(t: string, from: nat) returns (c: char, p: nat)
    requires from < |t|
    ensures c == Unescaped(t[from..]) && p == from + EscapeLen(t[from..]) <= |t|
  {
    c, p := t[from], from + 1;
    match c {
      case 'n' => c := '\n';
      case 'r' => c := '\r';
      case 't' => c := '\t';
      case 'b' => c := 8 as char;
      case 'f' => c := 12 as char;
      case 'u' =>
        var k := 0;
        assert t[from..][1..] == t[p..];
        while k < 4 && p < |t| && IsHex(t[p])
          invariant 0 <= k <= 4 && p == from + 1 + k <= |t|
          invariant HexRun(t[from + 1..], 4) == k + HexRun(t[p..], 4 - k)
        {
          assert t[p..][1..] == t[p + 1..];
          k, p := k + 1, p + 1;
        }
        c := '?';
      case _ =>
    }
  }

  lemma DecodeHere(t: string, p: nat)
    requires p <= |t|
    ensures p == |t| || t[p] == '"' ==> Decode(t[p..]) == ""
    ensures p + 1 < |t| && t[p] == '\\' ==>
        Decode(t[p..]) == [Unescaped(t[p + 1..])] + Decode(t[p + 1 + EscapeLen(t[p + 1..])..])
    ensures p < |t| && t[p] != '"' && (t[p] != '\\' || p + 1 == |t|) ==> Decode(t[p..]) == [t[p]] + Decode(t[p + 1..])
  {
    hide Unescaped, EscapeLen;
    if p < |t| && t[p] != '"' {
      assert t[p..][1..] == t[p + 1..];
      if t[p] == '\\' && p + 1 < |t| { DropDrop(t, p, 1 + EscapeLen(t[p + 1..])); }
    }
  }

  method CopyString(t: string, from: nat, out: array<char>) returns (n: nat, truncated: bool)
    requires from <= |t| && out.Length > 0
    modifies out
    ensures var v := Decode(t[from..]);
            && n == Min(|v|, out.Length - 1) && truncated == (n < |v|)
            && out[..n] == v[..n] && out[n] == NUL
  {
    hide Decode, Unescaped, EscapeLen;
    var p, i := from, 0;
    ghost var v := Decode(t[from..]);
    while p < |t| && t[p] != '"' && i + 1 < out.Length
      invariant from <= p <= |t| && 0 <= i < out.Length
      invariant v == out[..i] + Decode(t[p..])
      decreases |t| - p
    {
      DecodeHere(t, p);
      var c := t[p];
      p := p + 1;
      if c == '\\' && p < |t| { c, p := UnescapeAt(t, p); }
      ghost var was := out[..i];
      out[i] := c;
      assert out[..i + 1] == was + [c];
      Regroup(was, [c], Decode(t[p..]));
      i := i + 1;
    }
    DecodeHere(t, p);
    ghost var got := out[..i];
    out[i] := NUL;
    assert out[..i] == got;
    DecodeMore(t, p);
    n, truncated := i, p < |t| && t[p] != '"';
  }

  lemma DecodeMore(t: string, p: nat)
    requires p <= |t|
    ensures Decode(t[p..]) == "" <==> p == |t| || t[p] == '"'
  {
  }

  method CopyBare(t: string, from: nat, out: array<char>) returns (n: nat, truncated: bool)
    requires from <= |t| && out.Length > 0
    modifies out
    ensures var v := Bare(t[from..]);
            && n == Min(|v|, out.Length - 1) && truncated == (n < |v|)
            && out[..n] == v[..n] && out[n] == NUL
  {
    var p, i := from, 0;
    ghost var v := Bare(t[from..]);
    while p < |t| && !EndsBare(t[p]) && i + 1 < out.Length
      invariant from <= p <= |t| && 0 <= i < out.Length
      invariant v == out[..i] + Bare(t[p..])
    {
      ghost var was := out[..i];
      out[i] := t[p];
      assert out[..i + 1] == was + [t[p]];
      assert t[p..][1..] == t[p + 1..];
      p, i := p + 1, i + 1;
    }
    ghost var got := out[..i];
    out[i] := NUL;
    assert out[..i] == got;
    n, truncated := i, p < |t| && !EndsBare(t[p]);
  }

  /** json_get_at2: the value's text, cut to the buffer, NUL-terminated; `truncated` says whether it was cut. */
  method Get(t: string, key: string, out: array<char>, top: bool) returns (found: bool, truncated: bool)
    modifies out
    ensures out.Length == 0 || Lookup(t, key, top).None? ==> !found && !truncated && (out.Length > 0 ==> out[0] == NUL)
    ensures out.Length > 0 && Lookup(t, key, top).Some? ==>
        var p := Lookup(t, key, top).value;
        var v := TextAt(t[p..]);
        var n := Min(|v|, out.Length - 1);
        && out[..n] == v[..n] && out[n] == NUL
        && truncated == (n < |v|) && found == (IsQuoted(t, p) || n > 0)
  {
    hide Lookup, Decode, Bare;
    found, truncated := false, false;
    if out.Length == 0 { return; }
    out[0] := NUL;
    var p := Find(t, key, top);
    if p.None? { return; }
    var n;
    if IsQuoted(t, p.value) {
      assert t[p.value..][1..] == t[p.value + 1..];
      n, truncated := CopyString(t, p.value + 1, out);
      found := true;
    } else {
      n, truncated := CopyBare(t, p.value, out);
      found := n > 0;
    }
  }

  /** bp_json_get_fit: 1 exactly when a value is there and fits whole. A scalar of which a one-byte buffer can hold
      nothing counts as missing, not as cut short. */
  method GetFit(t: string, key: string, out: array<char>) returns (r: int)
    modifies out
    ensures r in {-1, 0, 1}
    ensures r == 1 <==> var p := Flat(t, key);
        p.Some? && |TextAt(t[p.value..])| < out.Length && (IsQuoted(t, p.value) || TextAt(t[p.value..]) != "")
    ensures r == -1 <==> var p := Flat(t, key);
        p.Some? && |TextAt(t[p.value..])| >= out.Length > (if IsQuoted(t, p.value) then 0 else 1)
    ensures r == 1 ==> var v := TextAt(t[Flat(t, key).value..]); out[..|v|] == v && out[|v|] == NUL
  {
    hide Flat, TextAt;
    var found, truncated := Get(t, key, out, false);
    r := if !found then 0 else if truncated then -1 else 1;
  }

  /** json_object_at: the braces' whole text or nothing. */
  method GetObject(t: string, key: string, out: array<char>, top: bool) returns (ok: bool)
    modifies out
    ensures ok <==> var p := Lookup(t, key, top);
        p.Some? && ObjectSpan(t[p.value..]).Some? && ObjectSpan(t[p.value..]).value < out.Length
    ensures ok ==> var p := Lookup(t, key, top).value;
                   var n := ObjectSpan(t[p..]).value;
                   out[..n] == t[p..p + n] && out[n] == NUL
  {
    hide Lookup, Match;
    if out.Length == 0 { return false; }
    out[0] := NUL;
    var p := Find(t, key, top);
    if p.None? || p.value == |t| || t[p.value] != '{' { return false; }
    ok := CopyObject(t, p.value, out);
    MatchStep(t[p.value..], 0, false);
  }

  method CopyObject(t: string, from: nat, out: array<char>) returns (ok: bool)
    requires from < |t| && t[from] == '{' && out.Length > 0
    modifies out
    ensures var n := Match(t[from..], 0, false);
            (ok <==> n.Some? && n.value < out.Length) &&
              (ok ==> out[..n.value] == t[from..from + n.value] && out[n.value] == NUL)
  {
    hide Match, Pending, StringEnd;
    var depth, inStr, esc, p, i := 0, false, false, from, 0;
    PendingOutside(t[from..], 0, false, false);
    while p < |t|
      invariant from <= p <= |t| && i == p - from < out.Length && out[..i] == t[from..p]
      invariant depth >= 0 && (depth == 0 ==> p == from && !inStr) && (esc ==> inStr)
      invariant Match(t[from..], 0, false) == Plus(p - from, Pending(t[p..], depth, inStr, esc, false))
    {
      var s := t[p..];
      assert s[1..] == t[p + 1..] && s[0] == t[p];
      PendingLong(s, depth, inStr, esc, false);
      if i + 1 >= out.Length { return false; }
      out[i] := t[p];
      i := i + 1;
      assert out[..i] == t[from..p + 1];
      if esc {
        PendingInString(s, depth, esc, false);
        esc := false;
      } else if inStr {
        PendingInString(s, depth, esc, false);
        if t[p] == '\\' { esc := true; } else if t[p] == '"' { inStr := false; }
      } else {
        PendingOutside(s, depth, esc, false);
        if t[p] == '"' {
          PendingAtQuote(s, depth, false);
          inStr := true;
        } else {
          MatchStep(s, depth, false);
          if t[p] == '{' {
            depth := depth + 1;
          } else if t[p] == '}' {
            depth := depth - 1;
            if depth == 0 {
              out[i] := NUL;
              return true;
            }
          }
          PendingOutside(s[1..], depth, esc, false);
        }
      }
      p := p + 1;
    }
    PendingAtEnd(depth, inStr, esc, false);
    assert t[p..] == "";
    return false;
  }

  lemma PendingLong(s: string, depth: nat, inStr: bool, esc: bool, squares: bool)
    ensures var n := Pending(s, depth, inStr, esc, squares); n.Some? ==> n.value >= 1
  {
  }
}
