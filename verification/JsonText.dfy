/**
 What bp_json.c reads: the scanners as functions on the rest of the text, the JSON texts they are meant for as a
 syntax tree with its white space, and what the scanners do on the text of such a tree. A C string is the
 characters before its NUL.
 */
module JsonText {
  import opened Options

  const NUL := '\0'

  lemma Regroup(a: string, b: string, c: string)
    ensures (a + b) + c == a + (b + c)
  {
  }

  function Plus(k: nat, o: Option<nat>): Option<nat> {
    if o.None? then None else Some(k + o.value)
  }

  // ---- scanners ----

  predicate IsWs(c: char) {
    c == ' ' || c == '\t' || c == '\n' || c == '\r'
  }

  function SkipWs(s: string): (n: nat)
    ensures n <= |s|
    ensures n < |s| ==> !IsWs(s[n])
  {
    if s != "" && IsWs(s[0]) then 1 + SkipWs(s[1..]) else 0
  }

  // Where the closing quote is, from just behind the opening one.
  function StringEnd(s: string): (n: Option<nat>)
    ensures n.Some? ==> n.value < |s| && s[n.value] == '"'
  {
    if s == "" then None
    else if s[0] == '"' then Some(0)
    else if s[0] == '\\' && |s| > 1 then Plus(2, StringEnd(s[2..]))
    else Plus(1, StringEnd(s[1..]))
  }

  predicate Opens(c: char, squares: bool) {
    c == '{' || (squares && c == '[')
  }

  predicate Closes(c: char, squares: bool) {
    c == '}' || (squares && c == ']')
  }

  // From inside `depth` open brackets, how far to just past the one that closes the outermost.
  function Match(s: string, depth: nat, squares: bool): (n: Option<nat>)
    ensures n.Some? ==> 0 < n.value <= |s|
    decreases |s|
  {
    if s == "" then None
    else if s[0] == '"' then
      var q := StringEnd(s[1..]);
      if q.None? then None else Plus(q.value + 2, Match(s[q.value + 2..], depth, squares))
    else if Opens(s[0], squares) then Plus(1, Match(s[1..], depth + 1, squares))
    else if Closes(s[0], squares) then
      if depth <= 1 then Some(1) else Plus(1, Match(s[1..], depth - 1, squares))
    else Plus(1, Match(s[1..], depth, squares))
  }

  predicate EndsScalar(c: char) {
    c == ',' || c == '}' || c == ']'
  }

  function ScalarEnd(s: string): (n: nat)
    ensures n <= |s|
  {
    if s == "" || EndsScalar(s[0]) then 0 else 1 + ScalarEnd(s[1..])
  }

  // How long the value at the start of s is.
  function SkipValue(s: string): (n: Option<nat>)
    ensures n.Some? ==> n.value <= |s|
  {
    if s != "" && s[0] == '"' then
      var q := StringEnd(s[1..]);
      if q.None? then None else Some(q.value + 2)
    else if s != "" && Opens(s[0], true) then Plus(1, Match(s[1..], 1, true))
    else Some(ScalarEnd(s))
  }

  // The second bracket matcher: braces only.
  function ObjectSpan(s: string): (n: Option<nat>)
    ensures n.Some? ==> 1 < n.value <= |s|
  {
    if s == "" || s[0] != '{' then None else Plus(1, Match(s[1..], 1, false))
  }

  // From behind a key to its value: a colon, with white space around it.
  function AfterColon(s: string): (n: Option<nat>)
    ensures n.Some? ==> 0 < n.value <= |s|
  {
    if s == "" then None
    else if IsWs(s[0]) then Plus(1, AfterColon(s[1..]))
    else if s[0] == ':' then Some(1 + SkipWs(s[1..]))
    else None
  }

  // Where the value of `key` starts, from inside the outermost object.
  function FindMember(s: string, key: string): (p: Option<nat>)
    ensures p.Some? ==> p.value <= |s|
    decreases |s|, 0
  {
    if s == "" then None
    else if IsWs(s[0]) || s[0] == ',' then Plus(1, FindMember(s[1..], key))
    else if s[0] != '"' then None
    else Plus(1, FindNamed(s[1..], key))
  }

  // The same from behind the opening quote of a key,
  function FindNamed(s: string, key: string): (p: Option<nat>)
    ensures p.Some? ==> p.value <= |s|
    decreases |s|, 0
  {
    var k := StringEnd(s);
    if k.None? then None
    else
      var a := AfterColon(s[k.value + 1..]);
      if a.None? then None
      else
        var v := k.value + 1 + a.value;
        if s[..k.value] == key then Some(v) else Plus(v, FindBehind(s[v..], key))
  }

  // and from a value to skip.
  function FindBehind(s: string, key: string): (p: Option<nat>)
    ensures p.Some? ==> p.value <= |s|
    decreases |s|, 1
  {
    var n := SkipValue(s);
    if n.None? then None else Plus(n.value, FindMember(s[n.value..], key))
  }

  // find_key_top
  function FindTop(s: string, key: string): (p: Option<nat>)
    ensures p.Some? ==> p.value <= |s|
  {
    var w := SkipWs(s);
    if w == |s| || s[w] != '{' then None else Plus(w + 1, FindMember(s[w + 1..], key))
  }

  // find_key's needle, from s on
  predicate IsKeyHere(s: string, key: string) {
    && |s| >= |key| + 2 && s[..|key| + 2] == "\"" + key + "\""
    && var c := |key| + 2 + SkipWs(s[|key| + 2..]);
       c < |s| && s[c] == ':'
  }

  // find_key: the first needle anywhere that a colon follows
  function FindFlat(s: string, key: string): (p: Option<nat>)
    ensures p.Some? ==> p.value <= |s|
  {
    if s == "" then None
    else if IsKeyHere(s, key) then
      var c := |key| + 2 + SkipWs(s[|key| + 2..]);
      Some(c + 1 + SkipWs(s[c + 1..]))
    else Plus(1, FindFlat(s[1..], key))
  }

  /** The flat scan finds the first place where the quoted key stands with a colon behind it, and the value after
      that, */
  lemma {:induction false} FlatIsFirst(s: string, key: string, i: nat)
    requires i <= |s| && IsKeyHere(s[i..], key) && forall j: nat | j < i :: !IsKeyHere(s[j..], key)
    ensures FindFlat(s, key) == Some(i + PastKey(s[i..], key))
    decreases i
  {
    hide IsKeyHere, PastKey, FindFlat;
    assert s[0..] == s;
    if i == 0 {
      FlatAtOnce(s, key);
    } else {
      assert s[1..][i - 1..] == s[i..];
      forall j: nat | j < i - 1
        ensures !IsKeyHere(s[1..][j..], key)
      {
        assert s[1..][j..] == s[j + 1..];
      }
      FlatLater(s, key);
      FlatIsFirst(s[1..], key, i - 1);
    }
  }

  lemma FlatAtOnce(s: string, key: string)
    requires IsKeyHere(s, key)
    ensures FindFlat(s, key) == Some(PastKey(s, key))
  {
  }

  lemma FlatLater(s: string, key: string)
    requires s != "" && !IsKeyHere(s, key)
    ensures FindFlat(s, key) == Plus(1, FindFlat(s[1..], key))
  {
  }

  /** and nothing when there is none. */
  lemma {:induction false} FlatIsNone(s: string, key: string)
    requires forall i: nat | i <= |s| :: !IsKeyHere(s[i..], key)
    ensures FindFlat(s, key).None?
  {
    hide IsKeyHere;
    if s != "" {
      assert s[0..] == s;
      forall i: nat | i <= |s[1..]|
        ensures !IsKeyHere(s[1..][i..], key)
      {
        assert s[1..][i..] == s[i + 1..];
      }
      FlatIsNone(s[1..], key);
    }
  }

  // From a key on, where its value starts.
  function PastKey(s: string, key: string): (n: nat)
    requires IsKeyHere(s, key)
  {
    var c := |key| + 2 + SkipWs(s[|key| + 2..]);
    c + 1 + SkipWs(s[c + 1..])
  }

  /** A key stands where its quoted text does, with a colon behind it, white space aside. */
  lemma KeyStands(s: string, key: string)
    ensures IsKeyHere(s, key) <==>
            "\"" + key + "\"" <= s && (var t := s[|key| + 2..]; SkipWs(t) < |t| && t[SkipWs(t)] == ':')
  {
  }

  // ---- values as text ----

  predicate IsHex(c: char) {
    '0' <= c <= '9' || 'a' <= c <= 'f' || 'A' <= c <= 'F'
  }

  function HexRun(s: string, most: nat): (n: nat)
    ensures n <= |s| && n <= most
  {
    if most > 0 && s != "" && IsHex(s[0]) then 1 + HexRun(s[1..], most - 1) else 0
  }

  // The character an escape stands for; s starts behind the backslash.
  function Unescaped(s: string): char
    requires s != ""
  {
    match s[0]
    case 'n' => '\n'
    case 'r' => '\r'
    case 't' => '\t'
    case 'b' => 8 as char
    case 'f' => 12 as char
    case 'u' => '?'
    case c => c
  }

  function EscapeLen(s: string): (n: nat)
    requires s != ""
    ensures 0 < n <= |s|
  {
    if s[0] == 'u' then 1 + HexRun(s[1..], 4) else 1
  }

  // The text of a string value, from behind its opening quote to its end.
  function Decode(s: string): string
    decreases |s|
  {
    if s == "" || s[0] == '"' then ""
    else if s[0] == '\\' && |s| > 1 then [Unescaped(s[1..])] + Decode(s[1 + EscapeLen(s[1..])..])
    else [s[0]] + Decode(s[1..])
  }

  predicate EndsBare(c: char) {
    c == ',' || c == '}' || IsWs(c)
  }

  function Bare(s: string): string {
    if s == "" || EndsBare(s[0]) then "" else [s[0]] + Bare(s[1..])
  }

  /** The getters' bare text is all up to a comma, a closing brace or white space. */
  lemma {:induction false} BareStopsAt(s: string)
    ensures var b := Bare(s);
            b <= s && (forall c :: c in b ==> c !in ",} \t\n\r") && (|b| < |s| ==> s[|b|] in ",} \t\n\r")
  {
    if s != "" && !EndsBare(s[0]) { BareStopsAt(s[1..]); }
  }

  /** A scalar is skipped up to a comma or a closing bracket, */
  lemma {:induction false} ScalarStopsAt(s: string)
    ensures var n := ScalarEnd(s); (forall i :: 0 <= i < n ==> s[i] !in ",}]") && (n < |s| ==> s[n] in ",}]")
  {
    if s != "" && !EndsScalar(s[0]) { ScalarStopsAt(s[1..]); }
  }

  /** and white space to its end. */
  lemma {:induction false} BlanksStopAt(s: string)
    ensures var n := SkipWs(s); (forall i :: 0 <= i < n ==> s[i] in " \t\n\r") && (n < |s| ==> s[n] !in " \t\n\r")
  {
    if s != "" && IsWs(s[0]) { BlanksStopAt(s[1..]); }
  }

  // The text of the value at the start of s, as the getters hand it out.
  function TextAt(s: string): string {
    if s != "" && s[0] == '"' then Decode(s[1..]) else Bare(s)
  }

  // ---- JSON texts ----

  datatype Value = Str(raw: string) | Scalar(text: string) | Obj(members: Members) | Arr(items: Items)
  datatype Members = NoMembers(pad: string)
                   | Member(lead: string, key: string, mid: string, gap: string, value: Value, trail: string,
                     rest: Members)
  datatype Items = NoItems(pad: string)
                 | Item(lead: string, value: Value, trail: string, rest: Items)

  function Quote(raw: string): string {
    "\"" + raw + "\""
  }

  function Colon(mid: string, gap: string): string {
    mid + (":" + gap)
  }

  function Separator(more: bool): string {
    if more then "," else ""
  }

  function Render(v: Value): string {
    match v
    case Str(raw) => Quote(raw)
    case Scalar(text) => text
    case Obj(ms) => "{" + (RenderMembers(ms) + "}")
    case Arr(items) => "[" + (RenderItems(items) + "]")
  }

  function RenderMembers(ms: Members): string {
    match ms
    case NoMembers(pad) => pad
    case Member(lead, key, mid, gap, value, trail, rest) =>
      lead + (Quote(key) + (Colon(mid, gap) +
        (Render(value) + (trail + (Separator(rest.Member?) + RenderMembers(rest))))))
  }

  function RenderItems(items: Items): string {
    match items
    case NoItems(pad) => pad
    case Item(lead, value, trail, rest) =>
      lead + (Render(value) + (trail + (Separator(rest.Item?) + RenderItems(rest))))
  }

  ghost predicate AllWs(s: string) {
    forall i :: 0 <= i < |s| ==> IsWs(s[i])
  }

  // Between two quotes: no bare quote, and no backslash escapes the closing one.
  predicate RawOk(s: string) {
    if s == "" then true
    else if s[0] == '"' then false
    else if s[0] == '\\' then |s| > 1 && RawOk(s[2..])
    else RawOk(s[1..])
  }

  predicate IsPlain(c: char) {
    c != '"' && !Opens(c, true) && !EndsBare(c) && !EndsScalar(c)
  }

  ghost predicate ScalarOk(s: string) {
    s != "" && forall i :: 0 <= i < |s| ==> IsPlain(s[i])
  }

  // Everything section 2 of RFC 8259 allows, and some more inside strings and scalars.
  ghost predicate WellFormed(v: Value) {
    match v
    case Str(raw) => RawOk(raw)
    case Scalar(text) => ScalarOk(text)
    case Obj(ms) => MembersOk(ms)
    case Arr(items) => ItemsOk(items)
  }

  ghost predicate MembersOk(ms: Members) {
    match ms
    case NoMembers(pad) => AllWs(pad)
    case Member(lead, key, mid, gap, value, trail, rest) =>
      AllWs(lead) && RawOk(key) && AllWs(mid) && AllWs(gap) && WellFormed(value) && AllWs(trail) && MembersOk(rest)
  }

  ghost predicate ItemsOk(items: Items) {
    match items
    case NoItems(pad) => AllWs(pad)
    case Item(lead, value, trail, rest) => AllWs(lead) && WellFormed(value) && AllWs(trail) && ItemsOk(rest)
  }

  // ---- the scanners on pieces of a text ----

  lemma {:induction false} SkipsWs(w: string, s: string)
    requires AllWs(w)
    ensures SkipWs(w + s) == |w| + SkipWs(s)
  {
    if w == "" {
      assert w + s == s;
    } else {
      SkipsWs(w[1..], s);
      assert (w + s)[1..] == w[1..] + s;
    }
  }

  lemma {:induction false} EndsString(raw: string, rest: string)
    requires RawOk(raw)
    ensures StringEnd(raw + ("\"" + rest)) == Some(|raw|)
    decreases |raw|
  {
    var t := "\"" + rest;
    if raw == "" {
      assert raw + t == t;
    } else if raw[0] == '\\' {
      EndsString(raw[2..], rest);
      assert (raw + t)[2..] == raw[2..] + t;
    } else {
      EndsString(raw[1..], rest);
      assert (raw + t)[1..] == raw[1..] + t;
    }
  }

  lemma {:induction false} ScalarPrefix(a: string, s: string)
    requires forall i :: 0 <= i < |a| ==> !EndsScalar(a[i])
    ensures ScalarEnd(a + s) == |a| + ScalarEnd(s)
  {
    if a == "" {
      assert a + s == s;
    } else {
      ScalarPrefix(a[1..], s);
      assert (a + s)[1..] == a[1..] + s;
    }
  }

  predicate Inert(c: char) {
    c != '"' && !Opens(c, true) && !Closes(c, true)
  }

  lemma {:induction false} MatchInert(a: string, s: string, d: nat, squares: bool)
    requires forall i :: 0 <= i < |a| ==> Inert(a[i])
    ensures Match(a + s, d, squares) == Plus(|a|, Match(s, d, squares))
  {
    if a == "" {
      assert a + s == s;
    } else {
      MatchInert(a[1..], s, d, squares);
      assert (a + s)[1..] == a[1..] + s;
    }
  }

  lemma Assoc3(a: string, b: string, c: string, s: string)
    ensures (a + (b + c)) + s == a + (b + (c + s))
  {
  }

  lemma Assoc5(a: string, b: string, c: string, d: string, e: string, s: string)
    ensures (a + (b + (c + (d + e)))) + s == a + (b + (c + (d + (e + s))))
  {
    hide *;
    Assoc3(a, b, c + (d + e), s);
    Assoc3(c, d, e, s);
  }

  lemma Assoc7(a: string, b: string, c: string, d: string, e: string, f: string, g: string, s: string)
    ensures (a + (b + (c + (d + (e + (f + g)))))) + s == a + (b + (c + (d + (e + (f + (g + s))))))
  {
    hide *;
    Assoc3(a, b, c + (d + (e + (f + g))), s);
    Assoc5(c, d, e, f, g, s);
  }

  lemma QuoteThen(raw: string, s: string)
    ensures (Quote(raw) + s)[0] == '"'
    ensures (Quote(raw) + s)[1..] == raw + ("\"" + s)
    ensures (Quote(raw) + s)[|raw| + 2..] == s
  {
  }

  lemma MatchString(raw: string, s: string, d: nat, squares: bool)
    requires RawOk(raw)
    ensures Match(Quote(raw) + s, d, squares) == Plus(|raw| + 2, Match(s, d, squares))
  {
    EndsString(raw, s);
    QuoteThen(raw, s);
  }

  lemma MatchOpen(c: char, s: string, d: nat, squares: bool)
    requires c == '{' || c == '['
    ensures Match([c] + s, d, squares) == Plus(1, Match(s, if Opens(c, squares) then d + 1 else d, squares))
  {
    assert ([c] + s)[1..] == s;
  }

  lemma MatchClose(c: char, s: string, d: nat, squares: bool)
    requires d > 0 && (c == '}' || c == ']')
    ensures Match([c] + s, if Closes(c, squares) then d + 1 else d, squares) == Plus(1, Match(s, d, squares))
    ensures d == 1 && Closes(c, squares) ==> Match([c] + s, d, squares) == Some(1)
  {
    assert ([c] + s)[1..] == s;
  }

  lemma SeparatorIsInert(trail: string, more: bool)
    requires AllWs(trail)
    ensures forall i :: 0 <= i < |trail| ==> Inert(trail[i])
    ensures forall i :: 0 <= i < |Separator(more)| ==> Inert(Separator(more)[i])
  {
  }

  lemma ColonIsInert(mid: string, gap: string)
    requires AllWs(mid) && AllWs(gap)
    ensures forall i :: 0 <= i < |Colon(mid, gap)| ==> Inert(Colon(mid, gap)[i])
  {
  }

  /** Both matchers pass over a whole value inside the brackets they count. */
  lemma {:induction false} MatchValue(v: Value, s: string, d: nat, squares: bool)
    requires WellFormed(v) && d > 0
    ensures Match(Render(v) + s, d, squares) == Plus(|Render(v)|, Match(s, d, squares))
    decreases v
  {
    hide Match;
    match v {
      case Str(raw) =>
        MatchString(raw, s, d, squares);
      case Scalar(text) =>
        MatchInert(text, s, d, squares);
      case Obj(ms) =>
        Assoc3("{", RenderMembers(ms), "}", s);
        MatchOpen('{', RenderMembers(ms) + ("}" + s), d, squares);
        MatchMembers(ms, "}" + s, d + 1, squares);
        MatchClose('}', s, d, squares);
      case Arr(items) =>
        Assoc3("[", RenderItems(items), "]", s);
        MatchOpen('[', RenderItems(items) + ("]" + s), d, squares);
        MatchItems(items, "]" + s, if squares then d + 1 else d, squares);
        MatchClose(']', s, d, squares);
    }
  }

  lemma {:induction false} MatchMembers(ms: Members, s: string, d: nat, squares: bool)
    requires MembersOk(ms) && d > 0
    ensures Match(RenderMembers(ms) + s, d, squares) == Plus(|RenderMembers(ms)|, Match(s, d, squares))
    decreases ms
  {
    hide Match, Inert, Quote, Colon, Separator, Render, RawOk, WellFormed;
    match ms {
      case NoMembers(pad) =>
        SeparatorIsInert(pad, false);
        MatchInert(pad, s, d, squares);
      case Member(lead, key, mid, gap, value, trail, rest) =>
        var q, c, r, sep, more := Quote(key), Colon(mid, gap), Render(value), Separator(rest.Member?),
            RenderMembers(rest);
        assert |q| == |key| + 2 by { QuoteLength(key); }
        SeparatorIsInert(lead, false);
        SeparatorIsInert(trail, rest.Member?);
        ColonIsInert(mid, gap);
        Assoc7(lead, q, c, r, trail, sep, more, s);
        var s6 := more + s;
        var s5 := sep + s6;
        var s4 := trail + s5;
        var s3 := r + s4;
        var s2 := c + s3;
        MatchMembers(rest, s, d, squares);
        MatchInert(sep, s6, d, squares);
        MatchInert(trail, s5, d, squares);
        MatchValue(value, s4, d, squares);
        MatchInert(c, s3, d, squares);
        MatchString(key, s2, d, squares);
        MatchInert(lead, q + s2, d, squares);
    }
  }

  lemma QuoteLength(raw: string)
    ensures |Quote(raw)| == |raw| + 2
  {
  }

  lemma {:induction false} MatchItems(items: Items, s: string, d: nat, squares: bool)
    requires ItemsOk(items) && d > 0
    ensures Match(RenderItems(items) + s, d, squares) == Plus(|RenderItems(items)|, Match(s, d, squares))
    decreases items
  {
    hide Match, Inert, Separator, Render, WellFormed;
    match items {
      case NoItems(pad) =>
        SeparatorIsInert(pad, false);
        MatchInert(pad, s, d, squares);
      case Item(lead, value, trail, rest) =>
        var r, sep, more := Render(value), Separator(rest.Item?), RenderItems(rest);
        SeparatorIsInert(lead, false);
        SeparatorIsInert(trail, rest.Item?);
        Assoc5(lead, r, trail, sep, more, s);
        MatchItems(rest, s, d, squares);
        MatchInert(sep, more + s, d, squares);
        MatchInert(trail, sep + (more + s), d, squares);
        MatchValue(value, trail + (sep + (more + s)), d, squares);
        MatchInert(lead, r + (trail + (sep + (more + s))), d, squares);
    }
  }

  lemma BracketsThen(open: char, body: string, close: char, s: string)
    ensures (([open] + (body + [close])) + s)[1..] == body + ([close] + s)
  {
  }

  /** skip_value skips exactly the value; behind a scalar it runs on to the next `,`, `}` or `]`. */
  lemma SkipsExactly(v: Value, s: string)
    requires WellFormed(v)
    ensures SkipValue(Render(v) + s) == Some(|Render(v)| + (if v.Scalar? then ScalarEnd(s) else 0))
  {
    hide Match, StringEnd, ScalarEnd, RenderMembers, RenderItems;
    match v {
      case Str(raw) =>
        QuoteThen(raw, s);
        EndsString(raw, s);
        QuoteLength(raw);
      case Scalar(text) =>
        ScalarPrefix(text, s);
      case Obj(ms) =>
        BracketsThen('{', RenderMembers(ms), '}', s);
        MatchMembers(ms, "}" + s, 1, true);
        MatchClose('}', s, 1, true);
      case Arr(items) =>
        BracketsThen('[', RenderItems(items), ']', s);
        MatchItems(items, "]" + s, 1, true);
        MatchClose(']', s, 1, true);
    }
  }

  /** The span json_object_at copies, counting braces alone, is the span skip_value skips, counting both. */
  lemma MatchersAgree(v: Value, s: string)
    requires WellFormed(v) && v.Obj?
    ensures ObjectSpan(Render(v) + s) == Some(|Render(v)|) == SkipValue(Render(v) + s)
  {
    hide Match, StringEnd, ScalarEnd, RenderMembers;
    SkipsExactly(v, s);
    BracketsThen('{', RenderMembers(v.members), '}', s);
    MatchMembers(v.members, "}" + s, 1, false);
    MatchClose('}', s, 1, false);
  }

  // ---- lookup ----

  // The value of the first outermost member with this raw key.
  function FirstValue(ms: Members, key: string): Option<Value> {
    match ms
    case NoMembers(_) => None
    case Member(_, k, _, _, value, _, rest) => if k == key then Some(value) else FirstValue(rest, key)
  }

  // The text behind that value, up to the end of the members.
  function Behind(ms: Members, key: string): string
    requires FirstValue(ms, key).Some?
  {
    if ms.key == key then ms.trail + (Separator(ms.rest.Member?) + RenderMembers(ms.rest)) else Behind(ms.rest, key)
  }

  // What a lookup result at the start of s means.
  ghost predicate Hits(s: string, p: Option<nat>, ms: Members, key: string, tail: string) {
    match FirstValue(ms, key)
    case None => p.None?
    case Some(v) => p.Some? && p.value <= |s| && s[p.value..] == Render(v) + (Behind(ms, key) + tail)
  }

  lemma HitsBehind(a: string, s: string, p: Option<nat>, ms: Members, key: string, tail: string)
    requires Hits(s, p, ms, key, tail)
    ensures Hits(a + s, Plus(|a|, p), ms, key, tail)
  {
    if p.Some? {
      assert (a + s)[|a| + p.value..] == s[p.value..];
    }
  }

  lemma {:induction false} MemberPastWs(w: string, s: string, key: string)
    requires AllWs(w)
    ensures FindMember(w + s, key) == Plus(|w|, FindMember(s, key))
  {
    if w == "" {
      assert w + s == s;
    } else {
      MemberPastWs(w[1..], s, key);
      assert (w + s)[1..] == w[1..] + s;
    }
  }

  lemma {:induction false} ColonPastWs(w: string, s: string)
    requires AllWs(w)
    ensures AfterColon(w + s) == Plus(|w|, AfterColon(s))
  {
    if w == "" {
      assert w + s == s;
    } else {
      ColonPastWs(w[1..], s);
      assert (w + s)[1..] == w[1..] + s;
    }
  }

  lemma PastColon(mid: string, gap: string, x: string)
    requires AllWs(mid) && AllWs(gap) && SkipWs(x) == 0
    ensures AfterColon(Colon(mid, gap) + x) == Some(|Colon(mid, gap)|)
    ensures (Colon(mid, gap) + x)[|Colon(mid, gap)|..] == x
  {
    var y := ":" + (gap + x);
    Assoc3(mid, ":", gap, x);
    SkipsWs(gap, x);
    hide AfterColon, IsWs, AllWs, SkipWs;
    ColonPastWs(mid, y);
    AtColon(gap + x);
    DropHead(Colon(mid, gap), x);
  }

  lemma AtColon(t: string)
    ensures AfterColon(":" + t) == Some(1 + SkipWs(t))
  {
    assert (":" + t)[1..] == t;
  }

  lemma DropHead(a: string, x: string)
    ensures (a + x)[|a|..] == x
  {
  }

  lemma DropDrop(s: string, i: nat, j: nat)
    requires i + j <= |s|
    ensures s[i..][j..] == s[i + j..]
  {
  }

  lemma KeyThen(k: string, y: string)
    ensures var t := k + ("\"" + y);
            t[..|k|] == k && t[|k| + 1..] == y && |Quote(k) + y| > 0 && (Quote(k) + y)[0] == '"' &&
              (Quote(k) + y)[1..] == t
  {
  }

  lemma NamedThen(k: string, y: string, key: string)
    requires RawOk(k)
    ensures FindMember(Quote(k) + y, key) ==
        var a := AfterColon(y);
        if a.None? then None
        else if k == key then Some(|k| + 2 + a.value) else Plus(|k| + 2 + a.value, FindBehind(y[a.value..], key))
  {
    hide FindBehind, FindNamed, FindMember, StringEnd, AfterColon, Quote, RawOk;
    KeyThen(k, y);
    EndsString(k, y);
    NamedAfter(Quote(k) + y, k + ("\"" + y), k, y, key);
  }

  lemma NamedAfter(q: string, t: string, k: string, y: string, key: string)
    requires q != "" && q[0] == '"' && q[1..] == t
    requires StringEnd(t) == Some(|k|) && t[..|k|] == k && t[|k| + 1..] == y
    ensures FindMember(q, key) ==
        var a := AfterColon(y);
        if a.None? then None
        else if k == key then Some(|k| + 2 + a.value) else Plus(|k| + 2 + a.value, FindBehind(y[a.value..], key))
  {
    hide FindBehind, FindNamed, FindMember, StringEnd, AfterColon;
    AtQuote(q, key);
    NamedAt(t, k, y, key);
  }

  lemma AtQuote(s: string, key: string)
    requires s != "" && s[0] == '"'
    ensures FindMember(s, key) == Plus(1, FindNamed(s[1..], key))
  {
    hide FindNamed;
  }

  lemma NamedAt(t: string, k: string, y: string, key: string)
    requires StringEnd(t) == Some(|k|) && t[..|k|] == k && t[|k| + 1..] == y
    ensures FindNamed(t, key) ==
        var a := AfterColon(y);
        if a.None? then None
        else if k == key then Some(|k| + 1 + a.value) else Plus(|k| + 1 + a.value, FindBehind(y[a.value..], key))
  {
    hide FindBehind, StringEnd, AfterColon;
    var a := AfterColon(y);
    if a.Some? {
      DropDrop(t, |k| + 1, a.value);
    }
  }

  // A rendered value does not start with white space.
  lemma ValueStarts(v: Value, s: string)
    requires WellFormed(v)
    ensures SkipWs(Render(v) + s) == 0
  {
    assert Render(v) != "" && (Render(v) + s)[0] == Render(v)[0];
  }

  // One member read: its key, its colon and where its value starts.
  lemma ReadsMember(lead: string, k: string, mid: string, gap: string, x: string, key: string)
    requires AllWs(lead) && RawOk(k) && AllWs(mid) && AllWs(gap) && SkipWs(x) == 0
    ensures FindMember(lead + (Quote(k) + (Colon(mid, gap) + x)), key)
         == (var n := |lead| + |Quote(k)| + |Colon(mid, gap)|;
           if k == key then Some(n) else Plus(n, FindBehind(x, key)))
  {
    hide FindMember, FindBehind, AfterColon, Quote, Colon, SkipWs, AllWs, RawOk;
    QuoteLength(k);
    MemberPastWs(lead, Quote(k) + (Colon(mid, gap) + x), key);
    NamedThen(k, Colon(mid, gap) + x, key);
    PastColon(mid, gap, x);
  }

  lemma NoneAtBrace(s: string, key: string)
    ensures FindMember("}" + s, key) == None
  {
  }

  lemma CommaPast(s: string, key: string)
    ensures FindMember("," + s, key) == Plus(1, FindMember(s, key))
  {
    assert ("," + s)[1..] == s;
  }

  // From a value that is skipped to the next member.
  lemma PastValue(v: Value, behind: string, next: Option<nat>, key: string)
    requires WellFormed(v) && FindMember(behind, key) == next
    requires Plus(ScalarEnd(behind), FindMember(behind[ScalarEnd(behind)..], key)) == next
    ensures FindBehind(Render(v) + behind, key) == Plus(|Render(v)|, next)
  {
    hide FindMember, FindBehind, SkipValue, Render, WellFormed, ScalarEnd;
    SkipsExactly(v, behind);
    var gone := if v.Scalar? then ScalarEnd(behind) else 0;
    DropMore(Render(v), behind, gone);
    Unskipped(Render(v) + behind, |Render(v)| + gone, key);
  }

  lemma DropMore(a: string, x: string, n: nat)
    requires n <= |x|
    ensures (a + x)[|a| + n..] == x[n..] && x[0..] == x
  {
  }

  lemma Unskipped(s: string, n: nat, key: string)
    requires SkipValue(s) == Some(n)
    ensures FindBehind(s, key) == Plus(n, FindMember(s[n..], key))
  {
    hide SkipValue, FindMember;
  }

  // What a skip may have eaten of the white space makes no difference.
  ghost predicate Reaches(behind: string, next: Option<nat>, key: string) {
    FindMember(behind, key) == next && Plus(ScalarEnd(behind), FindMember(behind[ScalarEnd(behind)..], key)) == next
  }

  lemma ToNextMember(trail: string, more: string, key: string)
    requires AllWs(trail)
    ensures Reaches(trail + ("," + more), Plus(|trail| + 1, FindMember(more, key)), key)
  {
    hide FindMember, AllWs, ScalarEnd, Reaches;
    AtComma(more);
    CommaPast(more, key);
    ToStop(trail, "," + more, key);
  }

  lemma ToStop(trail: string, x: string, key: string)
    requires AllWs(trail) && ScalarEnd(x) == 0
    ensures Reaches(trail + x, Plus(|trail|, FindMember(x, key)), key)
  {
    WsIsInScalar(trail);
    hide FindMember, AllWs, ScalarEnd;
    ScalarPrefix(trail, x);
    DropHead(trail, x);
    MemberPastWs(trail, x, key);
  }

  lemma ToNoMember(trail: string, pad: string, s: string, key: string)
    requires AllWs(trail) && AllWs(pad)
    ensures Reaches(trail + (pad + ("}" + s)), None, key) && FindMember(pad + ("}" + s), key) == None
  {
    var x := pad + ("}" + s);
    WsIsInScalar(trail);
    hide FindMember, AllWs, ScalarEnd;
    ScalarPrefix(trail, x);
    PadAndBrace(pad, s, key);
    MemberPastWs(trail, x, key);
    DropMore(trail, x, |pad|);
    DropHead(pad, "}" + s);
  }

  lemma ToNext(trail: string, rest: Members, s: string, key: string)
    requires AllWs(trail) && MembersOk(rest)
    ensures var sep, more := Separator(rest.Member?), RenderMembers(rest) + ("}" + s);
            Reaches(trail + (sep + more), Plus(|trail| + |sep|, FindMember(more, key)), key)
  {
    hide FindMember, AllWs, Reaches;
    var more := RenderMembers(rest) + ("}" + s);
    if rest.Member? {
      ToNextMember(trail, more, key);
    } else {
      ToNoMember(trail, rest.pad, s, key);
      assert "" + more == more;
    }
  }

  lemma AtComma(s: string)
    ensures ScalarEnd("," + s) == 0
  {
  }

  lemma WsIsInScalar(w: string)
    requires AllWs(w)
    ensures forall i :: 0 <= i < |w| ==> !EndsScalar(w[i])
  {
  }

  lemma PadAndBrace(pad: string, s: string, key: string)
    requires AllWs(pad)
    ensures FindMember(pad + ("}" + s), key) == None == FindMember("}" + s, key)
    ensures ScalarEnd(pad + ("}" + s)) == |pad|
  {
    hide FindMember;
    MemberPastWs(pad, "}" + s, key);
    NoneAtBrace(s, key);
    ScalarPrefix(pad, "}" + s);
  }

  /** Lookup inside the outermost braces finds the first member with the key and never one further in. */
  lemma {:induction false} FindsMember(ms: Members, s: string, key: string)
    requires MembersOk(ms)
    ensures Hits(RenderMembers(ms) + ("}" + s), FindMember(RenderMembers(ms) + ("}" + s), key), ms, key, "}" + s)
    decreases ms
  {
    hide FindMember, FindBehind, Quote, Colon, Separator, Render, WellFormed, AllWs, RawOk;
    var close := "}" + s;
    match ms {
      case NoMembers(pad) =>
        PadAndBrace(pad, s, key);
      case Member(lead, k, mid, gap, value, trail, rest) =>
        var q, c, r, sep, more := Quote(k), Colon(mid, gap), Render(value), Separator(rest.Member?),
            RenderMembers(rest);
        var behind := trail + (sep + (more + close));
        Assoc7(lead, q, c, r, trail, sep, more, close);
        ValueStarts(value, behind);
        ReadsMember(lead, k, mid, gap, r + behind, key);
        if k == key {
          Drops(lead, q, c, r + behind);
          Assoc3(trail, sep, more, close);
        } else {
          ToNext(trail, rest, s, key);
          PastValue(value, behind, Plus(|trail| + |sep|, FindMember(more + close, key)), key);
          FindsMember(rest, s, key);
          HitsFurther(lead, q, c, r, trail, sep, more + close, FindMember(more + close, key), rest, key, close);
        }
    }
  }

  lemma Drops(a: string, b: string, c: string, s: string)
    ensures (a + (b + (c + s)))[|a| + |b| + |c|..] == s
  {
  }

  lemma HitsFurther(a: string, b: string, c: string, d: string, e: string, f: string,
                    s: string, p: Option<nat>, ms: Members, key: string, tail: string)
    requires Hits(s, p, ms, key, tail)
    ensures Hits(a + (b + (c + (d + (e + (f + s))))), Plus(|a| + |b| + |c| + |d| + |e| + |f|, p), ms, key, tail)
  {
    hide *;
    HitsBehind(f, s, p, ms, key, tail);
    HitsBehind(e, f + s, Plus(|f|, p), ms, key, tail);
    HitsBehind(d, e + (f + s), Plus(|e|, Plus(|f|, p)), ms, key, tail);
    HitsBehind(c, d + (e + (f + s)), Plus(|d|, Plus(|e|, Plus(|f|, p))), ms, key, tail);
    HitsBehind(b, c + (d + (e + (f + s))), Plus(|c|, Plus(|d|, Plus(|e|, Plus(|f|, p)))), ms, key, tail);
    HitsBehind(a, b + (c + (d + (e + (f + s)))), Plus(|b|, Plus(|c|, Plus(|d|, Plus(|e|, Plus(|f|, p))))), ms,
      key, tail);
    PlusPlus(|a|, |b|, |c|, |d|, |e|, |f|, p);
  }

  lemma PlusPlus(a: nat, b: nat, c: nat, d: nat, e: nat, f: nat, p: Option<nat>)
    ensures Plus(a, Plus(b, Plus(c, Plus(d, Plus(e, Plus(f, p)))))) == Plus(a + b + c + d + e + f, p)
  {
  }

  /** find_key_top on the text of a well-formed object: the value of the first outermost member whose raw key is the
      key, and nothing when there is none, whatever nested members and strings contain. */
  lemma TopLevelOnly(lead: string, v: Value, s: string, key: string)
    requires AllWs(lead) && WellFormed(v) && v.Obj?
    ensures Hits(lead + (Render(v) + s), FindTop(lead + (Render(v) + s), key), v.members, key, "}" + s)
  {
    hide FindMember;
    var body := RenderMembers(v.members) + ("}" + s);
    var t := lead + (Render(v) + s);
    SkipsWs(lead, Render(v) + s);
    BracketsThen('{', RenderMembers(v.members), '}', s);
    assert t == (lead + "{") + body;
    assert t[|lead| + 1..] == body;
    FindsMember(v.members, s, key);
    HitsBehind(lead + "{", body, FindMember(body, key), v.members, key, "}" + s);
  }

  // ---- texts of values ----

  lemma {:induction false} DecodeStops(raw: string, s: string)
    requires RawOk(raw)
    ensures Decode(raw + ("\"" + s)) == Decode(raw)
    decreases |raw|
  {
    hide Decode, Unescaped, EscapeLen;
    var t := "\"" + s;
    if raw == "" {
      assert raw + t == t;
      DecodeEnds(s);
    } else {
      var n := if raw[0] == '\\' then 1 + EscapeLen(raw[1..]) else 1;
      if raw[0] == '\\' {
        EscapeStops(raw, s);
      }
      DecodeStep(raw);
      DecodeStep(raw + t);
      assert (raw + t)[1..] == raw[1..] + t;
      assert (raw + t)[n..] == raw[n..] + t;
      DecodeStops(raw[n..], s);
    }
  }

  lemma DecodeEnds(s: string)
    ensures Decode("\"" + s) == "" == Decode("")
  {
  }

  lemma DecodeStep(s: string)
    requires s != "" && s[0] != '"'
    ensures s[0] == '\\' && |s| > 1 ==> Decode(s) == [Unescaped(s[1..])] + Decode(s[1 + EscapeLen(s[1..])..])
    ensures s[0] != '\\' ==> Decode(s) == [s[0]] + Decode(s[1..])
  {
  }

  // An escape ends inside the string it is in.
  lemma EscapeStops(raw: string, s: string)
    requires RawOk(raw) && raw != "" && raw[0] == '\\'
    ensures |raw| > 1 && RawOk(raw[1 + EscapeLen(raw[1..])..])
    ensures EscapeLen(raw[1..] + ("\"" + s)) == EscapeLen(raw[1..]) &&
        Unescaped(raw[1..] + ("\"" + s)) == Unescaped(raw[1..])
  {
    var b, t := raw[1..], "\"" + s;
    assert (b + t)[1..] == b[1..] + t;
    assert b[1..] == raw[2..];
    if b[0] == 'u' {
      HexStops(raw[2..], s, 4);
      var n := HexRun(raw[2..], 4);
      assert raw[2..][n..] == raw[1 + EscapeLen(b)..];
    } else {
      assert raw[1 + EscapeLen(b)..] == raw[2..];
    }
  }

  lemma {:induction false} HexStops(raw: string, s: string, most: nat)
    requires RawOk(raw)
    ensures HexRun(raw + ("\"" + s), most) == HexRun(raw, most) && RawOk(raw[HexRun(raw, most)..])
  {
    var t := "\"" + s;
    if raw == "" {
      assert raw + t == t;
    } else if most > 0 && IsHex(raw[0]) {
      HexStops(raw[1..], s, most - 1);
      assert (raw + t)[1..] == raw[1..] + t;
      assert raw[1..][HexRun(raw[1..], most - 1)..] == raw[HexRun(raw, most)..];
    }
  }

  lemma {:induction false} BareStops(text: string, s: string)
    requires forall i :: 0 <= i < |text| ==> IsPlain(text[i])
    requires s == "" || EndsBare(s[0])
    ensures Bare(text + s) == text
  {
    if text == "" {
      assert text + s == s;
    } else {
      BareStops(text[1..], s);
      assert (text + s)[1..] == text[1..] + s;
      assert text == [text[0]] + text[1..];
    }
  }

  /** What bp_json_get_top hands out for an outermost string or scalar member: the decoded text of that member. */
  lemma TopText(lead: string, v: Value, s: string, key: string)
    requires AllWs(lead) && WellFormed(v) && v.Obj?
    ensures var t := lead + (Render(v) + s);
            match FirstValue(v.members, key)
            case None => FindTop(t, key).None?
            case Some(Str(raw)) => FindTop(t, key).Some? && TextAt(t[FindTop(t, key).value..]) == Decode(raw)
            case Some(Scalar(text)) => FindTop(t, key).Some? && TextAt(t[FindTop(t, key).value..]) == text
            case Some(w) => FindTop(t, key).Some? && SkipValue(t[FindTop(t, key).value..]) == Some(|Render(w)|)
  {
    hide FindTop, Decode, Bare, SkipValue;
    TopLevelOnly(lead, v, s, key);
    var r := FirstValue(v.members, key);
    if r.Some? {
      FirstIsOk(v.members, key);
      var tail := Behind(v.members, key) + ("}" + s);
      match r.value {
        case Str(raw) =>
          DecodeStops(raw, tail);
          QuoteThen(raw, tail);
        case Scalar(text) =>
          BehindEnds(v.members, key);
          BareStops(text, tail);
        case w =>
          SkipsExactly(w, tail);
      }
    }
  }

  lemma {:induction false} FirstIsOk(ms: Members, key: string)
    requires MembersOk(ms) && FirstValue(ms, key).Some?
    ensures WellFormed(FirstValue(ms, key).value)
  {
    if ms.key != key { FirstIsOk(ms.rest, key); }
  }

  lemma {:induction false} BehindEnds(ms: Members, key: string)
    requires MembersOk(ms) && FirstValue(ms, key).Some?
    ensures Behind(ms, key) == "" || EndsBare(Behind(ms, key)[0])
  {
    if ms.key != key { BehindEnds(ms.rest, key); }
  }

  // ---- what the emitter writes ----

  function HexDigit(n: nat): char
    requires n < 16
  {
    "0123456789abcdef"[n]
  }

  function EscapedChar(c: char): string {
    if c == '"' then "\\\"" else if c == '\\' then "\\\\"
    else if c == '\n' then "\\n" else if c == '\r' then "\\r" else if c == '\t' then "\\t"
    else if c < ' ' then ['\\', 'u', '0', '0', HexDigit(c as int / 16), HexDigit(c as int % 16)]
    else [c]
  }

  function Escaped(s: string): string {
    if s == "" then "" else EscapedChar(s[0]) + Escaped(s[1..])
  }

  function Quoted(s: string): string {
    "\"" + Escaped(s) + "\""
  }

  // Control characters other than \n, \r and \t come back as '?'.
  function Sanitised(s: string): string {
    seq(|s|, i requires 0 <= i < |s| => if s[i] < ' ' && !IsWs(s[i]) then '?' else s[i])
  }

  lemma {:induction false} EscapedIsRaw(s: string)
    ensures RawOk(Escaped(s))
  {
    if s != "" {
      EscapedIsRaw(s[1..]);
      RawAfterEscape(s[0], Escaped(s[1..]));
    }
  }

  lemma RawAfterEscape(c: char, r: string)
    requires RawOk(r)
    ensures RawOk(EscapedChar(c) + r)
  {
    hide RawOk, HexDigit;
    var e := EscapedChar(c);
    if |e| == 1 {
      RawStep(c, r);
    } else if |e| == 2 {
      RawPair(e[1], r);
      Pieces(e, r);
    } else {
      HexIsHex(c as int / 16);
      HexIsHex(c as int % 16);
      RawHex(e, r);
    }
  }

  lemma Pieces(e: string, r: string)
    requires |e| == 2
    ensures e + r == [e[0]] + ([e[1]] + r)
  {
  }

  lemma RawHex(e: string, r: string)
    requires RawOk(r) && |e| == 6 && e[..4] == "\\u00" && IsHex(e[4]) && IsHex(e[5])
    ensures RawOk(e + r)
  {
    hide RawOk;
    var r5 := [e[5]] + r;
    var r4 := [e[4]] + r5;
    var r3 := ['0'] + r4;
    var r2 := ['0'] + r3;
    RawStep(e[5], r);
    RawStep(e[4], r5);
    RawStep('0', r4);
    RawStep('0', r3);
    RawPair('u', r2);
    SixPieces(e, r);
    assert e[..4][0] == '\\' && e[..4][1] == 'u' && e[..4][2] == '0' && e[..4][3] == '0';
  }

  lemma SixPieces(e: string, r: string)
    requires |e| == 6
    ensures e + r == [e[0]] + ([e[1]] + ([e[2]] + ([e[3]] + ([e[4]] + ([e[5]] + r)))))
  {
  }

  lemma RawStep(c: char, r: string)
    requires RawOk(r) && c != '"' && c != '\\'
    ensures RawOk([c] + r)
  {
    assert ([c] + r)[1..] == r;
  }

  lemma RawPair(c: char, r: string)
    requires RawOk(r)
    ensures RawOk(['\\'] + ([c] + r))
  {
    assert (['\\'] + ([c] + r))[2..] == r;
  }

  lemma HexIsHex(n: nat)
    requires n < 16
    ensures IsHex(HexDigit(n))
  {
  }

  lemma DecodeOne(c: char, r: string)
    ensures Decode(EscapedChar(c) + r) == [if c < ' ' && !IsWs(c) then '?' else c] + Decode(r)
  {
    hide Decode;
    var e := EscapedChar(c);
    var t := e + r;
    if |e| == 1 {
      assert t[1..] == r;
      DecodeStep(t);
    } else if |e| == 2 {
      assert t[1..] == [e[1]] + r && t[2..] == r;
      DecodeStep(t);
    } else {
      HexIsHex(c as int / 16);
      HexIsHex(c as int % 16);
      assert t[1..][1..] == ['0', '0', e[4], e[5]] + r;
      FourHex('0', '0', e[4], e[5], r);
      assert t[6..] == r;
      DecodeStep(t);
    }
  }

  lemma FourHex(a: char, b: char, c: char, d: char, r: string)
    requires IsHex(a) && IsHex(b) && IsHex(c) && IsHex(d)
    ensures HexRun([a, b, c, d] + r, 4) == 4
  {
    var t := [a, b, c, d] + r;
    assert t[1..] == [b, c, d] + r && t[1..][1..] == [c, d] + r && t[1..][1..][1..] == [d] + r;
    assert HexRun([d] + r, 1) == 1 by { assert ([d] + r)[1..] == r; }
    assert HexRun([c, d] + r, 2) == 2;
    assert HexRun([b, c, d] + r, 3) == 3;
  }

  lemma NothingToSanitise()
    ensures Decode("") == Sanitised("") && Escaped("") == ""
  {
  }

  lemma SanitisedStep(s: string)
    requires s != ""
    ensures Sanitised(s) == [if s[0] < ' ' && !IsWs(s[0]) then '?' else s[0]] + Sanitised(s[1..])
  {
  }

  /** The parser undoes the emitter, up to the control characters JSON escapes by number. */
  lemma {:induction false} DecodeOfEscaped(s: string)
    ensures Decode(Escaped(s)) == Sanitised(s)
  {
    hide Decode, EscapedChar, Sanitised;
    if s == "" {
      NothingToSanitise();
    } else {
      DecodeOfEscaped(s[1..]);
      DecodeOne(s[0], Escaped(s[1..]));
      SanitisedStep(s);
    }
  }

  /** The whole way: an emitted string as an outermost member, looked up again. */
  lemma EmittedIsReadBack(lead: string, v: Value, s: string, key: string, text: string)
    requires AllWs(lead) && WellFormed(v) && v.Obj? && FirstValue(v.members, key) == Some(Str(Escaped(text)))
    ensures var t := lead + (Render(v) + s);
            FindTop(t, key).Some? && TextAt(t[FindTop(t, key).value..]) == Sanitised(text)
  {
    hide FindTop, TextAt, Decode, Sanitised, FirstValue, Render;
    TopText(lead, v, s, key);
    DecodeOfEscaped(text);
  }
}
