/** Regular expressions as label matchers read them: the whole value must match, and `.` stands
    for any character. Covered are literal characters, `.`, the postfix operators `*`, `+` and
    `?`, alternation and groups; a pattern that uses any other metacharacter does not parse. */
module Regexp {
  import opened PromQL

  datatype Regex =
    | Empty
    | Char(c: char)
    | Any
    | Concat(left: Regex, right: Regex)
    | Alt(left: Regex, right: Regex)
    | Star(body: Regex)

  /** The strings of a regular expression. */
  predicate In(r: Regex, v: string)
    decreases r, |v|
  {
    match r
    case Empty => v == ""
    case Char(c) => v == [c]
    case Any => |v| == 1
    case Concat(a, b) => exists i :: 0 <= i <= |v| && In(a, v[..i]) && In(b, v[i..])
    case Alt(a, b) => In(a, v) || In(b, v)
    case Star(a) => v == "" || exists i :: 0 < i <= |v| && In(a, v[..i]) && In(r, v[i..])
  }

  // ----- reading a pattern

  datatype Parsed = Malformed | Parsed(regex: Regex, rest: string)

  predicate IsMeta(c: char) {
    c in ".*+?|()[]{}^$\\"
  }

  predicate IsPostfix(c: char) {
    c == '*' || c == '+' || c == '?'
  }

  predicate StartsPostfix(s: string) {
    s != "" && IsPostfix(s[0])
  }

  /** Where a concatenation ends. */
  predicate Stops(s: string) {
    s == "" || s[0] == '|' || s[0] == ')'
  }

  function Repeated(r: Regex, op: char): Regex {
    if op == '*' then Star(r) else if op == '+' then Concat(r, Star(r)) else Alt(r, Empty)
  }

  /** The postfix operator that may follow an atom; a second one is not covered. */
  function ParsePostfix(r: Regex, s: string): (p: Parsed)
    ensures p.Parsed? ==> |p.rest| <= |s|
  {
    if !StartsPostfix(s) then Parsed(r, s)
    else if StartsPostfix(s[1..]) then Malformed
    else Parsed(Repeated(r, s[0]), s[1..])
  }

  function ParseAtom(s: string): (p: Parsed)
    requires s != ""
    ensures p.Parsed? ==> |p.rest| < |s|
    decreases |s|, 0
  {
    if s[0] == '(' then
      var p := ParseAlt(s[1..]);
      if p.Parsed? && p.rest != "" && p.rest[0] == ')' then Parsed(p.regex, p.rest[1..]) else Malformed
    else if s[0] == '.' then Parsed(Any, s[1..])
    else if IsMeta(s[0]) then Malformed
    else Parsed(Char(s[0]), s[1..])
  }

  function ParseConcat(s: string): (p: Parsed)
    ensures p.Parsed? ==> |p.rest| <= |s| && Stops(p.rest)
    decreases |s|, 1
  {
    if Stops(s) then Parsed(Empty, s) else
      var atom := ParseAtom(s);
      if atom.Malformed? then Malformed else
        var item := ParsePostfix(atom.regex, atom.rest);
        if item.Malformed? then Malformed else
          var more := ParseConcat(item.rest);
          if more.Malformed? then Malformed else Parsed(Concat(item.regex, more.regex), more.rest)
  }

  function ParseAlt(s: string): (p: Parsed)
    ensures p.Parsed? ==> |p.rest| <= |s| && (p.rest == "" || p.rest[0] == ')')
    decreases |s|, 2
  {
    var l := ParseConcat(s);
    if l.Malformed? || l.rest == "" || l.rest[0] != '|' then l else
      var r := ParseAlt(l.rest[1..]);
      if r.Malformed? then Malformed else Parsed(Alt(l.regex, r.regex), r.rest)
  }

  /** The pattern is read to its end. */
  predicate WellFormed(pattern: string) {
    var p := ParseAlt(pattern);
    p.Parsed? && p.rest == ""
  }

  /** The values a pattern matches. */
  predicate Match(pattern: string, v: string) {
    WellFormed(pattern) && In(ParseAlt(pattern).regex, v)
  }

  /** An engine that reads every covered pattern as above; nothing is said about the others. */
  ghost predicate IsEngine(regex: (string, string) -> bool) {
    forall p, v :: WellFormed(p) ==> (regex(p, v) <==> Match(p, v))
  }

  // ----- reading on after a pattern

  lemma {:induction false} ExtendAtom(s: string, t: string)
    requires s != "" && ParseAtom(s).Parsed?
    ensures ParseAtom(s + t) == Parsed(ParseAtom(s).regex, ParseAtom(s).rest + t)
    decreases |s|, 0
  {
    assert (s + t)[1..] == s[1..] + t;
    if s[0] == '(' {
      ExtendAlt(s[1..], t);
      var rest := ParseAlt(s[1..]).rest;
      assert (rest + t)[1..] == rest[1..] + t;
    }
  }

  lemma {:induction false} ExtendPostfix(r: Regex, s: string, t: string)
    requires ParsePostfix(r, s).Parsed? && (ParsePostfix(r, s).rest == "" ==> !StartsPostfix(t))
    ensures ParsePostfix(r, s + t) == Parsed(ParsePostfix(r, s).regex, ParsePostfix(r, s).rest + t)
  {
    if StartsPostfix(s) {
      assert (s + t)[1..] == s[1..] + t;
    } else if s == "" {
      assert s + t == t;
    }
  }

  lemma {:induction false} ExtendConcat(s: string, t: string)
    requires ParseConcat(s).Parsed? && (ParseConcat(s).rest == "" ==> Stops(t))
    ensures ParseConcat(s + t) == Parsed(ParseConcat(s).regex, ParseConcat(s).rest + t)
    decreases |s|, 1
  {
    if Stops(s) {
      if s == "" {
        assert s + t == t;
      }
    } else {
      var atom := ParseAtom(s);
      ExtendAtom(s, t);
      ExtendPostfix(atom.regex, atom.rest, t);
      ExtendConcat(ParsePostfix(atom.regex, atom.rest).rest, t);
    }
  }

  lemma {:induction false} ExtendAlt(s: string, t: string)
    requires ParseAlt(s).Parsed? && (ParseAlt(s).rest == "" ==> t == "" || t[0] == ')')
    ensures ParseAlt(s + t) == Parsed(ParseAlt(s).regex, ParseAlt(s).rest + t)
    decreases |s|, 2
  {
    var l := ParseConcat(s);
    ExtendConcat(s, t);
    if l.rest != "" && l.rest[0] == '|' {
      assert (l.rest + t)[1..] == l.rest[1..] + t;
      ExtendAlt(l.rest[1..], t);
    } else if l.rest == "" {
      assert l.rest + t == t;
    }
  }

  /** Two patterns joined by a bar match what either of them matches. */
  lemma {:induction false} JoinTwo(s: string, t: string)
    requires WellFormed(s) && WellFormed(t)
    ensures WellFormed(s + "|" + t)
    ensures forall v :: Match(s + "|" + t, v) <==> Match(s, v) || Match(t, v)
    decreases |s|
  {
    var l, tail := ParseConcat(s), "|" + t;
    ExtendConcat(s, tail);
    assert s + "|" + t == s + tail;
    if l.rest == "" {
      assert l.rest + tail == tail && tail[1..] == t;
    } else {
      var rest := l.rest[1..];
      assert (l.rest + tail)[1..] == rest + "|" + t;
      JoinTwo(rest, t);
      assert forall v :: Match(s, v) <==> In(l.regex, v) || Match(rest, v);
      assert forall v :: Match(s + tail, v) <==> In(l.regex, v) || Match(rest + "|" + t, v);
    }
  }

  /** Some pattern of a list matches. */
  ghost predicate AnyMatches(ps: seq<string>, v: string) {
    exists i :: 0 <= i < |ps| && Match(ps[i], v)
  }

  ghost predicate AllWellFormed(ps: seq<string>) {
    forall i :: 0 <= i < |ps| ==> WellFormed(ps[i])
  }

  lemma {:induction false} JoinMeaning(ps: seq<string>)
    requires ps != [] && AllWellFormed(ps)
    ensures WellFormed(Join(ps))
    ensures forall v :: Match(Join(ps), v) <==> AnyMatches(ps, v)
  {
    if |ps| > 1 {
      var rest := ps[1..];
      JoinMeaning(rest);
      JoinTwo(ps[0], Join(rest));
      forall v
        ensures AnyMatches(ps, v) <==> Match(ps[0], v) || AnyMatches(rest, v)
      {
        if AnyMatches(rest, v) {
          var i :| 0 <= i < |rest| && Match(rest[i], v);
          assert ps[i + 1] == rest[i];
        }
        if AnyMatches(ps, v) && !Match(ps[0], v) {
          var i :| 0 <= i < |ps| && Match(ps[i], v);
          assert rest[i - 1] == ps[i];
        }
      }
    }
  }

  lemma {:induction false} Grouped(s: string)
    requires WellFormed(s)
    ensures WellFormed("(" + s + ")")
    ensures forall v :: Match("(" + s + ")", v) <==> Match(s, v)
  {
    var g, r := "(" + s + ")", ParseAlt(s).regex;
    ExtendAlt(s, ")");
    assert g[1..] == s + ")";
    assert ParseAtom(g) == Parsed(r, "");
    assert ParseConcat("") == Parsed(Empty, "");
    assert ParseConcat(g) == Parsed(Concat(r, Empty), "");
    forall v
      ensures In(Concat(r, Empty), v) <==> In(r, v)
    {
      assert v[..|v|] == v && v[|v|..] == "";
    }
  }

  /** What the pattern built from a list of project IDs matches: whatever one of the IDs, read
      as a pattern itself, matches. */
  lemma {:induction false} PatternMeaning(ps: seq<string>)
    requires ps != [] && AllWellFormed(ps)
    ensures WellFormed(Pattern(ps))
    ensures forall v :: Match(Pattern(ps), v) <==> AnyMatches(ps, v)
  {
    JoinMeaning(ps);
    Grouped(Join(ps));
  }

  // ----- identifiers without metacharacters, or with dots only

  predicate Plain(p: string) {
    forall i :: 0 <= i < |p| ==> !IsMeta(p[i])
  }

  predicate PlainOrDots(p: string) {
    forall i :: 0 <= i < |p| ==> p[i] == '.' || !IsMeta(p[i])
  }

  /** Equal but for the dots. */
  predicate Fits(p: string, v: string) {
    |p| == |v| && forall i :: 0 <= i < |p| ==> p[i] == '.' || p[i] == v[i]
  }

  function Word(p: string): Regex {
    if p == "" then Empty else Concat(if p[0] == '.' then Any else Char(p[0]), Word(p[1..]))
  }

  lemma {:induction false} ParseWord(p: string)
    requires PlainOrDots(p)
    ensures ParseConcat(p) == Parsed(Word(p), "")
  {
    if p != "" {
      assert forall i :: 0 <= i < |p| - 1 ==> p[1..][i] == p[i + 1];
      ParseWord(p[1..]);
    }
  }

  lemma {:induction false} InWord(p: string, v: string)
    ensures In(Word(p), v) <==> Fits(p, v)
  {
    if p != "" {
      var c := if p[0] == '.' then Any else Char(p[0]);
      if v == "" {
        assert forall i :: 0 <= i <= |v| ==> v[..i] == "";
      } else {
        InWord(p[1..], v[1..]);
        assert In(c, v[..1]) <==> p[0] == '.' || p[0] == v[0];
        assert forall i :: 0 <= i <= |v| && In(c, v[..i]) ==> i == 1;
        assert Fits(p, v) <==> (p[0] == '.' || p[0] == v[0]) && Fits(p[1..], v[1..]) by {
          FitsNext(p, v);
        }
      }
    }
  }

  lemma {:induction false} FitsNext(p: string, v: string)
    requires p != "" && v != ""
    ensures Fits(p, v) <==> (p[0] == '.' || p[0] == v[0]) && Fits(p[1..], v[1..])
  {
    if Fits(p[1..], v[1..]) {
      assert forall i :: 0 < i < |p| ==> p[i] == p[1..][i - 1] && v[i] == v[1..][i - 1];
    }
  }

  lemma {:induction false} MatchWord(p: string, v: string)
    requires PlainOrDots(p)
    ensures WellFormed(p) && (Match(p, v) <==> Fits(p, v))
  {
    ParseWord(p);
    InWord(p, v);
  }

  lemma {:induction false} MatchPlain(p: string, v: string)
    requires Plain(p)
    ensures WellFormed(p) && (Match(p, v) <==> v == p)
  {
    assert PlainOrDots(p);
    MatchWord(p, v);
    assert ".*+?|()[]{}^$\\"[0] == '.';
  }

  // ----- a value with a metacharacter is matched only by dots

  /** No literal character is a metacharacter. */
  predicate MetaFree(r: Regex) {
    match r
    case Empty => true
    case Char(c) => !IsMeta(c)
    case Any => true
    case Concat(a, b) => MetaFree(a) && MetaFree(b)
    case Alt(a, b) => MetaFree(a) && MetaFree(b)
    case Star(a) => MetaFree(a)
  }

  lemma {:induction false} AtomMetaFree(s: string)
    requires s != "" && ParseAtom(s).Parsed?
    ensures MetaFree(ParseAtom(s).regex)
    decreases |s|, 0
  {
    if s[0] == '(' {
      AltMetaFree(s[1..]);
    }
  }

  lemma {:induction false} ConcatMetaFree(s: string)
    requires ParseConcat(s).Parsed?
    ensures MetaFree(ParseConcat(s).regex)
    decreases |s|, 1
  {
    if !Stops(s) {
      var atom := ParseAtom(s);
      AtomMetaFree(s);
      ConcatMetaFree(ParsePostfix(atom.regex, atom.rest).rest);
    }
  }

  lemma {:induction false} AltMetaFree(s: string)
    requires ParseAlt(s).Parsed?
    ensures MetaFree(ParseAlt(s).regex)
    decreases |s|, 2
  {
    var l := ParseConcat(s);
    ConcatMetaFree(s);
    if l.rest != "" && l.rest[0] == '|' {
      AltMetaFree(l.rest[1..]);
    }
  }

  /** Where a matched value has a metacharacter, any other character would match as well. */
  lemma {:induction false} AnythingThere(r: Regex, v: string, k: nat, x: char)
    requires MetaFree(r) && In(r, v) && k < |v| && IsMeta(v[k])
    ensures In(r, v[k := x])
    decreases r, |v|
  {
    match r
    case Alt(a, b) =>
      if In(a, v) {
        AnythingThere(a, v, k, x);
      } else {
        AnythingThere(b, v, k, x);
      }
    case Concat(a, b) =>
      var i :| 0 <= i <= |v| && In(a, v[..i]) && In(b, v[i..]);
      SplitUpdate(v, k, x, i);
      if k < i {
        AnythingThere(a, v[..i], k, x);
      } else {
        AnythingThere(b, v[i..], k - i, x);
      }
    case Star(a) =>
      var i :| 0 < i <= |v| && In(a, v[..i]) && In(r, v[i..]);
      SplitUpdate(v, k, x, i);
      if k < i {
        AnythingThere(a, v[..i], k, x);
      } else {
        AnythingThere(r, v[i..], k - i, x);
      }
    case _ =>
  }

  lemma SplitUpdate(v: string, k: nat, x: char, i: nat)
    requires k < |v| && i <= |v|
    ensures v[k := x][..i] == if k < i then v[..i][k := x] else v[..i]
    ensures v[k := x][i..] == if k < i then v[i..] else v[i..][k - i := x]
  {
  }

  // ----- what a parsed pattern cannot hold

  /** The rest is a suffix, and no bracket comes before it. */
  ghost predicate Consumed(s: string, rest: string) {
    |rest| <= |s| && s[|s| - |rest|..] == rest && '[' !in s[..|s| - |rest|]
  }

  lemma {:induction false} ConsumedOn(s: string, t: string, u: string)
    requires Consumed(s, t) && Consumed(t, u)
    ensures Consumed(s, u)
  {
    var i, j := |s| - |t|, |s| - |u|;
    assert s[j..] == s[i..][j - i..];
    assert s[..j] == s[..i] + s[i..][..j - i];
  }

  lemma {:induction false} ConsumedOne(s: string)
    requires s != "" && s[0] != '['
    ensures Consumed(s, s[1..])
  {
    assert s[..1] == [s[0]];
  }

  lemma {:induction false} AtomConsumed(s: string)
    requires s != "" && ParseAtom(s).Parsed?
    ensures Consumed(s, ParseAtom(s).rest)
    decreases |s|, 0
  {
    assert ".*+?|()[]{}^$\\"[7] == '[';
    ConsumedOne(s);
    if s[0] == '(' {
      var p := ParseAlt(s[1..]);
      AltConsumed(s[1..]);
      ConsumedOne(p.rest);
      ConsumedOn(s, s[1..], p.rest);
      ConsumedOn(s, p.rest, p.rest[1..]);
    }
  }

  lemma {:induction false} ConcatConsumed(s: string)
    requires ParseConcat(s).Parsed?
    ensures Consumed(s, ParseConcat(s).rest)
    decreases |s|, 1
  {
    if !Stops(s) {
      var atom := ParseAtom(s);
      var item := ParsePostfix(atom.regex, atom.rest);
      AtomConsumed(s);
      if StartsPostfix(atom.rest) {
        ConsumedOne(atom.rest);
      }
      ConsumedOn(s, atom.rest, item.rest);
      ConcatConsumed(item.rest);
      ConsumedOn(s, item.rest, ParseConcat(item.rest).rest);
    }
  }

  lemma {:induction false} AltConsumed(s: string)
    requires ParseAlt(s).Parsed?
    ensures Consumed(s, ParseAlt(s).rest)
    decreases |s|, 2
  {
    var l := ParseConcat(s);
    ConcatConsumed(s);
    if l.rest != "" && l.rest[0] == '|' {
      ConsumedOne(l.rest);
      ConsumedOn(s, l.rest, l.rest[1..]);
      AltConsumed(l.rest[1..]);
      ConsumedOn(s, l.rest[1..], ParseAlt(l.rest[1..]).rest);
    }
  }

  lemma {:induction false} InJoin(ps: seq<string>, i: nat, c: char)
    requires i < |ps| && c in ps[i]
    ensures c in Join(ps)
  {
    if i > 0 {
      InJoin(ps[1..], i - 1, c);
    }
  }

  // ----- exactly the identifiers

  predicate AllPlain(ps: seq<string>) {
    forall i :: 0 <= i < |ps| ==> Plain(ps[i])
  }

  lemma {:induction false} PlainIsLiteral(ps: seq<string>)
    requires ps != [] && AllPlain(ps)
    ensures WellFormed(Pattern(ps))
    ensures forall v :: Match(Pattern(ps), v) <==> v in ps
  {
    forall i | 0 <= i < |ps|
      ensures WellFormed(ps[i])
    {
      MatchPlain(ps[i], "");
    }
    PatternMeaning(ps);
    forall i, v | 0 <= i < |ps|
      ensures Match(ps[i], v) <==> v == ps[i]
    {
      MatchPlain(ps[i], v);
    }
  }

  /** An ID with a metacharacter is matched only together with one that has a bracket there
      instead, and such an ID would not parse. */
  lemma {:induction false} MetaIsNotLiteral(ps: seq<string>, p: string)
    requires WellFormed(Pattern(ps)) && p in ps && !Plain(p)
    ensures exists v :: Match(Pattern(ps), v) != (v in ps)
  {
    var k :| 0 <= k < |p| && IsMeta(p[k]);
    var v := p[k := '['];
    if Match(Pattern(ps), p) {
      AltMetaFree(Pattern(ps));
      AnythingThere(ParseAlt(Pattern(ps)).regex, p, k, '[');
      assert v !in ps by { BracketFree(ps, v, k); }
    }
  }

  lemma {:induction false} BracketFree(ps: seq<string>, v: string, k: nat)
    requires WellFormed(Pattern(ps)) && k < |v| && v[k] == '['
    ensures v !in ps
  {
    AltConsumed(Pattern(ps));
    assert Pattern(ps)[..|Pattern(ps)|] == Pattern(ps);
    if v in ps {
      var i :| 0 <= i < |ps| && ps[i] == v;
      InJoin(ps, i, '[');
    }
  }

  /** Exactly when the pattern built from project IDs matches the IDs and nothing else: no ID
      holds a metacharacter. */
  lemma {:induction false} LiteralIff(ps: seq<string>)
    requires ps != [] && WellFormed(Pattern(ps))
    ensures (forall v :: Match(Pattern(ps), v) <==> v in ps) <==> AllPlain(ps)
  {
    if AllPlain(ps) {
      PlainIsLiteral(ps);
    } else {
      var i :| 0 <= i < |ps| && !Plain(ps[i]);
      MetaIsNotLiteral(ps, ps[i]);
    }
  }
}
