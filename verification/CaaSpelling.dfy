/** How the CAA pre-check reads what it is given (internal/acme/caa.go): domains, issuers, tags and
    lists, each in any spelling, and the decision for a name however it is spelled. Nothing here
    depends on how the trimming and cutting is done. */
module CaaSpelling {
  import opened Common
  import opened Bytes
  import opened Caa

  predicate BlankChar(c: char)
  {
    c == ' ' || c == '\t' || c == '\n' || c == '\r' || c as int == 11 || c as int == 12
  }

  predicate Blank(s: string)
  {
    forall i :: 0 <= i < |s| ==> BlankChar(s[i])
  }

  /** t is s with its upper-case letters made lower-case. */
  predicate InLowerCase(s: string, t: string)
  {
    && |s| == |t| && (forall i :: 0 <= i < |t| ==> !('A' <= t[i] <= 'Z'))
    && (forall i :: 0 <= i < |t| ==> s[i] == t[i] || ('A' <= s[i] <= 'Z' && t[i] as int == s[i] as int + 32))
  }

  /** Neither upper case nor blanks. */
  predicate Plain(t: string)
  {
    forall i :: 0 <= i < |t| ==> !('A' <= t[i] <= 'Z') && !BlankChar(t[i])
  }

  // ---------------------------------------------------------------------------------------
  // Trimming and lower case
  // ---------------------------------------------------------------------------------------

  predicate Cuts(s: string, cut: char -> bool)
  {
    forall i :: 0 <= i < |s| ==> cut(s[i])
  }

  lemma SpaceIsBlank(s: string)
    ensures Blank(s) <==> Cuts(s, IsSpace)
  {
  }

  lemma {:induction false} TrimLeftSkips(a: string, s: string, cut: char -> bool)
    requires Cuts(a, cut) && (s == "" || !cut(s[0]))
    ensures TrimLeft(a + s, cut) == s
  {
    if a == "" {
      assert a + s == s;
    } else {
      assert (a + s)[1..] == a[1..] + s;
      TrimLeftSkips(a[1..], s, cut);
    }
  }

  lemma {:induction false} TrimRightSkips(s: string, b: string, cut: char -> bool)
    requires Cuts(b, cut) && (s == "" || !cut(s[|s| - 1]))
    ensures TrimRight(s + b, cut) == s
    decreases |b|
  {
    if b == "" {
      assert s + b == s;
    } else {
      assert (s + b)[..|s + b| - 1] == s + b[..|b| - 1];
      TrimRightSkips(s, b[..|b| - 1], cut);
    }
  }

  /** What precedes a character that is not cut stays. */
  lemma {:induction false} TrimRightKeeps(s: string, c: char, p: string, cut: char -> bool)
    requires !cut(c)
    ensures TrimRight(s + [c] + p, cut) == s + [c] + TrimRight(p, cut)
    decreases |p|
  {
    if p == "" {
      assert s + [c] + p == s + [c];
    } else if cut(p[|p| - 1]) {
      assert (s + [c] + p)[..|s + [c] + p| - 1] == s + [c] + p[..|p| - 1];
      TrimRightKeeps(s, c, p[..|p| - 1], cut);
    }
  }

  /** Surrounding blanks go, and nothing else. */
  lemma Trimmed(a: string, s: string, b: string)
    requires Blank(a) && Blank(b) && (s != "" ==> !BlankChar(s[0]) && !BlankChar(s[|s| - 1]))
    ensures TrimSpace(a + s + b) == s
  {
    SpaceIsBlank(a);
    SpaceIsBlank(b);
    if s == "" {
      SpaceIsBlank(a + b);
      assert a + s + b == a + b && a + b + "" == a + b;
      TrimLeftSkips(a + b, "", IsSpace);
    } else {
      assert a + s + b == a + (s + b);
      TrimLeftSkips(a, s + b, IsSpace);
      TrimRightSkips(s, b, IsSpace);
    }
  }

  lemma BlankIff(s: string)
    ensures TrimSpace(s) == "" <==> Blank(s)
  {
    if Blank(s) {
      Trimmed(s, "", "");
      assert s + "" + "" == s;
    } else {
      SomethingStays(s);
    }
  }

  lemma {:induction false} SomethingStays(s: string)
    requires !Blank(s)
    ensures TrimSpace(s) != ""
  {
    var left := LeftStays(s);
    RightStays(TrimLeft(s, IsSpace));
  }

  lemma {:induction false} LeftStays(s: string) returns (t: string)
    requires !Blank(s)
    ensures t == TrimLeft(s, IsSpace) && t != "" && !IsSpace(t[0])
    decreases |s|
  {
    t := TrimLeft(s, IsSpace);
    if IsSpace(s[0]) {
      var i :| 0 <= i < |s| && !BlankChar(s[i]);
      assert BlankChar(s[0]) && s[1..][i - 1] == s[i];
      t := LeftStays(s[1..]);
    }
  }

  lemma {:induction false} RightStays(s: string)
    requires s != "" && !IsSpace(s[0])
    ensures TrimRight(s, IsSpace) != ""
    decreases |s|
  {
    if IsSpace(s[|s| - 1]) {
      RightStays(s[..|s| - 1]);
    }
  }

  lemma Lowered(s: string, t: string)
    requires InLowerCase(s, t)
    ensures Lower(s) == t
  {
  }

  lemma LowerParts(s: string, t: string)
    ensures Lower(s + t) == Lower(s) + Lower(t)
  {
  }

  lemma LowerBlank(b: string)
    requires Blank(b)
    ensures Lower(b) == b
  {
  }

  /** Letters in any case between blanks are read as the plain word. */
  lemma WordSpelling(a: string, s: string, b: string, t: string)
    requires Blank(a) && Blank(b) && Plain(t) && InLowerCase(s, t)
    ensures Lower(TrimSpace(a + s + b)) == t
  {
    if s != "" {
      NotBlank(s, t, 0);
      NotBlank(s, t, |s| - 1);
    }
    Trimmed(a, s, b);
    Lowered(s, t);
  }

  lemma NotBlank(s: string, t: string, i: int)
    requires InLowerCase(s, t) && 0 <= i < |s| && !BlankChar(t[i])
    ensures !BlankChar(s[i])
  {
  }

  // ---------------------------------------------------------------------------------------
  // Domains
  // ---------------------------------------------------------------------------------------

  /** A name in its plain form: no wildcard mark, no final dot. */
  predicate PlainName(d: string)
  {
    d != "" && Plain(d) && d[|d| - 1] != '.' && !("*." <= d + ".")
  }

  function Marked(d: string, wildcard: bool, dot: bool): string
  {
    (if wildcard then "*." else "") + d + (if dot then "." else "")
  }

  /** The name and the wildcard mark are found, whatever the case, the blanks around and a final dot. */
  lemma DomainSpelling(a: string, s: string, b: string, d: string, wildcard: bool, dot: bool)
    requires Blank(a) && Blank(b) && PlainName(d) && InLowerCase(s, Marked(d, wildcard, dot))
    ensures NormalizeDomain(a + s + b) == (d, wildcard)
  {
    hide TrimSpace, Lower, InLowerCase, PlainName, Blank, Marked, TrimDot;
    MarkedIsPlain(d, wildcard, dot);
    WordSpelling(a, s, b, Marked(d, wildcard, dot));
    MarkIsFound(d, wildcard, dot);
  }

  lemma MarkIsFound(d: string, wildcard: bool, dot: bool)
    requires PlainName(d)
    ensures var t := Marked(d, wildcard, dot);
      ("*." <= t <==> wildcard) && TrimDot(if wildcard then t[2..] else t) == d
  {
    hide Plain;
    var t, named := Marked(d, wildcard, dot), d + if dot then "." else "";
    assert named <= d + "." && named[|named| - 1] == if dot then '.' else d[|d| - 1];
    assert t == if wildcard then "*." + named else named;
  }

  lemma MarkedIsPlain(d: string, wildcard: bool, dot: bool)
    requires PlainName(d)
    ensures Plain(Marked(d, wildcard, dot))
  {
    var front, back := if wildcard then "*." else "", if dot then "." else "";
    assert Plain(front) && Plain(back);
    PlainParts(front, d);
    PlainParts(front + d, back);
  }

  lemma PlainParts(s: string, t: string)
    requires Plain(s) && Plain(t)
    ensures Plain(s + t)
  {
  }

  /** A lone star is the one name that a final dot changes. */
  lemma LoneStar()
    ensures NormalizeDomain("*") == ("*", false) && NormalizeDomain("*.") == ("", true)
  {
    WordSpelling("", "*", "", "*");
    WordSpelling("", "*.", "", "*.");
    assert "" + "*" + "" == "*" && "" + "*." + "" == "*.";
    assert "*."[2..] == "";
  }

  /** Blanks, a dot, and a wildcard mark without a name are no domain. */
  lemma NoDomain(a: string, b: string)
    requires Blank(a) && Blank(b)
    ensures NormalizeDomain(a).0 == "" && NormalizeDomain(a + "." + b).0 == "" && NormalizeDomain(a + "*." + b).0 == ""
  {
    hide TrimSpace, Lower;
    WordSpelling(a, "", "", "");
    WordSpelling(a, ".", b, ".");
    WordSpelling(a, "*.", b, "*.");
    assert a + "" + "" == a;
    assert "*."[2..] == "";
  }

  /** The names looked up for a plain name: the name, and what follows each of its dots. */
  lemma LookupsOf(d: string)
    requires PlainName(d)
    ensures LookupNames(d) == Ancestors(d)
  {
    hide TrimSpace, Lower, Ancestors, NonEmpty;
    WordSpelling("", d, "", d);
    assert "" + d + "" == d;
    forall x | x in Ancestors(d)
      ensures x != ""
    {
      AncestorsAreParents(d, x);
    }
    AllStay(Ancestors(d));
  }

  lemma {:induction false} AllStay(names: seq<string>)
    requires "" !in names
    ensures NonEmpty(names) == names
  {
    if names != [] {
      var n := |names| - 1;
      assert names == names[..n] + [names[n]];
      AllStay(names[..n]);
    }
  }

  /** Nearest first: the name itself, then those of the name without its first label. */
  lemma AncestorsInOrder(first: string, rest: string)
    requires '.' !in first
    ensures Ancestors(first) == [first] && Ancestors(first + "." + rest) == [first + "." + rest] + Ancestors(rest)
  {
    FirstIndex(first, '.', rest);
    var d := first + "." + rest;
    assert d == first + ['.'] + rest && d[|first| + 1..] == rest;
  }

  lemma {:induction false} FirstIndex(p: string, c: char, t: string)
    requires c !in p
    ensures IndexOf(p, c) == |p| && IndexOf(p + [c] + t, c) == |p|
  {
    if p != "" {
      assert p[0] in p && p[0] != c;
      assert forall x :: x in p[1..] ==> x in p;
      FirstIndex(p[1..], c, t);
      assert (p + [c] + t)[1..] == p[1..] + [c] + t;
    }
  }

  /** The decision for a name, however it is spelled: the first thing that is missing, or the ruling
      of the nearest record set among the name and its parents, for a wildcard exactly when the name
      is marked as one. */
  lemma DecisionForName(a: string, s: string, b: string, d: string, wildcard: bool, dot: bool, policy: Policy,
                        dns: string -> Answer, known: string -> bool, v: Verdict)
    requires Blank(a) && Blank(b) && PlainName(d) && InLowerCase(s, Marked(d, wildcard, dot))
    requires IsDecision(a + s + b, policy, dns, known, v)
    ensures var issuers := IssuerSet(policy.allowedIssuers);
      var resolve := if policy.resolver.Some? then policy.resolver.value else dns;
      if !policy.enabled then v == Allowed
      else if issuers == {} then v == Refused(IssuersRequired)
      else if policy.resolver.None? && Blank(policy.dnsServer) then v == Refused(ServerRequired)
      else exists r :: IsNearest(resolve, Ancestors(d), r) && v == Ruling(r, issuers, wildcard, known)
  {
    hide NormalizeDomain, LookupNames, IssuerSet, TrimSpace, IsNearest, Ruling, Blank;
    DomainSpelling(a, s, b, d, wildcard, dot);
    LookupsOf(d);
    BlankIff(policy.dnsServer);
    if policy.enabled && IssuerSet(policy.allowedIssuers) != {} && !(policy.resolver.None? && Blank(policy.dnsServer)) {
      var r :| Consulted(d, policy, dns, r) && v == Ruling(r, IssuerSet(policy.allowedIssuers), wildcard, known);
      assert IsNearest(Resolver(policy, dns), Ancestors(d), r);
    }
  }

  // ---------------------------------------------------------------------------------------
  // Issuers, lists and tags
  // ---------------------------------------------------------------------------------------

  predicate Quotes(q: string)
  {
    forall i :: 0 <= i < |q| ==> q[i] == '"'
  }

  /** An issuer in its plain form. */
  predicate PlainIssuer(n: string)
  {
    n != "" && Plain(n) && ';' !in n && '"' !in n && n[|n| - 1] != '.'
  }

  /** An issuer is found in any case, between blanks and quotes, with a final dot, and before any
      parameters. */
  lemma IssuerSpelling(a: string, p: string, s: string, n: string, dot: bool, q: string, b: string, params: string)
    requires Blank(a) && Blank(b) && Quotes(p) && Quotes(q) && PlainIssuer(n) && InLowerCase(s, n)
    ensures var core := p + s + (if dot then "." else "") + q;
      && NormalizeIssuer(a + core + b) == n
      && NormalizeIssuer(a + core + b + ";" + params) == n
  {
    hide TrimSpace, TrimQuotes, TrimDot;
    var end := if dot then "." else "";
    var core, low := p + s + end + q, p + n + end + q;
    CoreIsPlain(p, n, end, q);
    LowerCore(p, s, n, end, q);
    WordSpelling(a, core, b, low);
    CoreIsIssuer(p, n, dot, q);
    FirstIndex(low, ';', "");
    assert low != "" && !BlankChar(low[0]);
    BeforeParams(a, core, low, b, params);
  }

  lemma CoreIsPlain(p: string, n: string, end: string, q: string)
    requires Quotes(p) && Quotes(q) && PlainIssuer(n) && (end == "" || end == ".")
    ensures var low := p + n + end + q; Plain(low) && low != "" && ';' !in low
  {
    assert Plain(p) && Plain(q) && Plain(end);
    PlainParts(p, n);
    PlainParts(p + n, end);
    PlainParts(p + n + end, q);
    assert forall c :: c in p + n + end + q ==> c in p || c in n || c in end || c in q;
  }

  lemma LowerCore(p: string, s: string, n: string, end: string, q: string)
    requires Quotes(p) && Quotes(q) && InLowerCase(s, n) && (end == "" || end == ".")
    ensures InLowerCase(p + s + end + q, p + n + end + q)
  {
    var core, low := p + s + end + q, p + n + end + q;
    forall i | 0 <= i < |low|
      ensures !('A' <= low[i] <= 'Z')
      ensures core[i] == low[i] || ('A' <= core[i] <= 'Z' && low[i] as int == core[i] as int + 32)
    {
      if |p| <= i < |p| + |n| {
        assert core[i] == s[i - |p|] && low[i] == n[i - |p|];
      } else if i < |p| {
        assert core[i] == p[i] == low[i];
      } else if i < |p| + |n| + |end| {
        assert core[i] == end[i - |p| - |n|] == low[i];
      } else {
        assert core[i] == q[i - |p| - |n| - |end|] == low[i];
      }
    }
  }

  /** Quotes and the final dot go. */
  lemma CoreIsIssuer(p: string, n: string, dot: bool, q: string)
    requires Quotes(p) && Quotes(q) && PlainIssuer(n)
    ensures TrimSpace(TrimDot(TrimQuotes(p + n + (if dot then "." else "") + q))) == n
  {
    var quote := (c: char) => c == '"';
    var named := n + if dot then "." else "";
    assert p + n + (if dot then "." else "") + q == p + (named + q);
    assert n[0] in n && n[|n| - 1] in n;
    assert (named + q)[0] == n[0];
    TrimLeftSkips(p, named + q, c => c == '"');
    TrimRightSkips(named, q, c => c == '"');
    assert TrimDot(named) == n;
    Trimmed("", n, "");
    assert "" + n + "" == n;
  }

  /** The first semicolon ends the issuer, and blanks before it go too. */
  lemma BeforeParams(a: string, core: string, low: string, b: string, params: string)
    requires Blank(a) && Blank(b) && Plain(low) && low != "" && ';' !in low && InLowerCase(core, low)
    ensures NormalizeIssuer(a + core + b + ";" + params) == TrimSpace(TrimDot(TrimQuotes(low)))
  {
    hide TrimQuotes, TrimDot;
    var rest := TrimRight(params, IsSpace);
    NotBlank(core, low, 0);
    NotBlank(core, low, |low| - 1);
    SpaceIsBlank(a);
    assert a + core + b + ";" + params == a + (core + b + [';'] + params);
    TrimLeftSkips(a, core + b + [';'] + params, IsSpace);
    TrimRightKeeps(core + b, ';', params, IsSpace);
    LowerParts(core + b + [';'], rest);
    LowerParts(core + b, [';']);
    LowerParts(core, b);
    Lowered(core, low);
    LowerBlank(b);
    assert Lower([';']) == [';'];
    var value := low + b + [';'] + Lower(rest);
    assert Lower(TrimSpace(a + core + b + ";" + params)) == value;
    NoSemicolon(low, b);
    FirstIndex(low + b, ';', Lower(rest));
    assert value[..|low + b|] == low + b;
    Trimmed("", low, b);
    assert "" + low + b == low + b;
  }

  lemma NoSemicolon(low: string, b: string)
    requires ';' !in low && Blank(b)
    ensures ';' !in low + b
  {
    assert forall x :: x in b ==> BlankChar(x);
  }

  /** A value without an issuer names nobody: blanks, or parameters alone. */
  lemma NamesNobody(a: string, params: string)
    requires Blank(a)
    ensures NormalizeIssuer(a) == "" && NormalizeIssuer(a + ";" + params) == ""
  {
    NothingThere(a);
    ParamsAlone(a, params);
  }

  lemma NothingThere(a: string)
    requires Blank(a)
    ensures NormalizeIssuer(a) == "" && NormalizeIssuer("") == ""
  {
    BlankIff(a);
    assert Lower("") == "" && TrimSpace("") == "";
  }

  lemma ParamsAlone(a: string, params: string)
    requires Blank(a)
    ensures NormalizeIssuer(a + ";" + params) == ""
  {
    hide TrimLeft, TrimRight, Lower, Blank;
    var rest := TrimRight(params, IsSpace);
    SpaceIsBlank(a);
    assert a + ";" + params == a + ([';'] + params);
    TrimLeftSkips(a, [';'] + params, IsSpace);
    TrimRightKeeps("", ';', params, IsSpace);
    assert "" + [';'] + params == [';'] + params && "" + [';'] + rest == [';'] + rest;
    LowerParts([';'], rest);
    LowerSemicolon();
    CutAtFront(Lower(rest));
  }

  lemma LowerSemicolon()
    ensures Lower([';']) == [';']
  {
  }

  lemma CutAtFront(rest: string)
    ensures IndexOf([';'] + rest, ';') == 0 && ([';'] + rest)[..0] == ""
    ensures TrimSpace(TrimDot(TrimQuotes(TrimSpace("")))) == ""
  {
  }

  /** Lists are cut at every separator. */
  lemma SplitInParts(part: string, c: char, more: string)
    requires c !in part
    ensures Split(part, c) == [part] && Split(part + [c] + more, c) == [part] + Split(more, c)
  {
    FirstIndex(part, c, more);
    var s := part + [c] + more;
    assert s[..|part|] == part && s[|part| + 1..] == more;
  }

  /** A tag is read in any case and between blanks. */
  lemma TagSpelling(a: string, s: string, b: string, t: string, flags: byte, value: string)
    requires Blank(a) && Blank(b) && Plain(t) && InLowerCase(s, t)
    ensures Tag(Record(flags, a + s + b, value)) == t
  {
    WordSpelling(a, s, b, t);
  }

  /** The top bit makes a record critical; five tags are known. */
  lemma CriticalAndKnown(r: Record)
    ensures Critical(r) <==> r.flags >= 128
    ensures KnownTag(Tag(r)) <==> Tag(r) in {"issue", "issuewild", "iodef", "accounturi", "validationmethods"}
  {
  }
}
