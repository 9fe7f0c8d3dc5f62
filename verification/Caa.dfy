/** The CAA pre-check before a certificate is ordered (internal/acme/caa.go): which record set
    applies and whether it lets the configured issuers issue, against RFC 8659. Text is ASCII; the
    resolver is a parameter. */
module Caa {
  import opened Common
  import opened Bytes

  datatype Record = Record(flags: byte, tag: string, value: string)

  datatype Answer = Records(records: seq<Record>) | NotFound | Failed

  datatype Policy = Policy(enabled: bool, allowedIssuers: seq<string>, dnsServer: string,
                           resolver: Option<string -> Answer>)

  datatype Refusal = DomainRequired | IssuersRequired | ServerRequired | LookupFailed(name: string)
                   | CriticalUnknownTag(name: string) | NotAuthorized(name: string)

  datatype Verdict = Allowed | Refused(why: Refusal)

  // ---------------------------------------------------------------------------------------
  // Text
  // ---------------------------------------------------------------------------------------

  function LowerChar(c: char): char
  {
    if 'A' <= c <= 'Z' then c - 'A' + 'a' else c
  }

  function Lower(s: string): string
  {
    seq(|s|, i requires 0 <= i < |s| => LowerChar(s[i]))
  }

  predicate IsSpace(c: char)
  {
    c == ' ' || '\t' <= c <= '\r'
  }

  function TrimLeft(s: string, cut: char -> bool): string
  {
    if s == "" || !cut(s[0]) then s else TrimLeft(s[1..], cut)
  }

  function TrimRight(s: string, cut: char -> bool): string
  {
    if s == "" || !cut(s[|s| - 1]) then s else TrimRight(s[..|s| - 1], cut)
  }

  function TrimSpace(s: string): string
  {
    TrimRight(TrimLeft(s, IsSpace), IsSpace)
  }

  function TrimQuotes(s: string): string
  {
    TrimRight(TrimLeft(s, c => c == '"'), c => c == '"')
  }

  function TrimDot(s: string): string
  {
    if s != "" && s[|s| - 1] == '.' then s[..|s| - 1] else s
  }

  /** The position of the first such character, or the length. */
  function IndexOf(s: string, c: char): (i: nat)
    ensures i <= |s| && c !in s[..i] && (i < |s| ==> s[i] == c)
  {
    if s == "" || s[0] == c then 0
    else
      var i := IndexOf(s[1..], c);
      assert s[..i + 1] == [s[0]] + s[1..][..i];
      i + 1
  }

  function Split(s: string, c: char): (parts: seq<string>)
    ensures |parts| > 0
    decreases |s|
  {
    var i := IndexOf(s, c);
    if i == |s| then [s] else [s[..i]] + Split(s[i + 1..], c)
  }

  function Join(parts: seq<string>): string
  {
    if parts == [] then "" else if |parts| == 1 then parts[0] else parts[0] + "." + Join(parts[1..])
  }

  // ---------------------------------------------------------------------------------------
  // The names that are looked up
  // ---------------------------------------------------------------------------------------

  /** The name and its parents, nearest first. */
  function Ancestors(s: string): (names: seq<string>)
    ensures |names| > 0 && names[0] == s
    decreases |s|
  {
    var i := IndexOf(s, '.');
    if i == |s| then [s] else [s] + Ancestors(s[i + 1..])
  }

  /** They are the name itself and whatever follows one of its dots (section 3 of RFC 8659). */
  lemma {:induction false} AncestorsAreParents(s: string, x: string)
    ensures x in Ancestors(s) <==> x == s || exists i :: 0 <= i < |s| && s[i] == '.' && x == s[i + 1..]
    decreases |s|
  {
    var d := IndexOf(s, '.');
    if d < |s| {
      var parent := s[d + 1..];
      AncestorsAreParents(parent, x);
      if i :| 0 <= i < |s| && s[i] == '.' && x == s[i + 1..] {
        assert i >= d by {
          assert forall j :: 0 <= j < d ==> s[..d][j] == s[j];
        }
        if i > d {
          assert parent[i - d - 1] == '.' && parent[i - d..] == s[i + 1..];
        }
      }
      if i :| 0 <= i < |parent| && parent[i] == '.' && x == parent[i + 1..] {
        assert s[i + d + 1] == '.' && s[i + d + 2..] == parent[i + 1..];
      }
      assert x in Ancestors(s) <==> x == s || x in Ancestors(parent);
      assert x == parent ==> s[d] == '.' && x == s[d + 1..];
    } else {
      assert forall j :: 0 <= j < |s| ==> s[..d][j] == s[j];
    }
  }

  lemma JoinOne(s: string)
    ensures Join([s]) == s
  {
  }

  lemma JoinMore(first: string, parts: seq<string>)
    requires |parts| > 0
    ensures Join([first] + parts) == first + "." + Join(parts)
  {
    assert ([first] + parts)[1..] == parts;
  }

  /** Splitting into labels and joining a tail of them gives the parent of that depth. */
  lemma {:induction false} JoinedTail(s: string, i: nat)
    requires i < |Split(s, '.')|
    ensures |Ancestors(s)| == |Split(s, '.')| && Join(Split(s, '.')[i..]) == Ancestors(s)[i]
    decreases |s|
  {
    FirstLabel(s);
    var d, labels := IndexOf(s, '.'), Split(s, '.');
    hide Join, Split, Ancestors, IndexOf;
    if d == |s| {
      assert labels[i..] == [s];
      JoinOne(s);
    } else {
      var rest := s[d + 1..];
      var tail := Split(rest, '.');
      if i == 0 {
        JoinedTail(rest, 0);
        assert tail[0..] == tail && labels[0..] == labels;
        JoinMore(s[..d], tail);
      } else {
        JoinedTail(rest, i - 1);
        assert labels[i..] == tail[i - 1..];
      }
    }
  }

  lemma FirstLabel(s: string)
    ensures var d := IndexOf(s, '.');
      if d == |s| then Split(s, '.') == [s] && Ancestors(s) == [s]
      else s == s[..d] + "." + s[d + 1..] && Split(s, '.') == [s[..d]] + Split(s[d + 1..], '.')
           && Ancestors(s) == [s] + Ancestors(s[d + 1..])
  {
    SplitFirst(s);
    hide IndexOf, Split;
    if IndexOf(s, '.') < |s| {
      Rejoined(s, IndexOf(s, '.'));
    }
  }

  lemma Rejoined(s: string, d: nat)
    requires d < |s| && s[d] == '.'
    ensures s == s[..d] + "." + s[d + 1..]
  {
  }

  lemma SplitFirst(s: string)
    ensures var d := IndexOf(s, '.');
      if d == |s| then Split(s, '.') == [s] else Split(s, '.') == [s[..d]] + Split(s[d + 1..], '.')
  {
    hide IndexOf;
  }

  function NonEmpty(names: seq<string>): seq<string>
  {
    if names == [] then []
    else NonEmpty(names[..|names| - 1]) + if names[|names| - 1] != "" then [names[|names| - 1]] else []
  }

  function LookupNames(domain: string): seq<string>
  {
    var d := TrimDot(Lower(TrimSpace(domain)));
    if d == "" then [] else NonEmpty(Ancestors(d))
  }

  method CaaLookupNames(domain: string) returns (out: seq<string>)
    ensures out == LookupNames(domain)
  {
    var d := TrimDot(Lower(TrimSpace(domain)));
    if d == "" {
      return [];
    }
    var labels := Split(d, '.');
    ghost var names := Ancestors(d);
    JoinedTail(d, 0);
    out := [];
    for i := 0 to |labels|
      invariant out == NonEmpty(names[..i])
    {
      JoinedTail(d, i);
      var name := Join(labels[i..]);
      assert names[..i + 1][..i] == names[..i];
      if name != "" {
        out := out + [name];
      }
    }
    assert names[..|labels|] == names;
  }

  // ---------------------------------------------------------------------------------------
  // The record set that applies
  // ---------------------------------------------------------------------------------------

  datatype Lookup = Found(name: string, records: seq<Record>) | Nothing | Error(name: string)

  predicate HasSet(a: Answer)
  {
    a.Records? && a.records != []
  }

  /** The nearest name with a record set, unless a nearer one cannot be looked up. */
  ghost predicate IsNearest(resolve: string -> Answer, names: seq<string>, r: Lookup)
  {
    match r
    case Found(name, records) =>
      exists i :: 0 <= i < |names| && names[i] == name && HasSet(resolve(name)) && resolve(name).records == records
                  && Silent(resolve, names[..i])
    case Error(name) =>
      exists i :: 0 <= i < |names| && names[i] == name && resolve(name).Failed? && Silent(resolve, names[..i])
    case Nothing => Silent(resolve, names)
  }

  /** None of these names has a record set or fails. */
  ghost predicate Silent(resolve: string -> Answer, names: seq<string>)
  {
    forall n :: n in names ==> !HasSet(resolve(n)) && !resolve(n).Failed?
  }

  lemma NotBefore(resolve: string -> Answer, names: seq<string>, i: nat, j: nat)
    requires i < |names| && j <= |names| && Silent(resolve, names[..j])
    requires HasSet(resolve(names[i])) || resolve(names[i]).Failed?
    ensures j <= i
  {
    assert forall k :: 0 <= k < j ==> names[k] in names[..j];
  }

  /** There is only one such answer. */
  lemma NearestIsUnique(resolve: string -> Answer, names: seq<string>, a: Lookup, b: Lookup)
    requires IsNearest(resolve, names, a) && IsNearest(resolve, names, b)
    ensures a == b
  {
    if !a.Nothing? && !b.Nothing? {
      var i :| 0 <= i < |names| && names[i] == a.name && (HasSet(resolve(a.name)) || resolve(a.name).Failed?)
          && Silent(resolve, names[..i]);
      var j :| 0 <= j < |names| && names[j] == b.name && (HasSet(resolve(b.name)) || resolve(b.name).Failed?)
          && Silent(resolve, names[..j]);
      NotBefore(resolve, names, i, j);
      NotBefore(resolve, names, j, i);
    }
  }

  method LookupRecordSet(resolve: string -> Answer, domain: string) returns (r: Lookup)
    ensures IsNearest(resolve, LookupNames(domain), r)
  {
    hide LookupNames;
    var names := CaaLookupNames(domain);
    for i := 0 to |names|
      invariant Silent(resolve, names[..i])
    {
      var name := names[i];
      var a := resolve(name);
      assert names[..i + 1] == names[..i] + [name];
      match a {
        case Records(records) =>
          if |records| > 0 {
            return Found(name, records);
          }
        case NotFound =>
        case Failed =>
          return Error(name);
      }
    }
    assert names[..|names|] == names;
    r := Nothing;
  }

  // ---------------------------------------------------------------------------------------
  // What the record set says
  // ---------------------------------------------------------------------------------------

  function Tag(r: Record): string
  {
    Lower(TrimSpace(r.tag))
  }

  predicate Critical(r: Record)
  {
    (r.flags / 0x80) % 2 == 1
  }

  /** The tags the program accepts on a critical record. */
  predicate KnownTag(tag: string)
  {
    tag == "issue" || tag == "issuewild" || tag == "iodef" || tag == "accounturi" || tag == "validationmethods"
  }

  function NormalizeIssuer(raw: string): string
  {
    var value := Lower(TrimSpace(raw));
    var cut := if IndexOf(value, ';') < |value| then TrimSpace(value[..IndexOf(value, ';')]) else value;
    TrimSpace(TrimDot(TrimQuotes(cut)))
  }

  /** The rule: no critical record with an unknown tag; and no applicable record, or one that names
      an allowed issuer. For a wildcard, issuewild records replace the issue records. */
  ghost predicate MayIssue(records: set<Record>, issuers: set<string>, wildcard: bool, known: string -> bool)
  {
    !Rejects(records, known) && Authorizes(records, issuers, wildcard)
  }

  ghost predicate Authorizes(records: set<Record>, issuers: set<string>, wildcard: bool)
  {
    || (forall r :: r in records ==> !Applicable(records, r, wildcard))
    || exists r :: r in records && Applicable(records, r, wildcard) && NormalizeIssuer(r.value) in issuers
  }

  ghost predicate Rejects(records: set<Record>, known: string -> bool)
  {
    exists r :: r in records && Critical(r) && !known(Tag(r))
  }

  ghost predicate Applicable(records: set<Record>, r: Record, wildcard: bool)
  {
    if wildcard && exists w :: w in records && Tag(w) == "issuewild" then Tag(r) == "issuewild" else Tag(r) == "issue"
  }

  ghost function SetOf<T>(s: seq<T>): set<T>
  {
    set x | x in s
  }

  method RejectCriticalUnknown(records: seq<Record>) returns (rejected: bool)
    ensures rejected <==> Rejects(SetOf(records), KnownTag)
  {
    for i := 0 to |records|
      invariant forall j :: 0 <= j < i ==> !Critical(records[j]) || KnownTag(Tag(records[j]))
    {
      if Critical(records[i]) && !KnownTag(Tag(records[i])) {
        assert records[i] in SetOf(records);
        return true;
      }
    }
    rejected := false;
  }

  method CollectTagged(records: seq<Record>, tag: string) returns (out: seq<Record>)
    ensures forall r :: r in out <==> r in records && Tag(r) == tag
  {
    out := [];
    for i := 0 to |records|
      invariant forall r :: r in out <==> r in records[..i] && Tag(r) == tag
    {
      assert records[..i + 1] == records[..i] + [records[i]];
      if Tag(records[i]) == tag {
        out := out + [records[i]];
      }
    }
    assert records[..|records|] == records;
  }

  method IssueRecords(records: seq<Record>, wildcard: bool) returns (out: seq<Record>)
    ensures forall r :: r in out <==> r in records && Applicable(SetOf(records), r, wildcard)
  {
    out := [];
    if wildcard {
      out := CollectTagged(records, "issuewild");
    }
    var hasIssueWild := |out| > 0;
    if hasIssueWild {
      assert out[0] in records && out[0] in SetOf(records);
    } else {
      assert wildcard ==> forall r :: r in SetOf(records) ==> r !in out && Tag(r) != "issuewild";
      out := CollectTagged(records, "issue");
    }
  }

  method AuthorizeIssuers(records: seq<Record>, issuers: seq<string>, wildcard: bool) returns (ok: bool)
    ensures ok <==> Authorizes(SetOf(records), SetOf(issuers), wildcard)
  {
    hide NormalizeIssuer, Applicable;
    var applicable := IssueRecords(records, wildcard);
    if |applicable| == 0 {
      assert forall r :: r in SetOf(records) ==> r in records && r !in applicable;
      return true;
    }
    assert applicable[0] in applicable && applicable[0] in SetOf(records);
    for i := 0 to |applicable|
      invariant forall j :: 0 <= j < i ==> NormalizeIssuer(applicable[j].value) !in issuers
    {
      var recordIssuer := NormalizeIssuer(applicable[i].value);
      for k := 0 to |issuers|
        invariant recordIssuer !in issuers[..k]
      {
        assert issuers[..k + 1] == issuers[..k] + [issuers[k]];
        if recordIssuer == issuers[k] {
          assert applicable[i] in applicable && applicable[i] in SetOf(records);
          assert recordIssuer in SetOf(issuers);
          return true;
        }
      }
      assert issuers[..|issuers|] == issuers;
    }
    assert forall r :: r in applicable ==> NormalizeIssuer(r.value) !in issuers;
    forall r | r in SetOf(records) && Applicable(SetOf(records), r, wildcard)
      ensures NormalizeIssuer(r.value) !in SetOf(issuers)
    {
      assert r in applicable;
    }
    ok := false;
  }

  /** The configured issuers: each entry may list several, separated by commas. */
  ghost function IssuerSet(raws: seq<string>): set<string>
  {
    set raw, part | raw in raws && part in Split(raw, ',') && NormalizeIssuer(part) != "" :: NormalizeIssuer(part)
  }

  method NormalizeAllowedIssuers(raws: seq<string>) returns (out: seq<string>)
    ensures SetOf(out) == IssuerSet(raws)
    ensures Distinct(out)
  {
    hide NormalizeIssuer, IssuerSet, PartSet, Split;
    var seen: set<string> := {};
    out := [];
    IssuersOfNone();
    for i := 0 to |raws|
      invariant seen == SetOf(out) == IssuerSet(raws[..i])
      invariant Distinct(out)
    {
      var parts := Split(raws[i], ',');
      IssuersOfNone();
      for j := 0 to |parts|
        invariant seen == SetOf(out) == IssuerSet(raws[..i]) + PartSet(parts[..j])
        invariant Distinct(out)
      {
        var issuer := NormalizeIssuer(parts[j]);
        PartStep(parts, j);
        if issuer != "" && issuer !in seen {
          assert SetOf(out + [issuer]) == SetOf(out) + {issuer};
          assert issuer !in out by {
            assert issuer in out ==> issuer in SetOf(out);
          }
          seen := seen + {issuer};
          out := out + [issuer];
        }
      }
      assert parts[..|parts|] == parts;
      RawStep(raws, i);
    }
    assert raws[..|raws|] == raws;
  }

  predicate Distinct(s: seq<string>)
  {
    forall i, j :: 0 <= i < j < |s| ==> s[i] != s[j]
  }

  lemma IssuersOfNone()
    ensures IssuerSet([]) == {} && PartSet([]) == {}
  {
  }

  lemma PartStep(parts: seq<string>, j: nat)
    requires j < |parts|
    ensures PartSet(parts[..j + 1]) ==
            PartSet(parts[..j]) + if NormalizeIssuer(parts[j]) != "" then {NormalizeIssuer(parts[j])} else {}
  {
    hide NormalizeIssuer;
    assert parts[..j + 1] == parts[..j] + [parts[j]];
  }

  lemma RawStep(raws: seq<string>, i: nat)
    requires i < |raws|
    ensures IssuerSet(raws[..i + 1]) == IssuerSet(raws[..i]) + PartSet(Split(raws[i], ','))
  {
    hide NormalizeIssuer, Split;
    assert raws[..i + 1] == raws[..i] + [raws[i]];
  }

  ghost function PartSet(parts: seq<string>): set<string>
  {
    set part | part in parts && NormalizeIssuer(part) != "" :: NormalizeIssuer(part)
  }

  // ---------------------------------------------------------------------------------------
  // The decision
  // ---------------------------------------------------------------------------------------

  function NormalizeDomain(domain: string): (string, bool)
  {
    var d := Lower(TrimSpace(domain));
    var wildcard := "*." <= d;
    (TrimDot(if wildcard then d[2..] else d), wildcard)
  }

  ghost function Resolver(policy: Policy, dns: string -> Answer): string -> Answer
  {
    if policy.resolver.Some? then policy.resolver.value else dns
  }

  /** The decision as a rule over sets, for a given reading of which tags are known. */
  ghost predicate IsDecision(domain: string, policy: Policy, dns: string -> Answer, known: string -> bool, v: Verdict)
  {
    var (name, wildcard) := NormalizeDomain(domain);
    var issuers := IssuerSet(policy.allowedIssuers);
    if !policy.enabled then v == Allowed
    else if name == "" then v == Refused(DomainRequired)
    else if issuers == {} then v == Refused(IssuersRequired)
    else if policy.resolver.None? && TrimSpace(policy.dnsServer) == "" then v == Refused(ServerRequired)
    else exists r :: Consulted(name, policy, dns, r) && v == Ruling(r, issuers, wildcard, known)
  }

  /** The lookup that decides about this name. */
  ghost predicate Consulted(name: string, policy: Policy, dns: string -> Answer, r: Lookup)
  {
    IsNearest(Resolver(policy, dns), LookupNames(name), r)
  }

  /** Nothing is missing that a lookup needs. */
  ghost predicate Configured(domain: string, policy: Policy)
  {
    && policy.enabled && NormalizeDomain(domain).0 != "" && IssuerSet(policy.allowedIssuers) != {}
    && (policy.resolver.Some? || TrimSpace(policy.dnsServer) != "")
  }

  ghost function Ruling(r: Lookup, issuers: set<string>, wildcard: bool, known: string -> bool): Verdict
  {
    match r
    case Error(at) => Refused(LookupFailed(at))
    case Nothing => Allowed
    case Found(at, records) =>
      if MayIssue(SetOf(records), issuers, wildcard, known) then Allowed
      else if Rejects(SetOf(records), known) then Refused(CriticalUnknownTag(at))
      else Refused(NotAuthorized(at))
  }

  method CheckCAAIssuance(domain: string, policy: Policy, dns: string -> Answer) returns (v: Verdict)
    ensures IsDecision(domain, policy, dns, KnownTag, v)
  {
    hide NormalizeDomain, IssuerSet, LookupNames, Rejects, Authorizes, TrimSpace, IsNearest;
    if !policy.enabled {
      return Allowed;
    }
    var (name, wildcard) := NormalizeDomain(domain);
    if name == "" {
      return Refused(DomainRequired);
    }
    var issuers := NormalizeAllowedIssuers(policy.allowedIssuers);
    assert |issuers| == 0 <==> SetOf(issuers) == {} by {
      assert |issuers| > 0 ==> issuers[0] in SetOf(issuers);
    }
    if |issuers| == 0 {
      return Refused(IssuersRequired);
    }
    var resolve := dns;
    match policy.resolver {
      case Some(f) => resolve := f;
      case None =>
        if TrimSpace(policy.dnsServer) == "" {
          return Refused(ServerRequired);
        }
    }
    var r := LookupRecordSet(resolve, name);
    match r {
      case Error(at) => v := Refused(LookupFailed(at));
      case Nothing => v := Allowed;
      case Found(at, records) =>
        var rejected := RejectCriticalUnknown(records);
        if rejected {
          v := Refused(CriticalUnknownTag(at));
        } else {
          var ok := AuthorizeIssuers(records, issuers, wildcard);
          v := if ok then Allowed else Refused(NotAuthorized(at));
        }
    }
    assert resolve == Resolver(policy, dns);
    assert Consulted(name, policy, dns, r);
    assert v == Ruling(r, IssuerSet(policy.allowedIssuers), wildcard, KnownTag);
  }

  /** The answers of two resolvers agree up to the order and repetition of records. */
  ghost predicate SameAnswers(f: string -> Answer, g: string -> Answer)
  {
    forall n :: (HasSet(f(n)) <==> HasSet(g(n))) && (f(n).Failed? <==> g(n).Failed?)
                && (HasSet(f(n)) ==> SetOf(f(n).records) == SetOf(g(n).records))
  }

  /** The decision does not depend on the order or the repetition of records or issuers. */
  lemma DecisionIsOrderFree(domain: string, p: Policy, q: Policy, dns: string -> Answer, known: string -> bool,
                            v: Verdict, w: Verdict)
    requires p.enabled == q.enabled && p.dnsServer == q.dnsServer && p.resolver.Some? && q.resolver.Some?
    requires SameAnswers(p.resolver.value, q.resolver.value)
    requires forall raw :: raw in p.allowedIssuers <==> raw in q.allowedIssuers
    requires IsDecision(domain, p, dns, known, v) && IsDecision(domain, q, dns, known, w)
    ensures v == w
  {
    hide NormalizeDomain, LookupNames, Rejects, Authorizes, TrimSpace, IsNearest, NormalizeIssuer, Split;
    assert IssuerSet(p.allowedIssuers) == IssuerSet(q.allowedIssuers);
    var (name, wildcard) := NormalizeDomain(domain);
    var issuers := IssuerSet(p.allowedIssuers);
    var f, g := p.resolver.value, q.resolver.value;
    if p.enabled && name != "" && issuers != {} {
      var a :| Consulted(name, p, dns, a) && v == Ruling(a, issuers, wildcard, known);
      var b :| Consulted(name, q, dns, b) && w == Ruling(b, issuers, wildcard, known);
      NearestAgree(f, g, LookupNames(name), a, b);
    }
  }

  lemma NearestAgree(f: string -> Answer, g: string -> Answer, names: seq<string>, a: Lookup, b: Lookup)
    requires SameAnswers(f, g) && IsNearest(f, names, a) && IsNearest(g, names, b)
    ensures a.Nothing? <==> b.Nothing?
    ensures a.Error? <==> b.Error?
    ensures !a.Nothing? ==> a.name == b.name
    ensures a.Found? ==> SetOf(a.records) == SetOf(b.records)
  {
    assert forall ns :: Silent(f, ns) <==> Silent(g, ns);
    var b' := if a.Found? then Found(a.name, g(a.name).records) else a;
    assert IsNearest(g, names, b');
    NearestIsUnique(g, names, b, b');
  }

  /** Some record with this tag satisfies the condition on its issuer. */
  ghost predicate SomeTagged(records: set<Record>, tag: string, issuers: set<string>)
  {
    exists r :: r in records && Tag(r) == tag && NormalizeIssuer(r.value) in issuers
  }

  ghost predicate Tagged(records: set<Record>, tag: string)
  {
    exists r :: r in records && Tag(r) == tag
  }

  /** For a wildcard the issuewild records decide when there are any; in every other case the issue
      records do, and without any everyone may issue (sections 4.2 and 4.3 of RFC 8659). */
  lemma AuthorizesByTag(records: set<Record>, issuers: set<string>, wildcard: bool)
    ensures Authorizes(records, issuers, wildcard) <==>
            if wildcard && Tagged(records, "issuewild") then SomeTagged(records, "issuewild", issuers)
            else Tagged(records, "issue") ==> SomeTagged(records, "issue", issuers)
  {
    hide Tag, NormalizeIssuer;
  }

  /** A record that names nobody authorises nobody (section 4.2 of RFC 8659). */
  lemma EmptyIssuerForbids(records: set<Record>, raws: seq<string>, wildcard: bool)
    requires exists r :: r in records && Applicable(records, r, wildcard)
    requires forall r :: r in records && Applicable(records, r, wildcard) ==> NormalizeIssuer(r.value) == ""
    ensures !Authorizes(records, IssuerSet(raws), wildcard)
  {
  }

  // ---------------------------------------------------------------------------------------
  // Against section 4.5 of RFC 8659
  // ---------------------------------------------------------------------------------------

  /** The properties RFC 8659 itself defines; it has a critical record with any other rejected. */
  predicate StandardTag(tag: string)
  {
    tag == "issue" || tag == "issuewild" || tag == "iodef"
  }

  /** These records name an allowed issuer or restrict nobody, all their critical tags are among the
      program's five, and one of these is a tag the standard does not define. */
  ghost predicate LetThrough(records: seq<Record>, issuers: set<string>, wildcard: bool)
  {
    && Authorizes(SetOf(records), issuers, wildcard)
    && (forall x :: x in records && Critical(x) ==> KnownTag(Tag(x)))
    && exists x :: x in records && Critical(x) && (Tag(x) == "accounturi" || Tag(x) == "validationmethods")
  }

  /** The program and the standard decide differently exactly on such a nearest record set, and then
      it is the program that allows. */
  lemma LenientIff(domain: string, policy: Policy, dns: string -> Answer, v: Verdict, w: Verdict)
    requires IsDecision(domain, policy, dns, KnownTag, v) && IsDecision(domain, policy, dns, StandardTag, w)
    ensures v.Allowed? != w.Allowed? <==>
            Configured(domain, policy)
            && exists r :: Consulted(NormalizeDomain(domain).0, policy, dns, r) && r.Found?
                           && LetThrough(r.records, IssuerSet(policy.allowedIssuers), NormalizeDomain(domain).1)
    ensures v.Allowed? != w.Allowed? ==> v.Allowed?
  {
    hide NormalizeDomain, IssuerSet, LookupNames, LetThrough, MayIssue, TrimSpace, IsNearest;
    if Configured(domain, policy) {
      var (name, wildcard) := NormalizeDomain(domain);
      var issuers := IssuerSet(policy.allowedIssuers);
      var a :| Consulted(name, policy, dns, a) && v == Ruling(a, issuers, wildcard, KnownTag);
      var b :| Consulted(name, policy, dns, b) && w == Ruling(b, issuers, wildcard, StandardTag);
      forall r | Consulted(name, policy, dns, r)
        ensures r == a
      {
        NearestIsUnique(Resolver(policy, dns), LookupNames(name), r, a);
      }
      if a.Found? {
        RulingsDiffer(a.records, issuers, wildcard);
      }
    }
  }

  lemma RulingsDiffer(records: seq<Record>, issuers: set<string>, wildcard: bool)
    ensures MayIssue(SetOf(records), issuers, wildcard, StandardTag) ==>
        MayIssue(SetOf(records), issuers, wildcard, KnownTag)
    ensures LetThrough(records, issuers, wildcard) <==>
            MayIssue(SetOf(records), issuers, wildcard, KnownTag)
            && !MayIssue(SetOf(records), issuers, wildcard, StandardTag)
  {
    hide Tag, Authorizes;
  }

  function AccountRecord(): Record
  {
    Record(0x80, "accounturi", "")
  }

  /** Every name has this one record, and one issuer is allowed. */
  function AccountPolicy(): Policy
  {
    Policy(true, ["x"], "", Some(_ => Records([AccountRecord()])))
  }

  /** One critical accounturi record is such a set: the program lets the issuer go ahead and the
      standard does not. */
  lemma LenientWitness(dns: string -> Answer)
    ensures IsDecision("a", AccountPolicy(), dns, KnownTag, Allowed)
    ensures IsDecision("a", AccountPolicy(), dns, StandardTag, Refused(CriticalUnknownTag("a")))
  {
    hide NormalizeDomain, LookupNames, IssuerSet, TrimSpace, Ruling, IsNearest;
    OneLabel();
    OneIssuer();
    var r := Found("a", [AccountRecord()]);
    AccountIsNearest(dns);
    assert Consulted("a", AccountPolicy(), dns, r);
    AccountRulings(IssuerSet(["x"]));
  }

  lemma AccountIsNearest(dns: string -> Answer)
    ensures IsNearest(Resolver(AccountPolicy(), dns), ["a"], Found("a", [AccountRecord()]))
  {
    assert ["a"][0] == "a" && ["a"][..0] == [];
  }

  lemma AccountRulings(issuers: set<string>)
    ensures Ruling(Found("a", [AccountRecord()]), issuers, false, KnownTag) == Allowed
    ensures Ruling(Found("a", [AccountRecord()]), issuers, false, StandardTag) == Refused(CriticalUnknownTag("a"))
  {
    hide TrimSpace, Lower, NormalizeIssuer;
    Plain("accounturi");
    var r := AccountRecord();
    assert SetOf([r]) == {r} && Tag(r) == "accounturi" && Critical(r);
  }

  lemma OneLabel()
    ensures NormalizeDomain("a") == ("a", false) && LookupNames("a") == ["a"]
  {
    Plain("a");
    assert IndexOf("a", '.') == 1;
    assert Ancestors("a") == ["a"];
    assert ["a"][..0] == [];
  }

  lemma OneIssuer()
    ensures IssuerSet(["x"]) != {}
  {
    Plain("x");
    assert IndexOf("x", ',') == 1 && Split("x", ',') == ["x"];
    assert NormalizeIssuer("x") == "x";
    assert "x" in IssuerSet(["x"]);
  }

  /** Lower-case letters are left alone. */
  lemma Plain(t: string)
    requires t != "" && forall i :: 0 <= i < |t| ==> 'a' <= t[i] <= 'z'
    ensures Lower(t) == t && TrimSpace(t) == t && TrimQuotes(t) == t && TrimDot(t) == t
  {
  }
}
