/** The HTTP/3 routing table of internal/app/http3.go: which TCP listener a host name is forwarded
    to. A host that two listeners claim is dropped, whatever the order of the sites. Splitting a
    site's host list, normalising a name and recognising an IP address belong to other packages
    and are parameters here. */
module Http3Routes {
  import opened Common
  import opened Strings

  /** One site on one TCP listener. */
  datatype Runtime = Runtime(bind: string, hosts: string)

  datatype Names = Names(split: string -> seq<string>, normalize: string -> string, isIP: string -> bool)

  datatype RouteTable = RouteTable(exact: map<string, string>, wildcard: map<string, string>, defaultBind: string,
                                   exactConflicts: seq<string>, wildcardConflicts: seq<string>)

  predicate IsWildcard(host: string)
  {
    "*." <= host
  }

  predicate MapsTo(m: map<string, string>, h: string, b: string)
  {
    h in m && m[h] == b
  }

  // ---------------------------------------------------------------------------------------
  // What the table has to be
  // ---------------------------------------------------------------------------------------

  /** The site claims the host. */
  ghost predicate Claims(n: Names, rt: Runtime, host: string)
  {
    host != "" && exists raw :: raw in n.split(rt.hosts) && n.normalize(raw) == host
  }

  /** Some site on listener b claims the host. */
  ghost predicate ClaimedBy(n: Names, sites: seq<Runtime>, host: string, b: string)
  {
    exists rt :: rt in sites && rt.bind == b && Claims(n, rt, host)
  }

  /** Exactly listener b claims the host. */
  ghost predicate OnlyBind(n: Names, sites: seq<Runtime>, host: string, b: string)
  {
    ClaimedBy(n, sites, host, b) && forall c :: ClaimedBy(n, sites, host, c) ==> c == b
  }

  ghost predicate Conflicted(n: Names, sites: seq<Runtime>, host: string)
  {
    exists b, c :: b != c && ClaimedBy(n, sites, host, b) && ClaimedBy(n, sites, host, c)
  }

  /** Entries for exactly the hosts with a single listener, conflict lists of exactly the others,
      a default exactly when there is one listener in all. */
  ghost predicate IsTableFor(n: Names, sites: seq<Runtime>, t: RouteTable)
  {
    && (forall h, b :: MapsTo(t.exact, h, b) <==> !IsWildcard(h) && OnlyBind(n, sites, h, b))
    && (forall h, b :: MapsTo(t.wildcard, h, b) <==> IsWildcard(h) && OnlyBind(n, sites, h, b))
    && (exists s :: SortedList(t.exactConflicts, s) && ConflictSet(n, sites, false, s))
    && (exists s :: SortedList(t.wildcardConflicts, s) && ConflictSet(n, sites, true, s))
    && (t.defaultBind == (if SingleBind(sites) then sites[0].bind else ""))
  }

  ghost predicate ConflictSet(n: Names, sites: seq<Runtime>, wild: bool, s: set<string>)
  {
    forall h :: h in s <==> IsWildcard(h) == wild && Conflicted(n, sites, h)
  }

  ghost predicate SingleBind(sites: seq<Runtime>)
  {
    sites != [] && forall rt :: rt in sites ==> rt.bind == sites[0].bind
  }

  /** The table does not depend on the order or the repetition of the sites. */
  lemma TableIsOrderFree(n: Names, sites: seq<Runtime>, others: seq<Runtime>, t: RouteTable, u: RouteTable)
    requires forall rt :: rt in sites <==> rt in others
    requires IsTableFor(n, sites, t) && IsTableFor(n, others, u)
    ensures t == u
  {
    SameClaims(n, sites, others);
    assert t.exact == u.exact by {
      SameMap(t.exact, u.exact);
    }
    assert t.wildcard == u.wildcard by {
      SameMap(t.wildcard, u.wildcard);
    }
    SameConflicts(n, sites, others, t.exactConflicts, u.exactConflicts, false);
    SameConflicts(n, sites, others, t.wildcardConflicts, u.wildcardConflicts, true);
    SameDefault(sites, others);
  }

  lemma SameClaims(n: Names, sites: seq<Runtime>, others: seq<Runtime>)
    requires forall rt :: rt in sites <==> rt in others
    ensures forall h, b :: ClaimedBy(n, sites, h, b) <==> ClaimedBy(n, others, h, b)
    ensures forall h, b :: OnlyBind(n, sites, h, b) <==> OnlyBind(n, others, h, b)
    ensures forall h :: Conflicted(n, sites, h) <==> Conflicted(n, others, h)
  {
    forall h, b
      ensures ClaimedBy(n, sites, h, b) <==> ClaimedBy(n, others, h, b)
    {
    }
  }

  lemma SameMap(m: map<string, string>, k: map<string, string>)
    requires forall h, b :: MapsTo(m, h, b) <==> MapsTo(k, h, b)
    ensures m == k
  {
    forall h
      ensures h in m <==> h in k
      ensures h in m ==> m[h] == k[h]
    {
      if h in m {
        assert MapsTo(m, h, m[h]);
      }
      if h in k {
        assert MapsTo(k, h, k[h]);
      }
    }
  }

  lemma SameConflicts(n: Names, sites: seq<Runtime>, others: seq<Runtime>, a: seq<string>, b: seq<string>, wild: bool)
    requires forall h :: Conflicted(n, sites, h) <==> Conflicted(n, others, h)
    requires exists s :: SortedList(a, s) && ConflictSet(n, sites, wild, s)
    requires exists s :: SortedList(b, s) && ConflictSet(n, others, wild, s)
    ensures a == b
  {
    var s :| SortedList(a, s) && ConflictSet(n, sites, wild, s);
    var u :| SortedList(b, u) && ConflictSet(n, others, wild, u);
    assert s == u;
    SortedListUnique(a, b, s);
  }

  lemma SameDefault(sites: seq<Runtime>, others: seq<Runtime>)
    requires forall rt :: rt in sites <==> rt in others
    ensures SingleBind(sites) <==> SingleBind(others)
    ensures SingleBind(sites) ==> sites[0].bind == others[0].bind
  {
    if sites != [] {
      assert sites[0] in others;
    }
    if others != [] {
      assert others[0] in sites;
    }
  }

  // ---------------------------------------------------------------------------------------
  // Building the table
  // ---------------------------------------------------------------------------------------

  /** What has been claimed so far, and the two maps kept for one kind of host. */
  ghost predicate Reflects(claims: set<(string, string)>, wild: bool, hosts: map<string, string>,
                           conflicts: set<string>)
  {
    && (forall h :: h in hosts ==> IsWildcard(h) == wild && (h, hosts[h]) in claims)
    && (forall h, b :: h in hosts && (h, b) in claims ==> b == hosts[h])
    && (forall h :: h in conflicts ==> IsWildcard(h) == wild && Disputed(claims, h))
    && (forall h, b :: (h, b) in claims && IsWildcard(h) == wild ==> h in hosts || h in conflicts)
  }

  ghost predicate Disputed(claims: set<(string, string)>, h: string)
  {
    exists b, c :: b != c && (h, b) in claims && (h, c) in claims
  }

  /** One claim, in the two maps of its kind. */
  method Record(host: string, bind: string, hosts: map<string, string>, conflicts: set<string>,
                ghost claims: set<(string, string)>)
    returns (hosts': map<string, string>, conflicts': set<string>)
    requires Reflects(claims, IsWildcard(host), hosts, conflicts)
    ensures Reflects(claims + {(host, bind)}, IsWildcard(host), hosts', conflicts')
  {
    hosts', conflicts' := hosts, conflicts;
    ghost var more := claims + {(host, bind)};
    if host in hosts && hosts[host] != bind {
      conflicts' := conflicts + {host};
      hosts' := hosts - {host};
      assert (host, hosts[host]) in more && (host, bind) in more;
      assert Disputed(more, host);
    } else if host !in conflicts {
      hosts' := hosts[host := bind];
    }
    assert forall h :: Disputed(claims, h) ==> Disputed(more, h);
  }

  /** The other kind of host is not affected by a claim. */
  lemma OtherKind(claims: set<(string, string)>, host: string, bind: string, wild: bool,
                  hosts: map<string, string>, conflicts: set<string>)
    requires Reflects(claims, wild, hosts, conflicts) && IsWildcard(host) != wild
    ensures Reflects(claims + {(host, bind)}, wild, hosts, conflicts)
  {
    assert forall h :: Disputed(claims, h) ==> Disputed(claims + {(host, bind)}, h);
  }

  /** The claims of the first i sites, and of the first j raw names of the next. */
  ghost predicate ClaimsUpTo(n: Names, sites: seq<Runtime>, i: int, j: int, claims: set<(string, string)>)
    requires 0 <= i <= |sites| && 0 <= j && (i < |sites| ==> j <= |n.split(sites[i].hosts)|)
  {
    forall h, b :: (h, b) in claims <==>
      ClaimedBy(n, sites[..i], h, b)
      || (i < |sites| && b == sites[i].bind && h != ""
          && exists k :: 0 <= k < j && n.normalize(n.split(sites[i].hosts)[k]) == h)
  }

  method BuildRouteTable(n: Names, sites: seq<Runtime>) returns (t: RouteTable)
    ensures IsTableFor(n, sites, t)
  {
    StartClaims(n, sites);
    hide OnlyBind, Conflicted, Disputed, Claims, ClaimsUpTo, Reflects, ConflictSet, SingleBind;
    var exact: map<string, string>, wildcard: map<string, string> := map[], map[];
    var exactConflicts: set<string>, wildcardConflicts: set<string> := {}, {};
    var binds: set<string> := {};
    ghost var claims: set<(string, string)> := {};
    for i := 0 to |sites|
      invariant ClaimsUpTo(n, sites, i, 0, claims)
      invariant Reflects(claims, false, exact, exactConflicts) && Reflects(claims, true, wildcard, wildcardConflicts)
      invariant binds == set rt | rt in sites[..i] :: rt.bind
    {
      var rt := sites[i];
      binds := binds + {rt.bind};
      var raws := n.split(rt.hosts);
      for j := 0 to |raws|
        invariant ClaimsUpTo(n, sites, i, j, claims)
        invariant Reflects(claims, false, exact, exactConflicts) && Reflects(claims, true, wildcard, wildcardConflicts)
      {
        var host := n.normalize(raws[j]);
        if host != "" {
          if IsWildcard(host) {
            OtherKind(claims, host, rt.bind, false, exact, exactConflicts);
            wildcard, wildcardConflicts := Record(host, rt.bind, wildcard, wildcardConflicts, claims);
          } else {
            OtherKind(claims, host, rt.bind, true, wildcard, wildcardConflicts);
            exact, exactConflicts := Record(host, rt.bind, exact, exactConflicts, claims);
          }
        }
        ClaimNext(n, sites, i, j, claims);
        if host != "" {
          claims := claims + {(host, rt.bind)};
        }
      }
      SiteNext(n, sites, i, claims);
      assert sites[..i + 1] == sites[..i] + [rt];
    }
    assert sites[..|sites|] == sites;
    var defaultBind := "";
    if |binds| == 1 {
      defaultBind :| defaultBind in binds;
    }
    OneBind(sites, binds);
    var exactList := Sorted(exactConflicts);
    var wildcardList := Sorted(wildcardConflicts);
    t := RouteTable(exact, wildcard, defaultBind, exactList, wildcardList);
    MapDone(n, sites, claims, false, exact, exactConflicts);
    MapDone(n, sites, claims, true, wildcard, wildcardConflicts);
  }

  lemma StartClaims(n: Names, sites: seq<Runtime>)
    ensures ClaimsUpTo(n, sites, 0, 0, {})
    ensures Reflects({}, false, map[], {}) && Reflects({}, true, map[], {})
  {
  }

  lemma ClaimNext(n: Names, sites: seq<Runtime>, i: int, j: int, claims: set<(string, string)>)
    requires 0 <= i < |sites| && 0 <= j < |n.split(sites[i].hosts)| && ClaimsUpTo(n, sites, i, j, claims)
    ensures var host := n.normalize(n.split(sites[i].hosts)[j]);
      ClaimsUpTo(n, sites, i, j + 1, if host != "" then claims + {(host, sites[i].bind)} else claims)
  {
  }

  lemma SiteNext(n: Names, sites: seq<Runtime>, i: int, claims: set<(string, string)>)
    requires 0 <= i < |sites| && ClaimsUpTo(n, sites, i, |n.split(sites[i].hosts)|, claims)
    ensures ClaimsUpTo(n, sites, i + 1, 0, claims)
  {
    var rt := sites[i];
    assert sites[..i + 1] == sites[..i] + [rt];
    forall h, b
      ensures ClaimedBy(n, sites[..i + 1], h, b) <==>
              ClaimedBy(n, sites[..i], h, b) || (b == rt.bind && Claims(n, rt, h))
    {
    }
  }

  lemma MapDone(n: Names, sites: seq<Runtime>, claims: set<(string, string)>, wild: bool,
                hosts: map<string, string>, conflicts: set<string>)
    requires ClaimsUpTo(n, sites, |sites|, 0, claims) && Reflects(claims, wild, hosts, conflicts)
    ensures forall h, b :: MapsTo(hosts, h, b) <==> IsWildcard(h) == wild && OnlyBind(n, sites, h, b)
    ensures ConflictSet(n, sites, wild, conflicts)
  {
    assert sites[..|sites|] == sites;
    assert forall h, b :: (h, b) in claims <==> ClaimedBy(n, sites, h, b);
    forall h
      ensures Disputed(claims, h) <==> Conflicted(n, sites, h)
    {
    }
  }

  lemma OneBind(sites: seq<Runtime>, binds: set<string>)
    requires binds == set rt | rt in sites :: rt.bind
    ensures |binds| == 1 <==> SingleBind(sites)
    ensures |binds| == 1 ==> binds == {sites[0].bind}
  {
    if |binds| == 1 {
      var b :| b in binds;
      assert |binds - {b}| == 0;
      assert binds == {b};
      assert sites != [];
      assert forall rt :: rt in sites ==> rt.bind in binds;
      assert sites[0] in sites;
    }
    if SingleBind(sites) {
      assert sites[0] in sites;
      assert binds == {sites[0].bind};
    }
  }

  // ---------------------------------------------------------------------------------------
  // Looking a host up
  // ---------------------------------------------------------------------------------------

  /** The wildcard pattern that covers the host: its first label replaced. */
  function Covering(host: string): Option<string>
  {
    var i := FirstDot(host);
    if 0 < i < |host| then Some("*." + host[i + 1..]) else None
  }

  function Lookup(m: map<string, string>, h: string): Option<string>
  {
    if h in m then Some(m[h]) else None
  }

  function Resolve(n: Names, t: RouteTable, host: string): Option<string>
  {
    var normalized := n.normalize(host);
    if normalized == "" then
      if t.defaultBind != "" then Some(t.defaultBind) else None
    else if normalized != "*" && normalized in t.exact then Some(t.exact[normalized])
    else if normalized != "*" && !n.isIP(normalized) && Covering(normalized).Some?
            && Covering(normalized).value in t.wildcard
    then Some(t.wildcard[Covering(normalized).value])
    else Lookup(t.exact, "*")
  }

  /** The patterns that may decide a host, most specific first. */
  function Patterns(n: Names, normalized: string): seq<string>
  {
    (if normalized == "*" then []
     else [normalized] + if !n.isIP(normalized) && Covering(normalized).Some? then [Covering(normalized).value] else [])
    + ["*"]
  }

  /** The index of the first pattern that exactly one listener claims. */
  ghost predicate Decides(n: Names, sites: seq<Runtime>, patterns: seq<string>, i: int, b: string)
  {
    && 0 <= i < |patterns| && OnlyBind(n, sites, patterns[i], b)
    && forall j :: 0 <= j < i ==> !Undisputed(n, sites, patterns[j])
  }

  ghost predicate Undisputed(n: Names, sites: seq<Runtime>, pattern: string)
  {
    exists b :: OnlyBind(n, sites, pattern, b)
  }

  /** What the table says about one pattern. */
  function Answer(t: RouteTable, pattern: string): Option<string>
  {
    if IsWildcard(pattern) then Lookup(t.wildcard, pattern) else Lookup(t.exact, pattern)
  }

  function FirstAnswer(t: RouteTable, patterns: seq<string>): Option<string>
  {
    if patterns == [] then None
    else if Answer(t, patterns[0]).Some? then Answer(t, patterns[0])
    else FirstAnswer(t, patterns[1..])
  }

  lemma AnswerIsOnlyBind(n: Names, sites: seq<Runtime>, t: RouteTable, p: string)
    requires IsTableFor(n, sites, t)
    ensures forall b :: OnlyBind(n, sites, p, b) <==> Answer(t, p) == Some(b)
    ensures Undisputed(n, sites, p) <==> Answer(t, p).Some?
  {
    assert forall b :: MapsTo(t.exact, p, b) || MapsTo(t.wildcard, p, b) ==> OnlyBind(n, sites, p, b);
    forall b
      ensures OnlyBind(n, sites, p, b) <==> Answer(t, p) == Some(b)
    {
      assert MapsTo(t.exact, p, b) <==> !IsWildcard(p) && OnlyBind(n, sites, p, b);
      assert MapsTo(t.wildcard, p, b) <==> IsWildcard(p) && OnlyBind(n, sites, p, b);
    }
    if Answer(t, p).Some? {
      assert OnlyBind(n, sites, p, Answer(t, p).value);
    }
  }

  lemma {:induction false} FirstAnswerDecides(n: Names, sites: seq<Runtime>, t: RouteTable, ps: seq<string>, b: string)
    requires IsTableFor(n, sites, t)
    ensures FirstAnswer(t, ps) == Some(b) <==> exists i :: Decides(n, sites, ps, i, b)
  {
    if ps != [] {
      hide IsTableFor, OnlyBind;
      AnswerIsOnlyBind(n, sites, t, ps[0]);
      FirstAnswerDecides(n, sites, t, ps[1..], b);
      if i :| Decides(n, sites, ps, i, b) {
        if i > 0 {
          assert !Undisputed(n, sites, ps[0]);
          assert forall j :: 0 <= j < i - 1 ==> ps[1..][j] == ps[j + 1];
          assert Decides(n, sites, ps[1..], i - 1, b);
        }
      }
      if FirstAnswer(t, ps) == Some(b) {
        if Answer(t, ps[0]).Some? {
          assert Decides(n, sites, ps, 0, b);
        } else {
          var i :| Decides(n, sites, ps[1..], i, b);
          assert forall j :: 0 < j < i + 1 ==> ps[j] == ps[1..][j - 1];
          assert Decides(n, sites, ps, i + 1, b);
        }
      }
    }
  }

  lemma ResolveIsFirstAnswer(n: Names, t: RouteTable, host: string)
    requires n.normalize(host) != "" && (IsWildcard(n.normalize(host)) ==> !n.isIP(n.normalize(host)))
    requires forall p :: p in t.exact ==> !IsWildcard(p)
    ensures Resolve(n, t, host) == FirstAnswer(t, Patterns(n, n.normalize(host)))
  {
    var name := n.normalize(host);
    assert !IsWildcard("*");
    assert FirstAnswer(t, ["*"]) == Lookup(t.exact, "*");
    if Covering(name).Some? {
      var c := Covering(name).value;
      assert c[..2] == "*." && IsWildcard(c);
      assert [c, "*"][1..] == ["*"] && [name, c, "*"][1..] == [c, "*"];
    }
    assert [name, "*"][1..] == ["*"];
    if IsWildcard(name) {
      CoveringOfWildcard(name);
    }
  }

  /** A named host is routed to b exactly when b is the only listener claiming the most specific
      undisputed pattern. (A name that starts with "*." is no IP address.) */
  lemma ResolveIsMostSpecific(n: Names, sites: seq<Runtime>, t: RouteTable, host: string, b: string)
    requires IsTableFor(n, sites, t)
    requires n.normalize(host) != "" && (IsWildcard(n.normalize(host)) ==> !n.isIP(n.normalize(host)))
    ensures Resolve(n, t, host) == Some(b) <==> exists i :: Decides(n, sites, Patterns(n, n.normalize(host)), i, b)
  {
    forall p | p in t.exact
      ensures !IsWildcard(p)
    {
      assert MapsTo(t.exact, p, t.exact[p]);
    }
    ResolveIsFirstAnswer(n, t, host);
    FirstAnswerDecides(n, sites, t, Patterns(n, n.normalize(host)), b);
  }

  /** A name of several labels is routed to its own listener; failing a sole one, to that of the
      wildcard for its first label; failing that, to the catch-all's. An address has no wildcard. */
  lemma RouteOfName(n: Names, sites: seq<Runtime>, t: RouteTable, host: string, first: string, rest: string, b: string)
    requires IsTableFor(n, sites, t) && n.normalize(host) == first + "." + rest
    requires first != "" && '.' !in first && first != "*"
    ensures var name, wild := first + "." + rest, "*." + rest;
      Resolve(n, t, host) == Some(b) <==>
      || OnlyBind(n, sites, name, b)
      || (!Undisputed(n, sites, name) && !n.isIP(name) && OnlyBind(n, sites, wild, b))
      || (!Undisputed(n, sites, name) && (n.isIP(name) || !Undisputed(n, sites, wild)) && OnlyBind(n, sites, "*", b))
  {
    hide IsTableFor, OnlyBind, Undisputed;
    var name, wild := first + "." + rest, "*." + rest;
    CoveringOfName(first, rest);
    NotWild(first, rest);
    assert name != "*" && IsWildcard(wild) && !IsWildcard("*");
    AnswerIsOnlyBind(n, sites, t, name);
    AnswerIsOnlyBind(n, sites, t, wild);
    AnswerIsOnlyBind(n, sites, t, "*");
  }

  lemma NotWild(first: string, rest: string)
    requires first != "" && '.' !in first && first != "*"
    ensures !("*." <= first + "." + rest) && first + "." + rest != "*" && "*." <= "*." + rest && !("*." <= "*")
  {
    var name := first + "." + rest;
    assert name[0] == first[0] && first[0] in first;
    if |first| > 1 {
      assert name[1] == first[1] && first[1] in first;
    } else {
      assert first == [first[0]];
    }
    assert |name| > 1;
  }

  lemma CoveringOfName(first: string, rest: string)
    requires first != "" && '.' !in first
    ensures Covering(first + "." + rest) == Some("*." + rest)
  {
    DotAfter(first, rest);
    assert (first + "." + rest)[|first| + 1..] == rest;
  }

  /** A pattern covers itself. */
  lemma CoveringOfWildcard(name: string)
    requires IsWildcard(name)
    ensures Covering(name) == Some(name)
  {
    assert name[0] == '*' && name[1] == '.';
    assert name[1..][0] == '.';
    assert FirstDot(name[1..]) == 0;
    assert name == "*." + name[2..];
  }

  /** An empty host goes to the only listener there is, if there is only one. */
  lemma ResolveDefault(n: Names, sites: seq<Runtime>, t: RouteTable, host: string, b: string)
    requires IsTableFor(n, sites, t) && n.normalize(host) == ""
    ensures Resolve(n, t, host) == Some(b) <==> SingleBind(sites) && b == sites[0].bind && b != ""
  {
  }
}
