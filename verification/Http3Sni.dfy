/** The certificate map of an HTTP/3 listener (internal/app/http3.go). The snapshot's certificates
    are keyed by "sni:" + listener + NUL + name and are visited in whatever order the map yields;
    for each key the listeners are tried in whatever order their map yields. A name that two
    listeners hold a certificate for is dropped. */
module Http3Sni {
  import opened Common
  import opened Strings

  /** A certificate, by identity. */
  type Cert = int

  datatype Entry = Entry(bind: string, cert: Cert)

  datatype SniMap = SniMap(entries: map<string, Entry>, conflicts: set<string>)

  function Prefix(bind: string): string
  {
    "sni:" + bind + "\0"
  }

  function SniKey(bind: string, sni: string): string
  {
    Prefix(bind) + sni
  }

  predicate Matches(key: string, bind: string)
  {
    Prefix(bind) <= key
  }

  function NameIn(key: string, bind: string): string
    requires Matches(key, bind)
  {
    key[|Prefix(bind)|..]
  }

  /** One key whose listener was found. */
  function Add(m: SniMap, bind: string, sni: string, cert: Cert): SniMap
  {
    if sni in m.conflicts then m
    else if sni in m.entries && m.entries[sni].bind != bind then SniMap(m.entries - {sni}, m.conflicts + {sni})
    else m.(entries := m.entries[sni := Entry(bind, cert)])
  }

  /** Any enumeration of the keys, and for each key any allowed listener whose prefix it has. */
  ghost predicate Visits(certs: map<string, Cert>, allowed: set<string>, keys: seq<string>, picks: map<string, string>)
  {
    && (forall k :: k in keys <==> k in certs)
    && (forall i, j :: 0 <= i < j < |keys| ==> keys[i] != keys[j])
    && (forall k :: k in picks ==> picks[k] in allowed && Matches(k, picks[k]))
    && (forall k, b :: k in certs && b in allowed && Matches(k, b) ==> k in picks)
  }

  /** The map that this order of visits builds. */
  function Built(certs: map<string, Cert>, keys: seq<string>, picks: map<string, string>): SniMap
    requires forall k :: k in keys ==> k in certs
    requires forall k :: k in picks ==> Matches(k, picks[k])
  {
    if keys == [] then SniMap(map[], {})
    else
      var n := |keys| - 1;
      assert keys[n] in keys;
      var before := Built(certs, keys[..n], picks);
      if keys[n] in picks
      then Add(before, picks[keys[n]], NameIn(keys[n], picks[keys[n]]), certs[keys[n]])
      else before
  }

  /** No allowed listener is another one followed by NUL and more. */
  ghost predicate Separable(allowed: set<string>)
  {
    forall a, b :: a in allowed && b in allowed && a != b ==> !(a + "\0" <= b)
  }

  /** Listener b holds a certificate for the name, among these keys. */
  ghost predicate Holds(keys: seq<string>, allowed: set<string>, sni: string, b: string)
  {
    b in allowed && SniKey(b, sni) in keys
  }

  /** The names with exactly one listener, and the names with more. */
  ghost predicate IsMapFor(certs: map<string, Cert>, keys: seq<string>, allowed: set<string>, m: SniMap)
    requires forall k :: k in keys ==> k in certs
  {
    && (forall sni :: sni in m.entries ==>
          Holds(keys, allowed, sni, m.entries[sni].bind)
              && m.entries[sni].cert == certs[SniKey(m.entries[sni].bind, sni)])
    && (forall sni, b :: sni in m.entries && Holds(keys, allowed, sni, b) ==> b == m.entries[sni].bind)
    && (forall sni :: sni in m.conflicts ==> Shared(keys, allowed, sni))
    && (forall sni, b :: Holds(keys, allowed, sni, b) ==> sni in m.entries || sni in m.conflicts)
    && m.entries.Keys !! m.conflicts
  }

  ghost predicate Shared(keys: seq<string>, allowed: set<string>, sni: string)
  {
    exists a, b :: a != b && Holds(keys, allowed, sni, a) && Holds(keys, allowed, sni, b)
  }

  /** With separable listeners a key belongs to one listener only. */
  lemma KeyHasOneListener(allowed: set<string>, key: string, a: string, b: string)
    requires Separable(allowed) && a in allowed && b in allowed && Matches(key, a) && Matches(key, b)
    ensures a == b
  {
    if |a| <= |b| {
      PrefixOfPrefix(key, a, b);
    } else {
      PrefixOfPrefix(key, b, a);
    }
  }

  lemma PrefixOfPrefix(key: string, a: string, b: string)
    requires Matches(key, a) && Matches(key, b) && |a| <= |b|
    ensures a == b || a + "\0" <= b
  {
    assert a == key[4..4 + |a|] && b == key[4..4 + |b|];
    assert key[4 + |a|] == '\0';
    if |a| < |b| {
      assert b[..|a|] == a && b[|a|] == '\0';
      assert b[..|a| + 1] == a + "\0";
    }
  }

  lemma KeySplits(key: string, b: string)
    requires Matches(key, b)
    ensures SniKey(b, NameIn(key, b)) == key
  {
  }

  lemma SameKey(b: string, s: string, t: string)
    requires SniKey(b, s) == SniKey(b, t)
    ensures s == t
  {
    assert SniKey(b, s)[|Prefix(b)|..] == s && SniKey(b, t)[|Prefix(b)|..] == t;
  }

  /** Whatever the order, the finished map holds the names of exactly one listener. */
  lemma {:induction false} BuiltIsMapFor(certs: map<string, Cert>, allowed: set<string>, keys: seq<string>,
                                         picks: map<string, string>)
    requires Separable(allowed)
    requires forall k :: k in keys ==> k in certs
    requires forall i, j :: 0 <= i < j < |keys| ==> keys[i] != keys[j]
    requires forall k :: k in picks ==> picks[k] in allowed && Matches(k, picks[k])
    requires forall k, b :: k in keys && b in allowed && Matches(k, b) ==> k in picks
    ensures IsMapFor(certs, keys, allowed, Built(certs, keys, picks))
  {
    if keys != [] {
      var n := |keys| - 1;
      var key, fewer := keys[n], keys[..n];
      assert keys == fewer + [key];
      BuiltIsMapFor(certs, allowed, fewer, picks);
      var before := Built(certs, fewer, picks);
      hide IsMapFor, Built, Add, Separable;
      if key in picks {
        var b := picks[key];
        forall c | c in allowed && Matches(key, c)
          ensures c == b
        {
          KeyHasOneListener(allowed, key, c, b);
        }
        AddKeeps(certs, fewer, key, allowed, before, b);
        BuiltNext(certs, fewer, key, picks);
      } else {
        SkipKeeps(certs, fewer, key, allowed, before);
        BuiltNext(certs, fewer, key, picks);
      }
    }
  }

  lemma BuiltNext(certs: map<string, Cert>, keys: seq<string>, key: string, picks: map<string, string>)
    requires forall k :: k in keys + [key] ==> k in certs
    requires forall k :: k in picks ==> Matches(k, picks[k])
    ensures forall k :: k in keys ==> k in certs
    ensures key in certs
    ensures Built(certs, keys + [key], picks) ==
            if key in picks then Add(Built(certs, keys, picks), picks[key], NameIn(key, picks[key]), certs[key])
            else Built(certs, keys, picks)
  {
    hide Add, Matches, NameIn;
    assert forall k :: k in keys ==> k in keys + [key];
    assert key in keys + [key];
    assert (keys + [key])[..|keys|] == keys;
  }

  /** A key of no allowed listener changes nothing. */
  lemma SkipKeeps(certs: map<string, Cert>, keys: seq<string>, key: string, allowed: set<string>, m: SniMap)
    requires forall k :: k in keys + [key] ==> k in certs
    requires forall c :: c in allowed ==> !Matches(key, c)
    requires IsMapFor(certs, keys, allowed, m)
    ensures IsMapFor(certs, keys + [key], allowed, m)
  {
    forall sni, c
      ensures Holds(keys + [key], allowed, sni, c) <==> Holds(keys, allowed, sni, c)
    {
      assert SniKey(c, sni) == key ==> Matches(key, c);
    }
  }

  lemma AddKeeps(certs: map<string, Cert>, keys: seq<string>, key: string, allowed: set<string>, m: SniMap, b: string)
    requires forall k :: k in keys + [key] ==> k in certs
    requires key !in keys && b in allowed && Matches(key, b)
    requires forall c :: c in allowed && Matches(key, c) ==> c == b
    requires IsMapFor(certs, keys, allowed, m)
    ensures IsMapFor(certs, keys + [key], allowed, Add(m, b, NameIn(key, b), certs[key]))
  {
    var name, more := NameIn(key, b), keys + [key];
    KeySplits(key, b);
    forall sni, c
      ensures Holds(more, allowed, sni, c) <==> Holds(keys, allowed, sni, c) || (sni == name && c == b)
    {
      if SniKey(c, sni) == key && c in allowed {
        assert Matches(key, c);
        SameKey(b, sni, name);
      }
    }
    assert Holds(more, allowed, name, b);
    forall sni | Shared(keys, allowed, sni)
      ensures Shared(more, allowed, sni)
    {
      var x, y :| x != y && Holds(keys, allowed, sni, x) && Holds(keys, allowed, sni, y);
      assert Holds(more, allowed, sni, x) && Holds(more, allowed, sni, y);
    }
    if name in m.entries && m.entries[name].bind != b {
      assert Holds(more, allowed, name, m.entries[name].bind);
      assert Shared(more, allowed, name);
    }
  }

  lemma MapIsDetermined(certs: map<string, Cert>, keys: seq<string>, others: seq<string>, allowed: set<string>,
                        m: SniMap, k: SniMap)
    requires forall x :: x in keys <==> x in certs
    requires forall x :: x in others <==> x in certs
    requires IsMapFor(certs, keys, allowed, m) && IsMapFor(certs, others, allowed, k)
    ensures m == k
  {
    assert forall sni, b :: Holds(keys, allowed, sni, b) <==> Holds(others, allowed, sni, b);
    forall sni
      ensures sni in m.conflicts <==> Shared(keys, allowed, sni)
      ensures sni in k.conflicts <==> Shared(others, allowed, sni)
    {
      if x, y :| x != y && Holds(keys, allowed, sni, x) && Holds(keys, allowed, sni, y) {
        assert Holds(others, allowed, sni, x) && Holds(others, allowed, sni, y);
      }
      if x, y :| x != y && Holds(others, allowed, sni, x) && Holds(others, allowed, sni, y) {
        assert Holds(keys, allowed, sni, x) && Holds(keys, allowed, sni, y);
      }
    }
    forall sni
      ensures Shared(keys, allowed, sni) <==> Shared(others, allowed, sni)
    {
    }
    assert m.conflicts == k.conflicts;
    forall sni
      ensures sni in m.entries <==> sni in k.entries
      ensures sni in m.entries ==> m.entries[sni] == k.entries[sni]
    {
      if sni in m.entries {
        assert Holds(others, allowed, sni, m.entries[sni].bind);
      }
      if sni in k.entries {
        assert Holds(keys, allowed, sni, k.entries[sni].bind);
      }
    }
    assert m.entries == k.entries;
  }

  ghost predicate SameForAllOrders(certs: map<string, Cert>, allowed: set<string>)
  {
    forall k1, p1, k2, p2 :: Visits(certs, allowed, k1, p1) && Visits(certs, allowed, k2, p2) ==>
      Built(certs, k1, p1) == Built(certs, k2, p2)
  }

  /** The map is the same for every iteration order, whatever the certificates, exactly when no
      listener is another one followed by NUL. */
  lemma OrderFreeIffSeparable(allowed: set<string>)
    ensures (forall certs: map<string, Cert> :: SameForAllOrders(certs, allowed)) <==> Separable(allowed)
  {
    if Separable(allowed) {
      forall certs: map<string, Cert>
        ensures SameForAllOrders(certs, allowed)
      {
        forall k1, p1, k2, p2 | Visits(certs, allowed, k1, p1) && Visits(certs, allowed, k2, p2)
          ensures Built(certs, k1, p1) == Built(certs, k2, p2)
        {
          BuiltIsMapFor(certs, allowed, k1, p1);
          BuiltIsMapFor(certs, allowed, k2, p2);
          MapIsDetermined(certs, k1, k2, allowed, Built(certs, k1, p1), Built(certs, k2, p2));
        }
      }
    } else {
      var a, b :| a in allowed && b in allowed && a != b && a + "\0" <= b;
      TwoOutcomes(allowed, a, b);
    }
  }

  /** One certificate for the longer listener can be filed under either. */
  lemma TwoOutcomes(allowed: set<string>, a: string, b: string)
    requires a in allowed && b in allowed && a != b && a + "\0" <= b
    ensures !SameForAllOrders(map[Prefix(b) := 1], allowed)
  {
    var key := Prefix(b);
    var certs: map<string, Cert> := map[key := 1];
    assert Matches(key, b);
    assert Prefix(a) == key[..|Prefix(a)|] by {
      assert b[..|a| + 1] == a + "\0";
    }
    assert Matches(key, a);
    var p1, p2 := map[key := a], map[key := b];
    assert Visits(certs, allowed, [key], p1) && Visits(certs, allowed, [key], p2);
    assert |[key]| == 1 && [key][..0] == [key][1..];
    assert Built(certs, [key], p1).entries == map[NameIn(key, a) := Entry(a, 1)];
    assert Built(certs, [key], p2).entries == map[NameIn(key, b) := Entry(b, 1)];
    assert NameIn(key, b) == "" && |NameIn(key, a)| == |b| - |a|;
    assert NameIn(key, b) in Built(certs, [key], p2).entries;
  }

  /** The two nested loops over the certificates and the allowed listeners. */
  method BuildSniMap(certs: map<string, Cert>, allowed: set<string>)
    returns (m: SniMap, ghost keys: seq<string>, ghost picks: map<string, string>)
    ensures Visits(certs, allowed, keys, picks)
    ensures m == Built(certs, keys, picks)
    ensures Separable(allowed) ==> OnlyOutcome(certs, allowed, m)
  {
    m := SniMap(map[], {});
    keys, picks := [], map[];
    var todo := certs.Keys;
    while todo != {}
      invariant todo <= certs.Keys
      invariant forall k :: k in certs <==> k in keys || k in todo
      invariant forall k :: k in keys ==> k !in todo
      invariant forall i, j :: 0 <= i < j < |keys| ==> keys[i] != keys[j]
      invariant forall k :: k in picks ==> k in keys && picks[k] in allowed && Matches(k, picks[k])
      invariant forall k, b :: k in keys && b in allowed && Matches(k, b) ==> k in picks
      invariant m == Built(certs, keys, picks)
      decreases todo
    {
      var key :| key in todo;
      todo := todo - {key};
      var pick := FindListener(key, allowed);
      ghost var before := picks;
      if pick.Some? {
        picks := picks[key := pick.value];
        m := Add(m, pick.value, NameIn(key, pick.value), certs[key]);
      }
      SamePicks(certs, keys, before, picks);
      assert (keys + [key])[..|keys|] == keys;
      keys := keys + [key];
    }
    if Separable(allowed) {
      OneOutcome(certs, allowed, keys, picks);
    }
  }

  /** Every order of visits builds this map. */
  ghost predicate OnlyOutcome(certs: map<string, Cert>, allowed: set<string>, m: SniMap)
  {
    forall keys, picks :: Visits(certs, allowed, keys, picks) ==> Built(certs, keys, picks) == m
  }

  lemma OneOutcome(certs: map<string, Cert>, allowed: set<string>, keys: seq<string>, picks: map<string, string>)
    requires Separable(allowed) && Visits(certs, allowed, keys, picks)
    ensures OnlyOutcome(certs, allowed, Built(certs, keys, picks))
  {
    hide Separable, Visits, Built;
    OrderFreeIffSeparable(allowed);
    assert SameForAllOrders(certs, allowed);
  }

  lemma {:induction false} SamePicks(certs: map<string, Cert>, keys: seq<string>, p: map<string, string>,
                                     q: map<string, string>)
    requires forall k :: k in keys ==> k in certs
    requires forall k :: k in p ==> Matches(k, p[k])
    requires forall k :: k in q ==> Matches(k, q[k])
    requires forall k :: k in keys ==> (k in p <==> k in q) && (k in p ==> p[k] == q[k])
    ensures Built(certs, keys, p) == Built(certs, keys, q)
  {
    if keys != [] {
      SamePicks(certs, keys[..|keys| - 1], p, q);
    }
  }

  method FindListener(key: string, allowed: set<string>) returns (pick: Option<string>)
    ensures pick.Some? ==> pick.value in allowed && Matches(key, pick.value)
    ensures pick.None? ==> forall b :: b in allowed ==> !Matches(key, b)
  {
    var todo := allowed;
    while todo != {}
      invariant todo <= allowed
      invariant forall b :: b in allowed - todo ==> !Matches(key, b)
      decreases todo
    {
      var b :| b in todo;
      if Matches(key, b) {
        return Some(b);
      }
      todo := todo - {b};
    }
    pick := None;
  }

  // ---------------------------------------------------------------------------------------
  // Looking a certificate up
  // ---------------------------------------------------------------------------------------

  function EntryForRoute(m: map<string, Entry>, name: string, routeBind: string): Option<Cert>
  {
    if name !in m || (routeBind != "" && m[name].bind != routeBind) then None else Some(m[name].cert)
  }

  function CertForRoute(m: map<string, Entry>, sni: string, routeBind: string): Option<Cert>
  {
    var own := EntryForRoute(m, sni, routeBind);
    var i := FirstDot(sni);
    if own.Some? then own
    else if 0 < i < |sni| && EntryForRoute(m, "*." + sni[i + 1..], routeBind).Some?
    then EntryForRoute(m, "*." + sni[i + 1..], routeBind)
    else EntryForRoute(m, "*", routeBind)
  }

  /** The names a certificate may be filed under for this name, most specific first. */
  function CertNames(sni: string): seq<string>
  {
    var i := FirstDot(sni);
    [sni] + (if 0 < i < |sni| then ["*." + sni[i + 1..]] else []) + ["*"]
  }

  /** Listener b holds a certificate for a name under this key of the snapshot. */
  lemma HoldsUnder(keys: seq<string>, allowed: set<string>, sni: string, b: string)
    ensures Holds(keys, allowed, sni, b) <==> b in allowed && "sni:" + b + "\0" + sni in keys
  {
  }

  /** The name itself, then the wildcard for its first label, then the catch-all. */
  lemma CertNamesOf(first: string, rest: string)
    requires '.' !in first
    ensures first != "" ==>
      CertNames(first + "." + rest) == [first + "." + rest, "*." + rest, "*"] && CertNames(first) == [first, "*"]
    ensures CertNames("." + rest) == ["." + rest, "*"]
  {
    DotAfter(first, rest);
    assert (first + "." + rest)[|first| + 1..] == rest;
    NoDot(first);
  }

  /** The listener, and no other, holds a certificate for the name. */
  ghost predicate SoleHolder(keys: seq<string>, allowed: set<string>, name: string, b: string)
  {
    Holds(keys, allowed, name, b) && forall c :: Holds(keys, allowed, name, c) ==> c == b
  }

  /** The name has a sole holder that serves this route; a route without a listener takes any. */
  ghost predicate Serves(keys: seq<string>, allowed: set<string>, name: string, routeBind: string, owner: string)
  {
    SoleHolder(keys, allowed, name, owner) && (routeBind == "" || owner == routeBind)
  }

  ghost predicate Served(keys: seq<string>, allowed: set<string>, name: string, routeBind: string)
  {
    exists owner :: Serves(keys, allowed, name, routeBind, owner)
  }

  /** Name number i is the first that is served. */
  ghost predicate FirstServed(keys: seq<string>, allowed: set<string>, names: seq<string>, routeBind: string, i: int)
  {
    && 0 <= i < |names| && Served(keys, allowed, names[i], routeBind)
    && forall j :: 0 <= j < i ==> !Served(keys, allowed, names[j], routeBind)
  }

  /** This certificate is the one that the sole holder of the name has for it. */
  ghost predicate IsCertFor(certs: map<string, Cert>, keys: seq<string>, allowed: set<string>, name: string,
                            routeBind: string, c: Option<Cert>)
  {
    forall owner :: Serves(keys, allowed, name, routeBind, owner) ==>
      SniKey(owner, name) in certs && c == Some(certs[SniKey(owner, name)])
  }

  lemma EntryIsSole(certs: map<string, Cert>, allowed: set<string>, keys: seq<string>, m: SniMap, name: string,
                    routeBind: string)
    requires forall k :: k in keys ==> k in certs
    requires IsMapFor(certs, keys, allowed, m)
    ensures EntryForRoute(m.entries, name, routeBind).Some? <==> Served(keys, allowed, name, routeBind)
    ensures IsCertFor(certs, keys, allowed, name, routeBind, EntryForRoute(m.entries, name, routeBind))
  {
    if name in m.entries {
      assert SoleHolder(keys, allowed, name, m.entries[name].bind);
      if routeBind == "" || m.entries[name].bind == routeBind {
        assert Serves(keys, allowed, name, routeBind, m.entries[name].bind);
      }
    }
  }

  /** A name is served the certificate of the most specific name that has a sole holder (the route's
      own listener, if the route has one), and none exactly when there is no such name. */
  lemma CertBelongsToRoute(certs: map<string, Cert>, allowed: set<string>, keys: seq<string>, m: SniMap, sni: string,
                           routeBind: string)
    requires forall k :: k in keys ==> k in certs
    requires IsMapFor(certs, keys, allowed, m)
    ensures CertForRoute(m.entries, sni, routeBind).Some? <==>
            exists i :: FirstServed(keys, allowed, CertNames(sni), routeBind, i)
    ensures forall i :: FirstServed(keys, allowed, CertNames(sni), routeBind, i) ==>
              IsCertFor(certs, keys, allowed, CertNames(sni)[i], routeBind, CertForRoute(m.entries, sni, routeBind))
  {
    hide IsMapFor, Served, IsCertFor, EntryForRoute, Holds;
    var names := CertNames(sni);
    forall j | 0 <= j < |names|
      ensures EntryForRoute(m.entries, names[j], routeBind).Some? <==> Served(keys, allowed, names[j], routeBind)
      ensures IsCertFor(certs, keys, allowed, names[j], routeBind, EntryForRoute(m.entries, names[j], routeBind))
    {
      EntryIsSole(certs, allowed, keys, m, names[j], routeBind);
    }
    if Served(keys, allowed, names[0], routeBind) {
      assert FirstServed(keys, allowed, names, routeBind, 0);
    } else if Served(keys, allowed, names[1], routeBind) {
      assert FirstServed(keys, allowed, names, routeBind, 1);
    } else if |names| == 3 && Served(keys, allowed, names[2], routeBind) {
      assert FirstServed(keys, allowed, names, routeBind, 2);
    }
  }
}
