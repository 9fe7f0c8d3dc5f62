/** Byte-wise string order and sorted enumerations, as the standard library's string sort gives
    them. */
module Strings {

  predicate Less(a: string, b: string)
  {
    if b == "" then false
    else if a == "" then true
    else a[0] < b[0] || (a[0] == b[0] && Less(a[1..], b[1..]))
  }

  lemma {:induction false} LessTotal(a: string, b: string)
    ensures Less(a, b) || Less(b, a) || a == b
    ensures !(Less(a, b) && Less(b, a))
    ensures a == b ==> !Less(a, b)
  {
    if a != "" && b != "" {
      LessTotal(a[1..], b[1..]);
      assert a == [a[0]] + a[1..] && b == [b[0]] + b[1..];
    }
  }

  lemma {:induction false} LessTransitive(a: string, b: string, c: string)
    requires Less(a, b) && Less(b, c)
    ensures Less(a, c)
  {
    if a != "" && a[0] == b[0] && b[0] == c[0] {
      LessTransitive(a[1..], b[1..], c[1..]);
    }
  }

  /** `list` holds the elements of `s`, each once, in increasing order. */
  ghost predicate SortedList(list: seq<string>, s: set<string>)
  {
    && (forall x :: x in list <==> x in s)
    && (forall i, j :: 0 <= i < j < |list| ==> Less(list[i], list[j]))
  }

  /** A set has only one sorted list. */
  lemma {:induction false} SortedListUnique(a: seq<string>, b: seq<string>, s: set<string>)
    requires SortedList(a, s) && SortedList(b, s)
    ensures a == b
    decreases |a|
  {
    if a == [] {
      assert s == {};
      assert forall i :: 0 <= i < |b| ==> b[i] in s;
    } else {
      assert a[0] in a;
      assert b != [] && b[0] in b;
      FirstIsLeast(a, s, b[0]);
      FirstIsLeast(b, s, a[0]);
      LessTotal(a[0], b[0]);
      TailSorted(a, s);
      TailSorted(b, s);
      SortedListUnique(a[1..], b[1..], s - {a[0]});
      assert a == [a[0]] + a[1..] && b == [b[0]] + b[1..];
    }
  }

  lemma FirstIsLeast(a: seq<string>, s: set<string>, x: string)
    requires SortedList(a, s) && a != [] && x in s
    ensures x == a[0] || Less(a[0], x)
  {
    assert x in a;
  }

  lemma TailSorted(a: seq<string>, s: set<string>)
    requires SortedList(a, s) && a != []
    ensures SortedList(a[1..], s - {a[0]})
  {
    forall x
      ensures x in a[1..] <==> x in s - {a[0]}
    {
      LessTotal(a[0], a[0]);
      if x in a[1..] {
        var i :| 0 <= i < |a[1..]| && a[1..][i] == x;
        assert Less(a[0], a[i + 1]);
      }
      if x in s - {a[0]} {
        var i :| 0 <= i < |a| && a[i] == x;
        assert a[1..][i - 1] == x;
      }
    }
  }

  method Least(s: set<string>) returns (m: string)
    requires s != {}
    ensures m in s && forall x :: x in s ==> x == m || Less(m, x)
  {
    m :| m in s;
    var todo := s - {m};
    while todo != {}
      invariant todo <= s && m in s
      invariant forall x :: x in s - todo ==> x == m || Less(m, x)
      decreases todo
    {
      var x :| x in todo;
      LessTotal(x, m);
      if Less(x, m) {
        forall y | y in s - todo
          ensures y == x || Less(x, y)
        {
          if y != m {
            LessTransitive(x, m, y);
          }
        }
        m := x;
      }
      todo := todo - {x};
    }
  }

  /** Collecting the keys of a map and sorting them. */
  method Sorted(s: set<string>) returns (list: seq<string>)
    ensures SortedList(list, s)
  {
    list := [];
    var rest := s;
    while rest != {}
      invariant rest <= s
      invariant forall x :: x in s <==> x in rest || x in list
      invariant forall i, j :: 0 <= i < j < |list| ==> Less(list[i], list[j])
      invariant forall i, x :: 0 <= i < |list| && x in rest ==> Less(list[i], x)
      decreases rest
    {
      var m := Least(rest);
      list := list + [m];
      rest := rest - {m};
    }
  }

  /** The position of the first dot, or the length. */
  function FirstDot(host: string): (i: nat)
    ensures i <= |host| && '.' !in host[..i] && (i < |host| ==> host[i] == '.')
  {
    if host == "" || host[0] == '.' then 0
    else
      var i := FirstDot(host[1..]);
      assert host[..i + 1] == [host[0]] + host[1..][..i];
      i + 1
  }

  lemma {:induction false} DotAfter(first: string, rest: string)
    requires '.' !in first
    ensures FirstDot(first + "." + rest) == |first|
  {
    if first != "" {
      assert first[0] in first;
      assert forall x :: x in first[1..] ==> x in first;
      DotAfter(first[1..], rest);
      assert (first + "." + rest)[1..] == first[1..] + "." + rest;
    }
  }

  lemma {:induction false} NoDot(s: string)
    requires '.' !in s
    ensures FirstDot(s) == |s|
  {
    if s != "" {
      assert s[0] in s;
      assert forall x :: x in s[1..] ==> x in s;
      NoDot(s[1..]);
    }
  }

  /** The order is that of the first differing character, and a beginning comes before the whole. */
  lemma {:induction false} LessAtDifference(p: string, s: string, t: string)
    ensures Less(p + s, p + t) <==> Less(s, t)
    ensures s != "" && t != "" && s[0] != t[0] ==> (Less(s, t) <==> s[0] < t[0])
    ensures Less(s, "") == false && (t != "" ==> Less("", t))
  {
    if p == "" {
      assert p + s == s && p + t == t;
    } else {
      assert (p + s)[1..] == p[1..] + s && (p + t)[1..] == p[1..] + t;
      LessAtDifference(p[1..], s, t);
    }
  }
}
