/** The multi-pattern matcher of internal/ac/ac.go: a trie that `Build` turns in place into a
    total goto automaton, proved against plain substring search. State 0 is the root and, in
    a table cell, also means "no edge"; while `Build` runs, one table holds trie edges in the
    rows that still wait and automaton edges in the rows already processed. */
module AhoCorasick {
  import opened Bytes
  import opened PatternMask

  const INT32_MAX: int := 0x7fff_ffff

  datatype State = State(next: seq<int>, outputs: seq<int>)

  /** A fresh state: no edges, no outputs. */
  function EmptyState(): State
  {
    State(seq(256, _ => 0), [])
  }

  // ---------------------------------------------------------------------------------------
  // What the tables mean. `path[s]` is the word spelled by the trie edges from the root to s.
  // ---------------------------------------------------------------------------------------

  ghost predicate IsTrie(path: seq<Text>)
  {
    && |path| > 0 && path[0] == []
    && (forall s, t :: 0 <= s < t < |path| ==> path[s] != path[t])
    && (forall s :: 0 < s < |path| ==> ParentWordIn(path, s))
  }

  /** State s spells one byte more than some other state. */
  ghost predicate ParentWordIn(path: seq<Text>, s: int)
  {
    0 < s < |path| && path[s] != [] && path[s][..|path[s]| - 1] in path
  }

  ghost predicate Shaped(states: seq<State>, path: seq<Text>)
  {
    |states| == |path| && forall s :: 0 <= s < |states| ==> |states[s].next| == 256
  }

  /** Cell (s, c) holds the trie edge, or 0 when the trie has none. */
  ghost predicate TrieCell(states: seq<State>, path: seq<Text>, s: int, c: byte)
    requires Shaped(states, path) && 0 <= s < |states|
  {
    var v := states[s].next[c];
    if v == 0 then path[s] + [c] !in path else 0 < v < |path| && path[v] == path[s] + [c]
  }

  ghost predicate TrieRow(states: seq<State>, path: seq<Text>, s: int)
    requires Shaped(states, path) && 0 <= s < |states|
  {
    forall c: byte :: TrieCell(states, path, s, c)
  }

  lemma ProperSuffix(x: Text, w: Text)
    requires w != [] && x != w
    ensures IsSuffix(x, w) <==> IsSuffix(x, w[1..])
  {
    if |x| < |w| {
      assert w[1..][|w| - 1 - |x|..] == w[|w| - |x|..];
    }
  }

  /** The longest suffix of w that the trie spells. */
  ghost function LongestSuffix(path: seq<Text>, w: Text): (r: Text)
    requires [] in path
    ensures r in path && |r| <= |w|
    decreases |w|
  {
    if w in path then w else LongestSuffix(path, w[1..])
  }

  lemma {:induction false} LongestSuffixIsSuffix(path: seq<Text>, w: Text)
    requires [] in path
    ensures IsSuffix(LongestSuffix(path, w), w)
    decreases |w|
  {
    if w !in path {
      LongestSuffixIsSuffix(path, w[1..]);
      ProperSuffix(LongestSuffix(path, w), w);
    }
  }

  lemma {:induction false} LongestSuffixIsLongest(path: seq<Text>, w: Text, x: Text)
    requires [] in path && x in path
    ensures IsSuffix(x, w) <==> IsSuffix(x, LongestSuffix(path, w))
    decreases |w|
  {
    if w !in path {
      LongestSuffixIsLongest(path, w[1..], x);
      ProperSuffix(x, w);
    }
  }

  /** Cell (s, c) holds the full automaton edge. */
  ghost predicate GotoCell(states: seq<State>, path: seq<Text>, s: int, c: byte)
    requires Shaped(states, path) && IsTrie(path) && 0 <= s < |states|
  {
    var v := states[s].next[c];
    0 <= v < |path| && path[v] == LongestSuffix(path, path[s] + [c])
  }

  ghost predicate GotoRow(states: seq<State>, path: seq<Text>, s: int)
    requires Shaped(states, path) && IsTrie(path) && 0 <= s < |states|
  {
    forall c: byte :: GotoCell(states, path, s, c)
  }

  lemma {:induction false} PrefixInTrie(path: seq<Text>, w: Text, c: byte)
    requires IsTrie(path) && w + [c] in path
    ensures w in path
  {
    var s :| 0 <= s < |path| && path[s] == w + [c];
    assert ParentWordIn(path, s) && path[s][..|path[s]| - 1] == w;
  }

  /** The heart of the automaton: reading one more byte after remembering only the longest
      suffix loses nothing. */
  lemma {:induction false} SuffixStep(path: seq<Text>, w: Text, c: byte)
    requires IsTrie(path)
    ensures LongestSuffix(path, w + [c]) == LongestSuffix(path, LongestSuffix(path, w) + [c])
    decreases |w|
  {
    if w !in path {
      if w + [c] in path {
        PrefixInTrie(path, w, c);
      }
      SuffixStep(path, w[1..], c);
      assert (w + [c])[1..] == w[1..] + [c];
    }
  }

  /** Pattern numbers whose pattern is exactly w, in order of addition. */
  ghost function Own(words: seq<Text>, w: Text): seq<int>
  {
    if words == [] then []
    else
      var n := |words| - 1;
      Own(words[..n], w) + (if words[n] == w then [n] else [])
  }

  lemma {:induction false} OwnExact(words: seq<Text>, w: Text, i: int)
    ensures i in Own(words, w) <==> 0 <= i < |words| && words[i] == w
  {
    if words != [] {
      OwnExact(words[..|words| - 1], w, i);
    }
  }

  lemma {:induction false} OwnEmpty(words: seq<Text>, w: Text)
    requires w !in words
    ensures Own(words, w) == []
  {
    if words != [] {
      OwnEmpty(words[..|words| - 1], w);
    }
  }

  ghost predicate NoRepeats(s: seq<int>)
  {
    forall i, j :: 0 <= i < j < |s| ==> s[i] != s[j]
  }

  lemma {:induction false} OwnNoRepeats(words: seq<Text>, w: Text)
    ensures NoRepeats(Own(words, w))
  {
    if words != [] {
      var n := |words| - 1;
      OwnNoRepeats(words[..n], w);
      OwnExact(words[..n], w, n);
    }
  }

  /** The output list that `Build` leaves at the state spelling w: its own patterns, then
      those of the longest proper suffix state unless that is the root. */
  ghost function Outputs(words: seq<Text>, path: seq<Text>, w: Text): seq<int>
    requires [] in path
    decreases |w|
  {
    Own(words, w) +
    if w == [] || LongestSuffix(path, w[1..]) == [] then []
    else Outputs(words, path, LongestSuffix(path, w[1..]))
  }

  /** The merged list holds exactly the non-empty patterns that are suffixes of w, each once. */
  lemma {:induction false} OutputsExact(words: seq<Text>, path: seq<Text>, w: Text, i: int)
    requires IsTrie(path) && (forall p :: p in words ==> p in path) && w != []
    ensures i in Outputs(words, path, w) <==>
            0 <= i < |words| && words[i] != [] && IsSuffix(words[i], w)
    decreases |w|
  {
    OwnExact(words, w, i);
    var f := LongestSuffix(path, w[1..]);
    if f != [] {
      OutputsExact(words, path, f, i);
    }
    if 0 <= i < |words| && words[i] != w {
      ProperSuffix(words[i], w);
      LongestSuffixIsLongest(path, w[1..], words[i]);
    }
  }

  lemma NoRepeatsConcat(a: seq<int>, b: seq<int>)
    requires NoRepeats(a) && NoRepeats(b) && forall i :: i in a ==> i !in b
    ensures NoRepeats(a + b)
  {
    forall i, j | 0 <= i < j < |a + b|
      ensures (a + b)[i] != (a + b)[j]
    {
      if i < |a| <= j {
        assert a[i] in a && b[j - |a|] in b;
      }
    }
  }

  lemma {:induction false} OutputsNoRepeats(words: seq<Text>, path: seq<Text>, w: Text)
    requires IsTrie(path) && (forall p :: p in words ==> p in path)
    ensures NoRepeats(Outputs(words, path, w))
    decreases |w|
  {
    OwnNoRepeats(words, w);
    if w != [] && LongestSuffix(path, w[1..]) != [] {
      var f := LongestSuffix(path, w[1..]);
      OutputsNoRepeats(words, path, f);
      forall i | i in Own(words, w)
        ensures i !in Outputs(words, path, f)
      {
        OwnExact(words, w, i);
        OutputsExact(words, path, f, i);
      }
      NoRepeatsConcat(Own(words, w), Outputs(words, path, f));
    }
  }

  // ---------------------------------------------------------------------------------------
  // Adding patterns
  // ---------------------------------------------------------------------------------------

  ghost predicate TrieForm(states: seq<State>, path: seq<Text>)
  {
    IsTrie(path) && Shaped(states, path) && forall s :: 0 <= s < |states| ==> TrieRow(states, path, s)
  }

  /** x is the empty word or begins some pattern. */
  ghost predicate Begins(words: seq<Text>, x: Text)
  {
    x == [] || exists p :: p in words && x <= p
  }

  /** The trie with one more state, reached from `cur` by c. */
  function WithEdge(states: seq<State>, cur: int, c: byte): seq<State>
    requires 0 <= cur < |states| && |states[cur].next| == 256
  {
    (states + [EmptyState()])[cur := states[cur].(next := states[cur].next[c := |states|])]
  }

  lemma ExtendTrie(path: seq<Text>, cur: int, c: byte)
    requires IsTrie(path) && 0 <= cur < |path| && path[cur] + [c] !in path
    ensures IsTrie(path + [path[cur] + [c]])
  {
    var w := path[cur] + [c];
    var longer := path + [w];
    assert w[..|w| - 1] == path[cur] == longer[cur];
    forall s | 0 < s < |longer|
      ensures ParentWordIn(longer, s)
    {
      if s < |path| {
        assert ParentWordIn(path, s);
        var p :| 0 <= p < |path| && path[p] == path[s][..|path[s]| - 1];
        assert longer[p] == path[p];
      }
    }
  }

  lemma WithEdgeKeepsCell(states: seq<State>, path: seq<Text>, cur: int, c: byte, s: int, b: byte)
    requires TrieForm(states, path) && 0 <= cur < |states| && path[cur] + [c] !in path
    requires 0 <= s <= |states|
    ensures Shaped(WithEdge(states, cur, c), path + [path[cur] + [c]])
    ensures TrieCell(WithEdge(states, cur, c), path + [path[cur] + [c]], s, b)
  {
    var w := path[cur] + [c];
    if s == |states| {
      if w + [b] in path {
        PrefixInTrie(path, w, b);
      }
    } else {
      assert TrieRow(states, path, s) && TrieCell(states, path, s, b);
      if path[s] + [b] == w {
        assert path[s] == w[..|w| - 1] == path[cur];
      }
    }
  }

  lemma WithEdgeKeepsTrie(states: seq<State>, path: seq<Text>, cur: int, c: byte)
    requires TrieForm(states, path) && 0 <= cur < |states| && states[cur].next[c] == 0
    ensures path[cur] + [c] !in path
    ensures TrieForm(WithEdge(states, cur, c), path + [path[cur] + [c]])
  {
    assert TrieRow(states, path, cur) && TrieCell(states, path, cur, c);
    ExtendTrie(path, cur, c);
    var grown, longer := WithEdge(states, cur, c), path + [path[cur] + [c]];
    assert Shaped(grown, longer);
    forall s | 0 <= s < |grown|
      ensures TrieRow(grown, longer, s)
    {
      forall b: byte
        ensures TrieCell(grown, longer, s, b)
      {
        WithEdgeKeepsCell(states, path, cur, c, s, b);
      }
    }
  }

  /** The table carries exactly each state's own patterns. */
  ghost predicate OwnOutputs(states: seq<State>, path: seq<Text>, words: seq<Text>)
    requires |states| == |path|
  {
    forall s :: 0 <= s < |states| ==> OwnOutput(states, path, words, s)
  }

  ghost predicate OwnOutput(states: seq<State>, path: seq<Text>, words: seq<Text>, s: int)
    requires |states| == |path| && 0 <= s < |states|
  {
    states[s].outputs == Own(words, path[s])
  }

  lemma WithEdgeKeepsOwn(states: seq<State>, path: seq<Text>, words: seq<Text>, cur: int, c: byte)
    requires Shaped(states, path) && OwnOutputs(states, path, words) && 0 <= cur < |states|
    requires path[cur] + [c] !in words
    ensures OwnOutputs(WithEdge(states, cur, c), path + [path[cur] + [c]], words)
  {
    OwnEmpty(words, path[cur] + [c]);
    var grown, longer := WithEdge(states, cur, c), path + [path[cur] + [c]];
    forall s | 0 <= s < |grown|
      ensures OwnOutput(grown, longer, words, s)
    {
      assert s < |states| ==> OwnOutput(states, path, words, s);
    }
  }

  /** The table with pattern number idx recorded at state cur. */
  function WithOutput(states: seq<State>, cur: int, idx: int): seq<State>
    requires 0 <= cur < |states|
  {
    states[cur := states[cur].(outputs := states[cur].outputs + [idx])]
  }

  lemma WithOutputKeepsTrie(states: seq<State>, path: seq<Text>, words: seq<Text>, cur: int)
    requires TrieForm(states, path) && OwnOutputs(states, path, words) && 0 <= cur < |states|
    ensures TrieForm(WithOutput(states, cur, |words|), path)
    ensures OwnOutputs(WithOutput(states, cur, |words|), path, words + [path[cur]])
  {
    var after := WithOutput(states, cur, |words|);
    assert Shaped(after, path);
    forall s | 0 <= s < |after|
      ensures TrieRow(after, path, s)
    {
      assert TrieRow(states, path, s);
      assert forall c: byte :: TrieCell(states, path, s, c) ==> TrieCell(after, path, s, c);
    }
    var more := words + [path[cur]];
    assert more[..|words|] == words;
    forall s | 0 <= s < |after|
      ensures OwnOutput(after, path, more, s)
    {
      assert OwnOutput(states, path, words, s);
    }
  }

  /** A trie of `words` that is being extended along `pattern`. */
  ghost predicate Growing(states: seq<State>, path: seq<Text>, words: seq<Text>, pattern: Text)
  {
    && TrieForm(states, path)
    && OwnOutputs(states, path, words)
    && (forall p :: p in words ==> p in path)
    && (forall s :: 0 <= s < |path| ==> Wanted(words, path, s, pattern))
  }

  /** State s is there because of a pattern, or because of the one being added. */
  ghost predicate Wanted(words: seq<Text>, path: seq<Text>, s: int, pattern: Text)
    requires 0 <= s < |path|
  {
    Begins(words, path[s]) || path[s] <= pattern
  }

  lemma GrowByEdge(states: seq<State>, path: seq<Text>, words: seq<Text>, pattern: Text, cur: int, i: int)
    requires Growing(states, path, words, pattern)
    requires 0 <= cur < |states| && 0 <= i < |pattern| && path[cur] == pattern[..i]
    requires states[cur].next[pattern[i]] == 0
    ensures Growing(WithEdge(states, cur, pattern[i]), path + [path[cur] + [pattern[i]]], words, pattern)
    ensures path[cur] + [pattern[i]] == pattern[..i + 1]
  {
    var c := pattern[i];
    WithEdgeKeepsTrie(states, path, cur, c);
    WithEdgeKeepsOwn(states, path, words, cur, c);
    assert pattern[..i + 1] == path[cur] + [c];
    assert pattern[..i + 1] <= pattern;
    var longer := path + [path[cur] + [c]];
    forall s | 0 <= s < |longer|
      ensures Wanted(words, longer, s, pattern)
    {
      if s < |path| {
        assert Wanted(words, path, s, pattern);
      }
    }
  }

  lemma FollowEdge(states: seq<State>, path: seq<Text>, cur: int, pattern: Text, i: int)
    requires TrieForm(states, path)
    requires 0 <= cur < |states| && 0 <= i < |pattern| && path[cur] == pattern[..i]
    requires states[cur].next[pattern[i]] != 0
    ensures 0 < states[cur].next[pattern[i]] < |path|
    ensures path[states[cur].next[pattern[i]]] == pattern[..i + 1]
  {
    assert TrieRow(states, path, cur) && TrieCell(states, path, cur, pattern[i]);
    assert pattern[..i + 1] == path[cur] + [pattern[i]];
  }

  lemma RecordPattern(states: seq<State>, path: seq<Text>, words: seq<Text>, pattern: Text, cur: int)
    requires Growing(states, path, words, pattern) && 0 <= cur < |states| && path[cur] == pattern
    ensures Growing(WithOutput(states, cur, |words|), path, words + [pattern], [])
  {
    WithOutputKeepsTrie(states, path, words, cur);
    var more := words + [pattern];
    assert pattern in more;
    forall s | 0 <= s < |path|
      ensures Wanted(more, path, s, [])
    {
      assert Wanted(words, path, s, pattern);
      if path[s] != [] && !(path[s] <= pattern) {
        var p :| p in words && path[s] <= p;
        assert p in more;
      }
    }
  }

  // ---------------------------------------------------------------------------------------
  // The breadth-first pass
  // ---------------------------------------------------------------------------------------

  ghost predicate Parent(path: seq<Text>, s: int, t: int)
  {
    0 <= s < |path| && 0 < t < |path| && path[t] != [] && path[s] == path[t][..|path[t]| - 1]
  }

  function LastByte(w: Text): byte
    requires w != []
  {
    w[|w| - 1]
  }

  ghost predicate Known(done: set<int>, queue: seq<int>, cur: int, t: int)
  {
    t in done || t in queue || t == cur
  }

  function Depth(path: seq<Text>, s: int): nat
  {
    if 0 <= s < |path| then |path[s]| else 0
  }

  /** `done` have been expanded, `queue` wait, `cur` is being expanded. */
  ghost predicate Worklist(path: seq<Text>, done: set<int>, queue: seq<int>, cur: int)
  {
    && 0 <= cur < |path| && cur !in done && cur !in queue
    && (0 in done || cur == 0)
    && (forall s :: s in done ==> 0 <= s < |path|)
    && (forall q :: q in queue ==> 0 < q < |path| && q !in done)
    && NoRepeats(queue)
  }

  /** The queue is in order of depth and spans at most two depths. */
  ghost predicate Layered(path: seq<Text>, queue: seq<int>, cur: int)
  {
    && (forall i, j :: 0 <= i < j < |queue| ==> Depth(path, queue[i]) <= Depth(path, queue[j]))
    && (forall i :: 0 <= i < |queue| ==> Depth(path, cur) <= Depth(path, queue[i]) <= Depth(path, cur) + 1)
  }

  /** A state is known exactly when its parent has been expanded that far. */
  ghost predicate Discovered(path: seq<Text>, done: set<int>, queue: seq<int>, cur: int, c: int)
  {
    forall s, t :: Parent(path, s, t) ==>
      (Known(done, queue, cur, t) <==> s in done || (s == cur && LastByte(path[t]) < c))
  }

  /** The state of the breadth-first pass when the bytes of `cur` below c have been seen. */
  ghost predicate Frontier(path: seq<Text>, done: set<int>, queue: seq<int>, cur: int, c: int)
  {
    && IsTrie(path)
    && Worklist(path, done, queue, cur)
    && Layered(path, queue, cur)
    && Discovered(path, done, queue, cur, c)
  }

  lemma ChildWord(path: seq<Text>, s: int, t: int)
    requires Parent(path, s, t)
    ensures path[t] == path[s] + [LastByte(path[t])]
  {
  }

  /** Byte c leads nowhere. */
  lemma FrontierSkip(path: seq<Text>, done: set<int>, queue: seq<int>, cur: int, c: byte)
    requires Frontier(path, done, queue, cur, c) && path[cur] + [c] !in path
    ensures Frontier(path, done, queue, cur, c + 1)
  {
    forall s, t | Parent(path, s, t)
      ensures Known(done, queue, cur, t) <==> s in done || (s == cur && LastByte(path[t]) < c + 1)
    {
      ChildWord(path, s, t);
    }
  }

  /** Byte c leads to nxt, which is new. */
  lemma FrontierPush(path: seq<Text>, done: set<int>, queue: seq<int>, cur: int, c: byte, nxt: int)
    requires Frontier(path, done, queue, cur, c)
    requires 0 < nxt < |path| && path[nxt] == path[cur] + [c]
    ensures !Known(done, queue, cur, nxt)
    ensures Frontier(path, done, queue + [nxt], cur, c + 1)
  {
    assert Parent(path, cur, nxt);
    assert !Known(done, queue, cur, nxt);
    DiscoveredPush(path, done, queue, cur, c, nxt);
    WorklistPush(path, done, queue, cur, nxt);
    LayeredPush(path, queue, cur, nxt);
  }

  lemma DiscoveredPush(path: seq<Text>, done: set<int>, queue: seq<int>, cur: int, c: byte, nxt: int)
    requires IsTrie(path) && 0 <= cur < |path| && Discovered(path, done, queue, cur, c)
    requires 0 < nxt < |path| && path[nxt] == path[cur] + [c]
    ensures Discovered(path, done, queue + [nxt], cur, c + 1)
  {
    var longer := queue + [nxt];
    forall s, t | Parent(path, s, t)
      ensures Known(done, longer, cur, t) <==> s in done || (s == cur && LastByte(path[t]) < c + 1)
    {
      assert t in longer <==> t in queue || t == nxt;
      ChildWord(path, s, t);
      if t == nxt {
        assert path[t][..|path[t]| - 1] == path[cur];
      }
    }
  }

  lemma WorklistPush(path: seq<Text>, done: set<int>, queue: seq<int>, cur: int, nxt: int)
    requires Worklist(path, done, queue, cur) && 0 < nxt < |path| && !Known(done, queue, cur, nxt)
    ensures Worklist(path, done, queue + [nxt], cur)
  {
    var longer := queue + [nxt];
    assert forall t :: t in longer <==> t in queue || t == nxt;
    forall i, j | 0 <= i < j < |longer|
      ensures longer[i] != longer[j]
    {
      if j == |queue| {
        assert longer[i] == queue[i];
      }
    }
  }

  lemma LayeredPush(path: seq<Text>, queue: seq<int>, cur: int, nxt: int)
    requires Layered(path, queue, cur) && Depth(path, nxt) == Depth(path, cur) + 1
    ensures Layered(path, queue + [nxt], cur)
  {
    var longer := queue + [nxt];
    forall i | 0 <= i < |longer|
      ensures Depth(path, cur) <= Depth(path, longer[i]) <= Depth(path, cur) + 1
    {
      if i < |queue| {
        assert longer[i] == queue[i];
      }
    }
    forall i, j | 0 <= i < j < |longer|
      ensures Depth(path, longer[i]) <= Depth(path, longer[j])
    {
      if j < |queue| {
        assert longer[i] == queue[i] && longer[j] == queue[j];
      }
    }
  }

  /** The head of the queue is taken once `cur` has been expanded. */
  lemma FrontierNext(path: seq<Text>, done: set<int>, queue: seq<int>, cur: int)
    requires Frontier(path, done, queue, cur, 256) && queue != []
    ensures Frontier(path, done + {cur}, queue[1..], queue[0], 0)
    ensures forall t :: Known(done + {cur}, queue[1..], queue[0], t) <==> Known(done, queue, cur, t)
  {
    hide IsTrie, Layered, Worklist, Discovered;
    SameKnown(done, queue, cur);
    LayeredNext(path, queue, cur);
    WorklistNext(path, done, queue, cur);
    DiscoveredNext(path, done, queue, cur);
  }

  lemma SameKnown(done: set<int>, queue: seq<int>, cur: int)
    requires queue != []
    ensures forall t :: Known(done + {cur}, queue[1..], queue[0], t) <==> Known(done, queue, cur, t)
  {
    assert queue == [queue[0]] + queue[1..];
    assert forall t :: t in queue <==> t in queue[1..] || t == queue[0];
  }

  lemma WorklistNext(path: seq<Text>, done: set<int>, queue: seq<int>, cur: int)
    requires Worklist(path, done, queue, cur) && queue != []
    ensures Worklist(path, done + {cur}, queue[1..], queue[0])
  {
    var rest := queue[1..];
    assert queue[0] in queue;
    forall i | 0 <= i < |rest|
      ensures rest[i] == queue[i + 1] && rest[i] in queue && rest[i] != queue[0]
    {
      assert queue[i + 1] in queue;
    }
    assert forall q :: q in rest ==> q in queue && q != queue[0];
  }

  lemma DiscoveredNext(path: seq<Text>, done: set<int>, queue: seq<int>, cur: int)
    requires Discovered(path, done, queue, cur, 256) && queue != []
    ensures Discovered(path, done + {cur}, queue[1..], queue[0], 0)
  {
    hide Known, Parent;
    SameKnown(done, queue, cur);
  }

  lemma LayeredNext(path: seq<Text>, queue: seq<int>, cur: int)
    requires Layered(path, queue, cur) && queue != []
    ensures Layered(path, queue[1..], queue[0])
  {
    var rest := queue[1..];
    assert Depth(path, cur) <= Depth(path, queue[0]);
    forall i | 0 <= i < |rest|
      ensures Depth(path, queue[0]) <= Depth(path, rest[i]) <= Depth(path, queue[0]) + 1
    {
      assert rest[i] == queue[i + 1];
    }
    forall i, j | 0 <= i < j < |rest|
      ensures Depth(path, rest[i]) <= Depth(path, rest[j])
    {
      assert rest[i] == queue[i + 1] && rest[j] == queue[j + 1];
    }
  }

  /** Every state that is shallower than the one being expanded has been expanded. */
  lemma {:induction false} ShallowerIsDone(path: seq<Text>, done: set<int>, queue: seq<int>, cur: int, c: int, f: int)
    requires Frontier(path, done, queue, cur, c)
    requires 0 <= f < |path| && |path[f]| < |path[cur]|
    ensures f in done
    decreases |path[f]|
  {
    if f != 0 {
      assert ParentWordIn(path, f);
      var p :| 0 <= p < |path| && path[p] == path[f][..|path[f]| - 1];
      ShallowerIsDone(path, done, queue, cur, c, p);
      assert Parent(path, p, f);
    }
  }

  /** When the queue has run empty, every state has been expanded. */
  lemma {:induction false} EveryStateIsDone(path: seq<Text>, done: set<int>, cur: int, t: int)
    requires Frontier(path, done, [], cur, 256) && 0 <= t < |path|
    ensures t in done + {cur}
    decreases |path[t]|
  {
    if t != 0 {
      assert ParentWordIn(path, t);
      var p :| 0 <= p < |path| && path[p] == path[t][..|path[t]| - 1];
      EveryStateIsDone(path, done, cur, p);
      assert Parent(path, p, t);
    }
  }

  /** Fail links of the known states point at the longest proper suffix state. */
  ghost predicate FailLink(path: seq<Text>, fail: seq<int>, t: int)
    requires IsTrie(path)
  {
    0 < t < |path| == |fail| && 0 <= fail[t] < |path| && path[t] != []
    && path[fail[t]] == LongestSuffix(path, path[t][1..])
  }

  ghost predicate FailLinks(path: seq<Text>, fail: seq<int>, done: set<int>, queue: seq<int>, cur: int)
    requires IsTrie(path)
  {
    |fail| == |path| && forall t :: 0 < t < |path| && Known(done, queue, cur, t) ==> FailLink(path, fail, t)
  }

  /** Which cells are automaton cells already: all of an expanded row, and the bytes below c
      of the row being expanded. The others are still trie cells. */
  ghost predicate Rows(states: seq<State>, path: seq<Text>, done: set<int>, cur: int, c: int)
    requires Shaped(states, path) && IsTrie(path)
  {
    forall s, b: byte :: 0 <= s < |states| ==>
      if s in done || (s == cur && b < c) then GotoCell(states, path, s, b) else TrieCell(states, path, s, b)
  }

  /** A trie edge is already the automaton edge. */
  lemma EdgeIsGoto(states: seq<State>, path: seq<Text>, s: int, c: byte)
    requires Shaped(states, path) && IsTrie(path) && 0 <= s < |states|
    requires TrieCell(states, path, s, c) && states[s].next[c] != 0
    ensures GotoCell(states, path, s, c)
  {
  }

  /** What the fail state's automaton edge says about the longest proper suffix of w.c. */
  lemma FailStep(states: seq<State>, path: seq<Text>, fail: seq<int>, cur: int, c: byte)
    requires Shaped(states, path) && IsTrie(path) && FailLink(path, fail, cur)
    requires GotoCell(states, path, fail[cur], c)
    ensures path[states[fail[cur]].next[c]] == LongestSuffix(path, (path[cur] + [c])[1..])
  {
    SuffixStep(path, path[cur][1..], c);
    assert (path[cur] + [c])[1..] == path[cur][1..] + [c];
  }

  function WithCell(states: seq<State>, s: int, c: byte, v: int): seq<State>
    requires 0 <= s < |states| && |states[s].next| == 256
  {
    states[s := states[s].(next := states[s].next[c := v])]
  }

  /** Filling a missing edge of the row being expanded. */
  lemma FillCell(states: seq<State>, path: seq<Text>, done: set<int>, cur: int, c: byte, v: int)
    requires Shaped(states, path) && IsTrie(path) && 0 <= cur < |states| && cur !in done
    requires Rows(states, path, done, cur, c) && path[cur] + [c] !in path
    requires 0 <= v < |path| && path[v] == LongestSuffix(path, (path[cur] + [c])[1..])
    ensures Shaped(WithCell(states, cur, c, v), path)
    ensures Rows(WithCell(states, cur, c, v), path, done, cur, c + 1)
  {
    var after := WithCell(states, cur, c, v);
    assert Shaped(after, path);
    forall s, b: byte | 0 <= s < |states|
      ensures if s in done || (s == cur && b < c + 1) then GotoCell(after, path, s, b) else TrieCell(after, path, s, b)
    {
      if s in done || (s == cur && b < c) {
        assert GotoCell(states, path, s, b);
      } else if s != cur || b != c {
        assert TrieCell(states, path, s, b);
      }
    }
  }

  /** Keeping an edge of the row being expanded. */
  lemma KeepCell(states: seq<State>, path: seq<Text>, done: set<int>, cur: int, c: byte)
    requires Shaped(states, path) && IsTrie(path) && 0 <= cur < |states| && cur !in done
    requires Rows(states, path, done, cur, c) && states[cur].next[c] != 0
    ensures 0 < states[cur].next[c] < |path| && path[states[cur].next[c]] == path[cur] + [c]
    ensures Rows(states, path, done, cur, c + 1)
  {
    assert TrieCell(states, path, cur, c);
    EdgeIsGoto(states, path, cur, c);
  }

  /** The root's missing edges lead back to the root. */
  lemma RootCell(states: seq<State>, path: seq<Text>, c: byte)
    requires Shaped(states, path) && IsTrie(path)
    requires Rows(states, path, {}, 0, c) && states[0].next[c] == 0
    ensures path[0] + [c] !in path
    ensures Rows(states, path, {}, 0, c + 1)
  {
    assert TrieCell(states, path, 0, c);
    assert path[0] + [c] == [c] && [c][1..] == [];
    assert LongestSuffix(path, [c]) == LongestSuffix(path, []);
  }

  ghost predicate MergedOutput(states: seq<State>, path: seq<Text>, words: seq<Text>, s: int)
    requires [] in path && |states| == |path| && 0 <= s < |states|
  {
    states[s].outputs == Outputs(words, path, path[s])
  }

  /** The states in `merged` carry the merged output lists, the others their own. */
  ghost predicate Merged(states: seq<State>, path: seq<Text>, words: seq<Text>, merged: set<int>)
    requires Shaped(states, path) && IsTrie(path)
  {
    forall s :: 0 <= s < |states| ==>
      if s in merged then MergedOutput(states, path, words, s) else OwnOutput(states, path, words, s)
  }

  function WithOutputs(states: seq<State>, s: int, more: seq<int>): seq<State>
    requires 0 <= s < |states|
  {
    states[s := states[s].(outputs := states[s].outputs + more)]
  }

  lemma MergeOutputs(states: seq<State>, path: seq<Text>, words: seq<Text>, fail: seq<int>,
                     done: set<int>, cur: int)
    requires Shaped(states, path) && IsTrie(path) && FailLink(path, fail, cur)
    requires Merged(states, path, words, done) && cur !in done && fail[cur] in done
    requires Rows(states, path, done, cur, 0)
    ensures var after := if fail[cur] != 0 then WithOutputs(states, cur, states[fail[cur]].outputs) else states;
            Shaped(after, path) && Merged(after, path, words, done + {cur}) && Rows(after, path, done, cur, 0)
  {
    OutputsUnfold(path, words, fail, cur);
    if fail[cur] != 0 {
      var after := WithOutputs(states, cur, states[fail[cur]].outputs);
      assert Shaped(after, path);
      SameRows(states, after, path, done, cur);
    }
  }

  lemma OutputsUnfold(path: seq<Text>, words: seq<Text>, fail: seq<int>, cur: int)
    requires IsTrie(path) && FailLink(path, fail, cur)
    ensures Outputs(words, path, path[cur]) ==
            Own(words, path[cur]) + if fail[cur] != 0 then Outputs(words, path, path[fail[cur]]) else []
  {
    assert fail[cur] == 0 <==> path[fail[cur]] == [];
  }

  lemma SameRows(states: seq<State>, after: seq<State>, path: seq<Text>, done: set<int>, cur: int)
    requires Shaped(states, path) && Shaped(after, path) && IsTrie(path)
    requires forall s :: 0 <= s < |states| ==> after[s].next == states[s].next
    requires Rows(states, path, done, cur, 0)
    ensures Rows(after, path, done, cur, 0)
  {
    forall s, b: byte | 0 <= s < |states|
      ensures if s in done then GotoCell(after, path, s, b) else TrieCell(after, path, s, b)
    {
      if s in done {
        assert GotoCell(states, path, s, b);
      } else {
        assert TrieCell(states, path, s, b);
      }
    }
  }

  /** The inner loop of `Build`: the edges of the state just taken from the queue. */
  method Expand(table: seq<State>, links: seq<int>, waiting: seq<int>, cur: int,
                ghost path: seq<Text>, ghost words: seq<Text>, ghost done: set<int>)
    returns (states: seq<State>, fail: seq<int>, queue: seq<int>)
    requires Frontier(path, done, waiting, cur, 0) && cur != 0
    requires Shaped(table, path) && Rows(table, path, done, cur, 0)
    requires FailLinks(path, links, done, waiting, cur) && links[cur] in done
    requires Merged(table, path, words, done + {cur})
    ensures Frontier(path, done, queue, cur, 256)
    ensures Shaped(states, path) && Rows(states, path, done, cur, 256)
    ensures FailLinks(path, fail, done, queue, cur)
    ensures Merged(states, path, words, done + {cur})
  {
    states, fail, queue := table, links, waiting;
    var f := fail[cur];
    for c := 0 to 256
      invariant Frontier(path, done, queue, cur, c)
      invariant Shaped(states, path) && Rows(states, path, done, cur, c)
      invariant FailLinks(path, fail, done, queue, cur) && fail[cur] == f
      invariant Merged(states, path, words, done + {cur})
    {
      assert FailLink(path, fail, cur);
      assert GotoCell(states, path, f, c);
      FailStep(states, path, fail, cur, c);
      var nxt := states[cur].next[c];
      if nxt != 0 {
        KeepCell(states, path, done, cur, c);
        FrontierPush(path, done, queue, cur, c, nxt);
        NewFailLink(path, fail, done, queue, cur, nxt, states[f].next[c]);
        fail := fail[nxt := states[f].next[c]];
        queue := queue + [nxt];
      } else {
        assert TrieCell(states, path, cur, c);
        FillCell(states, path, done, cur, c, states[f].next[c]);
        FrontierSkip(path, done, queue, cur, c);
        states := WithCell(states, cur, c, states[f].next[c]);
      }
    }
  }

  lemma NewFailLink(path: seq<Text>, fail: seq<int>, done: set<int>, queue: seq<int>, cur: int, nxt: int, v: int)
    requires IsTrie(path) && FailLinks(path, fail, done, queue, cur)
    requires 0 < nxt < |path| && !Known(done, queue, cur, nxt) && path[nxt] != []
    requires 0 <= v < |path| && path[v] == LongestSuffix(path, path[nxt][1..])
    ensures FailLinks(path, fail[nxt := v], done, queue + [nxt], cur)
  {
    var after := fail[nxt := v];
    forall t | 0 < t < |path| && Known(done, queue + [nxt], cur, t)
      ensures FailLink(path, after, t)
    {
      if t != nxt {
        assert Known(done, queue, cur, t);
        assert FailLink(path, fail, t);
      }
    }
  }

  lemma RowsNext(states: seq<State>, path: seq<Text>, done: set<int>, last: int, cur: int)
    requires Shaped(states, path) && IsTrie(path)
    requires Rows(states, path, done, last, 256)
    ensures Rows(states, path, done + {last}, cur, 0)
  {
  }

  /** The finished automaton. */
  ghost predicate Automaton(states: seq<State>, path: seq<Text>, words: seq<Text>)
  {
    && IsTrie(path) && Shaped(states, path)
    && (forall s :: 0 <= s < |states| ==> GotoRow(states, path, s))
    && (forall s :: 0 <= s < |states| ==> MergedOutput(states, path, words, s))
    && (forall p :: p in words ==> p in path)
    && (forall s :: 0 <= s < |path| ==> Wanted(words, path, s, []))
  }

  class Builder {
    var states: seq<State>
    var count: int
    ghost var words: seq<Text>
    ghost var path: seq<Text>

    /** A builder that has not been built: the table is the trie of the patterns added. */
    ghost predicate Valid()
      reads this
    {
      count == |words| && Growing(states, path, words, [])
    }

    constructor ()
      ensures Valid() && words == [] && |states| == 1
    {
      states := [EmptyState()];
      count := 0;
      words := [];
      path := [[]];
      new;
      forall c: byte
        ensures TrieCell(states, path, 0, c)
      {
        assert [c] != [];
      }
      assert TrieRow(states, path, 0);
    }

    /** Patterns are numbered from 0 in order of addition. The table indices and the pattern
        numbers are 32-bit, which bounds what one builder takes. */
    method AddPattern(pattern: Text) returns (idx: int)
      requires Valid()
      requires count < INT32_MAX && |states| + |pattern| <= INT32_MAX
      modifies this
      ensures Valid()
      ensures idx == |old(words)| && words == old(words) + [pattern]
      ensures |states| <= old(|states|) + |pattern|
    {
      idx := count;
      count := count + 1;
      var cur := 0;
      var i := 0;
      forall s | 0 <= s < |path|
        ensures Wanted(words, path, s, pattern)
      {
        assert Wanted(words, path, s, []);
      }
      while i < |pattern|
        invariant 0 <= i <= |pattern| && 0 <= cur < |states|
        invariant count == idx + 1 && words == old(words)
        invariant Growing(states, path, words, pattern) && path[cur] == pattern[..i]
        invariant |states| <= old(|states|) + i
      {
        var c := pattern[i];
        var nxt := states[cur].next[c];
        if nxt == 0 {
          nxt := |states|;
          GrowByEdge(states, path, words, pattern, cur, i);
          states := WithEdge(states, cur, c);
          path := path + [path[cur] + [c]];
        } else {
          FollowEdge(states, path, cur, pattern, i);
        }
        cur := nxt;
        i := i + 1;
      }
      assert pattern[..i] == pattern;
      RecordPattern(states, path, words, pattern, cur);
      states := WithOutput(states, cur, idx);
      words := words + [pattern];
    }

    /** Turns the trie into the automaton, in place. `order` is the sequence in which the
        states were taken from the queue. */
    method Build() returns (m: Matcher, ghost order: seq<int>)
      requires Valid()
      modifies this
      ensures fresh(m) && m.Valid() && m.words == old(words) && words == old(words)
      ensures m.path == old(path) && m.states == states
      ensures NoRepeats(order) && forall t :: t in order <==> 0 < t < |m.states|
      ensures InDepthOrder(m.path, order)
    {
      RootStart(states, path);
      var table := states;
      var queue := RootEdges(table, path);
      var fail := seq(|table|, _ => 0);
      ghost var done: set<int>, last := {}, 0;
      order := [];
      Start(table, path, words, fail, queue);
      while |queue| > 0
        invariant path == old(path) && words == old(words) && count == old(count)
        invariant Progress(table, path, words, fail, done, queue, last)
        invariant Taken(path, order, done, last)
        decreases Indices(path) - done
      {
        var cur := queue[0];
        assert queue == [cur] + queue[1..];
        queue := queue[1..];
        TakeHead(table, path, words, fail, done, queue, last, cur);
        TakenNext(path, order, done, queue, last, cur);
        done := done + {last};
        if fail[cur] != 0 {
          table := WithOutputs(table, cur, table[fail[cur]].outputs);
        }
        table, fail, queue := Expand(table, fail, queue, cur, path, words, done);
        last := cur;
        order := order + [cur];
      }
      AllTaken(table, path, words, fail, done, last);
      states := table;
      m := new Matcher(table, count, words, path);
    }
  }

  lemma RootStart(states: seq<State>, path: seq<Text>)
    requires TrieForm(states, path)
    ensures Frontier(path, {}, [], 0, 0) && Rows(states, path, {}, 0, 0)
  {
    forall s, b: byte | 0 <= s < |states|
      ensures TrieCell(states, path, s, b)
    {
      assert TrieRow(states, path, s);
    }
  }

  /** The first loop of `Build`: the root's edges, in byte order. */
  method RootEdges(states: seq<State>, ghost path: seq<Text>) returns (queue: seq<int>)
    requires Frontier(path, {}, [], 0, 0) && Shaped(states, path) && Rows(states, path, {}, 0, 0)
    ensures Frontier(path, {}, queue, 0, 256) && Rows(states, path, {}, 0, 256)
  {
    queue := [];
    for c := 0 to 256
      invariant Frontier(path, {}, queue, 0, c) && Rows(states, path, {}, 0, c)
    {
      var v := states[0].next[c];
      if v != 0 {
        KeepCell(states, path, {}, 0, c);
        FrontierPush(path, {}, queue, 0, c, v);
        queue := queue + [v];
      } else {
        RootCell(states, path, c);
        FrontierSkip(path, {}, queue, 0, c);
      }
    }
  }

  /** The invariant of the main loop: `last` is the state expanded most recently. */
  ghost predicate Progress(states: seq<State>, path: seq<Text>, words: seq<Text>, fail: seq<int>,
                           done: set<int>, queue: seq<int>, last: int)
  {
    && Frontier(path, done, queue, last, 256)
    && Shaped(states, path)
    && FailLinks(path, fail, done, queue, last)
    && Rows(states, path, done, last, 256)
    && Merged(states, path, words, done + {last})
  }

  lemma Start(states: seq<State>, path: seq<Text>, words: seq<Text>, fail: seq<int>, queue: seq<int>)
    requires TrieForm(states, path) && OwnOutputs(states, path, words)
    requires Frontier(path, {}, queue, 0, 256) && Rows(states, path, {}, 0, 256)
    requires |fail| == |path| && forall t :: 0 <= t < |fail| ==> fail[t] == 0
    ensures Progress(states, path, words, fail, {}, queue, 0)
  {
    forall t | 0 < t < |path| && Known({}, queue, 0, t)
      ensures FailLink(path, fail, t)
    {
      assert ParentWordIn(path, t);
      var p :| 0 <= p < |path| && path[p] == path[t][..|path[t]| - 1];
      assert Parent(path, p, t);
      assert path[t][1..] == [];
    }
  }

  /** Taking the head of the queue and merging its outputs prepares for its expansion. */
  lemma TakeHead(states: seq<State>, path: seq<Text>, words: seq<Text>, fail: seq<int>,
                 done: set<int>, rest: seq<int>, last: int, cur: int)
    requires Progress(states, path, words, fail, done, [cur] + rest, last)
    ensures FailLink(path, fail, cur) && fail[cur] in done + {last} && cur !in done + {last}
    ensures Frontier(path, done + {last}, rest, cur, 0) && cur != 0
    ensures FailLinks(path, fail, done + {last}, rest, cur)
    ensures var after := if fail[cur] != 0 then WithOutputs(states, cur, states[fail[cur]].outputs) else states;
            Shaped(after, path) && Merged(after, path, words, done + {last} + {cur})
            && Rows(after, path, done + {last}, cur, 0)
  {
    FrontierNext(path, done, [cur] + rest, last);
    assert ([cur] + rest)[1..] == rest;
    RowsNext(states, path, done, last, cur);
    assert FailLink(path, fail, cur);
    ShallowerIsDone(path, done + {last}, rest, cur, 0, fail[cur]);
    MergeOutputs(states, path, words, fail, done + {last}, cur);
  }

  ghost predicate InDepthOrder(path: seq<Text>, order: seq<int>)
  {
    forall i, j :: 0 <= i < j < |order| ==> Depth(path, order[i]) <= Depth(path, order[j])
  }

  /** `order` lists the expanded states other than the root, once each. */
  ghost predicate Taken(path: seq<Text>, order: seq<int>, done: set<int>, last: int)
  {
    && NoRepeats(order) && InDepthOrder(path, order)
    && (forall t :: t in order <==> t in done + {last} && t != 0)
    && (order != [] ==> order[|order| - 1] == last)
  }

  lemma TakenNext(path: seq<Text>, order: seq<int>, done: set<int>, rest: seq<int>, last: int, cur: int)
    requires Taken(path, order, done, last) && Frontier(path, done, [cur] + rest, last, 256)
    ensures Taken(path, order + [cur], done + {last}, cur)
    ensures Indices(path) - (done + {last}) < Indices(path) - done
  {
    assert last in Indices(path) - done;
    var queue, longer := [cur] + rest, order + [cur];
    assert queue[0] == cur && cur in queue;
    assert Depth(path, last) <= Depth(path, queue[0]);
    assert forall t :: t in longer <==> t in order || t == cur;
    forall i, j | 0 <= i < j < |longer|
      ensures longer[i] != longer[j] && Depth(path, longer[i]) <= Depth(path, longer[j])
    {
      assert longer[i] == order[i] && order[i] in order;
      if j < |order| {
        assert longer[j] == order[j];
      } else {
        assert i == |order| - 1 || Depth(path, order[i]) <= Depth(path, order[|order| - 1]);
      }
    }
  }

  lemma AllTaken(states: seq<State>, path: seq<Text>, words: seq<Text>, fail: seq<int>, done: set<int>, last: int)
    requires Progress(states, path, words, fail, done, [], last)
    requires forall p :: p in words ==> p in path
    requires forall s :: 0 <= s < |path| ==> Wanted(words, path, s, [])
    ensures forall s :: s in done + {last} <==> 0 <= s < |path|
    ensures Automaton(states, path, words)
  {
    forall s | 0 <= s < |path|
      ensures s in done + {last} && GotoRow(states, path, s)
    {
      EveryStateIsDone(path, done, last, s);
      assert forall b: byte :: GotoCell(states, path, s, b);
    }
  }

  ghost function Indices(path: seq<Text>): set<int>
  {
    set s | 0 <= s < |path| && path[s] in path
  }

  // ---------------------------------------------------------------------------------------
  // Matching
  // ---------------------------------------------------------------------------------------

  /** No non-empty suffix of w begins a pattern. */
  ghost predicate NothingPending(words: seq<Text>, w: Text)
  {
    forall x :: IsSuffix(x, w) && x != [] ==> !Begins(words, x)
  }

  /** What reading w makes the automaton report: the non-empty patterns that end here, and the
      empty ones only when nothing is pending (the outputs of the root are not inherited). */
  ghost predicate SeenAt(words: seq<Text>, w: Text, i: int)
  {
    && 0 <= i < |words|
    && if words[i] != [] then IsSuffix(words[i], w) else NothingPending(words, w)
  }

  /** What the automaton reports for pattern i on target t. For a non-empty pattern this is
      plain containment. */
  ghost predicate Reported(words: seq<Text>, t: Text, i: int)
  {
    && 0 <= i < |words|
    && if words[i] != [] then Occurs(words[i], t)
       else exists k :: 1 <= k <= |t| && NothingPending(words, t[..k])
  }

  ghost predicate SeenBy(words: seq<Text>, t: Text, n: int, i: int)
    requires 0 <= n <= |t|
  {
    exists k :: 1 <= k <= n && SeenAt(words, t[..k], i)
  }

  lemma SeenIsReported(words: seq<Text>, t: Text, i: int)
    ensures SeenBy(words, t, |t|, i) <==> Reported(words, t, i)
  {
    if Reported(words, t, i) {
      var k :| (if words[i] != [] then |words[i]| else 1) <= k <= |t| && SeenAt(words, t[..k], i);
    }
  }

  ghost predicate NoneSeen(words: seq<Text>, t: Text, n: int)
    requires 0 <= n <= |t|
  {
    forall i :: !SeenBy(words, t, n, i)
  }

  lemma NoneSeenNext(words: seq<Text>, t: Text, n: int, w: Text)
    requires 0 <= n < |t| && w == t[..n + 1]
    requires NoneSeen(words, t, n) && forall i :: !SeenAt(words, w, i)
    ensures NoneSeen(words, t, n + 1)
  {
    var m := n + 1;
    forall i
      ensures !SeenBy(words, t, m, i)
    {
      assert !SeenBy(words, t, n, i) && !SeenAt(words, w, i);
    }
  }

  lemma NoneReported(words: seq<Text>, t: Text)
    requires NoneSeen(words, t, |t|)
    ensures forall i :: !Reported(words, t, i)
  {
    forall i
      ensures !Reported(words, t, i)
    {
      SeenIsReported(words, t, i);
    }
  }

  lemma AllSeen(words: seq<Text>, t: Text)
    ensures SeenSet(words, t, |t|) == ReportedSet(words, t)
  {
    forall i | 0 <= i < MAX_PATTERNS
      ensures SeenBy(words, t, |t|, i) <==> Reported(words, t, i)
    {
      SeenIsReported(words, t, i);
    }
  }

  ghost function SeenSet(words: seq<Text>, t: Text, n: int): set<int>
    requires 0 <= n <= |t|
  {
    set i | 0 <= i < MAX_PATTERNS && SeenBy(words, t, n, i)
  }

  ghost function ReportedSet(words: seq<Text>, t: Text): set<int>
  {
    set i | 0 <= i < MAX_PATTERNS && Reported(words, t, i)
  }

  lemma {:induction false} BeginningInTrie(path: seq<Text>, p: Text, x: Text)
    requires IsTrie(path) && p in path && x <= p
    ensures x in path
    decreases |p|
  {
    if x != p {
      assert p == p[..|p| - 1] + [p[|p| - 1]];
      PrefixInTrie(path, p[..|p| - 1], p[|p| - 1]);
      BeginningInTrie(path, p[..|p| - 1], x);
    }
  }

  /** The outputs at the state reached by w are what w makes the automaton report. */
  lemma OutputsAreSeen(states: seq<State>, path: seq<Text>, words: seq<Text>, cur: int, w: Text, i: int)
    requires Automaton(states, path, words) && 0 <= cur < |states|
    requires path[cur] == LongestSuffix(path, w)
    ensures i in states[cur].outputs <==> SeenAt(words, w, i)
  {
    var r := path[cur];
    assert MergedOutput(states, path, words, cur);
    LongestSuffixIsSuffix(path, w);
    if 0 <= i < |words| {
      LongestSuffixIsLongest(path, w, words[i]);
    }
    if r != [] {
      OutputsExact(words, path, r, i);
      assert Wanted(words, path, cur, []);
      assert Begins(words, r);
    } else {
      OwnExact(words, [], i);
      NothingPendingAtRoot(path, words, w);
    }
  }

  lemma NothingPendingAtRoot(path: seq<Text>, words: seq<Text>, w: Text)
    requires IsTrie(path) && (forall p :: p in words ==> p in path) && LongestSuffix(path, w) == []
    ensures NothingPending(words, w)
  {
    forall x | IsSuffix(x, w) && x != []
      ensures !Begins(words, x)
    {
      if Begins(words, x) {
        var p :| p in words && x <= p;
        BeginningInTrie(path, p, x);
        LongestSuffixIsLongest(path, w, x);
      }
    }
  }

  class Matcher {
    const states: seq<State>
    const numPatterns: int
    ghost const words: seq<Text>
    ghost const path: seq<Text>

    ghost predicate Valid()
    {
      numPatterns == |words| && Automaton(states, path, words)
    }

    constructor (states: seq<State>, numPatterns: int, ghost words: seq<Text>, ghost path: seq<Text>)
      ensures this.states == states && this.numPatterns == numPatterns
      ensures this.words == words && this.path == path
    {
      this.states, this.numPatterns, this.words, this.path := states, numPatterns, words, path;
    }

    /** Following the table keeps the longest suffix of what has been read. */
    lemma Follow(t: Text, i: int, cur: int)
      requires Valid() && 0 <= i < |t| && 0 <= cur < |states|
      requires path[cur] == LongestSuffix(path, t[..i])
      ensures 0 <= states[cur].next[t[i]] < |states|
      ensures path[states[cur].next[t[i]]] == LongestSuffix(path, t[..i + 1])
    {
      assert GotoRow(states, path, cur) && GotoCell(states, path, cur, t[i]);
      SuffixStep(path, t[..i], t[i]);
      assert t[..i + 1] == t[..i] + [t[i]];
    }

    /** True exactly when some pattern is reported. */
    method MatchAny(target: Text) returns (found: bool)
      requires Valid()
      ensures found <==> exists i :: Reported(words, target, i)
    {
      if numPatterns == 0 {
        return false;
      }
      var cur := 0;
      assert target[..0] == [];
      for i := 0 to |target|
        invariant 0 <= cur < |states| && path[cur] == LongestSuffix(path, target[..i])
        invariant NoneSeen(words, target, i)
      {
        Follow(target, i, cur);
        cur := states[cur].next[target[i]];
        SeenOrNot(target, i, cur);
        if |states[cur].outputs| > 0 {
          return true;
        }
      }
      NoneReported(words, target);
      found := false;
    }

    lemma SeenOrNot(t: Text, i: int, cur: int)
      requires Valid() && 0 <= i < |t| && 0 <= cur < |states|
      requires path[cur] == LongestSuffix(path, t[..i + 1]) && NoneSeen(words, t, i)
      ensures |states[cur].outputs| > 0 ==> exists p :: Reported(words, t, p)
      ensures |states[cur].outputs| == 0 ==> NoneSeen(words, t, i + 1)
    {
      if |states[cur].outputs| > 0 {
        var p := states[cur].outputs[0];
        OutputsAreSeen(states, path, words, cur, t[..i + 1], p);
        assert SeenBy(words, t, |t|, p);
        SeenIsReported(words, t, p);
      } else {
        var w := t[..i + 1];
        forall p
          ensures !SeenAt(words, w, p)
        {
          OutputsAreSeen(states, path, words, cur, w, p);
        }
        NoneSeenNext(words, t, i, w);
      }
    }

    /** Adds to `hit` the patterns reported on one target. */
    method Scan(target: Text, hit: Mask)
      requires Valid() && hit.Valid()
      modifies hit.words
      ensures hit.Valid() && hit.View() == old(hit.View()) + ReportedSet(words, target)
    {
      var cur := 0;
      assert target[..0] == [];
      for i := 0 to |target|
        invariant hit.Valid()
        invariant 0 <= cur < |states| && path[cur] == LongestSuffix(path, target[..i])
        invariant hit.View() == old(hit.View()) + SeenSet(words, target, i)
      {
        Follow(target, i, cur);
        cur := states[cur].next[target[i]];
        SeenNext(target, i, cur);
        SetAll(states[cur].outputs, hit);
      }
      AllSeen(words, target);
    }

    lemma SeenNext(t: Text, i: int, cur: int)
      requires Valid() && 0 <= i < |t| && 0 <= cur < |states|
      requires path[cur] == LongestSuffix(path, t[..i + 1])
      ensures SeenSet(words, t, i + 1) == SeenSet(words, t, i) + InRange(states[cur].outputs)
    {
      forall p | 0 <= p < MAX_PATTERNS
        ensures SeenBy(words, t, i + 1, p) <==> SeenBy(words, t, i, p) || p in states[cur].outputs
      {
        OutputsAreSeen(states, path, words, cur, t[..i + 1], p);
        if SeenAt(words, t[..i + 1], p) {
          assert SeenBy(words, t, i + 1, p);
        }
      }
    }

    /** Bit i is set exactly when pattern i is reported and i is below 512. */
    method MatchMask(target: Text) returns (hit: Mask)
      requires Valid()
      ensures fresh(hit) && fresh(hit.words) && hit.Valid() && hit.View() == ReportedSet(words, target)
    {
      hit := new Mask();
      if numPatterns == 0 {
        assert ReportedSet(words, target) == {};
        return;
      }
      Scan(target, hit);
    }

    /** The union over the targets: the automaton is reset between targets. */
    method MatchMaskSlice(targets: seq<Text>) returns (hit: Mask)
      requires Valid()
      ensures fresh(hit) && fresh(hit.words) && hit.Valid()
      ensures hit.View() == SliceSet(words, targets)
    {
      hit := new Mask();
      if numPatterns == 0 {
        return;
      }
      for n := 0 to |targets|
        invariant hit.Valid() && fresh(hit.words)
        invariant hit.View() == SliceSet(words, targets[..n])
      {
        Scan(targets[n], hit);
        assert targets[..n + 1] == targets[..n] + [targets[n]];
      }
      assert targets[..|targets|] == targets;
    }
  }

  /** The innermost loop of the mask methods: set every output of one state. */
  method SetAll(outputs: seq<int>, hit: Mask)
    requires hit.Valid()
    modifies hit.words
    ensures hit.Valid() && hit.View() == old(hit.View()) + InRange(outputs)
  {
    for j := 0 to |outputs|
      invariant hit.Valid()
      invariant hit.View() == old(hit.View()) + InRange(outputs[..j])
    {
      assert outputs[..j + 1] == outputs[..j] + [outputs[j]];
      hit.Set(outputs[j]);
    }
    assert outputs[..|outputs|] == outputs;
  }

  ghost function SliceSet(words: seq<Text>, targets: seq<Text>): set<int>
  {
    set i | 0 <= i < MAX_PATTERNS && ReportedOnSome(words, targets, i)
  }

  ghost predicate ReportedOnSome(words: seq<Text>, targets: seq<Text>, i: int)
  {
    exists t :: t in targets && Reported(words, t, i)
  }

  ghost function InRange(s: seq<int>): set<int>
  {
    set i | 0 <= i < MAX_PATTERNS && i in s
  }

  // ---------------------------------------------------------------------------------------
  // What the reports mean
  // ---------------------------------------------------------------------------------------

  /** The naive specification: which of the first 512 patterns are substrings of t. */
  ghost function NaiveSet(words: seq<Text>, t: Text): set<int>
  {
    set i | 0 <= i < MAX_PATTERNS && i < |words| && Occurs(words[i], t)
  }

  /** The mask is the naive answer on every target exactly when none of the first 512 patterns
      is empty: on the empty target an empty pattern occurs but is not reported. */
  lemma MaskIsNaiveIff(words: seq<Text>)
    ensures (forall t :: ReportedSet(words, t) == NaiveSet(words, t)) <==>
            (forall i :: 0 <= i < |words| && i < MAX_PATTERNS ==> words[i] != [])
  {
    if i :| 0 <= i < |words| && i < MAX_PATTERNS && words[i] == [] {
      var t: Text := [];
      assert IsSuffix([], t[..0]);
      assert Occurs(words[i], t);
      assert i in NaiveSet(words, t) && i !in ReportedSet(words, t);
    }
  }

  /** No report for a pattern that only appears across the seam of two targets. */
  lemma NoMatchAcrossTargets(words: seq<Text>, targets: seq<Text>, i: int)
    requires 0 <= i < |words| && words[i] != [] && i < MAX_PATTERNS
    ensures i in SliceSet(words, targets) <==> exists t :: t in targets && Occurs(words[i], t)
  {
    if t :| t in targets && Occurs(words[i], t) {
      assert Reported(words, t, i);
    }
  }
}
