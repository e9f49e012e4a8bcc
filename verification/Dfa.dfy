/** The recogniser of long switches: a trie kept in two arrays that grow, with the edges of a state chained
    from the latest to the first (cldm_dfa.c). */
module Dfa {
  const STATE_DELTA := 64
  const EDGE_DELTA := 128
  const EDGE_NONE := -1

  datatype State = State(edges: int, shortop: int)
  datatype Edge = Edge(ch: char, next: int, end: int)

  /** `p` is a prefix of an added word; the empty prefix always is there. */
  ghost predicate Reached(words: map<string, int>, p: string) {
    p == "" || exists w :: w in words && p <= w
  }

  /** How far `input` can be followed, having come to `k`. */
  ghost function Walk(words: map<string, int>, input: string, k: nat): (n: nat)
    requires k <= |input|
    ensures k <= n <= |input|
    decreases |input| - k
  { if k < |input| && Reached(words, input[..k + 1]) then Walk(words, input, k + 1) else k }

  lemma ReachedShorter(words: map<string, int>, p: string, k: nat)
    requires Reached(words, p) && k <= |p|
    ensures Reached(words, p[..k])
  {
    if p != "" {
      var w :| w in words && p <= w;
      assert p[..k] <= w;
    }
  }

  /** The walk ends with the longest prefix of the input that is a prefix of an added word. */
  lemma {:induction false} WalkIsLongest(words: map<string, int>, input: string, k: nat)
    requires k <= |input| && Reached(words, input[..k])
    ensures var n := Walk(words, input, k);
      Reached(words, input[..n]) && forall m :: n < m <= |input| ==> !Reached(words, input[..m])
    decreases |input| - k
  {
    if k < |input| && Reached(words, input[..k + 1]) {
      WalkIsLongest(words, input, k + 1);
    } else {
      forall m | k < m <= |input|
        ensures !Reached(words, input[..m])
      {
        assert input[..m][..k + 1] == input[..k + 1];
        if Reached(words, input[..m]) {
          ReachedShorter(words, input[..m], k + 1);
        }
      }
    }
  }

  /** The result promised for `input`: the length and the code of its longest reached prefix if that is an
      added word with a code other than zero. */
  ghost function Answer(words: map<string, int>, input: string): (r: (int, int)) {
    var p := input[..Walk(words, input, 0)];
    if p in words && words[p] != 0 then (|p|, words[p]) else (-1, 0)
  }

  /** The first `n` characters are an added word with a code, and no more of the input starts an added word. */
  ghost predicate Recognised(words: map<string, int>, input: string, n: int) {
    && 0 <= n <= |input| && input[..n] in words && words[input[..n]] != 0
    && forall m, w :: n < m <= |input| && w in words ==> !(input[..m] <= w)
  }

  /** What is promised, in terms of words and prefixes: there is at most one such beginning, and the result is its
      length and its code. */
  lemma AnswerIs(words: map<string, int>, input: string)
    ensures var (len, code) := Answer(words, input);
      && (len != -1 ==> Recognised(words, input, len) && code == words[input[..len]])
      && (len == -1 ==> code == 0)
      && forall n :: Recognised(words, input, n) ==> n == len >= 0
  {
    hide Walk;
    assert input[..0] == "";
    WalkIsLongest(words, input, 0);
    var k := Walk(words, input, 0);
    forall n | Recognised(words, input, n)
      ensures n == k
    {
      assert Reached(words, input[..n]);
    }
    if input[..k] in words {
      forall m, w | k < m <= |input| && w in words
        ensures !(input[..m] <= w)
      {
        assert !Reached(words, input[..m]);
      }
    }
  }

  /** An added word with a code is recognised, whatever else has been added. */
  lemma WordIsAnswered(words: map<string, int>, w: string)
    requires w in words && words[w] != 0
    ensures Answer(words, w) == (|w|, words[w])
  {
    WalkIsLongest(words, w, 0);
    assert w[..|w|] == w && w <= w;
  }

  /** The latest of the first `k` edges that leave state `i`. */
  ghost function LastOut(src: seq<nat>, i: nat, k: nat): (e: int)
    requires k <= |src|
    ensures -1 <= e < k && (e >= 0 ==> src[e] == i) && forall j :: e < j < k ==> src[j] != i
  { if k == 0 then -1 else if src[k - 1] == i then k - 1 else LastOut(src, i, k - 1) }

  lemma {:induction false} LastOutPrefix(src: seq<nat>, more: seq<nat>, i: nat, k: nat)
    requires k <= |src|
    ensures LastOut(src + more, i, k) == LastOut(src, i, k)
  {
    if k > 0 { LastOutPrefix(src, more, i, k - 1); }
  }

  /** The structure of the trie: edge `e` leads to state `e + 1`, whose prefix is one character longer than that
      of its source, and the edges of a state are chained, the latest first. */
  ghost predicate Linked(states: seq<State>, edges: seq<Edge>, paths: seq<string>, src: seq<nat>) {
    && |states| == |paths| == |edges| + 1 && |src| == |edges| && paths[0] == ""
    && (forall e :: 0 <= e < |edges| ==> src[e] <= e && edges[e].end == e + 1)
    && (forall e :: 0 <= e < |edges| ==> Longer(paths, src, e, edges[e].ch))
    && (forall e :: 0 <= e < |edges| ==> edges[e].next == LastOut(src, src[e], e))
    && (forall i :: 0 <= i < |states| ==> states[i].edges == LastOut(src, i, |edges|))
    && forall i, j :: 0 <= i < j < |paths| ==> paths[i] != paths[j]
  }

  ghost predicate Longer(paths: seq<string>, src: seq<nat>, e: nat, ch: char)
    requires e < |src| && src[e] <= e && e + 1 < |paths|
  { paths[e + 1] == paths[src[e]] + [ch] }

  /** Every state carries the latest code of its prefix, zero when that is no word. */
  ghost predicate Coded(states: seq<State>, paths: seq<string>, words: map<string, int>) {
    && |states| == |paths|
    && (forall i :: 0 <= i < |paths| ==> states[i].shortop == if paths[i] in words then words[paths[i]] else 0)
    && forall w :: w in words ==> w in paths
  }

  /** Prefixes of a path are paths: states are closed under taking prefixes. */
  lemma {:induction false} PrefixHasState(states: seq<State>, edges: seq<Edge>, paths: seq<string>, src: seq<nat>,
                                          i: nat, p: string)
    requires Linked(states, edges, paths, src) && i < |paths| && p <= paths[i]
    ensures p in paths
    decreases i
  {
    if p != paths[i] {
      assert i > 0;
      assert Longer(paths, src, i - 1, edges[i - 1].ch);
      assert p == paths[i][..|p|];
      PrefixHasState(states, edges, paths, src, src[i - 1], p);
    }
  }

  /** States stand one-to-one for the prefixes of the added words, and the edges out of one state carry
      different characters. */
  lemma StatesArePrefixes(states: seq<State>, edges: seq<Edge>, paths: seq<string>, src: seq<nat>,
                          words: map<string, int>)
    requires Linked(states, edges, paths, src) && Coded(states, paths, words)
    requires forall i :: 0 <= i < |paths| ==> Reached(words, paths[i])
    ensures forall p :: p in paths <==> Reached(words, p)
    ensures forall i, j :: 0 <= i < j < |paths| ==> paths[i] != paths[j]
    ensures forall e, f :: 0 <= e < f < |edges| && src[e] == src[f] ==> edges[e].ch != edges[f].ch
  {
    forall p | Reached(words, p)
      ensures p in paths
    {
      if p != "" {
        var w :| w in words && p <= w;
        assert w in paths;
        var i :| 0 <= i < |paths| && paths[i] == w;
        PrefixHasState(states, edges, paths, src, i, p);
      }
    }
    forall e, f | 0 <= e < f < |edges| && src[e] == src[f]
      ensures edges[e].ch != edges[f].ch
    {
      assert Longer(paths, src, e, edges[e].ch) && Longer(paths, src, f, edges[f].ch);
      assert paths[e + 1] != paths[f + 1];
    }
  }

  /** A state one character further on is the end of an edge out of this one. */
  lemma OnlyByEdge(states: seq<State>, edges: seq<Edge>, paths: seq<string>, src: seq<nat>, state: nat, ch: char)
    requires Linked(states, edges, paths, src) && state < |paths|
    ensures paths[state] + [ch] in paths ==>
      exists e :: 0 <= e < |edges| && src[e] == state && edges[e].ch == ch
  {
    hide *;
    var p := paths[state] + [ch];
    if p in paths {
      var j :| 0 <= j < |paths| && paths[j] == p;
      EdgeInto(states, edges, paths, src, state, j, ch);
    }
  }

  lemma EdgeInto(states: seq<State>, edges: seq<Edge>, paths: seq<string>, src: seq<nat>, state: nat, j: nat, ch: char)
    requires Linked(states, edges, paths, src) && state < |paths| && j < |paths| && paths[j] == paths[state] + [ch]
    ensures 1 <= j <= |edges| && src[j - 1] == state && edges[j - 1].ch == ch
  {
    hide LastOut;
    var e := j - 1;
    assert Longer(paths, src, e, edges[e].ch);
    SameEnd(paths[state], ch, paths[src[e]], edges[e].ch);
  }

  lemma SameEnd(p: string, a: char, q: string, b: char)
    requires p + [a] == q + [b]
    ensures p == q && a == b
  {
    assert p == (p + [a])[..|p|] && q == (q + [b])[..|q|];
    assert a == (p + [a])[|p|];
  }

  /** The chain starts with the latest edge out of a state. */
  lemma FirstEdge(states: seq<State>, edges: seq<Edge>, paths: seq<string>, src: seq<nat>, state: nat)
    requires Linked(states, edges, paths, src) && state < |states|
    ensures var e := states[state].edges;
      -1 <= e < |edges| == |src| && (e >= 0 ==> src[e] == state) && forall j :: e < j < |edges| ==> src[j] != state
  {
  }

  /** An edge leads to its state, and on to the latest edge before it out of the same source. */
  lemma NextEdge(states: seq<State>, edges: seq<Edge>, paths: seq<string>, src: seq<nat>, edge: nat)
    requires Linked(states, edges, paths, src) && edge < |edges|
    ensures var i, e := src[edge], edges[edge].next;
      && i < |paths| && edges[edge].end == edge + 1 < |paths| == |states|
      && paths[edge + 1] == paths[i] + [edges[edge].ch] && paths[edge + 1] in paths
      && -1 <= e < edge && (e >= 0 ==> src[e] == i) && forall j :: e < j < edge ==> src[j] != i
  {
    assert Longer(paths, src, edge, edges[edge].ch);
  }

  /** A new edge and its state keep the structure. */
  lemma Appended(states: seq<State>, edges: seq<Edge>, paths: seq<string>, src: seq<nat>, from: nat, ch: char)
    requires Linked(states, edges, paths, src) && from < |states| && paths[from] + [ch] !in paths
    ensures Linked(states[from := states[from].(edges := |edges|)] + [State(EDGE_NONE, 0)],
                   edges + [Edge(ch, states[from].edges, |states|)], paths + [paths[from] + [ch]], src + [from])
  {
    hide LastOut;
    var states' := states[from := states[from].(edges := |edges|)] + [State(EDGE_NONE, 0)];
    var edges' := edges + [Edge(ch, states[from].edges, |states|)];
    var paths' := paths + [paths[from] + [ch]];
    var src' := src + [from];
    forall e | 0 <= e < |edges'|
      ensures Longer(paths', src', e, edges'[e].ch)
    {
      if e < |edges| { assert Longer(paths, src, e, edges[e].ch); }
    }
    forall e | 0 <= e < |edges'|
      ensures edges'[e].next == LastOut(src', src'[e], e)
    {
      LastOutPrefix(src, [from], src'[e], e);
    }
    forall i | 0 <= i < |states'|
      ensures states'[i].edges == LastOut(src', i, |edges'|)
    {
      LastOutAppend(src, from, i);
      if i == |states| { NoneOut(src, i, |src|); }
    }
  }

  lemma LastOutAppend(src: seq<nat>, from: nat, i: nat)
    ensures LastOut(src + [from], i, |src| + 1) == if i == from then |src| else LastOut(src, i, |src|)
  {
    LastOutPrefix(src, [from], i, |src|);
  }

  lemma {:induction false} NoneOut(src: seq<nat>, i: nat, k: nat)
    requires k <= |src| && forall j :: 0 <= j < k ==> src[j] != i
    ensures LastOut(src, i, k) == -1
  {
    if k > 0 { NoneOut(src, i, k - 1); }
  }

  class Dfa {
    var states: array<State>
    var edges: array<Edge>
    var nstates: nat
    var state_idx: nat
    var nedges: nat
    var edge_idx: nat
    var start: nat
    /** The prefix each state stands for, and the state each edge leaves. */
    ghost var paths: seq<string>
    ghost var src: seq<nat>
    ghost var words: map<string, int>

    ghost predicate Arrays()
      reads this
    {
      && start == 0 && states.Length == nstates && state_idx < nstates
      && edges.Length == nedges && edge_idx < nedges
    }

    ghost predicate Trie()
      reads this, states, edges
    { Arrays() && Linked(states[..state_idx], edges[..edge_idx], paths, src) }

    ghost predicate Valid()
      reads this, states, edges
    {
      && Trie() && Coded(states[..state_idx], paths, words)
      && forall i :: 0 <= i < |paths| ==> Reached(words, paths[i])
    }

    /** cldm_dfa_init */
    constructor ()
      ensures Valid() && fresh(states) && fresh(edges) && words == map[]
    {
      states := new State[STATE_DELTA](_ => State(EDGE_NONE, 0));
      edges := new Edge[EDGE_DELTA](_ => Edge('\0', EDGE_NONE, 0));
      nstates, state_idx := STATE_DELTA, 1;
      nedges, edge_idx := EDGE_DELTA, 0;
      start := 0;
      paths, src, words := [""], [], map[];
      new;
      states[0] := State(EDGE_NONE, 0);
    }

    /** The walk along the chain of edges that both loops of the source make: the edge out of `state` with
        `ch`, or none. */
    method FindEdge(state: nat, ch: char) returns (edge: int)
      requires Trie() && state < state_idx
      ensures -1 <= edge < edge_idx
      ensures edge >= 0 ==> 0 <= edges[edge].end < state_idx && paths[edges[edge].end] == paths[state] + [ch]
      ensures edge == EDGE_NONE <==> paths[state] + [ch] !in paths
    {
      hide LastOut, Linked;
      ghost var ss, es := states[..state_idx], edges[..edge_idx];
      Sizes(ss, es, paths, src);
      OnlyByEdge(ss, es, paths, src, state, ch);
      FirstEdge(ss, es, paths, src, state);
      edge := states[state].edges;
      assert edge == ss[state].edges;
      while edge != EDGE_NONE
        invariant -1 <= edge < edge_idx && (edge >= 0 ==> src[edge] == state)
        invariant forall e :: edge < e < edge_idx && src[e] == state ==> es[e].ch != ch
        decreases edge
      {
        assert edges[edge] == es[edge];
        NextEdge(ss, es, paths, src, edge);
        if edges[edge].ch == ch {
          return;
        }
        edge := edges[edge].next;
      }
    }

    /** cldm_dfa_simulate */
    method Simulate(input: string) returns (len: int, shortop: int)
      requires Valid()
      ensures (len, shortop) == Answer(words, input)
      ensures len != -1 ==> Recognised(words, input, len) && shortop == words[input[..len]]
      ensures len == -1 ==> shortop == 0 && forall n :: !Recognised(words, input, n)
    {
      hide LastOut, Linked, Reached, Recognised;
      AnswerIs(words, input);
      ghost var ss, es := states[..state_idx], edges[..edge_idx];
      StatesArePrefixes(ss, es, paths, src, words);
      Root(ss, es, paths, src);
      var state, pos := start, 0;
      assert input[..0] == "";
      while pos < |input|
        invariant 0 <= pos <= |input| && 0 <= state < state_idx && paths[state] == input[..pos]
        invariant Walk(words, input, pos) == Walk(words, input, 0)
      {
        var edge := FindEdge(state, input[pos]);
        assert input[..pos + 1] == paths[state] + [input[pos]];
        if edge == EDGE_NONE {
          break;
        }
        assert paths[edges[edge].end] in paths;
        state := edges[edge].end;
        pos := pos + 1;
      }
      assert ss[state] == states[state];
      if states[state].shortop != 0 {
        return pos, states[state].shortop;
      }
      return -1, 0;
    }

    /** Growing an array keeps its contents. */
    method EnsureStateCapacity()
      requires Arrays()
      modifies this`states, this`nstates
      ensures state_idx + 1 < nstates == states.Length
      ensures states == old(states) || fresh(states)
      ensures states[..state_idx] == old(states[..state_idx])
    {
      if state_idx + 1 < nstates {
        return;
      }
      var grown := new State[nstates + STATE_DELTA](_ => State(EDGE_NONE, 0));
      forall i | 0 <= i < states.Length { grown[i] := states[i]; }
      states := grown;
      nstates := nstates + STATE_DELTA;
    }

    method EnsureEdgeCapacity()
      requires Arrays()
      modifies this`edges, this`nedges
      ensures edge_idx + 1 < nedges == edges.Length
      ensures edges == old(edges) || fresh(edges)
      ensures edges[..edge_idx] == old(edges[..edge_idx])
    {
      if edge_idx + 1 < nedges {
        return;
      }
      var grown := new Edge[nedges + EDGE_DELTA](_ => Edge('\0', EDGE_NONE, 0));
      forall i | 0 <= i < edges.Length { grown[i] := edges[i]; }
      edges := grown;
      nedges := nedges + EDGE_DELTA;
    }

    /** cldm_dfa_append: a new state for a prefix that has none. */
    method Append(from: nat, ch: char) returns (state: nat)
      requires Trie() && from < state_idx && paths[from] + [ch] !in paths
      modifies this`states, this`nstates, this`edges, this`nedges, this`state_idx, this`edge_idx, this`paths,
               this`src, states, edges
      ensures Trie() && paths == old(paths) + [old(paths)[from] + [ch]]
      ensures state == old(state_idx) && state_idx == state + 1
      ensures states == old(states) || fresh(states)
      ensures edges == old(edges) || fresh(edges)
      ensures SameCodes(old(states[..state_idx]), states[..state_idx])
    {
      hide Linked, LastOut, Longer;
      ghost var ss, es := states[..state_idx], edges[..edge_idx];
      Sizes(ss, es, paths, src);
      Appended(ss, es, paths, src, from, ch);
      var edge := EdgePop();
      var end := StatePop();
      assert states[from] == ss[from];
      PutEdge(edge, Edge(ch, states[from].edges, end), es);
      PutState(from, edge, end, ss);
      state := edges[edge].end;
      paths, src := paths + [paths[from] + [ch]], src + [from];
    }

    /** cldm_dfa_edge_pop, with an uninitialised edge */
    method EdgePop() returns (edge: nat)
      requires Arrays()
      modifies this`edges, this`nedges, this`edge_idx
      ensures Arrays() && edge == old(edge_idx) && edge_idx == edge + 1
      ensures edges == old(edges) || fresh(edges)
      ensures edges[..edge] == old(edges[..edge_idx])
    {
      EnsureEdgeCapacity();
      edge := edge_idx;
      edge_idx := edge_idx + 1;
    }

    /** cldm_dfa_state_pop, with an uninitialised state */
    method StatePop() returns (state: nat)
      requires Arrays()
      modifies this`states, this`nstates, this`state_idx
      ensures Arrays() && state == old(state_idx) && state_idx == state + 1
      ensures states == old(states) || fresh(states)
      ensures states[..state] == old(states[..state_idx])
    {
      EnsureStateCapacity();
      state := state_idx;
      state_idx := state_idx + 1;
    }

    method PutEdge(edge: nat, e: Edge, ghost es: seq<Edge>)
      requires Arrays() && edge_idx == edge + 1 && edges[..edge] == es
      modifies edges
      ensures edges[..edge_idx] == es + [e]
    {
      edges[edge] := e;
    }

    /** The new edge becomes the first of its source, and the new state has none. */
    method PutState(from: nat, edge: nat, end: nat, ghost ss: seq<State>)
      requires Arrays() && from < end && state_idx == end + 1 && states[..end] == ss
      modifies states
      ensures states[..state_idx] == ss[from := ss[from].(edges := edge)] + [State(EDGE_NONE, 0)]
    {
      assert states[from] == ss[from];
      states[from] := states[from].(edges := edge);
      states[end] := State(EDGE_NONE, 0);
    }

    /** cldm_dfa_add_argument */
    method AddArgument(arg: string, shortop: int)
      requires Valid()
      modifies this`states, this`nstates, this`edges, this`nedges, this`state_idx, this`edge_idx, this`paths,
               this`src, this`words, states, edges
      ensures Valid() && words == old(words)[arg := shortop]
      ensures states == old(states) || fresh(states)
      ensures edges == old(edges) || fresh(edges)
    {
      hide Linked, LastOut, Reached, Coded;
      Root(states[..state_idx], edges[..edge_idx], paths, src);
      var state, k := start, 0;
      assert arg[..0] == "";
      while k < |arg|
        invariant 0 <= k <= |arg| && 0 <= state < state_idx && Trie() && words == old(words)
        invariant |paths| == state_idx && Coded(states[..state_idx], paths, words)
        invariant paths[state] == arg[..k]
        invariant forall i :: 0 <= i < |paths| ==> Reached(words, paths[i]) || paths[i] <= arg
        invariant states == old(states) || fresh(states)
        invariant edges == old(edges) || fresh(edges)
      {
        var edge := FindEdge(state, arg[k]);
        assert arg[..k + 1] == paths[state] + [arg[k]];
        if edge != EDGE_NONE {
          state := edges[edge].end;
        } else {
          ghost var ss, ps := states[..state_idx], paths;
          state := Append(state, arg[k]);
          StillCoded(ss, states[..state_idx], ps, arg[..k + 1], words);
        }
        k := k + 1;
      }
      ghost var ss := states[..state_idx];
      states[state] := states[state].(shortop := shortop);
      words := words[arg := shortop];
      assert arg[..|arg|] == arg;
      assert states[..state_idx] == ss[state := ss[state].(shortop := shortop)];
      WordAdded(ss, edges[..edge_idx], paths, src, old(words), state, arg, shortop);
    }
  }

  lemma Root(states: seq<State>, edges: seq<Edge>, paths: seq<string>, src: seq<nat>)
    requires Linked(states, edges, paths, src)
    ensures |paths| == |states| >= 1 && paths[0] == ""
  {
  }

  lemma Sizes(states: seq<State>, edges: seq<Edge>, paths: seq<string>, src: seq<nat>)
    requires Linked(states, edges, paths, src)
    ensures |paths| == |states| == |edges| + 1 == |src| + 1
  {
  }

  /** One more state, without a code. */
  ghost predicate SameCodes(states: seq<State>, states': seq<State>) {
    && |states'| == |states| + 1 && states'[|states|].shortop == 0
    && forall i :: 0 <= i < |states| ==> states'[i].shortop == states[i].shortop
  }

  /** A state for a prefix that is no word has no code. */
  lemma StillCoded(states: seq<State>, states': seq<State>, paths: seq<string>, p: string, words: map<string, int>)
    requires Coded(states, paths, words) && p !in paths && SameCodes(states, states')
    ensures Coded(states', paths + [p], words)
  {
  }

  /** The code goes to the state of the new word and to no other. */
  lemma WordAdded(states: seq<State>, edges: seq<Edge>, paths: seq<string>, src: seq<nat>, words: map<string, int>,
                  state: nat, arg: string, shortop: int)
    requires Linked(states, edges, paths, src) && Coded(states, paths, words)
    requires |paths| == |states| && state < |paths| && paths[state] == arg
    requires forall i :: 0 <= i < |paths| ==> Reached(words, paths[i]) || paths[i] <= arg
    ensures var states' := states[state := states[state].(shortop := shortop)];
      var words' := words[arg := shortop];
      && Linked(states', edges, paths, src) && Coded(states', paths, words')
      && forall i :: 0 <= i < |paths| ==> Reached(words', paths[i])
  {
    hide LastOut;
    var states' := states[state := states[state].(shortop := shortop)];
    var words' := words[arg := shortop];
    Relabelled(states, edges, paths, src, state, shortop);
    Recoded(states, edges, paths, src, words, state, arg, shortop);
    forall i | 0 <= i < |paths|
      ensures Reached(words', paths[i])
    {
      ReachedMore(words, arg, shortop, paths[i]);
    }
  }

  lemma Relabelled(states: seq<State>, edges: seq<Edge>, paths: seq<string>, src: seq<nat>, state: nat, shortop: int)
    requires Linked(states, edges, paths, src) && state < |states|
    ensures Linked(states[state := states[state].(shortop := shortop)], edges, paths, src)
  {
    hide LastOut;
  }

  lemma Recoded(states: seq<State>, edges: seq<Edge>, paths: seq<string>, src: seq<nat>, words: map<string, int>,
                state: nat, arg: string, shortop: int)
    requires Linked(states, edges, paths, src) && Coded(states, paths, words)
    requires state < |paths| && paths[state] == arg
    ensures Coded(states[state := states[state].(shortop := shortop)], paths, words[arg := shortop])
  {
    hide LastOut, Longer;
    assert forall i :: 0 <= i < |paths| && i != state ==> paths[i] != arg;
  }

  lemma ReachedMore(words: map<string, int>, arg: string, shortop: int, p: string)
    requires Reached(words, p) || p <= arg
    ensures Reached(words[arg := shortop], p)
  {
    var words' := words[arg := shortop];
    if p <= arg {
      assert arg in words';
    } else if p != "" {
      var w :| w in words && p <= w;
      assert w in words';
    }
  }
}
