/** Three-colour depth-first search for an advisor cycle (`_find_cycle` of the graph validator). */
module CycleFinder {
  import opened Options

  type Graph<V(==)> = map<V, seq<V>>

  /** `to` is listed as a successor of `from`. */
  predicate Arc<V(==)>(adj: Graph<V>, from: V, to: V) {
    from in adj && to in adj[from]
  }

  predicate Walk<V(==)>(adj: Graph<V>, p: seq<V>) {
    forall i, j :: 0 <= i && j == i + 1 < |p| ==> Arc(adj, p[i], p[j])
  }

  ghost predicate ClosedWalk<V>(adj: Graph<V>, p: seq<V>) {
    |p| >= 2 && p[0] == p[|p| - 1] && Walk(adj, p)
  }

  ghost predicate Unrepeated<V>(p: seq<V>) {
    forall i, j :: 0 <= i < j < |p| ==> p[i] != p[j]
  }

  /** A closed walk that meets no vertex twice before it closes. */
  ghost predicate Cycle<V>(adj: Graph<V>, p: seq<V>) {
    ClosedWalk(adj, p) && Unrepeated(p[..|p| - 1])
  }

  ghost predicate Acyclic<V(!new)>(adj: Graph<V>) {
    !exists p: seq<V> :: ClosedWalk(adj, p)
  }

  /** Every listed vertex has a rank, and arcs between listed vertices go down in rank: the order in
      which the search finishes vertices. */
  ghost predicate Ranked<V>(adj: Graph<V>, done: set<V>, rank: map<V, nat>) {
    && done <= adj.Keys && done == rank.Keys
    && forall v, w :: v in done && w in adj[v] && w in adj ==> w in done && rank[w] < rank[v]
  }

  lemma {:induction false} RanksFall<V>(adj: Graph<V>, rank: map<V, nat>, p: seq<V>)
    requires Ranked(adj, adj.Keys, rank) && Walk(adj, p) && |p| >= 2 && p[|p| - 1] in adj
    ensures p[0] in adj && rank[p[|p| - 1]] < rank[p[0]]
  {
    assert Arc(adj, p[0], p[1]);
    if |p| > 2 {
      var rest := p[1..];
      assert Walk(adj, rest) by {
        forall i, j | 0 <= i && j == i + 1 < |rest|
          ensures Arc(adj, rest[i], rest[j])
        {
          assert Arc(adj, p[i + 1], p[j + 1]);
        }
      }
      RanksFall(adj, rank, rest);
    }
  }

  /** A ranking of all vertices excludes closed walks. */
  lemma RankedIsAcyclic<V(!new)>(adj: Graph<V>, rank: map<V, nat>)
    requires Ranked(adj, adj.Keys, rank)
    ensures Acyclic(adj)
  {
    forall p: seq<V> | |p| >= 2 && p[0] == p[|p| - 1]
      ensures !Walk(adj, p)
    {
      if Walk(adj, p) {
        assert Arc(adj, p[0], p[1]);
        RanksFall(adj, rank, p);
        assert false;
      }
    }
  }

  datatype Color = White | Gray | Black

  /** A vertex on the stack, with the position of its successor iterator. */
  datatype Frame<V> = Frame(node: V, next: nat)

  predicate Settled<V(==)>(adj: Graph<V>, color: map<V, Color>, v: V) {
    v in color ==> color[v] == Black
  }

  /** Successors of the frame at `depth` that its iterator has passed are settled, all but the one the
      search has descended into. */
  ghost predicate FrameScanned<V>(adj: Graph<V>, color: map<V, Color>, stack: seq<Frame<V>>, depth: nat)
    requires depth < |stack| && stack[depth].node in adj
  {
    var frame := stack[depth];
    && frame.next <= |adj[frame.node]|
    && (depth + 1 < |stack| ==> 0 < frame.next && adj[frame.node][frame.next - 1] == stack[depth + 1].node)
    && forall i :: 0 <= i < (if depth + 1 < |stack| then frame.next - 1 else frame.next)
         ==> Settled(adj, color, adj[frame.node][i])
  }

  ghost function Blacks<V>(color: map<V, Color>): set<V> {
    set v | v in color && color[v] == Black
  }

  ghost function Whites<V>(color: map<V, Color>): set<V> {
    set v | v in color && color[v] == White
  }

  /** The search state: the grey vertices are those on the stack, and the black ones are ranked below
      `clock`. */
  ghost predicate Searching<V>(adj: Graph<V>, color: map<V, Color>, path: seq<V>, stack: seq<Frame<V>>,
                               rank: map<V, nat>, clock: nat) {
    && color.Keys == adj.Keys
    && |path| == |stack|
    && (forall i :: 0 <= i < |stack| ==> stack[i].node == path[i] && path[i] in adj)
    && Unrepeated(path)
    && (forall v :: v in adj ==> (color[v] == Gray <==> v in path))
    && (forall i :: 0 <= i < |stack| ==> FrameScanned(adj, color, stack, i))
    && Ranked(adj, Blacks(color), rank)
    && (forall v :: v in rank ==> rank[v] < clock)
  }

  lemma PathIsWalk<V>(adj: Graph<V>, color: map<V, Color>, path: seq<V>, stack: seq<Frame<V>>, rank: map<V, nat>,
                      clock: nat)
    requires Searching(adj, color, path, stack, rank, clock)
    ensures Walk(adj, path)
  {
    forall i, j | 0 <= i && j == i + 1 < |path|
      ensures Arc(adj, path[i], path[j])
    {
      assert FrameScanned(adj, color, stack, i);
    }
  }

  /** A grey successor of the top vertex closes a cycle along the path. */
  lemma BackArcClosesCycle<V>(adj: Graph<V>, color: map<V, Color>, path: seq<V>, stack: seq<Frame<V>>,
                              rank: map<V, nat>, clock: nat, at: nat, w: V)
    requires Searching(adj, color, path, stack, rank, clock)
    requires at < |path| && path[at] == w && w in adj[path[|path| - 1]]
    ensures Cycle(adj, path[at..] + [w])
  {
    PathIsWalk(adj, color, path, stack, rank, clock);
    var p := path[at..] + [w];
    forall i, j | 0 <= i && j == i + 1 < |p|
      ensures Arc(adj, p[i], p[j])
    {
      if j < |p| - 1 {
        assert Arc(adj, path[at + i], path[at + j]);
      }
    }
    assert p[..|p| - 1] == path[at..];
  }

  lemma PushKeeps<V>(adj: Graph<V>, color: map<V, Color>, path: seq<V>, stack: seq<Frame<V>>,
                     rank: map<V, nat>, clock: nat, w: V)
    requires Searching(adj, color, path, stack, rank, clock)
    requires w in adj && color[w] == White
    requires stack != [] ==> var top := stack[|stack| - 1];
                             top.next < |adj[top.node]| && adj[top.node][top.next] == w
    ensures var advanced := if stack == [] then []
        else stack[..|stack| - 1] + [Frame(stack[|stack| - 1].node, stack[|stack| - 1].next + 1)];
            Searching(adj, color[w := Gray], path + [w], advanced + [Frame(w, 0)], rank, clock)
    ensures Whites(color[w := Gray]) == Whites(color) - {w}
  {
    var n := |stack|;
    var advanced := if n == 0 then [] else stack[..n - 1] + [Frame(stack[n - 1].node, stack[n - 1].next + 1)];
    var color', stack' := color[w := Gray], advanced + [Frame(w, 0)];
    assert Blacks(color') == Blacks(color);
    forall i | 0 <= i <= n
      ensures FrameScanned(adj, color', stack', i)
    {
      if i < n {
        assert FrameScanned(adj, color, stack, i);
      }
    }
  }

  lemma SkipKeeps<V>(adj: Graph<V>, color: map<V, Color>, path: seq<V>, stack: seq<Frame<V>>,
                     rank: map<V, nat>, clock: nat)
    requires Searching(adj, color, path, stack, rank, clock) && stack != []
    requires var top := stack[|stack| - 1];
             top.next < |adj[top.node]| && Settled(adj, color, adj[top.node][top.next])
    ensures var top := stack[|stack| - 1];
            Searching(adj, color, path, stack[..|stack| - 1] + [Frame(top.node, top.next + 1)], rank, clock)
  {
    var n, top := |stack|, stack[|stack| - 1];
    var stack' := stack[..n - 1] + [Frame(top.node, top.next + 1)];
    forall i | 0 <= i < n
      ensures FrameScanned(adj, color, stack', i)
    {
      assert FrameScanned(adj, color, stack, i);
    }
  }

  lemma TopIsScanned<V>(adj: Graph<V>, color: map<V, Color>, stack: seq<Frame<V>>, w: V)
    requires color.Keys == adj.Keys && stack != [] && stack[|stack| - 1].node in adj
    requires FrameScanned(adj, color, stack, |stack| - 1)
    requires stack[|stack| - 1].next == |adj[stack[|stack| - 1].node]|
    requires w in adj[stack[|stack| - 1].node] && w in adj
    ensures w in Blacks(color)
  {
    var v := stack[|stack| - 1].node;
    var i :| 0 <= i < |adj[v]| && adj[v][i] == w;
    assert Settled(adj, color, w);
  }

  lemma RankOneMore<V>(adj: Graph<V>, done: set<V>, rank: map<V, nat>, v: V, clock: nat)
    requires Ranked(adj, done, rank) && v in adj && v !in done
    requires forall w :: w in rank ==> rank[w] < clock
    requires forall w :: w in adj[v] && w in adj ==> w in done
    ensures Ranked(adj, done + {v}, rank[v := clock])
  {
  }

  /** The frames below a finished vertex have passed it. */
  lemma PopFrames<V>(adj: Graph<V>, color: map<V, Color>, stack: seq<Frame<V>>, color': map<V, Color>,
                     stack': seq<Frame<V>>)
    requires color.Keys == adj.Keys && stack != [] && forall i :: 0 <= i < |stack| ==> stack[i].node in adj
    requires forall i :: 0 <= i < |stack| ==> FrameScanned(adj, color, stack, i)
    requires color' == color[stack[|stack| - 1].node := Black] && stack' == stack[..|stack| - 1]
    ensures forall i :: 0 <= i < |stack'| ==> FrameScanned(adj, color', stack', i)
  {
    forall i | 0 <= i < |stack'|
      ensures FrameScanned(adj, color', stack', i)
    {
      assert FrameScanned(adj, color, stack, i);
    }
  }

  lemma PopColors<V>(adj: Graph<V>, color: map<V, Color>, path: seq<V>, v: V)
    requires color.Keys == adj.Keys && Unrepeated(path + [v]) && v in adj
    requires forall x :: x in adj ==> (color[x] == Gray <==> x in path + [v])
    ensures Unrepeated(path) && forall x :: x in adj ==> (color[v := Black][x] == Gray <==> x in path)
    ensures Blacks(color[v := Black]) == Blacks(color) + {v} && v !in Blacks(color)
    ensures Whites(color[v := Black]) == Whites(color)
  {
    var n := |path|;
    assert (path + [v])[n] == v;
    forall i | 0 <= i < n
      ensures path[i] != v
    {
      assert (path + [v])[i] == path[i];
    }
    assert Unrepeated(path) by {
      assert forall i :: 0 <= i < n ==> (path + [v])[i] == path[i];
    }
  }

  lemma PopKeeps<V>(adj: Graph<V>, color: map<V, Color>, path: seq<V>, stack: seq<Frame<V>>,
                    rank: map<V, nat>, clock: nat)
    requires Searching(adj, color, path, stack, rank, clock) && stack != []
    requires stack[|stack| - 1].next == |adj[stack[|stack| - 1].node]|
    ensures var v := stack[|stack| - 1].node;
            Searching(adj, color[v := Black], path[..|path| - 1], stack[..|stack| - 1], rank[v := clock], clock + 1)
    ensures Whites(color[stack[|stack| - 1].node := Black]) == Whites(color)
  {
    var n, v := |stack|, stack[|stack| - 1].node;
    assert path == path[..n - 1] + [v];
    PopColors(adj, color, path[..n - 1], v);
    forall w | w in adj[v] && w in adj
      ensures w in Blacks(color)
    {
      TopIsScanned(adj, color, stack, w);
    }
    RankOneMore(adj, Blacks(color), rank, v, clock);
    PopFrames(adj, color, stack, color[v := Black], stack[..n - 1]);
  }

  /** Position of `w` in `path` (`path.index`). */
  method IndexOf<V(==)>(path: seq<V>, w: V) returns (at: nat)
    requires w in path
    ensures at < |path| && path[at] == w
  {
    at := 0;
    while path[at] != w
      invariant at < |path| && w !in path[..at]
      decreases |path| - at
    {
      at := at + 1;
    }
  }

  /** Follow the next arc of the top vertex: close a cycle, descend, or skip. */
  method Follow<V(==)>(adj: Graph<V>, color: map<V, Color>, path: seq<V>, stack: seq<Frame<V>>, ghost rank: map<V, nat>,
                       ghost clock: nat)
    returns (cycle: Option<seq<V>>, color': map<V, Color>, path': seq<V>, stack': seq<Frame<V>>)
    requires Searching(adj, color, path, stack, rank, clock) && stack != []
    requires stack[|stack| - 1].next < |adj[stack[|stack| - 1].node]|
    ensures cycle.Some? ==> Cycle(adj, cycle.value)
    ensures cycle.None? ==> Searching(adj, color', path', stack', rank, clock) && Blacks(color') == Blacks(color)
    ensures cycle.None? ==> forall v :: v in color && color[v] != White ==> color'[v] != White
    ensures cycle.None? ==> Whites(color') < Whites(color)
                            || (color' == color
                                && stack' == stack[..|stack| - 1]
                                             + [stack[|stack| - 1].(next := stack[|stack| - 1].next + 1)])
  {
    cycle, color', path', stack' := None, color, path, stack;
    var top := stack[|stack| - 1];
    var w := adj[top.node][top.next];
    var c := if w in color then color[w] else Black;
    if c == Gray {
      var at := IndexOf(path, w);
      BackArcClosesCycle(adj, color, path, stack, rank, clock, at, w);
      cycle := Some(path[at..] + [w]);
    } else if c == White {
      PushKeeps(adj, color, path, stack, rank, clock, w);
      assert w in Whites(color);
      color', path' := color[w := Gray], path + [w];
      stack' := stack[..|stack| - 1] + [Frame(top.node, top.next + 1)] + [Frame(w, 0)];
    } else {
      SkipKeeps(adj, color, path, stack, rank, clock);
      stack' := stack[..|stack| - 1] + [Frame(top.node, top.next + 1)];
    }
  }

  /** The inner loop: search from a white vertex until the stack is empty or a back arc shows up. */
  method SearchFrom<V(==)>(adj: Graph<V>, start: V, before: map<V, Color>, ghost rankBefore: map<V, nat>,
                           ghost clockBefore: nat)
    returns (cycle: Option<seq<V>>, color: map<V, Color>, ghost rank: map<V, nat>, ghost clock: nat)
    requires Searching(adj, before, [], [], rankBefore, clockBefore)
    requires start in adj && before[start] == White
    ensures cycle.Some? ==> Cycle(adj, cycle.value)
    ensures cycle.None? ==> Searching(adj, color, [], [], rank, clock) && Blacks(before) + {start} <= Blacks(color)
  {
    cycle := None;
    color, rank, clock := before, rankBefore, clockBefore;
    PushKeeps(adj, color, [], [], rank, clock, start);
    color := color[start := Gray];
    var path, stack := [start], [Frame(start, 0)];
    assert [] + [start] == path && [] + [Frame(start, 0)] == stack;
    while stack != []
      invariant cycle.None? && Searching(adj, color, path, stack, rank, clock)
      invariant Blacks(before) <= Blacks(color)
      invariant color[start] != White
      decreases Whites(color), |stack|, if stack == [] then 0
          else |adj[stack[|stack| - 1].node]| - stack[|stack| - 1].next
    {
      var top := stack[|stack| - 1];
      assert FrameScanned(adj, color, stack, |stack| - 1);
      if top.next == |adj[top.node]| {
        PopKeeps(adj, color, path, stack, rank, clock);
        rank, clock := rank[top.node := clock], clock + 1;
        color := color[top.node := Black];
        path, stack := path[..|path| - 1], stack[..|stack| - 1];
        continue;
      }
      cycle, color, path, stack := Follow(adj, color, path, stack, rank, clock);
      if cycle.Some? {
        return;
      }
    }
    assert path == [] && color[start] == Black;
  }

  /** One cycle of the graph if it has any, else none. */
  method FindCycle<V(==, !new)>(keys: seq<V>, adj: Graph<V>) returns (cycle: Option<seq<V>>)
    requires forall v :: v in adj <==> v in keys
    ensures cycle.Some? ==> Cycle(adj, cycle.value)
    ensures cycle.None? <==> Acyclic(adj)
  {
    var color: map<V, Color> := map v | v in adj.Keys :: White;
    ghost var rank: map<V, nat>, clock: nat := map[], 0;
    assert Blacks(color) == {};
    for s := 0 to |keys|
      invariant Searching(adj, color, [], [], rank, clock)
      invariant forall i :: 0 <= i < s ==> keys[i] in Blacks(color)
    {
      if color[keys[s]] != White {
        continue;
      }
      cycle, color, rank, clock := SearchFrom(adj, keys[s], color, rank, clock);
      if cycle.Some? {
        return;
      }
    }
    assert Blacks(color) == adj.Keys;
    RankedIsAcyclic(adj, rank);
    return None;
  }
}
