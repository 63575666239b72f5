/**
 * A broadcast as a wave over a graph: which nodes have handled it at which hop, whose beacon
 * is waiting, which copies are in the air. Copies that have made fewer hops arrive first.
 */
module MeshWave {
  import opened MeshFleet

  /** Who hears whom; nothing says hearing is mutual. */
  type Graph = seq<seq<nat>>

  predicate IsGraph(g: Graph) {
    forall u, j :: 0 <= u < |g| && 0 <= j < |g[u]| ==> g[u][j] < |g|
  }

  /** There is a path of d steps from o to u. */
  predicate Walk(g: Graph, o: nat, u: nat, d: nat)
    decreases d
  {
    if d == 0 then u == o else exists v :: 0 <= v < |g| && u in g[v] && Walk(g, o, v, d - 1)
  }

  /** u is within d hops of o. */
  predicate Within(g: Graph, o: nat, u: nat, d: nat) { exists k :: 0 <= k <= d && Walk(g, o, u, k) }

  datatype Hop = Hop(to: nat, hops: nat)

  /** `level` is the hop at which a node handled the broadcast, -1 if it has not. */
  datatype Wave = Wave(level: seq<int>, ring: seq<bool>, air: seq<Hop>)

  datatype Move = Relay(at: nat) | Reach(copy: nat)

  function Hops(to: seq<nat>, hops: nat): (r: seq<Hop>)
    ensures |r| == |to| && forall i :: 0 <= i < |to| ==> r[i] == Hop(to[i], hops)
  {
    seq(|to|, i requires 0 <= i < |to| => Hop(to[i], hops))
  }

  predicate Shaped(w: Wave, g: Graph) {
    && IsGraph(g) && |w.level| == |w.ring| == |g|
    && (forall u :: 0 <= u < |g| ==> -1 <= w.level[u] <= MAX_HOPS)
    && (forall u :: 0 <= u < |g| && w.ring[u] ==> 0 <= w.level[u] < MAX_HOPS)
    && forall k :: 0 <= k < |w.air| ==> w.air[k].to < |g| && 0 < w.air[k].hops <= MAX_HOPS
  }

  /** No copy and no waiting beacon has made fewer hops than this one. */
  predicate Next(w: Wave, g: Graph, k: nat)
    requires Shaped(w, g) && k < |w.air|
  {
    && (forall j :: 0 <= j < |w.air| ==> w.air[k].hops <= w.air[j].hops)
    && forall u :: 0 <= u < |g| && w.ring[u] ==> w.air[k].hops <= w.level[u] + 1
  }

  predicate Possible(w: Wave, g: Graph, m: Move)
    requires Shaped(w, g)
  {
    match m
    case Relay(u) => u < |g| && w.ring[u]
    case Reach(k) => k < |w.air| && Next(w, g, k)
  }

  function Moved(w: Wave, g: Graph, m: Move): Wave
    requires Shaped(w, g) && Possible(w, g, m)
  {
    match m
    case Relay(u) => w.(ring := w.ring[u := false], air := w.air + Hops(g[u], w.level[u] + 1))
    case Reach(k) =>
      var h := w.air[k];
      var rest := w.air[..k] + w.air[k + 1..];
      if w.level[h.to] >= 0 then w.(air := rest)
      else Wave(w.level[h.to := h.hops], w.ring[h.to := h.hops < MAX_HOPS], rest)
  }

  // ---- what a wave keeps ----

  /** Everything is where a path leads. */
  predicate Sound(w: Wave, g: Graph, o: nat)
    requires Shaped(w, g)
  {
    && (forall u :: 0 <= u < |g| && w.level[u] >= 0 ==> Walk(g, o, u, w.level[u]))
    && forall k :: 0 <= k < |w.air| ==> Walk(g, o, w.air[k].to, w.air[k].hops)
  }

  /** No node was handled at a later hop than anything still to come. */
  predicate Ordered(w: Wave, g: Graph)
    requires Shaped(w, g)
  {
    && (forall u, k :: 0 <= u < |g| && 0 <= k < |w.air| ==> w.level[u] <= w.air[k].hops)
    && forall u, v :: 0 <= u < |g| && 0 <= v < |g| && w.ring[v] ==> w.level[u] <= w.level[v] + 1
  }

  predicate Coming(w: Wave, v: nat, most: int) {
    exists k :: 0 <= k < |w.air| && w.air[k].to == v && w.air[k].hops <= most
  }

  /** A node that has relayed has its neighbours covered, or a copy is on its way to them. */
  predicate Covered(w: Wave, g: Graph, u: nat, v: nat)
    requires Shaped(w, g) && u < |g| && v < |g|
  {
    || w.ring[u]
    || 0 <= w.level[v] <= w.level[u] + 1
    || Coming(w, v, w.level[u] + 1)
  }

  predicate Closed(w: Wave, g: Graph)
    requires Shaped(w, g)
  {
    forall u, v :: 0 <= u < |g| && 0 <= v < |g| && v in g[u] && 0 <= w.level[u] < MAX_HOPS ==> Covered(w, g, u, v)
  }

  predicate WaveInv(w: Wave, g: Graph, o: nat) {
    && Shaped(w, g) && o < |g| && w.level[o] == 0
    && Sound(w, g, o) && Ordered(w, g) && Closed(w, g)
  }

  // ---- a relay ----

  lemma RelayAir(w: Wave, g: Graph, u: nat, k: nat)
    requires Shaped(w, g) && Possible(w, g, Relay(u))
    ensures var w' := Moved(w, g, Relay(u));
      k < |w'.air| ==> if k < |w.air| then w'.air[k] == w.air[k]
                       else w'.air[k].to in g[u] && w'.air[k].hops == w.level[u] + 1 && w'.air[k].to < |g|
  {
  }

  lemma RelayShaped(w: Wave, g: Graph, u: nat)
    requires Shaped(w, g) && Possible(w, g, Relay(u))
    ensures Shaped(Moved(w, g, Relay(u)), g)
  {
    forall k { RelayAir(w, g, u, k); }
  }

  lemma RelaySound(w: Wave, g: Graph, o: nat, u: nat)
    requires Shaped(w, g) && Possible(w, g, Relay(u)) && Shaped(Moved(w, g, Relay(u)), g) && Sound(w, g, o)
    ensures Sound(Moved(w, g, Relay(u)), g, o)
  {
    hide Walk;
    var w' := Moved(w, g, Relay(u));
    forall k | 0 <= k < |w'.air| ensures Walk(g, o, w'.air[k].to, w'.air[k].hops) {
      RelayAir(w, g, u, k);
      if k >= |w.air| { Onward(g, o, u, w'.air[k].to, w.level[u]); }
    }
  }

  lemma Onward(g: Graph, o: nat, u: nat, v: nat, d: nat)
    requires u < |g| && v in g[u] && Walk(g, o, u, d)
    ensures Walk(g, o, v, d + 1)
  {
  }

  lemma RelayOrdered(w: Wave, g: Graph, u: nat)
    requires Shaped(w, g) && Possible(w, g, Relay(u)) && Shaped(Moved(w, g, Relay(u)), g) && Ordered(w, g)
    ensures Ordered(Moved(w, g, Relay(u)), g)
  {
    var w' := Moved(w, g, Relay(u));
    forall x, k | 0 <= x < |g| && 0 <= k < |w'.air| ensures w'.level[x] <= w'.air[k].hops {
      RelayAir(w, g, u, k);
    }
  }

  lemma RelayClosed(w: Wave, g: Graph, u: nat)
    requires Shaped(w, g) && Possible(w, g, Relay(u)) && Shaped(Moved(w, g, Relay(u)), g) && Closed(w, g)
    ensures Closed(Moved(w, g, Relay(u)), g)
  {
    var w', was := Moved(w, g, Relay(u)), |w.air|;
    forall x, v | 0 <= x < |g| && 0 <= v < |g| && v in g[x] && 0 <= w'.level[x] < MAX_HOPS
      ensures Covered(w', g, x, v)
    {
      assert Covered(w, g, x, v);
      if x == u {
        var j :| 0 <= j < |g[u]| && g[u][j] == v;
        assert w'.air[was + j] == Hop(v, w.level[u] + 1);
      } else if Coming(w, v, w.level[x] + 1) {
        var k :| 0 <= k < was && w.air[k].to == v && w.air[k].hops <= w.level[x] + 1;
        assert w'.air[k] == w.air[k];
      }
    }
  }

  // ---- a copy arriving ----

  lemma ReachAir(w: Wave, g: Graph, k: nat, j: nat)
    requires Shaped(w, g) && Possible(w, g, Reach(k))
    ensures var w' := Moved(w, g, Reach(k));
      (j < |w'.air| ==> w'.air[j] == w.air[if j < k then j else j + 1])
      && (j < |w.air| && j != k ==> w.air[j] == w'.air[if j < k then j else j - 1])
  {
  }

  lemma ReachShaped(w: Wave, g: Graph, k: nat)
    requires Shaped(w, g) && Possible(w, g, Reach(k))
    ensures Shaped(Moved(w, g, Reach(k)), g)
  {
  }

  lemma ReachSound(w: Wave, g: Graph, o: nat, k: nat)
    requires Shaped(w, g) && Possible(w, g, Reach(k)) && Shaped(Moved(w, g, Reach(k)), g) && Sound(w, g, o)
    ensures Sound(Moved(w, g, Reach(k)), g, o)
  {
    hide Walk;
  }

  lemma ReachOrdered(w: Wave, g: Graph, k: nat)
    requires Shaped(w, g) && Possible(w, g, Reach(k)) && Shaped(Moved(w, g, Reach(k)), g) && Ordered(w, g)
    ensures Ordered(Moved(w, g, Reach(k)), g)
  {
  }

  lemma ReachClosed(w: Wave, g: Graph, k: nat)
    requires Shaped(w, g) && Possible(w, g, Reach(k)) && Shaped(Moved(w, g, Reach(k)), g)
    requires Ordered(w, g) && Closed(w, g)
    ensures Closed(Moved(w, g, Reach(k)), g)
  {
    var w', h := Moved(w, g, Reach(k)), w.air[k];
    forall x, v | 0 <= x < |g| && 0 <= v < |g| && v in g[x] && 0 <= w'.level[x] < MAX_HOPS
      ensures Covered(w', g, x, v)
    {
      if w.level[x] < 0 {
        assert w'.ring[x];
      } else {
        assert Covered(w, g, x, v);
        if !w.ring[x] && !(0 <= w.level[v] <= w.level[x] + 1) {
          var j :| 0 <= j < |w.air| && w.air[j].to == v && w.air[j].hops <= w.level[x] + 1;
          ReachAir(w, g, k, j);
          if j == k { assert 0 <= w'.level[v] <= w.level[x] + 1; }
          else { assert Coming(w', v, w'.level[x] + 1); }
        }
      }
    }
  }

  lemma MoveKeepsInv(w: Wave, g: Graph, o: nat, m: Move)
    requires WaveInv(w, g, o) && Possible(w, g, m)
    ensures WaveInv(Moved(w, g, m), g, o)
  {
    hide Sound, Ordered, Closed;
    match m
    case Relay(u) =>
      RelayShaped(w, g, u);
      RelaySound(w, g, o, u);
      RelayOrdered(w, g, u);
      RelayClosed(w, g, u);
    case Reach(k) =>
      ReachShaped(w, g, k);
      ReachSound(w, g, o, k);
      ReachOrdered(w, g, k);
      ReachClosed(w, g, k);
  }

  /** Where a broadcast starts: its originator has handled it and its beacon waits. */
  function Start(n: nat, o: nat): Wave
    requires o < n
  {
    Wave(seq(n, _ => -1)[o := 0], seq(n, _ => false)[o := true], [])
  }

  lemma StartInv(g: Graph, o: nat)
    requires IsGraph(g) && o < |g|
    ensures WaveInv(Start(|g|, o), g, o)
  {
  }

  // ---- what is left when nothing is left to do ----

  predicate Quiet(w: Wave) { w.air == [] && forall u :: 0 <= u < |w.ring| ==> !w.ring[u] }

  lemma {:induction false} WalkersCovered(w: Wave, g: Graph, o: nat, u: nat, d: nat)
    requires WaveInv(w, g, o) && Quiet(w) && u < |g| && d <= MAX_HOPS && Walk(g, o, u, d)
    ensures 0 <= w.level[u] <= d
    decreases d
  {
    if d > 0 {
      var v :| 0 <= v < |g| && u in g[v] && Walk(g, o, v, d - 1);
      WalkersCovered(w, g, o, v, d - 1);
      assert Covered(w, g, v, u);
    }
  }

  /** The wave has reached exactly the nodes within four hops, each at its distance. */
  lemma QuietMeansCovered(w: Wave, g: Graph, o: nat, u: nat)
    requires WaveInv(w, g, o) && Quiet(w) && u < |g|
    ensures w.level[u] >= 0 <==> Within(g, o, u, MAX_HOPS)
    ensures w.level[u] >= 0 ==> Walk(g, o, u, w.level[u]) && forall k :: 0 <= k < w.level[u] ==> !Walk(g, o, u, k)
  {
    hide Walk;
    forall k | 0 <= k <= MAX_HOPS && Walk(g, o, u, k) ensures 0 <= w.level[u] <= k {
      WalkersCovered(w, g, o, u, k);
    }
  }

  /** A wave that is not quiet can go on. */
  lemma QuietOrMoving(w: Wave, g: Graph) returns (m: Move)
    requires Shaped(w, g) && !Quiet(w)
    ensures Possible(w, g, m)
  {
    if u :| 0 <= u < |g| && w.ring[u] {
      return Relay(u);
    }
    return Reach(Nearest(w.air));
  }

  /** A copy that has made the fewest hops. */
  function Nearest(air: seq<Hop>): (k: nat)
    requires air != []
    ensures k < |air| && forall j :: 0 <= j < |air| ==> air[k].hops <= air[j].hops
  {
    if |air| == 1 then 0
    else
      var k := Nearest(air[1..]) + 1;
      assert forall j :: 1 <= j < |air| ==> air[j] == air[1..][j - 1];
      if air[0].hops <= air[k].hops then 0 else k
  }
}
