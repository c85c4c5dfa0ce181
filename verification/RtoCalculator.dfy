/** The timeout calculator as it stands in memory: a map from paths to links whose owners hold the
    estimates, all threaded on one intrusive list in order of last update. */
module RtoCalculator {
  import opened Bytes
  import opened Sequences
  import opened Rto
  import L = IntrusiveList

  class Data {
    const path: Path
    var lastUpdate: int
    var smooth: Maybe<Smooth>
    var backoff: Maybe<int>

    constructor (path: Path, now: int, backoff: Maybe<int>)
      ensures this.path == path && lastUpdate == now && smooth == None && this.backoff == backoff
    {
      this.path, lastUpdate, smooth, this.backoff := path, now, None, backoff;
    }

    ghost function Value(): Entry
      reads this
    {
      Entry(lastUpdate, smooth, backoff)
    }
  }

  type Node = L.Link<Data>

  ghost predicate Owned(nodes: seq<Node>) {
    forall x :: x in nodes ==> x.owner.Some?
  }

  ghost function Paths(nodes: seq<Node>): (ps: seq<Path>)
    requires Owned(nodes)
    ensures |ps| == |nodes| && forall i :: 0 <= i < |nodes| ==> ps[i] == nodes[i].owner.value.path
  {
    seq(|nodes|, i requires 0 <= i < |nodes| => nodes[i].owner.value.path)
  }

  /** The map and the list hold the same links, each filed under its owner's path. */
  ghost predicate Filed(m: map<Path, Node>, nodes: seq<Node>) {
    && Owned(nodes) && Named(m)
    && (forall p :: p in m ==> m[p] in nodes && m[p].owner.value.path == p)
    && (forall x :: x in nodes ==> x.owner.value.path in m && m[x.owner.value.path] == x)
  }

  lemma FiledWithout(m: map<Path, Node>, nodes: seq<Node>, p: Path)
    requires Filed(m, nodes) && p in m
    ensures Filed(m - {p}, Without(nodes, m[p]))
    ensures Paths(Without(nodes, m[p])) == Without(Paths(nodes), p)
  {
    PathsWithout(nodes, m[p]);
    WithoutMembers(nodes, m[p]);
    hide Without;
    assert forall q :: q in m - {p} ==> m[q] != m[p];
  }

  lemma FiledWith(m: map<Path, Node>, nodes: seq<Node>, x: Node)
    requires Filed(m, nodes) && x.owner.Some? && (x.owner.value.path in m ==> m[x.owner.value.path] == x)
    ensures Filed(m[x.owner.value.path := x], Without(nodes, x) + [x])
  {
    WithoutMembers(nodes, x);
    hide Without;
    var nodes' := Without(nodes, x) + [x];
    assert forall y :: y in nodes' <==> y in nodes || y == x;
  }

  lemma PathsWith(m: map<Path, Node>, nodes: seq<Node>, x: Node)
    requires Filed(m, nodes) && x.owner.Some? && (x.owner.value.path in m ==> m[x.owner.value.path] == x)
    ensures Owned(Without(nodes, x) + [x])
    ensures Paths(Without(nodes, x) + [x]) == Without(Paths(nodes), x.owner.value.path) + [x.owner.value.path]
  {
    PathsWithout(nodes, x);
    hide Without;
  }

  lemma {:induction false} PathsWithout(nodes: seq<Node>, x: Node)
    requires Owned(nodes) && x.owner.Some?
    requires forall y :: y in nodes && y.owner.value.path == x.owner.value.path ==> y == x
    ensures Owned(Without(nodes, x))
    ensures Paths(Without(nodes, x)) == Without(Paths(nodes), x.owner.value.path)
  {
    WithoutMembers(nodes, x);
    if nodes != [] {
      PathsWithout(nodes[1..], x);
      assert Paths(nodes)[1..] == Paths(nodes[1..]);
      assert nodes[0] in nodes;
    }
  }

  ghost predicate Named(m: map<Path, Node>) {
    forall p :: p in m ==> m[p].owner.Some? && m[p].owner.value.path == p
  }

  /** What the entries filed in a map hold. */
  ghost function Entries(m: map<Path, Node>): (r: map<Path, Entry>)
    reads set p | p in m && m[p].owner.Some? :: m[p].owner.value
    requires Named(m)
    ensures r.Keys == m.Keys && forall p :: p in m ==> r[p] == m[p].owner.value.Value()
  {
    map p | p in m :: m[p].owner.value.Value()
  }

  lemma ClearFront(cfg: RtoSettings, st: RtoState, now: int)
    requires st.timeline != [] && st.timeline[0] in st.byPath && Outdated(cfg, st.byPath[st.timeline[0]], now)
    ensures ClearOutdated(cfg, st, now)
      == ClearOutdated(cfg, RtoState(st.byPath - {st.timeline[0]}, st.timeline[1..]), now)
  {
  }

  lemma {:induction false} YoungStays(cfg: RtoSettings, st: RtoState, now: int, p: Path)
    requires p in st.byPath && !Outdated(cfg, st.byPath[p], now)
    ensures p in ClearOutdated(cfg, st, now).byPath && ClearOutdated(cfg, st, now).byPath[p] == st.byPath[p]
    decreases |st.timeline|
  {
    if st.timeline != [] && st.timeline[0] in st.byPath && Outdated(cfg, st.byPath[st.timeline[0]], now) {
      YoungStays(cfg, RtoState(st.byPath - {st.timeline[0]}, st.timeline[1..]), now, p);
    }
  }

  class Calculator {
    const cfg: RtoSettings
    var byPath: map<Path, Node>
    const timeline: L.List<Data>
    ghost var repr: set<object>

    /** The list is well formed and everything reachable is accounted for. */
    ghost predicate Linked()
      reads this, repr
    {
      && this in repr && timeline in repr
      && (forall x :: x in timeline.Chain() ==> x in repr)
      && (forall x :: x in timeline.nodes && x.owner.Some? ==> x.owner.value in repr)
      && timeline.Valid()
    }

    ghost predicate Valid()
      reads this, repr
    {
      Linked() && Filed(byPath, timeline.nodes)
    }

    ghost function State(): RtoState
      reads this, repr
      requires Valid()
    {
      RtoState(Entries(byPath), Paths(timeline.nodes))
    }

    constructor (cfg: RtoSettings)
      ensures Valid() && State() == NO_HISTORY && this.cfg == cfg
      ensures fresh(repr)
    {
      this.cfg := cfg;
      byPath := map[];
      timeline := new L.List();
      new;
      repr := {this, timeline, timeline.head, timeline.tail};
    }

    /** The timeout to start a transaction with. */
    method Get(p: Path) returns (r: int)
      requires Valid()
      ensures r == Timeout(cfg, State(), p)
    {
      if p !in byPath {
        r := cfg.initialRto;
      } else {
        var data := byPath[p].owner.value;
        r := if data.backoff.Some? then data.backoff.value
             else if data.smooth.Some? then data.smooth.value.srtt + 4 * data.smooth.value.rttvar
             else cfg.initialRto;
      }
    }

    /** Take an entry out of the map and its link off the timeline. */
    method Unfile(p: Path)
      requires Linked() && p in byPath && byPath[p] in timeline.nodes
      modifies this, timeline, timeline.Chain()
      ensures Linked() && repr == old(repr)
      ensures byPath == old(byPath) - {p} && timeline.nodes == Without(old(timeline.nodes), old(byPath[p]))
      ensures forall d: Data | old(allocated(d)) :: d.Value() == old(d.Value())
    {
      var x := byPath[p];
      L.PlacedIn(timeline, x);
      WithoutMembers(timeline.nodes, x);
      hide L.Joined, Distinct, Without;
      L.Remove(x);
      byPath := byPath - {p};
    }

    lemma FiledIn(p: Path)
      requires Valid() && p in byPath
      ensures byPath[p] in timeline.nodes && byPath[p].owner.Some? && byPath[p].owner.value.path == p
      ensures p in State().byPath && State().byPath[p] == byPath[p].owner.value.Value()
      ensures byPath[p] in repr && byPath[p].owner.value in repr
    {
    }

    /** The same, with what it does to the entries. */
    method Drop(p: Path)
      requires Linked() && p in byPath && byPath[p] in timeline.nodes && Named(byPath)
      modifies repr
      ensures Linked() && repr == old(repr)
      ensures byPath == old(byPath) - {p} && timeline.nodes == Without(old(timeline.nodes), old(byPath[p]))
      ensures Entries(byPath) == old(Entries(byPath)) - {p}
    {
      assert this in repr && timeline in repr && forall x :: x in timeline.Chain() ==> x in repr;
      hide Linked, Without;
      Unfile(p);
    }

    /** Remove an entry from the map; its link leaves the timeline with it. */
    method Erase(p: Path)
      requires Valid() && p in byPath
      modifies repr
      ensures Valid() && repr == old(repr)
      ensures byPath == old(byPath) - {p} && timeline.nodes == Without(old(timeline.nodes), old(byPath[p]))
      ensures State() == RtoState(old(State()).byPath - {p}, Without(old(State()).timeline, p))
    {
      FiledIn(p);
      FiledWithout(byPath, timeline.nodes, p);
      hide Without, L.List.Valid, Linked, Filed, Entries, Paths, Named;
      Drop(p);
    }

    lemma FrontPath()
      requires Valid() && timeline.nodes != []
      ensures
        var st, front := State(), timeline.nodes[0].owner.value;
        && st.timeline != [] && st.timeline[0] == front.path && front.path in st.byPath
        && front.path in byPath && byPath[front.path] == timeline.nodes[0]
        && st.byPath[front.path] == front.Value()
        && Without(st.timeline, front.path) == st.timeline[1..]
    {
      var nodes := timeline.nodes;
      var ps := Paths(nodes);
      L.MiddleDistinct(timeline);
      assert nodes[0] in nodes;
      forall i | 1 <= i < |nodes| ensures ps[i] != ps[0] {
        assert nodes[i] in nodes;
      }
      WithoutAbsent(ps[1..], ps[0]);
    }

    /** Evict the front of the timeline while it is outdated. */
    method EvictOutdated(now: int)
      requires Valid()
      modifies repr
      ensures Valid() && repr == old(repr)
      ensures State() == ClearOutdated(cfg, old(State()), now)
      ensures forall p :: p in byPath ==> p in old(byPath) && byPath[p] == old(byPath[p])
    {
      hide Linked, Filed, Entries, Paths, Without, ClearOutdated;
      var front := FrontOf();
      while front.Some? && now - front.value.lastUpdate > cfg.historyDuration
        invariant Valid() && repr == old(repr)
        invariant front == if timeline.nodes == [] then None else timeline.nodes[0].owner
        invariant front.Some? <==> timeline.nodes != []
        invariant ClearOutdated(cfg, State(), now) == ClearOutdated(cfg, old(State()), now)
        invariant forall p :: p in byPath ==> p in old(byPath) && byPath[p] == old(byPath[p])
        decreases |State().timeline|
      {
        FrontPath();
        ClearFront(cfg, State(), now);
        Erase(front.value.path);
        front := FrontOf();
      }
      Settled(now);
    }

    lemma Settled(now: int)
      requires Valid()
      requires timeline.nodes != [] ==>
        var front := timeline.nodes[0].owner;
        front.Some? && now - front.value.lastUpdate <= cfg.historyDuration
      ensures ClearOutdated(cfg, State(), now) == State()
    {
      if timeline.nodes != [] {
        FrontPath();
      }
    }

    method FrontOf() returns (r: Maybe<Data>)
      requires Valid()
      ensures r == if timeline.nodes == [] then None else timeline.nodes[0].owner
      ensures r.Some? <==> timeline.nodes != []
    {
      assert timeline.nodes != [] ==> timeline.nodes[0] in timeline.nodes;
      r := L.Front(timeline);
    }

    /** Move a link to the back of the timeline, where it is new or already on it. */
    method Thread(x: Node)
      requires Linked() && (x.Loose() || x in timeline.nodes)
      requires x in repr && x.owner.Some? && x.owner.value in repr
      modifies timeline, timeline.Chain(), x
      ensures Linked() && timeline.nodes == Without(old(timeline.nodes), x) + [x]
    {
      if x in timeline.nodes {
        L.PlacedIn(timeline, x);
      } else {
        WithoutAbsent(timeline.nodes, x);
      }
      WithoutMembers(timeline.nodes, x);
      hide L.Joined, Distinct, Without;
      L.PushBack(timeline, x);
    }

    method File(x: Node)
      requires Linked() && (x.Loose() || x in timeline.nodes)
      requires x in repr && x.owner.Some? && x.owner.value in repr
      modifies this, timeline, timeline.Chain(), x
      ensures Linked() && repr == old(repr)
      ensures byPath == old(byPath)[x.owner.value.path := x]
      ensures timeline.nodes == Without(old(timeline.nodes), x) + [x]
      ensures forall d: Data | old(allocated(d)) :: d.Value() == old(d.Value())
    {
      hide Without, L.List.Valid, Distinct, L.Joined;
      Thread(x);
      byPath := byPath[x.owner.value.path := x];
    }

    method Enter(x: Node)
      requires Linked() && (x.Loose() || x in timeline.nodes) && Named(byPath)
      requires x in repr && x.owner.Some? && x.owner.value in repr
      modifies repr
      ensures Linked() && repr == old(repr)
      ensures byPath == old(byPath)[x.owner.value.path := x]
      ensures timeline.nodes == Without(old(timeline.nodes), x) + [x]
      ensures Entries(byPath) == old(Entries(byPath))[x.owner.value.path := x.owner.value.Value()]
      ensures x.owner.value.Value() == old(x.owner.value.Value())
    {
      assert this in repr && timeline in repr && forall y :: y in timeline.Chain() ==> y in repr;
      hide Linked, Without;
      File(x);
    }

    /** File a link under its owner's path, at the back of the timeline. */
    method Refile(x: Node)
      requires Valid() && (x.Loose() || x in timeline.nodes)
      requires x in repr && x.owner.Some? && x.owner.value in repr
      requires x.owner.value.path in byPath ==> byPath[x.owner.value.path] == x
      modifies repr
      ensures Valid() && repr == old(repr)
      ensures byPath == old(byPath)[x.owner.value.path := x]
      ensures x.owner.value.Value() == old(x.owner.value.Value())
      ensures
        var p := x.owner.value.path;
        State() == RtoState(old(State()).byPath[p := x.owner.value.Value()], Without(old(State()).timeline, p) + [p])
    {
      FiledWith(byPath, timeline.nodes, x);
      PathsWith(byPath, timeline.nodes, x);
      assert Named(byPath);
      hide Without, L.List.Valid, Linked, Filed, Entries, Paths, Named;
      Enter(x);
    }

    method Write(p: Path, e: Entry)
      requires Linked() && p in byPath && Named(byPath)
      modifies byPath[p].owner.value
      ensures Linked() && Entries(byPath) == old(Entries(byPath))[p := e]
    {
      hide L.List.Valid;
      var data := byPath[p].owner.value;
      data.lastUpdate, data.smooth, data.backoff := e.lastUpdate, e.smooth, e.backoff;
    }

    /** Rewrite what a filed entry holds. */
    method Amend(p: Path, e: Entry)
      requires Valid() && p in byPath
      modifies repr
      ensures Valid() && repr == old(repr) && byPath == old(byPath)
      ensures State() == old(State()).(byPath := old(State()).byPath[p := e])
    {
      FiledIn(p);
      Untouched(p);
      assert Named(byPath);
      hide Linked, Entries, Paths, Named, Filed, L.List.Valid;
      Write(p, e);
    }

    /** An entry is not part of the machinery it is threaded on. */
    lemma Untouched(p: Path)
      requires Valid() && p in byPath && byPath[p].owner.Some?
      ensures byPath[p].owner.value as object != this && byPath[p].owner.value as object != timeline
    {
    }

    method NewNode(now: int, p: Path, backoff: Maybe<int>) returns (x: Node)
      requires Valid()
      modifies this`repr
      ensures Valid() && fresh(repr - old(repr)) && State() == old(State())
      ensures byPath == old(byPath) && fresh(x) && x.Loose() && x in repr
      ensures x.owner.Some? && x.owner.value in repr && x.owner.value.path == p
      ensures x.owner.value.Value() == Entry(now, None, backoff)
    {
      hide L.List.Valid, Filed, Entries, Paths, Named;
      var data := new Data(p, now, backoff);
      x := new L.Link(Some(data));
      repr := repr + {data, x};
    }

    /** Make an entry for a path that has none, at the back of the timeline. */
    method Emplace(now: int, p: Path, backoff: Maybe<int>)
      requires Valid() && p !in byPath
      modifies repr
      ensures Valid() && fresh(repr - old(repr)) && p in byPath
      ensures
        var st := old(State());
        State() == RtoState(st.byPath[p := Entry(now, None, backoff)], Without(st.timeline, p) + [p])
    {
      assert this in repr;
      hide Linked, Filed, Entries, Paths, Named, Without, L.List.Valid;
      var x := NewNode(now, p, backoff);
      Refile(x);
    }

    /** Stamp an entry and move it to the back of the timeline. */
    method Restamp(now: int, p: Path)
      requires Valid() && p in byPath
      modifies repr
      ensures Valid() && repr == old(repr) && p in byPath
      ensures State() == Touch(old(State()), now, p)
    {
      hide Linked, Filed, Entries, Paths, Named, Without, L.List.Valid;
      FiledIn(p);
      var x := byPath[p];
      Amend(p, Entry(now, x.owner.value.smooth, x.owner.value.backoff));
      FiledIn(p);
      Refile(x);
    }

    /** A clean sample: file the path if it is new, move it to the back, evict, then smooth. */
    method NewRtt(now: int, p: Path, rtt: int)
      requires Valid() && cfg.historyDuration >= 0
      modifies repr
      ensures Valid() && fresh(repr - old(repr))
      ensures State() == Rto.NewRtt(cfg, old(State()), now, p, rtt)
    {
      hide Linked, Filed, Entries, Paths, Named, Without, ClearOutdated, Smoothen;
      if p in byPath {
        Restamp(now, p);
      } else {
        Emplace(now, p, None);
      }
      YoungStays(cfg, State(), now, p);
      EvictOutdated(now);
      FiledIn(p);
      var data := byPath[p].owner.value;
      Amend(p, Entry(data.lastUpdate, Some(Smoothen(data.smooth, rtt)), None));
    }

    /** A retransmitted request was answered: keep its timeout. A new path evicts nothing. */
    method Backoff(now: int, p: Path, timeout: int)
      requires Valid()
      modifies repr
      ensures Valid() && fresh(repr - old(repr))
      ensures State() == Rto.Backoff(cfg, old(State()), now, p, timeout)
    {
      hide Linked, Filed, Entries, Paths, Named, Without, ClearOutdated;
      if p !in byPath {
        Emplace(now, p, Some(timeout));
      } else {
        Restamp(now, p);
        FiledIn(p);
        var data := byPath[p].owner.value;
        Amend(p, Entry(data.lastUpdate, data.smooth, Some(timeout)));
        EvictOutdated(now);
      }
    }
  }
}
