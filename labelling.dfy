/** The breadth-first labelling behind the pathfinder's path lengths, over
    plain values: which cells are labelled, with what, and the order in which
    the queue expands them. */
module Labelling {
  import opened Constants
  import opened Board

  /** The cells of the 28 x 28 square. */
  ghost function GridCells(): set<Coord> {
    set x, y | 0 <= x < ArenaSize && 0 <= y < ArenaSize :: (x, y)
  }

  lemma InGridCells(c: Coord)
    requires InGrid(c)
    ensures c in GridCells()
  {
    assert c == (c.0, c.1);
  }

  /** The label of a cell under dist (-1 when unvisited). */
  function Dist(dist: map<Coord, int>, c: Coord): int {
    if c in dist then dist[c] else -1
  }

  /** The state of the labelling, over the set free of open cells: the
      labels, the queue and the closure of the expanded cells. */
  ghost predicate Bfs(free: set<Coord>, seeds: set<Coord>, dist: map<Coord, int>, done: set<Coord>, current: seq<Coord>,
                      parent: map<Coord, Coord>, lo: int, cut: int)
  {
    BfsLabels(free, seeds, dist, parent) && BfsQueue(dist, done, current, lo, cut) && BfsClosed(free, dist, done)
  }

  /** Every visited cell is in the square; the seeds are at 0 and every other
      visited cell is free and one further than a free visited neighbour, its
      parent. */
  ghost predicate BfsLabels(free: set<Coord>, seeds: set<Coord>, dist: map<Coord, int>, parent: map<Coord, Coord>) {
    (forall c {:trigger c in dist} :: c in dist ==> InGrid(c)) &&
    seeds <= dist.Keys && (forall c {:trigger c in seeds} :: c in seeds ==> dist[c] == 0) &&
    (forall c {:trigger c in dist} :: c in dist && c !in seeds ==> dist[c] >= 1 && c in free && c in parent) &&
    (forall c {:trigger parent[c]} :: c in parent ==>
       c in dist && Adjacent(c, parent[c]) && parent[c] in free && parent[c] in dist && dist[parent[c]] == dist[c] - 1)
  }

  /** The queue holds visited cells labelled lo before position cut and lo + 1
      from there on; every done cell is labelled at most lo; every visited
      cell is queued or done. */
  ghost predicate BfsQueue(dist: map<Coord, int>, done: set<Coord>, current: seq<Coord>, lo: int, cut: int) {
    0 <= cut <= |current| &&
    (forall i :: 0 <= i < |current| ==> current[i] in dist && dist[current[i]] == if i < cut then lo else lo + 1) &&
    done <= dist.Keys && (forall d :: d in done ==> dist[d] <= lo) &&
    (forall c :: c in dist ==> c in done || c in current)
  }

  /** A free done cell has all its free neighbours visited at most one further. */
  ghost predicate BfsClosed(free: set<Coord>, dist: map<Coord, int>, done: set<Coord>) {
    forall d, n :: d in done && d in free && Adjacent(d, n) && n in free ==> d in dist && n in dist && dist[n] <= dist[d] + 1
  }

  lemma BfsStart(free: set<Coord>, seeds: set<Coord>, current: seq<Coord>, dist: map<Coord, int>)
    requires forall c :: c in seeds ==> InGrid(c)
    requires seeds == set c | c in current
    requires dist == map c | c in seeds :: 0
    ensures Bfs(free, seeds, dist, {}, current, map[], 0, |current|)
  {
  }

  /** Expanding the head of the queue keeps the labelling's state; lo' and
      cut' describe the new queue. */
  lemma BfsStep(free: set<Coord>, seeds: set<Coord>, dist: map<Coord, int>, done: set<Coord>, current: seq<Coord>,
                parent: map<Coord, Coord>, lo: int, cut: int, head: Coord, added: seq<Coord>)
    returns (lo': int, cut': int)
    requires Bfs(free, seeds, dist, done, current, parent, lo, cut) && current != [] && current[0] == head
    requires forall n :: n in added ==> Adjacent(head, n) && n in free && InGrid(n) && n !in dist && head in free
    requires forall n :: Adjacent(head, n) && n in free && head in free ==> n in dist || n in added
    ensures BfsLabels(free, seeds, Extend(dist, added, dist[head] + 1), Extend(parent, added, head))
    ensures BfsQueue(Extend(dist, added, dist[head] + 1), done + {head}, current[1..] + added, lo', cut')
    ensures BfsClosed(free, Extend(dist, added, dist[head] + 1), done + {head})
  {
    StepLabels(free, seeds, dist, parent, head, added);
    lo', cut' := StepQueue(dist, done, current, lo, cut, added);
    StepClosed(free, dist, done, current, lo, cut, added);
  }

  /** Labelling new cells of the square shrinks the set of unreached ones;
      when none are labelled, the queue itself gets shorter. */
  lemma UnvisitedShrinks(dist: map<Coord, int>, current: seq<Coord>, added: seq<Coord>, v: int)
    requires current != [] && forall n :: n in added ==> InGrid(n) && n !in dist
    ensures Unvisited(Extend(dist, added, v)) < Unvisited(dist) ||
            (Unvisited(Extend(dist, added, v)) == Unvisited(dist) && |current[1..] + added| < |current|)
  {
    var dist' := Extend(dist, added, v);
    if added != [] {
      InGridCells(added[0]);
      assert added[0] in Unvisited(dist) && added[0] !in Unvisited(dist');
    } else {
      assert dist'.Keys == dist.Keys;
    }
  }

  /** The cells of the square a labelling has not reached. */
  ghost function Unvisited(dist: map<Coord, int>): set<Coord> {
    GridCells() - dist.Keys
  }

  lemma StepLabels(free: set<Coord>, seeds: set<Coord>, dist: map<Coord, int>, parent: map<Coord, Coord>, s: Coord, added: seq<Coord>)
    requires BfsLabels(free, seeds, dist, parent) && s in dist
    requires forall n :: n in added ==> Adjacent(s, n) && n in free && InGrid(n) && n !in dist && s in free
    ensures BfsLabels(free, seeds, Extend(dist, added, dist[s] + 1), Extend(parent, added, s))
  {
    var dist', parent' := Extend(dist, added, dist[s] + 1), Extend(parent, added, s);
    forall c | c in parent' ensures c in dist' && Adjacent(c, parent'[c]) && parent'[c] in free && parent'[c] in dist' && dist'[parent'[c]] == dist'[c] - 1 {
      if c !in added {
        assert c in dist && parent[c] in dist;
      }
    }
  }

  lemma StepQueue(dist: map<Coord, int>, done: set<Coord>, current: seq<Coord>, lo: int, cut: int, added: seq<Coord>)
    returns (lo': int, cut': int)
    requires BfsQueue(dist, done, current, lo, cut) && current != []
    requires forall n :: n in added ==> n !in dist
    ensures BfsQueue(Extend(dist, added, dist[current[0]] + 1), done + {current[0]}, current[1..] + added, lo', cut')
  {
    var s := current[0];
    var dist' := Extend(dist, added, dist[s] + 1);
    var rest := current[1..];
    var queue := rest + added;
    if cut > 0 {
      lo', cut' := lo, cut - 1;
    } else {
      lo', cut' := lo + 1, |rest|;
    }
    forall i | 0 <= i < |queue| ensures queue[i] in dist' && dist'[queue[i]] == if i < cut' then lo' else lo' + 1 {
      if i < |rest| {
        assert queue[i] == current[i + 1];
      } else {
        assert queue[i] in added;
      }
    }
    forall c | c in dist' ensures c in done + {s} || c in queue {
      if c in current && c != s {
        var i :| 0 <= i < |current| && current[i] == c;
        assert queue[i - 1] == c;
      }
    }
  }

  lemma StepClosed(free: set<Coord>, dist: map<Coord, int>, done: set<Coord>, current: seq<Coord>, lo: int, cut: int,
                   added: seq<Coord>)
    requires BfsClosed(free, dist, done) && BfsQueue(dist, done, current, lo, cut) && current != []
    requires forall n :: n in added ==> n !in dist
    requires forall n :: Adjacent(current[0], n) && n in free && current[0] in free ==> n in dist || n in added
    ensures BfsClosed(free, Extend(dist, added, dist[current[0]] + 1), done + {current[0]})
  {
    var s := current[0];
    var dist' := Extend(dist, added, dist[s] + 1);
    forall d, n | d in done + {s} && d in free && Adjacent(d, n) && n in free ensures d in dist' && n in dist' && dist'[n] <= dist'[d] + 1 {
      if d == s && n in dist {
        if n in current {
          var i :| 0 <= i < |current| && current[i] == n;
        }
      }
    }
  }

  /** m with every key of keys mapped to v. */
  function Extend<V>(m: map<Coord, V>, keys: seq<Coord>, v: V): (r: map<Coord, V>)
    ensures forall c {:trigger c in r} :: c in r <==> c in m || c in keys
    ensures forall c {:trigger r[c]} :: c in r ==> r[c] == if c in keys then v else m[c]
  {
    m + map c | c in keys :: v
  }

  /** When the queue is empty the labelling is a breadth-first one. */
  lemma BfsEnd(free: set<Coord>, seeds: set<Coord>, dist: map<Coord, int>, done: set<Coord>, parent: map<Coord, Coord>,
               lo: int, cut: int)
    requires Bfs(free, seeds, dist, done, [], parent, lo, cut)
    ensures forall a, n :: a in dist && a in free && Adjacent(a, n) && n in free ==> n in dist && dist[n] <= dist[a] + 1
    ensures forall c :: c in dist && c !in seeds ==>
      dist[c] >= 1 && c in free && c in parent && Adjacent(c, parent[c]) && parent[c] in free &&
      parent[c] in dist && dist[parent[c]] == dist[c] - 1
    ensures forall c :: c in dist ==> InGrid(c) && dist[c] >= 0 && (dist[c] == 0 <==> c in seeds)
    ensures seeds <= dist.Keys
  {
  }
}
