/** The mini-map snapshot of Descriptor::sendWebSocketMiniMapCommand: a breadth-first search
    of the rooms around a player, bounded by a radius and by a number of rooms.

    The far side of a visible exit is listed, but the search goes on from there only when
    the exit is open and the room is lit. */
module MiniMap {

  import opened Exits
  import opened Options
  import opened Seqs

  type Direction = d: nat | d < NUM_OF_DIRS

  /** `exits` has no entry where the room's `dir_option` is a null pointer. */
  datatype World = World(exits: map<(Room, Direction), Exit>, dark: set<Room>, seesInDark: bool)

  datatype Link = Link(from: Room, to: Room, direction: Direction, closed: bool, oneWay: bool)

  predicate CanSeeRoom(w: World, room: Room) {
    room !in w.dark || w.seesInDark
  }

  predicate Passes(exit: Exit) {
    !exit.disabled && exit.toRoom.Some? && !(exit.hiddenLevel != 0 && exit.closed)
  }

  /** There is an exit the player is shown. */
  predicate Visible(w: World, room: Room, d: Direction) {
    (room, d) in w.exits && Passes(w.exits[(room, d)])
  }

  function Target(w: World, room: Room, d: Direction): Room
    requires Visible(w, room, d)
  {
    w.exits[(room, d)].toRoom.value
  }

  /** The search may continue through this exit. */
  predicate Opens(w: World, room: Room, d: Direction) {
    Visible(w, room, d) && !w.exits[(room, d)].closed && CanSeeRoom(w, Target(w, room, d))
  }

  function Opposite(d: Direction): Direction {
    [2, 3, 0, 1, 5, 4][d]
  }

  function LinkOf(w: World, room: Room, d: Direction): Link
    requires Visible(w, room, d)
  {
    var next := Target(w, room, d);
    var back := (next, Opposite(d));
    Link(room, next, d, w.exits[(room, d)].closed,
         !(back in w.exits && w.exits[back].toRoom == Some(room) && Passes(w.exits[back])))
  }

  // ----- What the map is for, without the search -----

  /** The rooms within n open exits of `start`. */
  function OpenBall(w: World, start: Room, n: nat): set<Room> {
    if n == 0 then {start} else
      var inner := OpenBall(w, start, n - 1);
      inner + set r, d: Direction | r in inner && d in Compass() && Opens(w, r, d) :: Target(w, r, d)
  }

  function Compass(): set<Direction> {
    {0, 1, 2, 3, 4, 5}
  }

  /** The rooms one visible exit beyond a room reached by fewer than `radius` open exits. */
  function InRange(w: World, start: Room, radius: nat): set<Room> {
    if radius == 0 then {start} else
      var inner := OpenBall(w, start, radius - 1);
      {start} + set r, d: Direction | r in inner && d in Compass() && Visible(w, r, d) :: Target(w, r, d)
  }

  /** One more open exit enlarges the ball by its far side. */
  lemma BallStep(w: World, start: Room, n: nat, q: Room, d: Direction)
    requires q in OpenBall(w, start, n) && Opens(w, q, d)
    ensures Target(w, q, d) in OpenBall(w, start, n + 1)
  {
  }

  lemma {:induction false} StartInBall(w: World, start: Room, n: nat)
    ensures start in OpenBall(w, start, n)
  {
    if n > 0 { StartInBall(w, start, n - 1); }
  }

  lemma {:induction false} BallGrows(w: World, start: Room, m: nat, n: nat)
    requires m <= n
    ensures OpenBall(w, start, m) <= OpenBall(w, start, n)
  {
    if m < n { BallGrows(w, start, m, n - 1); }
  }

  // ----- Routes, over the exits and the dark rooms -----

  /** An exit the player is shown: enabled, leading to `to`, and not both hidden and closed. One
      that may be gone through is open besides, and `to` is lit for the player. */
  ghost predicate Passage(w: World, from: Room, d: Direction, to: Room, through: bool) {
    && (from, d) in w.exits
    && var exit := w.exits[(from, d)];
       && exit.toRoom == Some(to) && !exit.disabled && (exit.hiddenLevel == 0 || !exit.closed)
       && (through ==> !exit.closed && (to !in w.dark || w.seesInDark))
  }

  /** A route from start to r, through the rooms p by the directions ds: exits the player is
      shown, all but the last of which, or all if the route goes on from r, may be gone through. */
  ghost predicate Route(w: World, start: Room, r: Room, ds: seq<Direction>, p: seq<Room>, goesOn: bool) {
    && |p| == |ds| + 1 && p[0] == start && p[|ds|] == r
    && forall i :: 0 <= i < |ds| ==> Passage(w, p[i], ds[i], p[i + 1], goesOn || i < |ds| - 1)
  }

  /** A route of at most n exits leads to r. */
  ghost predicate Leads(w: World, start: Room, r: Room, n: nat, goesOn: bool) {
    exists ds, p :: Route(w, start, r, ds, p, goesOn) && |ds| <= n
  }

  lemma PassageIsExit(w: World, from: Room, d: Direction, to: Room)
    ensures Passage(w, from, d, to, false) <==> Visible(w, from, d) && Target(w, from, d) == to
    ensures Passage(w, from, d, to, true) <==> Opens(w, from, d) && Target(w, from, d) == to
  {
  }

  lemma RouteOneMore(w: World, start: Room, q: Room, ds: seq<Direction>, p: seq<Room>, d: Direction, r: Room, goesOn: bool)
    requires Route(w, start, q, ds, p, true) && Passage(w, q, d, r, goesOn)
    ensures Route(w, start, r, ds + [d], p + [r], goesOn)
  {
    hide Passage;
    var es, more := ds + [d], p + [r];
    forall i | 0 <= i < |es| ensures Passage(w, more[i], es[i], more[i + 1], goesOn || i < |es| - 1) {
      if i < |ds| { assert Passage(w, p[i], ds[i], p[i + 1], true); }
    }
  }

  lemma {:induction false} BallHasRoute(w: World, start: Room, n: nat, r: Room)
    requires r in OpenBall(w, start, n)
    ensures Leads(w, start, r, n, true)
  {
    if n == 0 {
      assert Route(w, start, start, [], [start], true);
    } else if r in OpenBall(w, start, n - 1) {
      BallHasRoute(w, start, n - 1, r);
    } else {
      var q, d: Direction :| q in OpenBall(w, start, n - 1) && Opens(w, q, d) && Target(w, q, d) == r;
      BallHasRoute(w, start, n - 1, q);
      PassageIsExit(w, q, d, r);
      hide OpenBall, Route, Opens, Passage, Visible;
      var ds, p :| Route(w, start, q, ds, p, true) && |ds| <= n - 1;
      RouteOneMore(w, start, q, ds, p, d, r, true);
    }
  }

  lemma RouteOneLess(w: World, start: Room, r: Room, ds: seq<Direction>, p: seq<Room>, goesOn: bool)
    requires Route(w, start, r, ds, p, goesOn) && ds != []
    ensures var k := |ds| - 1;
            && |p| == |ds| + 1 && Route(w, start, p[k], ds[..k], p[..k + 1], true)
            && Passage(w, p[k], ds[k], r, goesOn)
  {
    hide Passage;
    var k := |ds| - 1;
    forall i | 0 <= i < k ensures Passage(w, p[..k + 1][i], ds[..k][i], p[..k + 1][i + 1], true) {
      assert Passage(w, p[i], ds[i], p[i + 1], goesOn || i < |ds| - 1);
    }
    assert Passage(w, p[k], ds[k], p[k + 1], goesOn || k < |ds| - 1);
  }

  lemma {:induction false} RouteInBall(w: World, start: Room, n: nat, r: Room, ds: seq<Direction>, p: seq<Room>)
    requires Route(w, start, r, ds, p, true) && |ds| <= n
    ensures r in OpenBall(w, start, n)
    decreases n
  {
    if ds == [] {
      StartInBall(w, start, n);
    } else {
      var k := |ds| - 1;
      RouteOneLess(w, start, r, ds, p, true);
      RouteInBall(w, start, n - 1, p[k], ds[..k], p[..k + 1]);
      PassageIsExit(w, p[k], ds[k], r);
      hide OpenBall;
      BallStep(w, start, n - 1, p[k], ds[k]);
    }
  }

  /** The rooms within n are those that routes of n exits lead to and go on from. */
  lemma BallIsRoutes(w: World, start: Room, n: nat, r: Room)
    ensures r in OpenBall(w, start, n) <==> Leads(w, start, r, n, true)
  {
    hide OpenBall, Route;
    if r in OpenBall(w, start, n) { BallHasRoute(w, start, n, r); }
    if ds, p :| Route(w, start, r, ds, p, true) && |ds| <= n { RouteInBall(w, start, n, r, ds, p); }
  }

  /** The rooms in range are those that routes of at most `radius` exits lead to. */
  lemma RangeIsRoutes(w: World, start: Room, radius: nat, r: Room)
    ensures r in InRange(w, start, radius) <==> Leads(w, start, r, radius, false)
  {
    if r == start {
      assert Route(w, start, start, [], [start], false);
    } else {
      if r in InRange(w, start, radius) { RangeHasRoute(w, start, radius, r); }
      if ds, p :| Route(w, start, r, ds, p, false) && |ds| <= radius { RouteInRange(w, start, radius, r, ds, p); }
    }
  }

  lemma RangeHasRoute(w: World, start: Room, radius: nat, r: Room)
    requires r in InRange(w, start, radius) && r != start
    ensures Leads(w, start, r, radius, false)
  {
    hide Route, OpenBall, Passage;
    var q, d: Direction :| q in OpenBall(w, start, radius - 1) && Visible(w, q, d) && Target(w, q, d) == r;
    BallIsRoutes(w, start, radius - 1, q);
    var ds, p :| Route(w, start, q, ds, p, true) && |ds| <= radius - 1;
    PassageIsExit(w, q, d, r);
    RouteOneMore(w, start, q, ds, p, d, r, false);
  }

  lemma RouteInRange(w: World, start: Room, radius: nat, r: Room, ds: seq<Direction>, p: seq<Room>)
    requires Route(w, start, r, ds, p, false) && |ds| <= radius && r != start
    ensures r in InRange(w, start, radius)
  {
    hide OpenBall;
    var k := |ds| - 1;
    RouteOneLess(w, start, r, ds, p, false);
    RouteInBall(w, start, radius - 1, p[k], ds[..k], p[..k + 1]);
    PassageIsExit(w, p[k], ds[k], r);
    BallBorder(w, start, radius, p[k], ds[k]);
  }

  /** Routes of n exits lead to r and go on, and shorter ones do not. */
  ghost predicate IsDistance(w: World, start: Room, r: Room, n: nat) {
    Leads(w, start, r, n, true) && forall m: nat :: m < n ==> !Leads(w, start, r, m, true)
  }

  lemma IsDistanceIffBall(w: World, start: Room, r: Room, n: nat)
    ensures IsDistance(w, start, r, n) <==>
            r in OpenBall(w, start, n) && (n > 0 ==> r !in OpenBall(w, start, n - 1))
  {
    hide OpenBall, Leads;
    BallIsRoutes(w, start, n, r);
    forall m: nat | m < n && Leads(w, start, r, m, true) ensures r in OpenBall(w, start, n - 1) {
      BallIsRoutes(w, start, m, r);
      BallGrows(w, start, m, n - 1);
    }
    if n > 0 { BallIsRoutes(w, start, n - 1, r); }
  }

  // ----- The search -----

  /** How many rooms the cap lets through; the start is listed whatever the cap. */
  function Limit(cap: nat): nat {
    if cap == 0 then 1 else cap
  }

  /** Exit d of the j-th queued room was already examined when the search is at exit `dir`
      of the i-th. */
  predicate Before(j: nat, d: nat, i: nat, dir: nat) {
    j < i || (j == i && d < dir)
  }

  type Frontier = seq<(Room, nat)>

  ghost predicate FrontierOk(w: World, start: Room, radius: nat, frontier: Frontier, queued: set<Room>,
                             dist: map<Room, nat>, i: nat)
  {
    && i <= |frontier|
    && |frontier| > 0 && frontier[0] == (start, 0)
    && Covers(frontier, queued, dist)
    && Reached(w, start, radius, frontier, dist)
    && InOrder(frontier, i)
  }

  ghost predicate Covers(frontier: Frontier, queued: set<Room>, dist: map<Room, nat>) {
    dist.Keys == queued && forall r :: r in queued ==> exists k :: 0 <= k < |frontier| && frontier[k].0 == r
  }

  ghost predicate Reached(w: World, start: Room, radius: nat, frontier: Frontier, dist: map<Room, nat>) {
    forall k :: 0 <= k < |frontier| ==>
      frontier[k].0 in dist && dist[frontier[k].0] == frontier[k].1
      && frontier[k].1 <= radius && frontier[k].0 in OpenBall(w, start, frontier[k].1)
  }

  /** Each room is queued once, in order of distance, at most one beyond the room in hand. */
  ghost predicate InOrder(frontier: Frontier, i: nat) {
    && (forall j, k :: 0 <= j < k < |frontier| ==> frontier[j].0 != frontier[k].0 && frontier[j].1 <= frontier[k].1)
    && (i < |frontier| ==> forall k :: 0 <= k < |frontier| ==> frontier[k].1 <= frontier[i].1 + 1)
  }

  /** Every exit examined within the radius has its far side listed, and queued if open. */
  ghost predicate Explored(w: World, radius: nat, frontier: Frontier, dist: map<Room, nat>, included: set<Room>,
                           i: nat, dir: nat)
  {
    forall j, d: Direction :: 0 <= j < |frontier| && Before(j, d, i, dir) && frontier[j].1 < radius
                              && Visible(w, frontier[j].0, d) ==>
      var next := Target(w, frontier[j].0, d);
      next in included && (Opens(w, frontier[j].0, d) ==> next in dist && dist[next] <= frontier[j].1 + 1)
  }

  /** The links are those of the examined exits that lead to a listed room. */
  ghost predicate LinksOk(w: World, frontier: Frontier, included: set<Room>, links: seq<Link>, i: nat, dir: nat) {
    && Distinct(links)
    && (forall l :: l in links ==> l.to in included && exists j: nat :: LinkFrom(w, frontier, l, j, i, dir))
    && (forall j: nat, l: Link :: LinkFrom(w, frontier, l, j, i, dir) && l.to in included ==> l in links)
  }

  /** l is the link of an exit of the j-th queued room that was already examined. */
  ghost predicate LinkFrom(w: World, frontier: Frontier, l: Link, j: nat, i: nat, dir: nat) {
    && j < |frontier| && Before(j, l.direction, i, dir) && frontier[j].0 == l.from
    && Visible(w, l.from, l.direction) && l == LinkOf(w, l.from, l.direction)
  }

  /** The search is past all rooms that are queued with less than n. */
  predicate Past(frontier: Frontier, i: nat, n: nat) {
    i < |frontier| ==> n <= frontier[i].1
  }

  /** Past the rooms queued with less than n, everything within n has been queued. */
  lemma {:induction false} FrontierReachesBall(w: World, start: Room, radius: nat, frontier: Frontier, queued: set<Room>,
                                               dist: map<Room, nat>, included: set<Room>, i: nat, dir: nat, n: nat)
    requires FrontierOk(w, start, radius, frontier, queued, dist, i)
    requires Explored(w, radius, frontier, dist, included, i, dir)
    requires n <= radius && Past(frontier, i, n)
    ensures forall r :: r in OpenBall(w, start, n) ==> r in dist && dist[r] <= n
  {
    if n == 0 {
      assert frontier[0] == (start, 0);
    } else {
      FrontierReachesBall(w, start, radius, frontier, queued, dist, included, i, dir, n - 1);
      forall r | r in OpenBall(w, start, n) ensures r in dist && dist[r] <= n {
        if r !in OpenBall(w, start, n - 1) {
          var q, d: Direction :| q in OpenBall(w, start, n - 1) && Opens(w, q, d) && Target(w, q, d) == r;
          var j :| 0 <= j < |frontier| && frontier[j].0 == q;
          assert Before(j, d, i, dir);
        }
      }
    }
  }

  /** Past the rooms queued with less than n, everything in range n has been listed. */
  lemma RangeListed(w: World, start: Room, radius: nat, frontier: Frontier, queued: set<Room>,
                    dist: map<Room, nat>, included: set<Room>, i: nat, dir: nat, n: nat)
    requires FrontierOk(w, start, radius, frontier, queued, dist, i)
    requires Explored(w, radius, frontier, dist, included, i, dir)
    requires n <= radius && Past(frontier, i, n) && start in included
    ensures InRange(w, start, n) <= included
  {
    if n > 0 {
      FrontierReachesBall(w, start, radius, frontier, queued, dist, included, i, dir, n - 1);
      hide OpenBall;
      forall r | r in InRange(w, start, n) ensures r in included {
        if r != start {
          var q, d: Direction :| q in OpenBall(w, start, n - 1) && Visible(w, q, d) && Target(w, q, d) == r;
          var j :| 0 <= j < |frontier| && frontier[j].0 == q;
          assert Before(j, d, i, dir);
        }
      }
    }
  }

  /** Once the queue is used up, an explored search has listed every room in range and found
      every shortest distance. */
  lemma CompleteSearch(w: World, start: Room, radius: nat, frontier: Frontier, queued: set<Room>,
                       dist: map<Room, nat>, included: set<Room>)
    requires FrontierOk(w, start, radius, frontier, queued, dist, |frontier|)
    requires Explored(w, radius, frontier, dist, included, |frontier|, 0)
    requires start in included
    ensures InRange(w, start, radius) <= included
    ensures forall n: nat, r :: n <= radius && r in OpenBall(w, start, n) ==> r in dist && dist[r] <= n
  {
    hide OpenBall, InRange, FrontierOk, Explored;
    RangeListed(w, start, radius, frontier, queued, dist, included, |frontier|, 0, radius);
    forall n: nat | n <= radius
      ensures forall r :: r in OpenBall(w, start, n) ==> r in dist && dist[r] <= n
    {
      FrontierReachesBall(w, start, radius, frontier, queued, dist, included, |frontier|, 0, n);
    }
  }

  lemma RangeGrows(w: World, start: Room, m: nat, n: nat)
    requires m <= n
    ensures InRange(w, start, m) <= InRange(w, start, n)
  {
    hide OpenBall;
    if 0 < m {
      BallGrows(w, start, m - 1, n - 1);
      forall r | r in InRange(w, start, m) && r != start ensures r in InRange(w, start, n) {
        var q, d: Direction :| q in OpenBall(w, start, m - 1) && Visible(w, q, d) && Target(w, q, d) == r;
        BallBorder(w, start, n, q, d);
      }
    }
  }

  // ----- The nearest rooms first -----

  /** No room left out is in a range that does not hold all listed rooms. */
  ghost predicate NearestFirst(w: World, start: Room, included: set<Room>) {
    forall n: nat :: InRange(w, start, n) <= included || included <= InRange(w, start, n)
  }

  /** The listed rooms are the nearest, and none is more than one exit beyond the room in hand. */
  ghost predicate Nearest(w: World, start: Room, frontier: Frontier, included: set<Room>, i: nat) {
    NearestFirst(w, start, included)
    && (i < |frontier| ==> included <= InRange(w, start, frontier[i].1 + 1))
  }

  lemma StartIsNearest(w: World, start: Room)
    ensures Nearest(w, start, [(start, 0)], {start}, 0)
  {
    forall n: nat ensures {start} <= InRange(w, start, n) {}
  }

  lemma AdvanceNearest(w: World, start: Room, frontier: Frontier, included: set<Room>, i: nat)
    requires Nearest(w, start, frontier, included, i) && InOrder(frontier, i) && i < |frontier|
    ensures Nearest(w, start, frontier, included, i + 1)
  {
    hide InRange;
    if i + 1 < |frontier| { RangeGrows(w, start, frontier[i].1 + 1, frontier[i + 1].1 + 1); }
  }

  /** A room that is listed from the room in hand is no nearer than any other room left out. */
  lemma ListNearest(w: World, start: Room, radius: nat, frontier: Frontier, queued: set<Room>, dist: map<Room, nat>,
                    included: set<Room>, i: nat, d: Direction)
    requires FrontierOk(w, start, radius, frontier, queued, dist, i)
    requires Explored(w, radius, frontier, dist, included, i, d)
    requires i < |frontier| && Visible(w, frontier[i].0, d) && start in included
    requires Nearest(w, start, frontier, included, i)
    ensures Nearest(w, start, frontier, included + {Target(w, frontier[i].0, d)}, i)
  {
    hide InRange, OpenBall, Explored, Visible;
    var near, more := frontier[i].1, included + {Target(w, frontier[i].0, d)};
    assert frontier[i].0 in OpenBall(w, start, near) && near <= radius;
    BallBorder(w, start, near + 1, frontier[i].0, d);
    RangeListed(w, start, radius, frontier, queued, dist, included, i, d, near);
    forall n: nat ensures InRange(w, start, n) <= more || more <= InRange(w, start, n) {
      if n <= near { RangeGrows(w, start, n, near); } else { RangeGrows(w, start, near + 1, n); }
    }
  }

  // Each step of the search keeps the three parts of the invariant.

  lemma CoverOneMore(frontier: Frontier, queued: set<Room>, dist: map<Room, nat>, next: Room, far: nat)
    requires Covers(frontier, queued, dist)
    ensures Covers(frontier + [(next, far)], queued + {next}, dist[next := far])
  {
    var more := frontier + [(next, far)];
    forall r | r in queued + {next} ensures exists k :: 0 <= k < |more| && more[k].0 == r {
      if r == next {
        assert more[|frontier|].0 == r;
      } else {
        var k :| 0 <= k < |frontier| && frontier[k].0 == r;
        assert more[k].0 == r;
      }
    }
  }

  lemma ReachOneMore(w: World, start: Room, radius: nat, frontier: Frontier, dist: map<Room, nat>, next: Room, far: nat)
    requires Reached(w, start, radius, frontier, dist)
    requires next !in dist && far <= radius && next in OpenBall(w, start, far)
    ensures Reached(w, start, radius, frontier + [(next, far)], dist[next := far])
  {
  }

  lemma OrderOneMore(frontier: Frontier, queued: set<Room>, dist: map<Room, nat>, i: nat, next: Room)
    requires InOrder(frontier, i) && i < |frontier|
    requires forall k :: 0 <= k < |frontier| ==> frontier[k].0 != next
    ensures InOrder(frontier + [(next, frontier[i].1 + 1)], i)
  {
  }

  lemma EnqueueKeepsFrontier(w: World, start: Room, radius: nat, frontier: Frontier, queued: set<Room>,
                             dist: map<Room, nat>, i: nat, d: Direction)
    requires FrontierOk(w, start, radius, frontier, queued, dist, i)
    requires i < |frontier| && frontier[i].1 < radius && Opens(w, frontier[i].0, d)
    requires Target(w, frontier[i].0, d) !in queued
    ensures var next, far := Target(w, frontier[i].0, d), frontier[i].1 + 1;
            FrontierOk(w, start, radius, frontier + [(next, far)], queued + {next}, dist[next := far], i)
  {
    hide OpenBall, InOrder;
    var next, far := Target(w, frontier[i].0, d), frontier[i].1 + 1;
    assert next !in dist && forall k :: 0 <= k < |frontier| ==> frontier[k].0 in dist;
    assert frontier[i].0 in OpenBall(w, start, frontier[i].1);
    hide Covers, Reached;
    BallStep(w, start, frontier[i].1, frontier[i].0, d);
    CoverOneMore(frontier, queued, dist, next, far);
    ReachOneMore(w, start, radius, frontier, dist, next, far);
    OrderOneMore(frontier, queued, dist, i, next);
  }

  lemma AdvanceFrontier(w: World, start: Room, radius: nat, frontier: Frontier, queued: set<Room>,
                        dist: map<Room, nat>, i: nat)
    requires FrontierOk(w, start, radius, frontier, queued, dist, i) && i < |frontier|
    ensures FrontierOk(w, start, radius, frontier, queued, dist, i + 1)
    ensures |queued| == |frontier|
  {
    hide OpenBall;
    var names := seq(|frontier|, k requires 0 <= k < |frontier| => frontier[k].0);
    assert Distinct(names);
    DistinctSize(names);
    forall r ensures r in queued <==> r in names {
      if r in queued {
        var k :| 0 <= k < |frontier| && frontier[k].0 == r;
        assert names[k] == r;
      }
    }
    assert ToSet(names) == queued;
  }

  /** Examining exit d of the i-th queued room, whose far side is listed: the link is added. */
  lemma AddLinkKeepsLinks(w: World, start: Room, radius: nat, frontier: Frontier, more: Frontier, queued: set<Room>,
                          dist: map<Room, nat>, included: set<Room>, links: seq<Link>, i: nat, d: Direction)
    requires LinksOk(w, frontier, included, links, i, d)
    requires FrontierOk(w, start, radius, frontier, queued, dist, i)
    requires i < |frontier| && frontier <= more && Visible(w, frontier[i].0, d)
    requires Target(w, frontier[i].0, d) in included
    ensures LinksOk(w, more, included, links + [LinkOf(w, frontier[i].0, d)], i, d + 1)
  {
    var link, dir := LinkOf(w, frontier[i].0, d), d + 1;
    assert link !in links by {
      forall j: nat ensures !LinkFrom(w, frontier, link, j, i, d) {
        assert LinkFrom(w, frontier, link, j, i, d) ==> j == i;
      }
    }
    assert LinkFrom(w, more, link, i, i, dir);
    forall l | l in links ensures exists j: nat :: LinkFrom(w, more, l, j, i, dir) {
      var j: nat :| LinkFrom(w, frontier, l, j, i, d);
      assert LinkFrom(w, more, l, j, i, dir);
    }
    forall j: nat, l: Link | LinkFrom(w, more, l, j, i, dir) && l.to in included ensures l in links + [link] {
      if Before(j, l.direction, i, d) { assert LinkFrom(w, frontier, l, j, i, d); }
    }
  }

  /** An exit that is not shown, or whose far side stays off the map, adds no link. */
  lemma SkipKeepsLinks(w: World, frontier: Frontier, included: set<Room>, links: seq<Link>, i: nat, d: Direction)
    requires LinksOk(w, frontier, included, links, i, d)
    requires i < |frontier| && (Visible(w, frontier[i].0, d) ==> Target(w, frontier[i].0, d) !in included)
    ensures LinksOk(w, frontier, included, links, i, d + 1)
  {
    var dir := d + 1;
    forall l | l in links ensures exists j: nat :: LinkFrom(w, frontier, l, j, i, dir) {
      var j: nat :| LinkFrom(w, frontier, l, j, i, d);
      assert LinkFrom(w, frontier, l, j, i, dir);
    }
    forall j: nat, l: Link | LinkFrom(w, frontier, l, j, i, dir) && l.to in included ensures l in links {
      assert LinkFrom(w, frontier, l, j, i, d);
    }
  }

  /** Listing a room within the radius cannot bring in the link of an exit examined before. */
  lemma ListKeepsLinks(w: World, start: Room, radius: nat, frontier: Frontier, queued: set<Room>, dist: map<Room, nat>,
                       included: set<Room>, links: seq<Link>, i: nat, dir: nat, next: Room)
    requires LinksOk(w, frontier, included, links, i, dir)
    requires FrontierOk(w, start, radius, frontier, queued, dist, i)
    requires Explored(w, radius, frontier, dist, included, i, dir)
    requires i < |frontier| && frontier[i].1 < radius && next !in included
    ensures LinksOk(w, frontier, included + {next}, links, i, dir)
  {
  }

  lemma AdvanceLinks(w: World, frontier: Frontier, included: set<Room>, links: seq<Link>, i: nat)
    requires LinksOk(w, frontier, included, links, i, NUM_OF_DIRS)
    ensures LinksOk(w, frontier, included, links, i + 1, 0)
  {
    var next := i + 1;
    forall l | l in links ensures exists j: nat :: LinkFrom(w, frontier, l, j, next, 0) {
      var j: nat :| LinkFrom(w, frontier, l, j, i, NUM_OF_DIRS);
      assert LinkFrom(w, frontier, l, j, next, 0);
    }
    forall j: nat, l: Link | LinkFrom(w, frontier, l, j, next, 0) && l.to in included ensures l in links {
      assert LinkFrom(w, frontier, l, j, i, NUM_OF_DIRS);
    }
  }

  lemma BallBorder(w: World, start: Room, radius: nat, r: Room, d: Direction)
    requires radius > 0 && r in OpenBall(w, start, radius - 1) && Visible(w, r, d)
    ensures Target(w, r, d) in InRange(w, start, radius)
  {
  }

  /** A room left out within the radius, when the cap allows no more, proves the range too big. */
  lemma LeftOut(w: World, start: Room, radius: nat, frontier: Frontier, queued: set<Room>, dist: map<Room, nat>,
                included: set<Room>, i: nat, d: Direction)
    requires FrontierOk(w, start, radius, frontier, queued, dist, i)
    requires i < |frontier| && frontier[i].1 < radius && Visible(w, frontier[i].0, d)
    requires included <= InRange(w, start, radius)
    ensures Target(w, frontier[i].0, d) in InRange(w, start, radius)
    ensures Target(w, frontier[i].0, d) !in included ==> |included| < |InRange(w, start, radius)|
  {
    hide InRange, OpenBall, Visible;
    var next := Target(w, frontier[i].0, d);
    assert next in InRange(w, start, radius) by {
      assert frontier[i].0 in OpenBall(w, start, frontier[i].1);
      BallGrows(w, start, frontier[i].1, radius - 1);
      BallBorder(w, start, radius, frontier[i].0, d);
    }
    if next !in included { Smaller(included, InRange(w, start, radius)); }
  }

  /** The variables of the search; `dist` gives the distance a room was queued with. */
  datatype Search = Search(rooms: seq<Room>, links: seq<Link>, frontier: Frontier, included: set<Room>,
                           queued: set<Room>, dist: map<Room, nat>)

  function StartState(start: Room): Search {
    Search([start], [], [(start, 0)], {start}, {start}, map[start := 0])
  }

  /** What examining exit d of the i-th queued room does. */
  function Examine(w: World, radius: nat, cap: nat, s: Search, i: nat, d: Direction): Search {
    if i >= |s.frontier| || !Visible(w, s.frontier[i].0, d) then s else
      var (room, distance) := s.frontier[i];
      var next := Target(w, room, d);
      if next !in s.included && (distance >= radius || |s.included| >= cap) then s else
        var listed := if next in s.included then s
                      else s.(rooms := s.rooms + [next], included := s.included + {next});
        var linked := listed.(links := s.links + [LinkOf(w, room, d)]);
        if distance < radius && Opens(w, room, d) && next !in s.queued
        then linked.(queued := s.queued + {next}, frontier := s.frontier + [(next, distance + 1)],
                     dist := s.dist[next := distance + 1])
        else linked
  }

  /** The search when it is about to examine exit dir of the i-th queued room. */
  function Examined(w: World, start: Room, radius: nat, cap: nat, i: nat, dir: nat): Search
    requires dir <= NUM_OF_DIRS
    decreases i, dir
  {
    if dir > 0 then Examine(w, radius, cap, Examined(w, start, radius, cap, i, dir - 1), i, dir - 1)
    else if i > 0 then Examined(w, start, radius, cap, i - 1, NUM_OF_DIRS)
    else StartState(start)
  }

  /** The listed rooms: each once, the start first, all in range and within the cap. */
  ghost predicate RoomsOk(w: World, start: Room, radius: nat, cap: nat, rooms: seq<Room>, included: set<Room>,
                          queued: set<Room>)
  {
    && Distinct(rooms) && included == ToSet(rooms) && |rooms| > 0 && rooms[0] == start
    && queued <= included <= InRange(w, start, radius) && |included| == |rooms| <= Limit(cap)
  }

  /** The cap has turned no room away. */
  ghost predicate MustExplore(w: World, start: Room, radius: nat, cap: nat, included: set<Room>) {
    |included| < Limit(cap) || |InRange(w, start, radius)| <= Limit(cap)
  }

  /** What the examined open exits of the start lead to is queued with at most 1, or was turned away for good. */
  ghost predicate NextToStart(w: World, start: Room, radius: nat, cap: nat, s: Search, i: nat, dir: nat) {
    forall d: Direction :: Before(0, d, i, dir) && Opens(w, start, d) && 0 < radius ==>
      var next := Target(w, start, d);
      (next in s.dist && s.dist[next] <= 1) || (next !in s.included && |s.included| >= cap)
  }

  /** All that holds of the search when it is about to examine exit dir of the i-th queued room. */
  ghost predicate Searching(w: World, start: Room, radius: nat, cap: nat, s: Search, i: nat, dir: nat) {
    && FrontierOk(w, start, radius, s.frontier, s.queued, s.dist, i)
    && RoomsOk(w, start, radius, cap, s.rooms, s.included, s.queued)
    && (MustExplore(w, start, radius, cap, s.included) ==>
          Explored(w, radius, s.frontier, s.dist, s.included, i, dir))
    && LinksOk(w, s.frontier, s.included, s.links, i, dir)
    && Nearest(w, start, s.frontier, s.included, i)
    && NextToStart(w, start, radius, cap, s, i, dir)
  }

  lemma StartSearch(w: World, start: Room, radius: nat, cap: nat)
    ensures Searching(w, start, radius, cap, StartState(start), 0, 0)
  {
    var s := StartState(start);
    assert s.frontier[0].0 == start;
    assert FrontierOk(w, start, radius, s.frontier, s.queued, s.dist, 0);
    assert LinksOk(w, s.frontier, s.included, s.links, 0, 0);
    assert Explored(w, radius, s.frontier, s.dist, s.included, 0, 0);
    assert s.included == ToSet(s.rooms);
    assert RoomsOk(w, start, radius, cap, s.rooms, s.included, s.queued);
    StartIsNearest(w, start);
    hide FrontierOk, Explored, LinksOk, RoomsOk;
  }

  lemma SkipStep(w: World, start: Room, radius: nat, cap: nat, s: Search, i: nat, d: Direction)
    requires Searching(w, start, radius, cap, s, i, d) && i < |s.frontier|
    requires Visible(w, s.frontier[i].0, d) ==> Target(w, s.frontier[i].0, d) !in s.included
                                                && (s.frontier[i].1 >= radius || |s.included| >= cap)
    ensures Searching(w, start, radius, cap, s, i, d + 1)
  {
    hide Nearest;
    SkipKeepsLinks(w, s.frontier, s.included, s.links, i, d);
    if Visible(w, s.frontier[i].0, d) && s.frontier[i].1 < radius {
      LeftOut(w, start, radius, s.frontier, s.queued, s.dist, s.included, i, d);
    }
  }

  lemma ListStep(w: World, start: Room, radius: nat, cap: nat, s: Search, i: nat, d: Direction)
    requires Searching(w, start, radius, cap, s, i, d) && i < |s.frontier| && Visible(w, s.frontier[i].0, d)
    requires Target(w, s.frontier[i].0, d) !in s.included && s.frontier[i].1 < radius && |s.included| < cap
    ensures var next := Target(w, s.frontier[i].0, d);
            Searching(w, start, radius, cap, s.(rooms := s.rooms + [next], included := s.included + {next}), i, d)
  {
    hide InRange, FrontierOk, Explored, LinksOk, Nearest;
    var next := Target(w, s.frontier[i].0, d);
    assert start in s.included by { assert s.rooms[0] in ToSet(s.rooms); }
    ListNearest(w, start, radius, s.frontier, s.queued, s.dist, s.included, i, d);
    LeftOut(w, start, radius, s.frontier, s.queued, s.dist, s.included, i, d);
    ListKeepsLinks(w, start, radius, s.frontier, s.queued, s.dist, s.included, s.links, i, d, next);
    ListKeepsExplored(w, radius, s.frontier, s.dist, s.included, i, d, next);
    assert ToSet(s.rooms + [next]) == ToSet(s.rooms) + {next};
  }

  lemma ListKeepsExplored(w: World, radius: nat, frontier: Frontier, dist: map<Room, nat>, included: set<Room>,
                          i: nat, dir: nat, next: Room)
    requires Explored(w, radius, frontier, dist, included, i, dir)
    ensures Explored(w, radius, frontier, dist, included + {next}, i, dir)
  {
  }

  /** Examining one more exit whose far side is listed, and queued already if the search may
      continue there. */
  lemma ExploreLink(w: World, start: Room, radius: nat, frontier: Frontier, queued: set<Room>,
                    dist: map<Room, nat>, included: set<Room>, i: nat, d: Direction)
    requires FrontierOk(w, start, radius, frontier, queued, dist, i)
    requires Explored(w, radius, frontier, dist, included, i, d)
    requires i < |frontier| && Visible(w, frontier[i].0, d) && Target(w, frontier[i].0, d) in included
    requires Opens(w, frontier[i].0, d) && frontier[i].1 < radius ==> Target(w, frontier[i].0, d) in queued
    ensures Explored(w, radius, frontier, dist, included, i, d + 1)
  {
  }

  /** Examining one more exit, whose far side is queued now. */
  lemma ExploreEnqueue(w: World, start: Room, radius: nat, frontier: Frontier, queued: set<Room>,
                       dist: map<Room, nat>, included: set<Room>, i: nat, d: Direction)
    requires FrontierOk(w, start, radius, frontier, queued, dist, i)
    requires Explored(w, radius, frontier, dist, included, i, d)
    requires i < |frontier| && Visible(w, frontier[i].0, d) && Target(w, frontier[i].0, d) in included
    requires Target(w, frontier[i].0, d) !in queued
    ensures var next, far := Target(w, frontier[i].0, d), frontier[i].1 + 1;
            Explored(w, radius, frontier + [(next, far)], dist[next := far], included, i, d + 1)
  {
  }

  lemma QueuedFromStart(w: World, start: Room, radius: nat, frontier: Frontier, queued: set<Room>, dist: map<Room, nat>,
                        next: Room)
    requires FrontierOk(w, start, radius, frontier, queued, dist, 0) && next in queued
    ensures frontier[0] == (start, 0) && next in dist && dist[next] <= 1
  {
    var k :| 0 <= k < |frontier| && frontier[k].0 == next;
  }

  lemma LinkNextToStart(w: World, start: Room, radius: nat, cap: nat, s: Search, i: nat, d: Direction)
    requires NextToStart(w, start, radius, cap, s, i, d) && i < |s.frontier|
    requires FrontierOk(w, start, radius, s.frontier, s.queued, s.dist, i)
    requires Visible(w, s.frontier[i].0, d)
    requires Opens(w, s.frontier[i].0, d) && s.frontier[i].1 < radius ==> Target(w, s.frontier[i].0, d) in s.queued
    ensures NextToStart(w, start, radius, cap, s.(links := s.links + [LinkOf(w, s.frontier[i].0, d)]), i, d + 1)
  {
    assert s.frontier[0] == (start, 0);
    if i == 0 && Opens(w, start, d) && 0 < radius {
      QueuedFromStart(w, start, radius, s.frontier, s.queued, s.dist, Target(w, start, d));
    }
  }

  lemma EnqueueNextToStart(w: World, start: Room, radius: nat, cap: nat, s: Search, more: Search, i: nat, d: Direction)
    requires NextToStart(w, start, radius, cap, s, i, d) && i < |s.frontier| && Opens(w, s.frontier[i].0, d)
    requires FrontierOk(w, start, radius, s.frontier, s.queued, s.dist, i)
    requires var next := Target(w, s.frontier[i].0, d); next in s.included && next !in s.queued
    requires more.included == s.included
    requires more.dist == s.dist[Target(w, s.frontier[i].0, d) := s.frontier[i].1 + 1]
    ensures NextToStart(w, start, radius, cap, more, i, d + 1)
  {
    assert s.frontier[0] == (start, 0);
  }

  lemma LinkStep(w: World, start: Room, radius: nat, cap: nat, s: Search, i: nat, d: Direction)
    requires Searching(w, start, radius, cap, s, i, d) && i < |s.frontier| && Visible(w, s.frontier[i].0, d)
    requires Target(w, s.frontier[i].0, d) in s.included
    requires Opens(w, s.frontier[i].0, d) && s.frontier[i].1 < radius ==> Target(w, s.frontier[i].0, d) in s.queued
    ensures Searching(w, start, radius, cap, s.(links := s.links + [LinkOf(w, s.frontier[i].0, d)]), i, d + 1)
  {
    hide FrontierOk, Explored, LinksOk, RoomsOk, MustExplore, Nearest, NextToStart;
    LinkNextToStart(w, start, radius, cap, s, i, d);
    AddLinkKeepsLinks(w, start, radius, s.frontier, s.frontier, s.queued, s.dist, s.included, s.links, i, d);
    if MustExplore(w, start, radius, cap, s.included) {
      ExploreLink(w, start, radius, s.frontier, s.queued, s.dist, s.included, i, d);
    }
  }

  lemma EnqueueStep(w: World, start: Room, radius: nat, cap: nat, s: Search, i: nat, d: Direction)
    requires Searching(w, start, radius, cap, s, i, d) && i < |s.frontier| && Opens(w, s.frontier[i].0, d)
    requires var next := Target(w, s.frontier[i].0, d); next in s.included && next !in s.queued
    requires s.frontier[i].1 < radius
    ensures var next, far := Target(w, s.frontier[i].0, d), s.frontier[i].1 + 1;
            Searching(w, start, radius, cap,
              s.(links := s.links + [LinkOf(w, s.frontier[i].0, d)], frontier := s.frontier + [(next, far)],
                 queued := s.queued + {next}, dist := s.dist[next := far]), i, d + 1)
  {
    hide FrontierOk, Explored, LinksOk, InRange, Distinct, ToSet, Limit, NextToStart;
    var next, far := Target(w, s.frontier[i].0, d), s.frontier[i].1 + 1;
    EnqueueNextToStart(w, start, radius, cap, s,
      s.(links := s.links + [LinkOf(w, s.frontier[i].0, d)], frontier := s.frontier + [(next, far)],
         queued := s.queued + {next}, dist := s.dist[next := far]), i, d);
    EnqueueKeepsFrontier(w, start, radius, s.frontier, s.queued, s.dist, i, d);
    AddLinkKeepsLinks(w, start, radius, s.frontier, s.frontier + [(next, far)], s.queued, s.dist, s.included,
                      s.links, i, d);
    if MustExplore(w, start, radius, cap, s.included) {
      ExploreEnqueue(w, start, radius, s.frontier, s.queued, s.dist, s.included, i, d);
    }
  }

  lemma AdvanceStep(w: World, start: Room, radius: nat, cap: nat, s: Search, i: nat)
    requires Searching(w, start, radius, cap, s, i, NUM_OF_DIRS) && i < |s.frontier|
    ensures Searching(w, start, radius, cap, s, i + 1, 0)
    ensures |s.frontier| <= |InRange(w, start, radius)|
  {
    AdvanceFrontier(w, start, radius, s.frontier, s.queued, s.dist, i);
    AdvanceLinks(w, s.frontier, s.included, s.links, i);
    AdvanceNearest(w, start, s.frontier, s.included, i);
    SubsetSize(s.queued, InRange(w, start, radius));
  }

  /** The rooms, links and distances the search ends with. */
  ghost predicate IsMiniMap(w: World, start: Room, radius: nat, cap: nat,
                            rooms: seq<Room>, links: seq<Link>, frontier: Frontier)
  {
    && ListsRooms(InRange(w, start, radius), start, cap, rooms)
    && HasLinks(w, rooms, links, frontier)
    && HasDistances(w, start, radius, frontier, |InRange(w, start, radius)| <= Limit(cap))
    && NearestFirst(w, start, ToSet(rooms)) && ExactNearby(w, start, frontier)
  }

  /** Distances up to 2 are exact, whatever the cap. */
  ghost predicate ExactNearby(w: World, start: Room, frontier: Frontier) {
    forall k :: 0 <= k < |frontier| && 0 < frontier[k].1 <= 2 ==>
      frontier[k].0 !in OpenBall(w, start, frontier[k].1 - 1)
  }

  /** Every room in range if the cap allows; otherwise as many of them as it allows. */
  ghost predicate ListsRooms(range: set<Room>, start: Room, cap: nat, rooms: seq<Room>) {
    && Distinct(rooms) && |rooms| > 0 && rooms[0] == start && ToSet(rooms) <= range
    && (|range| <= Limit(cap) ==> ToSet(rooms) == range)
    && (|range| > Limit(cap) ==> |rooms| == Limit(cap))
  }

  /** Exactly the visible exits from queued rooms to listed rooms, each once. */
  ghost predicate HasLinks(w: World, rooms: seq<Room>, links: seq<Link>, frontier: Frontier) {
    && Distinct(links)
    && (forall l :: l in links <==> l.to in rooms && Queued(frontier, l.from)
                                    && Visible(w, l.from, l.direction) && l == LinkOf(w, l.from, l.direction))
  }

  /** Each room is queued at most once, with a distance some open walk has; a complete search
      queues all rooms within the radius, no later than any walk reaches them. */
  ghost predicate HasDistances(w: World, start: Room, radius: nat, frontier: Frontier, complete: bool) {
    && (forall j, k :: 0 <= j < k < |frontier| ==> frontier[j].0 != frontier[k].0)
    && (forall k :: 0 <= k < |frontier| ==>
          frontier[k].1 <= radius && frontier[k].0 in OpenBall(w, start, frontier[k].1))
    && (complete ==>
          forall n: nat, r :: n <= radius && r in OpenBall(w, start, n) ==> QueuedWithin(frontier, r, n))
  }

  ghost predicate Queued(frontier: Frontier, room: Room) {
    exists k :: 0 <= k < |frontier| && frontier[k].0 == room
  }

  ghost predicate QueuedWithin(frontier: Frontier, room: Room, n: nat) {
    exists k :: 0 <= k < |frontier| && frontier[k].0 == room && frontier[k].1 <= n
  }

  /** A room at distance 1 is queued with 1 or not at all. */
  lemma FinishNearby(w: World, start: Room, radius: nat, cap: nat, s: Search)
    requires FrontierOk(w, start, radius, s.frontier, s.queued, s.dist, |s.frontier|) && s.queued <= s.included
    requires NextToStart(w, start, radius, cap, s, |s.frontier|, 0)
    ensures ExactNearby(w, start, s.frontier)
  {
    hide OpenBall;
    forall k | 0 <= k < |s.frontier| && 0 < s.frontier[k].1 <= 2
      ensures s.frontier[k].0 !in OpenBall(w, start, s.frontier[k].1 - 1)
    {
      var r := s.frontier[k].0;
      assert s.frontier[0].0 == start && r in s.dist && r in s.queued;
      BallOfOne(w, start, r);
      if r in OpenBall(w, start, 1) {
        var d: Direction :| Opens(w, start, d) && Target(w, start, d) == r;
        assert Before(0, d, |s.frontier|, 0);
      }
    }
  }

  lemma BallOfOne(w: World, start: Room, r: Room)
    ensures r in OpenBall(w, start, 0) <==> r == start
    ensures r in OpenBall(w, start, 1) <==> r == start || exists d: Direction :: Opens(w, start, d) && Target(w, start, d) == r
  {
    assert OpenBall(w, start, 0) == {start};
    forall d: Direction ensures d in Compass() {}
  }

  lemma FinishLinks(w: World, start: Room, radius: nat, cap: nat, s: Search)
    requires Searching(w, start, radius, cap, s, |s.frontier|, 0)
    ensures HasLinks(w, s.rooms, s.links, s.frontier)
  {
    hide OpenBall, InRange, NextToStart, Nearest, Explored, FrontierOk;
    forall l: Link | l.to in s.rooms && Queued(s.frontier, l.from) && Visible(w, l.from, l.direction)
                     && l == LinkOf(w, l.from, l.direction)
      ensures l in s.links
    {
      var j: nat :| j < |s.frontier| && s.frontier[j].0 == l.from;
      assert LinkFrom(w, s.frontier, l, j, |s.frontier|, 0);
    }
  }

  lemma FinishRooms(w: World, start: Room, radius: nat, cap: nat, s: Search)
    requires Searching(w, start, radius, cap, s, |s.frontier|, 0)
    ensures ListsRooms(InRange(w, start, radius), start, cap, s.rooms)
    ensures HasDistances(w, start, radius, s.frontier, |InRange(w, start, radius)| <= Limit(cap))
  {
    hide OpenBall, InRange, NextToStart, Nearest, LinksOk;
    var range := InRange(w, start, radius);
    if MustExplore(w, start, radius, cap, s.included) {
      CompleteSearch(w, start, radius, s.frontier, s.queued, s.dist, s.included);
      assert s.included == range;
      forall n: nat, r | n <= radius && r in OpenBall(w, start, n) ensures QueuedWithin(s.frontier, r, n) {
        assert r in s.dist && s.dist[r] <= n;
        var k :| 0 <= k < |s.frontier| && s.frontier[k].0 == r;
      }
    }
  }

  lemma FinishSearch(w: World, start: Room, radius: nat, cap: nat, s: Search)
    requires Searching(w, start, radius, cap, s, |s.frontier|, 0)
    ensures IsMiniMap(w, start, radius, cap, s.rooms, s.links, s.frontier)
  {
    FinishRooms(w, start, radius, cap, s);
    FinishLinks(w, start, radius, cap, s);
    FinishNearby(w, start, radius, cap, s);
    hide ListsRooms, HasLinks, HasDistances, ExactNearby, FrontierOk, Explored, LinksOk, NextToStart, InRange, OpenBall;
  }

  // ----- The map in terms of routes -----

  /** What the client is told of an exit: where it leads, whether it is closed, and whether the
      exit opposite (south of north, west of east, down of up) leads back and is shown. */
  ghost predicate Tells(w: World, l: Link) {
    && Passage(w, l.from, l.direction, l.to, false)
    && l.closed == w.exits[(l.from, l.direction)].closed
    && l.oneWay == !Passage(w, l.to, (if l.direction == 0 then 2 else if l.direction == 2 then 0
                                      else if l.direction == 1 then 3 else if l.direction == 3 then 1
                                      else if l.direction == 4 then 5 else 4), l.from, false)
  }

  lemma LinkTells(w: World, l: Link)
    ensures Tells(w, l) <==> Visible(w, l.from, l.direction) && l == LinkOf(w, l.from, l.direction)
  {
  }

  /** The whole map in terms of routes. */
  ghost predicate TellsRoutes(w: World, start: Room, radius: nat, cap: nat,
                              rooms: seq<Room>, links: seq<Link>, frontier: Frontier)
  {
    // Each room is listed once, the player's first, and no more than the cap lets through.
    && Distinct(rooms) && |rooms| > 0 && rooms[0] == start && (|rooms| > 1 ==> |rooms| <= cap)
    // Routes lead to all listed rooms, and to no other unless the cap was reached.
    && (forall r :: r in rooms ==> Leads(w, start, r, radius, false))
    && (|rooms| < cap ==> forall r :: Leads(w, start, r, radius, false) ==> r in rooms)
    // No room left out has a shorter route than a listed one.
    && (forall r, q, n: nat :: r in rooms && q !in rooms && Leads(w, start, q, n, false) ==> Leads(w, start, r, n, false))
    // The links are the shown exits from rooms the search went through to listed rooms, once each.
    && Distinct(links)
    && (forall l :: l in links <==> Tells(w, l) && l.to in rooms && Queued(frontier, l.from))
    // The search goes through the rooms that routes within the radius go on from.
    && (forall k :: 0 <= k < |frontier| ==>
          frontier[k].1 <= radius && Leads(w, start, frontier[k].0, frontier[k].1, true))
    && (|rooms| < cap ==>
          forall r: Room, n: nat :: (r, n) in frontier <==> n <= radius && IsDistance(w, start, r, n))
  }

  lemma NearerRoute(w: World, start: Room, rooms: seq<Room>, listed: Room, left: Room, n: nat)
    requires NearestFirst(w, start, ToSet(rooms))
    requires listed in rooms && left !in rooms && Leads(w, start, left, n, false)
    ensures Leads(w, start, listed, n, false)
  {
    hide InRange, Leads;
    RangeIsRoutes(w, start, n, left);
    RangeIsRoutes(w, start, n, listed);
    assert left in InRange(w, start, n) && left !in ToSet(rooms);
    assert listed in ToSet(rooms);
  }

  lemma MapTellsRoutes(w: World, start: Room, radius: nat, cap: nat,
                       rooms: seq<Room>, links: seq<Link>, frontier: Frontier)
    requires IsMiniMap(w, start, radius, cap, rooms, links, frontier)
    ensures TellsRoutes(w, start, radius, cap, rooms, links, frontier)
  {
    hide OpenBall, InRange, Leads, IsDistance, Tells, ExactNearby, LinkOf, Visible, NearestFirst;
    DistinctSize(rooms);
    forall r, q, n: nat | r in rooms && q !in rooms && Leads(w, start, q, n, false) ensures Leads(w, start, r, n, false) {
      NearerRoute(w, start, rooms, r, q, n);
    }
    forall r ensures r in InRange(w, start, radius) <==> Leads(w, start, r, radius, false) {
      RangeIsRoutes(w, start, radius, r);
    }
    forall r | Leads(w, start, r, radius, false) && |rooms| < cap ensures r in rooms {
      assert r in InRange(w, start, radius) && InRange(w, start, radius) == ToSet(rooms);
    }
    forall r | r in rooms ensures Leads(w, start, r, radius, false) {
      assert r in ToSet(rooms);
    }
    forall l ensures l in links <==> Tells(w, l) && l.to in rooms && Queued(frontier, l.from) {
      LinkTells(w, l);
    }
    forall k | 0 <= k < |frontier|
      ensures frontier[k].1 <= radius && Leads(w, start, frontier[k].0, frontier[k].1, true)
    {
      BallIsRoutes(w, start, frontier[k].1, frontier[k].0);
    }
    if |rooms| < cap {
      forall r: Room, n: nat ensures (r, n) in frontier <==> n <= radius && IsDistance(w, start, r, n) {
        QueuesExactDistances(w, start, radius, cap, rooms, links, frontier, r, n);
      }
    }
  }

  // ----- The search in the source's form -----

  method Snapshot(w: World, start: Room, radius: nat, cap: nat)
    returns (rooms: seq<Room>, links: seq<Link>, frontier: Frontier)
    ensures IsMiniMap(w, start, radius, cap, rooms, links, frontier)
    ensures var s := Examined(w, start, radius, cap, |frontier|, 0);
            rooms == s.rooms && links == s.links && frontier == s.frontier
    ensures TellsRoutes(w, start, radius, cap, rooms, links, frontier)
  {
    hide Searching, TellsRoutes, IsMiniMap, InRange, LinkOf, Examined;
    StartSearch(w, start, radius, cap);
    ExaminedStart(w, start, radius, cap);
    rooms := [start];
    links := [];
    var included := {start};
    var queued := {start};
    frontier := [(start, 0)];
    ghost var s := StartState(start);
    var i := 0;
    while i < |frontier|
      invariant i <= |frontier| && Stands(s, rooms, links, frontier, included, queued)
      invariant s == Examined(w, start, radius, cap, i, 0) && Searching(w, start, radius, cap, s, i, 0)
      decreases |InRange(w, start, radius)| - i
    {
      var (room, distance) := frontier[i];
      for dir := 0 to NUM_OF_DIRS
        invariant i < |frontier| && frontier[i] == (room, distance) && Stands(s, rooms, links, frontier, included, queued)
        invariant s == Examined(w, start, radius, cap, i, dir) && Searching(w, start, radius, cap, s, i, dir)
      {
        ExaminedNext(w, start, radius, cap, i, dir);
        ExamineKeepsSearching(w, start, radius, cap, s, i, dir);
        s := Examine(w, radius, cap, s, i, dir);
        if !Visible(w, room, dir) {
          continue;
        }
        var next := Target(w, room, dir);
        if next !in included {
          if distance >= radius || |included| >= cap {
            continue;
          }
          rooms, included := rooms + [next], included + {next};
        }
        links := links + [LinkOf(w, room, dir)];
        if distance < radius && Opens(w, room, dir) && next !in queued {
          queued := queued + {next};
          frontier := frontier + [(next, distance + 1)];
        }
      }
      AdvanceStep(w, start, radius, cap, s, i);
      ExaminedAdvance(w, start, radius, cap, i);
      i := i + 1;
    }
    FinishSearch(w, start, radius, cap, s);
    MapTellsRoutes(w, start, radius, cap, rooms, links, frontier);
  }

  /** The variables of the loop are those of the search. */
  predicate Stands(s: Search, rooms: seq<Room>, links: seq<Link>, frontier: Frontier, included: set<Room>, queued: set<Room>) {
    s == Search(rooms, links, frontier, included, queued, s.dist)
  }

  lemma ExaminedStart(w: World, start: Room, radius: nat, cap: nat)
    ensures Examined(w, start, radius, cap, 0, 0) == StartState(start)
  {
  }

  lemma ExaminedNext(w: World, start: Room, radius: nat, cap: nat, i: nat, d: Direction)
    ensures Examined(w, start, radius, cap, i, d + 1) ==
            Examine(w, radius, cap, Examined(w, start, radius, cap, i, d), i, d)
  {
  }

  lemma ExaminedAdvance(w: World, start: Room, radius: nat, cap: nat, i: nat)
    ensures Examined(w, start, radius, cap, i + 1, 0) == Examined(w, start, radius, cap, i, NUM_OF_DIRS)
  {
  }

  /** One turn of the inner loop keeps the search correct. */
  lemma ExamineKeepsSearching(w: World, start: Room, radius: nat, cap: nat, s: Search, i: nat, d: Direction)
    requires Searching(w, start, radius, cap, s, i, d) && i < |s.frontier|
    ensures Searching(w, start, radius, cap, Examine(w, radius, cap, s, i, d), i, d + 1)
  {
    hide Searching, LinkOf;
    var (room, distance) := s.frontier[i];
    if !Visible(w, room, d) || (Target(w, room, d) !in s.included && (distance >= radius || |s.included| >= cap)) {
      SkipStep(w, start, radius, cap, s, i, d);
    } else {
      var next := Target(w, room, d);
      var listed := s;
      if next !in s.included {
        ListStep(w, start, radius, cap, s, i, d);
        listed := s.(rooms := s.rooms + [next], included := s.included + {next});
      }
      if distance < radius && Opens(w, room, d) && next !in s.queued {
        EnqueueStep(w, start, radius, cap, listed, i, d);
      } else {
        LinkStep(w, start, radius, cap, listed, i, d);
      }
    }
  }

  // ----- What a snapshot tells the player -----

  /** When the cap allows all rooms that routes lead to, exactly these are listed. */
  lemma ListsExactlyTheRoutes(w: World, start: Room, radius: nat, cap: nat, reach: set<Room>,
                              rooms: seq<Room>, links: seq<Link>, frontier: Frontier)
    requires IsMiniMap(w, start, radius, cap, rooms, links, frontier)
    requires (forall r :: r in reach <==> Leads(w, start, r, radius, false)) && (|reach| <= cap || |reach| == 1)
    ensures ToSet(rooms) == reach
  {
    hide InRange, Leads, HasDistances, HasLinks;
    forall r ensures r in InRange(w, start, radius) <==> r in reach { RangeIsRoutes(w, start, radius, r); }
    assert InRange(w, start, radius) == reach;
  }

  /** The cap keeps the nearest rooms: none that is left out has a shorter route than one that is listed. */
  lemma CapKeepsNearest(w: World, start: Room, radius: nat, cap: nat,
                        rooms: seq<Room>, links: seq<Link>, frontier: Frontier, listed: Room, left: Room, n: nat)
    requires IsMiniMap(w, start, radius, cap, rooms, links, frontier)
    requires listed in rooms && left !in rooms && Leads(w, start, left, n, false)
    ensures Leads(w, start, listed, n, false)
  {
    hide InRange, Leads, HasDistances, HasLinks, ListsRooms, NearestFirst;
    NearerRoute(w, start, rooms, listed, left, n);
  }

  /** Then every room is queued with its distance, and only with its distance. */
  lemma QueuesExactDistances(w: World, start: Room, radius: nat, cap: nat,
                             rooms: seq<Room>, links: seq<Link>, frontier: Frontier, r: Room, n: nat)
    requires IsMiniMap(w, start, radius, cap, rooms, links, frontier)
    requires |InRange(w, start, radius)| <= Limit(cap)
    ensures (r, n) in frontier <==> n <= radius && IsDistance(w, start, r, n)
  {
    hide OpenBall, InRange, IsDistance, ListsRooms, HasLinks, HasDistances;
    IsDistanceIffBall(w, start, r, n);
    QueuedIffNearest(w, start, radius, frontier, r, n);
  }

  /** Whatever the cap, a room that is queued with at most 2 is queued with its distance. */
  lemma NearDistancesAreExact(w: World, start: Room, radius: nat, cap: nat,
                              rooms: seq<Room>, links: seq<Link>, frontier: Frontier, r: Room, n: nat)
    requires IsMiniMap(w, start, radius, cap, rooms, links, frontier)
    requires (r, n) in frontier && n <= 2
    ensures IsDistance(w, start, r, n)
  {
    hide OpenBall, InRange, IsDistance, ListsRooms, HasLinks;
    IsDistanceIffBall(w, start, r, n);
    var k :| 0 <= k < |frontier| && frontier[k] == (r, n);
    assert frontier[k].1 == n && frontier[k].0 == r;
  }

  lemma QueuedIffNearest(w: World, start: Room, radius: nat, frontier: Frontier, r: Room, n: nat)
    requires HasDistances(w, start, radius, frontier, true)
    ensures (r, n) in frontier <==>
            n <= radius && r in OpenBall(w, start, n) && (n > 0 ==> r !in OpenBall(w, start, n - 1))
  {
    hide OpenBall;
    if k :| 0 <= k < |frontier| && frontier[k] == (r, n) {
      assert frontier[k].0 == r && frontier[k].1 == n;
      assert n > 0 ==> !QueuedWithin(frontier, r, n - 1);
    }
    if n <= radius && r in OpenBall(w, start, n) && (n > 0 ==> r !in OpenBall(w, start, n - 1)) {
      assert QueuedWithin(frontier, r, n);
      var k :| 0 <= k < |frontier| && frontier[k].0 == r && frontier[k].1 <= n;
      if frontier[k].1 < n { BallGrows(w, start, frontier[k].1, n - 1); }
      assert frontier[k] == (r, n);
    }
  }

  // ----- A distance that is not exact -----

  /** No exit of the room in hand from d on is shown. */
  lemma {:induction false} SkipRest(w: World, start: Room, radius: nat, cap: nat, i: nat, d: nat)
    requires d <= NUM_OF_DIRS
    requires var s := Examined(w, start, radius, cap, i, d);
             i < |s.frontier| ==> forall e: Direction :: d <= e ==> !Visible(w, s.frontier[i].0, e)
    ensures Examined(w, start, radius, cap, i + 1, 0) == Examined(w, start, radius, cap, i, d)
    decreases NUM_OF_DIRS - d
  {
    if d < NUM_OF_DIRS {
      SkipRest(w, start, radius, cap, i, d + 1);
    }
  }

  function Door(to: Room, closed: bool): Exit {
    Exit(Some(to), 0, closed, false)
  }

  /** Closed doors lead from 0 to 2 and 3 and open ways to 1 and 4; 1 leads to 3, and 3 and 4 lead to 2. */
  function Yard(): World {
    World(map[(0, 0) := Door(1, false), (0, 1) := Door(2, true), (0, 2) := Door(3, true), (0, 3) := Door(4, false),
              (1, 0) := Door(3, false), (3, 0) := Door(2, false), (4, 0) := Door(2, false)], {}, false)
  }

  /** The rooms queued and listed so far. */
  predicate Shows(s: Search, frontier: Frontier, included: set<Room>, queued: set<Room>) {
    s.frontier == frontier && s.included == included && s.queued == queued
  }

  /** A door to a room not listed yet lists that room, and queues it if it is open. */
  lemma DoorShows(w: World, s: Search, i: nat, d: Direction, next: Room, closed: bool)
    requires i < |s.frontier| && s.frontier[i].1 < 3 && |s.included| < 4 && next !in s.included && next !in s.queued
    requires (s.frontier[i].0, d) in w.exits && w.exits[(s.frontier[i].0, d)] == Door(next, closed) && w.dark == {}
    ensures Shows(Examine(w, 3, 4, s, i, d), s.frontier + (if closed then [] else [(next, s.frontier[i].1 + 1)]),
                  s.included + {next}, s.queued + if closed then {} else {next})
  {
    hide LinkOf;
  }

  lemma DoorTurnsAway(w: World, s: Search, i: nat, d: Direction, next: Room, closed: bool)
    requires i < |s.frontier| && |s.included| >= 4 && next !in s.included
    requires (s.frontier[i].0, d) in w.exits && w.exits[(s.frontier[i].0, d)] == Door(next, closed)
    ensures Examine(w, 3, 4, s, i, d) == s
  {
  }

  lemma Grown(frontier: Frontier, included: set<Room>)
    ensures frontier + [] == frontier && included + {} == included
  {
  }

  lemma YardDoors()
    ensures var e := Yard().exits;
            && (0, 0) in e && e[(0, 0)] == Door(1, false) && (0, 1) in e && e[(0, 1)] == Door(2, true)
            && (0, 2) in e && e[(0, 2)] == Door(3, true) && (0, 3) in e && e[(0, 3)] == Door(4, false)
            && Yard().dark == {} && !Visible(Yard(), 0, 4) && !Visible(Yard(), 0, 5)
  {
  }

  /** The first room lists as many as the cap allows, and queues one. */
  lemma YardStart()
    ensures Shows(Examined(Yard(), 0, 3, 4, 1, 0), [(0, 0), (1, 1)], {0, 1, 2, 3}, {0, 1})
  {
    YardDoors();
    hide Examined, Examine, Yard, Visible;
    var w := Yard();
    ExaminedStart(w, 0, 3, 4);
    var s0 := Examined(w, 0, 3, 4, 0, 0);
    DoorShows(w, s0, 0, 0, 1, false);
    ExaminedNext(w, 0, 3, 4, 0, 0);
    var s1 := Examined(w, 0, 3, 4, 0, 1);
    assert Shows(s1, [(0, 0), (1, 1)], {0, 1}, {0, 1});
    DoorShows(w, s1, 0, 1, 2, true);
    ExaminedNext(w, 0, 3, 4, 0, 1);
    var s2 := Examined(w, 0, 3, 4, 0, 2);
    Grown(s1.frontier, s1.queued);
    assert Shows(s2, [(0, 0), (1, 1)], {0, 1, 2}, {0, 1});
    DoorShows(w, s2, 0, 2, 3, true);
    ExaminedNext(w, 0, 3, 4, 0, 2);
    var s3 := Examined(w, 0, 3, 4, 0, 3);
    assert Shows(s3, [(0, 0), (1, 1)], {0, 1, 2, 3}, {0, 1});
    DoorTurnsAway(w, s3, 0, 3, 4, false);
    ExaminedNext(w, 0, 3, 4, 0, 3);
    SkipRest(w, 0, 3, 4, 0, 4);
  }

  /** A room with one way out, to a room that is listed and not queued, queues that room. */
  lemma OneWayOut(w: World, i: nat, next: Room)
    requires var s := Examined(w, 0, 3, 4, i, 0);
             && i < |s.frontier| && s.frontier[i].1 < 3 && next in s.included && next !in s.queued
             && (s.frontier[i].0, 0) in w.exits && w.exits[(s.frontier[i].0, 0)] == Door(next, false) && w.dark == {}
             && forall e: Direction :: 0 < e ==> (s.frontier[i].0, e) !in w.exits
    ensures var s := Examined(w, 0, 3, 4, i, 0);
            Shows(Examined(w, 0, 3, 4, i + 1, 0), s.frontier + [(next, s.frontier[i].1 + 1)], s.included, s.queued + {next})
  {
    hide Examined, LinkOf;
    ExaminedNext(w, 0, 3, 4, i, 0);
    SkipRest(w, 0, 3, 4, i, 1);
  }

  lemma YardSearch()
    ensures Examined(Yard(), 0, 3, 4, 4, 0).frontier == [(0, 0), (1, 1), (3, 2), (2, 3)]
  {
    hide Examined;
    YardStart();
    OneWayOut(Yard(), 1, 3);
    assert Shows(Examined(Yard(), 0, 3, 4, 2, 0), [(0, 0), (1, 1), (3, 2)], {0, 1, 2, 3}, {0, 1, 3});
    OneWayOut(Yard(), 2, 2);
    assert Examined(Yard(), 0, 3, 4, 3, 0).frontier == [(0, 0), (1, 1), (3, 2), (2, 3)];
    SkipRest(Yard(), 0, 3, 4, 3, 0);
  }

  /** With radius 3 and a cap of 4 rooms, room 2 is queued with 3 although it is 2 away: room 4, through
      which the shorter walk leads, was turned away. */
  lemma FarDistanceIsNotExact()
    ensures var s := Examined(Yard(), 0, 3, 4, 4, 0); |s.frontier| == 4 && (2, 3) in s.frontier
    ensures IsDistance(Yard(), 0, 2, 2)
  {
    YardSearch();
    hide Examined;
    var w := Yard();
    assert Examined(w, 0, 3, 4, 4, 0).frontier[3] == (2, 3);
    StartInBall(w, 0, 0);
    BallStep(w, 0, 0, 0, 3);
    BallStep(w, 0, 1, 4, 0);
    assert 2 !in OpenBall(w, 0, 1);
    IsDistanceIffBall(w, 0, 2, 2);
  }
}
