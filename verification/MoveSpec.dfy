/** Who moves when a leader moves, as a value: the outcome of perform_move. */
module MoveSpec {
  import opened Characters
  import opened FollowSpec
  import opened Exits
  import opened Options

  type Rooms = map<Character, Room>

  /** One command: the world's exits, the direction, and for every character whether it is
      standing, free to walk (not fighting, not at a table) and able (its own SimpleMove succeeds). */
  datatype Trip = Trip(exits: map<(Room, int), Exit>, dir: int,
                       standing: set<Character>, free: set<Character>, able: set<Character>)

  /** perform_move finds a usable exit. */
  predicate CanGo(t: Trip, room: Room) {
    && 0 <= t.dir < NUM_OF_DIRS && (room, t.dir) in t.exits
    && var exit := t.exits[(room, t.dir)];
       exit.toRoom.Some? && !(exit.hiddenLevel > 0 && exit.closed) && !exit.disabled && !exit.closed
  }

  function Beyond(t: Trip, room: Room): Room
    requires CanGo(t, room)
  {
    t.exits[(room, t.dir)].toRoom.value
  }

  predicate Steps(t: Trip, room: Room, c: Character) {
    CanGo(t, room) && c in t.free && c in t.able
  }

  /** c moves when root does: root by its own step, anyone else behind a master who moved from
      the same room. */
  ghost predicate Goes(m: map<Character, Character>, rooms: Rooms, t: Trip, root: Character, c: Character)
    requires NoLoops(m) && root in rooms
    decreases Height(m, c, {})
  {
    if c == root then Steps(t, rooms[root], root)
    else
      c in m && c in rooms && m[c] in rooms && rooms[c] == rooms[m[c]] && c in t.standing
      && Steps(t, rooms[c], c) && (HeightDrops(m, c); Goes(m, rooms, t, root, m[c]))
  }

  /** Everyone who moves, among `all`. */
  ghost function Goers(m: map<Character, Character>, rooms: Rooms, t: Trip, root: Character): set<Character>
    requires NoLoops(m) && root in rooms
  {
    set c | c in rooms && Goes(m, rooms, t, root, c)
  }

  function Placed(rooms: Rooms, moved: set<Character>, to: Room): Rooms {
    map c | c in rooms :: if c in moved then to else rooms[c]
  }

  /** Those who move were all in the room of the root, below it. */
  lemma {:induction false} GoersStandWithRoot(m: map<Character, Character>, rooms: Rooms, t: Trip, root: Character, c: Character)
    requires NoLoops(m) && root in rooms && Goes(m, rooms, t, root, c)
    ensures c in rooms && rooms[c] == rooms[root] && IsAbove(m, root, c) && Steps(t, rooms[root], root)
    decreases Height(m, c, {})
  {
    if c == root {
      assert Climbs(m, c, 0, root);
    } else {
      HeightDrops(m, c);
      GoersStandWithRoot(m, rooms, t, root, m[c]);
      AboveStep(m, root, c);
    }
  }

  lemma NotAboveItsMaster(m: map<Character, Character>, kid: Character)
    requires NoLoops(m) && kid in m
    ensures !IsAbove(m, kid, m[kid])
  {
    forall n: nat ensures !Climbs(m, m[kid], n, kid) {
      assert Climbs(m, m[kid], n, kid) ==> Climbs(m, kid, n + 1, kid);
    }
  }

  /** A follower that sets off in the same room moves its own followers exactly as the leader would. */
  lemma {:induction false} GoesRelay(m: map<Character, Character>, rooms: Rooms, later: Rooms, t: Trip, root: Character,
                                     kid: Character, c: Character)
    requires NoLoops(m) && root in rooms && kid in rooms && kid in m && m[kid] == root && kid != root
    requires Goes(m, rooms, t, root, root) && rooms[kid] == rooms[root] && kid in t.standing
    requires later.Keys == rooms.Keys
    requires forall x: Character :: x in rooms && IsAbove(m, kid, x) ==> later[x] == rooms[x]
    requires IsAbove(m, kid, c) && c in rooms && m.Values <= rooms.Keys
    ensures Goes(m, later, t, kid, c) <==> Goes(m, rooms, t, root, c)
    decreases Height(m, c, {})
  {
    assert Climbs(m, kid, 0, kid);
    if c != kid {
      if c in m { AboveStep(m, kid, c); } else { AboveRoot(m, kid, c); }
      NotAboveItsMaster(m, kid);
      HeightDrops(m, c);
      assert m[c] in m.Values;
      GoesRelay(m, rooms, later, t, root, kid, m[c]);
    }
  }

  /** Nobody below a follower that stays behind moves. */
  lemma {:induction false} StaysBelow(m: map<Character, Character>, rooms: Rooms, t: Trip, root: Character,
                                      kid: Character, c: Character)
    requires NoLoops(m) && root in rooms && kid in m && m[kid] == root && kid != root
    requires !Goes(m, rooms, t, root, kid) && IsAbove(m, kid, c)
    ensures !Goes(m, rooms, t, root, c)
    decreases Height(m, c, {})
  {
    if c != kid {
      if c in m { AboveStep(m, kid, c); } else { AboveRoot(m, kid, c); }
      NotAboveItsMaster(m, kid);
      HeightDrops(m, c);
      StaysBelow(m, rooms, t, root, kid, m[c]);
    }
  }

  lemma {:induction false} ClimbOn(m: map<Character, Character>, c: Character, i: nat, a: Character, n: nat, b: Character)
    requires Climbs(m, c, i, a) && Climbs(m, c, n, b) && i <= n
    ensures Climbs(m, a, n - i, b)
  {
    if i > 0 { ClimbOn(m, m[c], i - 1, a, n - 1, b); }
  }

  /** Two followers of one leader have no one below them in common. */
  lemma SiblingsApart(m: map<Character, Character>, k: Character, l: Character, c: Character)
    requires NoLoops(m) && k in m && l in m && m[k] == m[l] && IsAbove(m, k, c) && IsAbove(m, l, c)
    ensures k == l
  {
    var i: nat :| Climbs(m, c, i, k);
    var j: nat :| Climbs(m, c, j, l);
    if i <= j { OneChain(m, c, i, k, j, l); } else { OneChain(m, c, j, l, i, k); }
  }

  lemma OneChain(m: map<Character, Character>, c: Character, i: nat, k: Character, j: nat, l: Character)
    requires NoLoops(m) && k in m && l in m && m[k] == m[l] && i <= j
    requires Climbs(m, c, i, k) && Climbs(m, c, j, l)
    ensures k == l
  {
    ClimbOn(m, c, i, k, j, l);
    NotAboveItsMaster(m, l);
  }

  ghost function Under(m: map<Character, Character>, k: Character, all: set<Character>): set<Character> {
    set c | c in all && IsAbove(m, k, c)
  }

  ghost function UnderAny(m: map<Character, Character>, ks: seq<Character>, all: set<Character>): set<Character> {
    if ks == [] then {} else Under(m, ks[0], all) + UnderAny(m, ks[1..], all)
  }

  /** Everyone below a leader is below one of its followers. */
  lemma {:induction false} BelowSomeKid(m: map<Character, Character>, root: Character, ks: seq<Character>,
                                        all: set<Character>, c: Character)
    requires NoLoops(m) && c in all && c != root && IsAbove(m, root, c) && m.Values <= all
    requires forall f: Character :: f in m && m[f] == root ==> f in ks
    ensures c in UnderAny(m, ks, all)
    decreases Height(m, c, {})
  {
    if c !in m { AboveRoot(m, root, c); }
    AboveStep(m, root, c);
    if m[c] == root {
      assert Climbs(m, c, 0, c);
      InUnderAny(m, ks, all, c, c);
    } else {
      HeightDrops(m, c);
      assert m[c] in m.Values;
      BelowSomeKid(m, root, ks, all, m[c]);
      var k := KidAbove(m, ks, all, m[c]);
      AboveStep(m, k, c);
      InUnderAny(m, ks, all, k, c);
    }
  }

  lemma {:induction false} InUnderAny(m: map<Character, Character>, ks: seq<Character>, all: set<Character>,
                                      k: Character, c: Character)
    requires k in ks && c in all && IsAbove(m, k, c)
    ensures c in UnderAny(m, ks, all)
  {
    if ks[0] != k { InUnderAny(m, ks[1..], all, k, c); }
  }

  lemma {:induction false} KidAbove(m: map<Character, Character>, ks: seq<Character>, all: set<Character>, c: Character)
    returns (k: Character)
    requires c in UnderAny(m, ks, all)
    ensures k in ks && IsAbove(m, k, c)
  {
    if c in Under(m, ks[0], all) { k := ks[0]; } else { k := KidAbove(m, ks[1..], all, c); }
  }

  // ----- The outcome in terms of the exits alone -----

  /** The exit of the room in the direction leads somewhere and is neither closed nor disabled. */
  lemma CanGoMeans(t: Trip, room: Room)
    ensures CanGo(t, room) <==>
            && 0 <= t.dir < 6 && (room, t.dir) in t.exits && t.exits[(room, t.dir)].toRoom.Some?
            && !t.exits[(room, t.dir)].closed && !t.exits[(room, t.dir)].disabled
    ensures CanGo(t, room) ==> Some(Beyond(t, room)) == t.exits[(room, t.dir)].toRoom
  {
  }

  /** Whoever moves is the root, or stands behind a master who moves and can step; this tells who moves,
      since no chain of masters is endless. */
  lemma GoersMeans(m: map<Character, Character>, rooms: Rooms, t: Trip, root: Character, c: Character)
    requires NoLoops(m) && root in rooms && Steps(t, rooms[root], root) && m.Keys + m.Values <= rooms.Keys && c in rooms
    ensures c in Goers(m, rooms, t, root) <==>
            || c == root
            || (c in m && m[c] in Goers(m, rooms, t, root) && rooms[c] == rooms[m[c]]
                && c in t.standing && c in t.free && c in t.able)
  {
    if c != root && c in m {
      assert m[c] in m.Values;
      if Goes(m, rooms, t, root, m[c]) { GoersStandWithRoot(m, rooms, t, root, m[c]); }
    }
  }
}
