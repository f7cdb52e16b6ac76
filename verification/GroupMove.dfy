/** perform_move on the heap: a leader walks through an exit and the followers in the room it
    left walk after it, each with its own followers. */
module GroupMove {
  import opened Characters
  import opened FollowSpec
  import opened Followers
  import opened Exits
  import opened Options
  import opened Seqs
  import opened MoveSpec

  ghost function RoomsOf(cast: set<Character>): Rooms
    reads cast`room
  {
    map c | c in cast :: c.room
  }

  ghost function TripOf(cast: set<Character>, exits: map<(Room, int), Exit>, dir: int, able: set<Character>): Trip
    reads cast`standing, cast`fighting, cast`atTable
  {
    Trip(exits, dir, (set c | c in cast && c.standing), (set c | c in cast && !c.fighting && !c.atTable), able)
  }

  /** SimpleMove: refused, or the character stands beyond the exit. */
  method SimpleMove(ch: Character, to: Room, able: set<Character>) returns (ok: bool)
    modifies ch`room
    ensures ok <==> ch in able
    ensures ch.room == if ok then to else old(ch.room)
  {
    ok := ch in able;
    if ok { ch.room := to; }
  }

  /** Part of the way through root's followers: those below the followers in `left` still stand
      where they were, everyone else who goes has gone. */
  ghost predicate Underway(m: map<Character, Character>, rooms: Rooms, t: Trip, root: Character,
                           left: seq<Character>, now: Rooms, moved: seq<Character>)
    requires NoLoops(m) && root in rooms && Steps(t, rooms[root], root)
  {
    && Distinct(moved)
    && ToSet(moved) == Goers(m, rooms, t, root) - UnderAny(m, left, rooms.Keys)
    && now == Placed(rooms, ToSet(moved), Beyond(t, rooms[root]))
  }

  lemma RootHasGone(m: map<Character, Character>, rooms: Rooms, t: Trip, root: Character, ks: seq<Character>)
    requires NoLoops(m) && root in rooms && Steps(t, rooms[root], root) && m.Keys + m.Values <= rooms.Keys
    requires ToSet(ks) == set k | k in m && m[k] == root
    ensures Underway(m, rooms, t, root, ks, rooms[root := Beyond(t, rooms[root])], [root])
  {
    var goers := Goers(m, rooms, t, root);
    forall c: Character | c in goers && c != root ensures c in UnderAny(m, ks, rooms.Keys) {
      GoersStandWithRoot(m, rooms, t, root, c);
      assert forall f: Character :: f in m && m[f] == root ==> f in ToSet(ks);
      BelowSomeKid(m, root, ks, rooms.Keys, c);
    }
    NotUnderItsKids(m, root, ks, rooms.Keys);
    assert ToSet([root]) == goers - UnderAny(m, ks, rooms.Keys);
  }

  /** Those of root's goers that are below kid. */
  lemma KidsShare(m: map<Character, Character>, rooms: Rooms, now: Rooms, t: Trip, root: Character, kid: Character)
    requires NoLoops(m) && root in rooms && Steps(t, rooms[root], root) && m.Keys + m.Values <= rooms.Keys
    requires kid in m && m[kid] == root && now.Keys == rooms.Keys
    requires forall x: Character :: x in Under(m, kid, rooms.Keys) ==> now[x] == rooms[x]
    ensures Goers(m, rooms, t, root) * Under(m, kid, rooms.Keys) ==
            if now[kid] == rooms[root] && kid in t.standing then Goers(m, now, t, kid) else {}
  {
    assert Climbs(m, kid, 0, kid);
    assert kid in Under(m, kid, rooms.Keys);
    NotAboveItsMaster(m, kid);
    if rooms[kid] == rooms[root] && kid in t.standing {
      forall c: Character | c in rooms
        ensures c in Goers(m, rooms, t, root) && c in Under(m, kid, rooms.Keys) <==> c in Goers(m, now, t, kid)
      {
        if c in Under(m, kid, rooms.Keys) {
          GoesRelay(m, rooms, now, t, root, kid, c);
        } else if Goes(m, now, t, kid, c) {
          GoersStandWithRoot(m, now, t, kid, c);
        }
      }
    } else {
      forall c: Character | c in Under(m, kid, rooms.Keys) ensures c !in Goers(m, rooms, t, root) {
        StaysBelow(m, rooms, t, root, kid, c);
      }
    }
  }

  /** Nobody is below the first of some followers and below another. */
  lemma FirstKidApart(m: map<Character, Character>, root: Character, ks: seq<Character>, all: set<Character>)
    requires NoLoops(m) && ks != [] && Distinct(ks) && ToSet(ks) <= set k | k in m && m[k] == root
    ensures forall c: Character :: c in Under(m, ks[0], all) ==> c !in UnderAny(m, ks[1..], all)
  {
    assert ks[0] in ToSet(ks);
    forall c: Character | c in Under(m, ks[0], all) ensures c !in UnderAny(m, ks[1..], all) {
      if c in UnderAny(m, ks[1..], all) {
        var k := KidAbove(m, ks[1..], all, c);
        assert k in ToSet(ks);
        SiblingsApart(m, ks[0], k, c);
      }
    }
  }

  /** The first follower left to ask has moved, or not, with everyone below it. */
  lemma RelayDone(m: map<Character, Character>, rooms: Rooms, t: Trip, root: Character, ks: seq<Character>,
                  now: Rooms, moved: seq<Character>, more: seq<Character>)
    requires NoLoops(m) && root in rooms && Steps(t, rooms[root], root) && m.Keys + m.Values <= rooms.Keys
    requires ks != [] && Distinct(ks) && ToSet(ks) <= set k | k in m && m[k] == root
    requires now.Keys == rooms.Keys && ks[0] in now
    requires Underway(m, rooms, t, root, ks, now, moved)
    requires Distinct(more) && ToSet(more) == if now[ks[0]] == rooms[root] && ks[0] in t.standing
                                              then Goers(m, now, t, ks[0]) else {}
    ensures Underway(m, rooms, t, root, ks[1..], Placed(now, ToSet(more), Beyond(t, rooms[root])), moved + more)
  {
    var kid, all := ks[0], rooms.Keys;
    assert kid in ToSet(ks);
    KidsShare(m, rooms, now, t, root, kid);
    FirstKidApart(m, root, ks, all);
    assert ToSet(moved + more) == ToSet(moved) + ToSet(more);
    assert ToSet(moved) * ToSet(more) == {};
    DistinctTogether(moved, more);
  }

  /** The part of perform_move before the followers: the exit is tried, the step made. */
  method Leave(ch: Character, exits: map<(Room, int), Exit>, dir: int, able: set<Character>, ghost t: Trip)
    returns (ok: bool, ghost called: bool)
    requires t.exits == exits && t.dir == dir && t.able == able && (ch in t.free <==> !ch.fighting && !ch.atTable)
    modifies ch`room
    ensures ok <==> Steps(t, old(ch.room), ch)
    ensures ok <==> called && ch in able
    ensures ch.room == if ok then Beyond(t, old(ch.room)) else old(ch.room)
    ensures ok ==> (old(ch.room), dir) in exits && exits[(old(ch.room), dir)].toRoom == Some(ch.room)
    ensures ok ==> !exits[(old(ch.room), dir)].closed && !exits[(old(ch.room), dir)].disabled && !ch.fighting && !ch.atTable
  {
    called := false;
    if dir < 0 || dir >= NUM_OF_DIRS || ch.fighting { return false, false; }
    if ch.atTable { return false, false; }
    if (ch.room, dir) !in exits || exits[(ch.room, dir)].toRoom.None? { return false, false; }
    var exit := exits[(ch.room, dir)];
    if (exit.hiddenLevel > 0 && exit.closed) || exit.disabled { return false, false; }
    if exit.closed { return false, false; }
    called := true;
    ok := SimpleMove(ch, exit.toRoom.value, able);
  }

  // ----- Everyone is asked once -----

  /** Part of the way through root's followers: `asked` lists those whose SimpleMove was called, all of
      them below root and none below the followers in `left`; the able among them have moved. */
  ghost predicate Asking(m: map<Character, Character>, root: Character, left: seq<Character>, all: set<Character>,
                         able: set<Character>, asked: seq<Character>, moved: seq<Character>)
  {
    && Distinct(asked) && ToSet(moved) == ToSet(asked) * able
    && ToSet(asked) <= Under(m, root, all) - UnderAny(m, left, all)
  }

  lemma NotUnderItsKids(m: map<Character, Character>, root: Character, ks: seq<Character>, all: set<Character>)
    requires NoLoops(m) && ToSet(ks) <= set k | k in m && m[k] == root
    ensures root !in UnderAny(m, ks, all)
  {
    if root in UnderAny(m, ks, all) {
      var k := KidAbove(m, ks, all, root);
      assert k in ToSet(ks);
      NotAboveItsMaster(m, k);
    }
  }

  lemma AskingBegins(m: map<Character, Character>, root: Character, ks: seq<Character>, all: set<Character>,
                     able: set<Character>)
    requires NoLoops(m) && root in all && root in able && ToSet(ks) <= set k | k in m && m[k] == root
    ensures Asking(m, root, ks, all, able, [root], [root])
  {
    NotUnderItsKids(m, root, ks, all);
    assert Climbs(m, root, 0, root);
    assert ToSet([root]) == {root};
  }

  lemma AskingNext(m: map<Character, Character>, root: Character, ks: seq<Character>, all: set<Character>,
                   able: set<Character>, asked: seq<Character>, moved: seq<Character>,
                   more: seq<Character>, gone: seq<Character>)
    requires NoLoops(m) && ks != [] && Distinct(ks) && ToSet(ks) <= set k | k in m && m[k] == root
    requires root in all && Asking(m, root, ks, all, able, asked, moved)
    requires Distinct(more) && ToSet(more) <= Under(m, ks[0], all) && ToSet(gone) == ToSet(more) * able
    ensures Asking(m, root, ks[1..], all, able, asked + more, moved + gone)
  {
    var kid := ks[0];
    assert kid in ToSet(ks);
    FirstKidApart(m, root, ks, all);
    UnderShrinks(m, kid, all);
    hide Under, IsAbove, NoLoops;
    assert ToSet(asked + more) == ToSet(asked) + ToSet(more) && ToSet(moved + gone) == ToSet(moved) + ToSet(gone);
    assert ToSet(asked) * ToSet(more) == {};
    DistinctTogether(asked, more);
  }

  /** The same for the p-th node of the list. */
  lemma FollowerAsked(m: map<Character, Character>, root: Character, list: seq<Follower>, p: nat, all: set<Character>,
                      able: set<Character>, asked: seq<Character>, moved: seq<Character>,
                      more: seq<Character>, gone: seq<Character>)
    requires NoLoops(m) && root in all
    requires p < |list| && Distinct(Names(list)) && ToSet(Names(list)) == set k | k in m && m[k] == root
    requires Asking(m, root, Names(list[p..]), all, able, asked, moved)
    requires Distinct(more) && ToSet(more) <= Under(m, list[p].follower, all) && ToSet(gone) == ToSet(more) * able
    ensures Asking(m, root, Names(list[p + 1..]), all, able, asked + more, moved + gone)
  {
    RestOfNames(list, p);
    AskingNext(m, root, Names(list[p..]), all, able, asked, moved, more, gone);
  }

  lemma AllAsked(m: map<Character, Character>, root: Character, list: seq<Follower>, all: set<Character>,
                 able: set<Character>, asked: seq<Character>, moved: seq<Character>)
    requires Asking(m, root, Names(list[|list|..]), all, able, asked, moved)
    ensures Distinct(asked) && ToSet(asked) <= Under(m, root, all) && ToSet(moved) == ToSet(asked) * able
  {
  }

  lemma OnlyRootAsked(m: map<Character, Character>, root: Character, all: set<Character>, able: set<Character>, called: bool)
    requires root in all && (called ==> root !in able)
    ensures var asked := if called then [root] else [];
            Distinct(asked) && ToSet(asked) <= Under(m, root, all) && {} == ToSet(asked) * able
  {
    assert Climbs(m, root, 0, root);
  }

  lemma UnderShrinks(m: map<Character, Character>, kid: Character, all: set<Character>)
    requires NoLoops(m) && kid in m && m[kid] in all
    ensures Under(m, kid, all) < Under(m, m[kid], all)
  {
    NotAboveItsMaster(m, kid);
    assert Climbs(m, m[kid], 0, m[kid]);
    assert m[kid] in Under(m, m[kid], all) && m[kid] !in Under(m, kid, all);
    forall c: Character | c in Under(m, kid, all) ensures IsAbove(m, m[kid], c) {
      var n: nat :| Climbs(m, c, n, kid);
      ClimbThenStep(m, c, n, kid);
    }
  }

  lemma {:induction false} ClimbThenStep(m: map<Character, Character>, c: Character, n: nat, b: Character)
    requires Climbs(m, c, n, b) && b in m
    ensures Climbs(m, c, n + 1, m[b])
  {
    if n > 0 { ClimbThenStep(m, m[c], n - 1, b); }
  }

  /** Where everyone stands after root was told to walk. */
  ghost function Outcome(m: map<Character, Character>, rooms: Rooms, t: Trip, root: Character): Rooms
    requires NoLoops(m) && root in rooms
  {
    if Steps(t, rooms[root], root) then Placed(rooms, Goers(m, rooms, t, root), Beyond(t, rooms[root])) else rooms
  }

  lemma AllHaveGone(m: map<Character, Character>, rooms: Rooms, t: Trip, root: Character, list: seq<Follower>,
                    now: Rooms, moved: seq<Character>)
    requires NoLoops(m) && root in rooms && Steps(t, rooms[root], root)
    requires Underway(m, rooms, t, root, Names(list[|list|..]), now, moved)
    ensures Distinct(moved) && ToSet(moved) == Goers(m, rooms, t, root) && now == Outcome(m, rooms, t, root)
  {
  }

  lemma NobodyGoes(m: map<Character, Character>, rooms: Rooms, t: Trip, root: Character, moved: seq<Character>)
    requires NoLoops(m) && root in rooms && !Steps(t, rooms[root], root) && moved == []
    ensures Distinct(moved) && ToSet(moved) == Goers(m, rooms, t, root) && rooms == Outcome(m, rooms, t, root)
  {
    forall c: Character | c in rooms && Goes(m, rooms, t, root, c) ensures false {
      GoersStandWithRoot(m, rooms, t, root, c);
    }
  }

  /** The p-th follower of root has been told to walk, if it was there and standing. */
  lemma FollowerDone(m: map<Character, Character>, rooms: Rooms, t: Trip, root: Character, list: seq<Follower>, p: nat,
                     now: Rooms, after: Rooms, moved: seq<Character>, more: seq<Character>)
    requires NoLoops(m) && root in rooms && Steps(t, rooms[root], root) && m.Keys + m.Values <= rooms.Keys
    requires p < |list| && Distinct(Names(list)) && ToSet(Names(list)) == set k | k in m && m[k] == root
    requires Underway(m, rooms, t, root, Names(list[p..]), now, moved)
    requires now.Keys == rooms.Keys && list[p].follower in now
    requires Distinct(more)
    requires if now[list[p].follower] == rooms[root] && list[p].follower in t.standing
             then ToSet(more) == Goers(m, now, t, list[p].follower) && after == Outcome(m, now, t, list[p].follower)
             else more == [] && after == now
    ensures Underway(m, rooms, t, root, Names(list[p + 1..]), after, moved + more)
  {
    RestOfNames(list, p);
    RelayDone(m, rooms, t, root, Names(list[p..]), now, moved, more);
    var kid := list[p].follower;
    hide Underway, Goes, NoLoops;
    if now[kid] == rooms[root] && kid in t.standing {
      if !Steps(t, now[kid], kid) { NobodyGoes(m, now, t, kid, []); }
    }
    assert ToSet(more) == {} ==> Placed(now, ToSet(more), Beyond(t, rooms[root])) == now;
  }

  lemma RestOfNames(list: seq<Follower>, p: nat)
    requires p < |list|
    ensures Names(list[p..]) != [] && Names(list[p..])[0] == list[p].follower
    ensures Names(list[p..])[1..] == Names(list[p + 1..])
    ensures Distinct(Names(list)) ==> Distinct(Names(list[p..]))
    ensures ToSet(Names(list[p..])) <= ToSet(Names(list))
  {
  }

  lemma InScene(cast: set<Character>, x: Character, exits: map<(Room, int), Exit>, dir: int, able: set<Character>)
    requires x in cast
    ensures x in RoomsOf(cast) && RoomsOf(cast)[x] == x.room && RoomsOf(cast).Keys == cast
    ensures var t := TripOf(cast, exits, dir, able);
            t.exits == exits && t.dir == dir && t.able == able
            && (x in t.standing <==> x.standing) && (x in t.free <==> !x.fighting && !x.atTable)
  {
  }

  /** The i-th follower, as perform_move's loop reads it. */
  lemma FollowerFacts(realm: Realm, ch: Character, i: nat)
    requires realm.Valid() && ch in realm.nodes && i < |realm.nodes[ch]|
    ensures var n, m := realm.nodes[ch][i], realm.Masters();
            n.next == (if i + 1 < |realm.nodes[ch]| then realm.nodes[ch][i + 1] else null)
            && n.follower in realm.cast && n.follower in m && m[n.follower] == ch && ch in realm.cast && NoLoops(m)
            && Under(m, n.follower, realm.cast) < Under(m, ch, realm.cast)
  {
    realm.NodeOf(ch, i);
    realm.MasterOf(realm.nodes[ch][i].follower);
    UnderShrinks(realm.Masters(), realm.nodes[ch][i].follower, realm.cast);
  }

  lemma ListFacts(realm: Realm, ch: Character)
    requires realm.Valid() && ch in realm.cast
    ensures ch in realm.nodes && ch.followers == if realm.nodes[ch] == [] then null else realm.nodes[ch][0]
    ensures var m, names := realm.Masters(), Names(realm.nodes[ch]);
            NoLoops(m) && m.Keys + m.Values <= realm.cast
            && Distinct(names) && ToSet(names) == set k | k in m && m[k] == ch
  {
  }

  lemma RoomsOfMeans(cast: set<Character>)
    ensures RoomsOf(cast).Keys == cast && forall c <- cast :: RoomsOf(cast)[c] == c.room
  {
  }

  lemma StepsMeans(realm: Realm, ch: Character, room: Room, exits: map<(Room, int), Exit>, dir: int, able: set<Character>)
    requires ch in realm.cast
    ensures Steps(TripOf(realm.cast, exits, dir, able), room, ch) <==>
            && 0 <= dir < 6 && (room, dir) in exits && exits[(room, dir)].toRoom.Some?
            && !exits[(room, dir)].closed && !exits[(room, dir)].disabled
            && !ch.fighting && !ch.atTable && ch in able
  {
    InScene(realm.cast, ch, exits, dir, able);
    CanGoMeans(TripOf(realm.cast, exits, dir, able), room);
  }

  /** Where everyone stands now, and who has moved, read off the characters. */
  lemma OutcomeMeans(realm: Realm, ch: Character, exits: map<(Room, int), Exit>, dir: int, able: set<Character>,
                     rooms: Rooms, moved: seq<Character>)
    requires realm.Valid() && ch in realm.cast && rooms.Keys == realm.cast && NoLoops(realm.Masters())
    requires Steps(TripOf(realm.cast, exits, dir, able), rooms[ch], ch)
    requires ToSet(moved) == Goers(realm.Masters(), rooms, TripOf(realm.cast, exits, dir, able), ch)
    requires RoomsOf(realm.cast) == Outcome(realm.Masters(), rooms, TripOf(realm.cast, exits, dir, able), ch)
    ensures (rooms[ch], dir) in exits && (forall c <- moved :: c in realm.cast)
    ensures forall c <- realm.cast :: if c in moved then Some(c.room) == exits[(rooms[ch], dir)].toRoom else c.room == rooms[c]
    ensures forall c <- realm.cast :: c in moved <==>
              || c == ch
              || (c.master != null && c.master in moved && c.master in rooms && rooms[c] == rooms[c.master]
                  && c.standing && !c.fighting && !c.atTable && c in able)
  {
    ghost var t, m := TripOf(realm.cast, exits, dir, able), realm.Masters();
    CanGoMeans(t, rooms[ch]);
    ListFacts(realm, ch);
    RoomsOfMeans(realm.cast);
    hide Goes, NoLoops, Realm.Valid, Realm.Masters, RoomsOf, TripOf, Goers, CanGo, Beyond;
    forall c | c in realm.cast
      ensures c in moved <==>
              || c == ch
              || (c.master != null && c.master in moved && c.master in rooms && rooms[c] == rooms[c.master]
                  && c.standing && !c.fighting && !c.atTable && c in able)
    {
      GoersMeans(m, rooms, t, ch, c);
      InScene(realm.cast, c, exits, dir, able);
      realm.MasterOf(c);
      assert c in m ==> m[c] in m.Values;
      assert c in ToSet(moved) <==> c in moved;
      assert c in m ==> (m[c] in ToSet(moved) <==> m[c] in moved);
    }
    forall c | c in moved ensures c in realm.cast { assert c in ToSet(moved); GoersInRooms(m, rooms, t, ch, c); }
    forall c | c in realm.cast
      ensures if c in moved then Some(c.room) == exits[(rooms[ch], dir)].toRoom else c.room == rooms[c]
    {
      assert c in ToSet(moved) <==> c in moved;
    }
  }

  /** perform_move, as it calls itself for the followers. `ok` tells whether ch moved; `moved` lists
      everyone who did, in the order they left, and `asked` everyone whose SimpleMove was called. */
  method MoveGroup(realm: Realm, ch: Character, exits: map<(Room, int), Exit>, dir: int, able: set<Character>)
    returns (ok: bool, ghost moved: seq<Character>, ghost asked: seq<Character>)
    requires realm.Valid() && ch in realm.cast
    modifies realm.cast`room
    ensures NoLoops(realm.Masters()) && ch in old(RoomsOf(realm.cast))
    ensures ok <==> Steps(TripOf(realm.cast, exits, dir, able), old(ch.room), ch)
    ensures Distinct(moved)
    ensures ToSet(moved) ==
            Goers(realm.Masters(), old(RoomsOf(realm.cast)), TripOf(realm.cast, exits, dir, able), ch)
    ensures RoomsOf(realm.cast) ==
            Outcome(realm.Masters(), old(RoomsOf(realm.cast)), TripOf(realm.cast, exits, dir, able), ch)
    ensures Distinct(asked) && ToSet(asked) <= Under(realm.Masters(), ch, realm.cast)
    ensures ToSet(moved) == ToSet(asked) * able
    decreases Under(realm.Masters(), ch, realm.cast)
  {
    hide Realm.Valid, Realm.Masters, Realm.TheBand, Realm.FirstCells, Realm.NextCells, Realm.Grouped, RoomsOf, TripOf;
    hide Goers, Forest, AllLinked, NoLoops, Underway, Names, Lists, Under, Distinct, Steps, CanGo, Outcome, ToSet, Asking;
    ghost var t := TripOf(realm.cast, exits, dir, able);
    ghost var m, rooms, all := realm.Masters(), RoomsOf(realm.cast), realm.cast;
    ListFacts(realm, ch);
    InScene(realm.cast, ch, exits, dir, able);
    var wasIn := ch.room;
    ghost var called;
    ok, called := Step(realm, ch, exits, dir, able, t);
    if !ok {
      moved, asked := [], if called then [ch] else [];
      NobodyGoes(m, rooms, t, ch, moved);
      OnlyRootAsked(m, ch, all, able, called);
      NobodyAsked();
      return;
    }
    moved, asked := [ch], [ch];
    ghost var list, p := realm.nodes[ch], 0;
    RootHasGone(m, rooms, t, ch, Names(list));
    AskingBegins(m, ch, Names(list), all, able);
    assert list[0..] == list;
    var k := ch.followers;
    while k != null
      invariant p <= |list| && k == if p == |list| then null else list[p]
      invariant Underway(m, rooms, t, ch, Names(list[p..]), RoomsOf(realm.cast), moved)
      invariant Asking(m, ch, Names(list[p..]), all, able, asked, moved)
      decreases |list| - p
    {
      FollowerFacts(realm, ch, p);
      InScene(realm.cast, k.follower, exits, dir, able);
      var next := k.next;
      ghost var now, more, tried := RoomsOf(realm.cast), [], [];
      if k.follower.room == wasIn && k.follower.standing {
        var stepped;
        stepped, more, tried := MoveGroup(realm, k.follower, exits, dir, able);
      } else {
        NobodyAsked();
      }
      FollowerDone(m, rooms, t, ch, list, p, now, RoomsOf(realm.cast), moved, more);
      FollowerAsked(m, ch, list, p, all, able, asked, moved, tried, more);
      moved, asked := moved + more, asked + tried;
      k := next;
      p := p + 1;
    }
    AllHaveGone(m, rooms, t, ch, list, RoomsOf(realm.cast), moved);
    AllAsked(m, ch, list, all, able, asked, moved);
  }

  lemma NobodyAsked()
    ensures Distinct<Character>([]) && ToSet<Character>([]) == {}
  {
  }

  /** Leave, seen from the whole realm. */
  method Step(realm: Realm, ch: Character, exits: map<(Room, int), Exit>, dir: int, able: set<Character>, ghost t: Trip)
    returns (ok: bool, ghost called: bool)
    requires ch in realm.cast && t == TripOf(realm.cast, exits, dir, able)
    modifies ch`room
    ensures ok <==> Steps(t, old(ch.room), ch)
    ensures ok <==> called && ch in able
    ensures RoomsOf(realm.cast) == if ok then old(RoomsOf(realm.cast))[ch := Beyond(t, old(ch.room))]
                                   else old(RoomsOf(realm.cast))
  {
    ok, called := Leave(ch, exits, dir, able, t);
  }

  /** perform_move, with its outcome read off the exits and the characters: ch moves exactly when its exit
      is there, leads somewhere, is open and enabled, and ch is free and able; then those who move are ch and
      everyone who stood by a master who moves, upright, free and able; they stand where the exit leads,
      and everyone else where they stood. */
  method PerformMove(realm: Realm, ch: Character, exits: map<(Room, int), Exit>, dir: int, able: set<Character>)
    returns (ok: bool, ghost moved: seq<Character>, ghost asked: seq<Character>)
    requires realm.Valid() && ch in realm.cast
    modifies realm.cast`room
    ensures NoLoops(realm.Masters()) && ch in old(RoomsOf(realm.cast))
    ensures RoomsOf(realm.cast) ==
            Outcome(realm.Masters(), old(RoomsOf(realm.cast)), TripOf(realm.cast, exits, dir, able), ch)
    ensures Distinct(moved) && Distinct(asked) && ToSet(asked) <= Under(realm.Masters(), ch, realm.cast)
    ensures ToSet(moved) == ToSet(asked) * able
    ensures ok <==>
            && 0 <= dir < 6 && (old(ch.room), dir) in exits && exits[(old(ch.room), dir)].toRoom.Some?
            && !exits[(old(ch.room), dir)].closed && !exits[(old(ch.room), dir)].disabled
            && !ch.fighting && !ch.atTable && ch in able
    ensures !ok ==> moved == []
    ensures forall c <- realm.cast :: c !in moved ==> c.room == old(c.room)
    ensures ok ==> forall c <- realm.cast :: c in moved ==> Some(c.room) == exits[(old(ch.room), dir)].toRoom
    ensures ok ==> forall c <- realm.cast :: c in moved <==>
              || c == ch
              || (c.master != null && c.master in moved && old(c.room) == old(c.master.room)
                  && c.standing && !c.fighting && !c.atTable && c in able)
  {
    hide Realm.Valid, Realm.Masters, RoomsOf, TripOf, Goers, NoLoops, Steps, Outcome, Under, Distinct;
    ghost var rooms := RoomsOf(realm.cast);
    RoomsOfMeans(realm.cast);
    StepsMeans(realm, ch, ch.room, exits, dir, able);
    ok, moved, asked := MoveGroup(realm, ch, exits, dir, able);
    if ok {
      OutcomeMeans(realm, ch, exits, dir, able, rooms, moved);
    } else {
      NobodyMoves(realm, ch, exits, dir, able, rooms, moved);
    }
  }

  lemma GoersInRooms(m: map<Character, Character>, rooms: Rooms, t: Trip, root: Character, c: Character)
    requires NoLoops(m) && root in rooms && c in Goers(m, rooms, t, root)
    ensures c in rooms
  {
  }

  lemma NobodyMoves(realm: Realm, ch: Character, exits: map<(Room, int), Exit>, dir: int, able: set<Character>,
                    rooms: Rooms, moved: seq<Character>)
    requires NoLoops(realm.Masters()) && ch in rooms && rooms.Keys == realm.cast
    requires !Steps(TripOf(realm.cast, exits, dir, able), rooms[ch], ch)
    requires ToSet(moved) == Goers(realm.Masters(), rooms, TripOf(realm.cast, exits, dir, able), ch)
    requires RoomsOf(realm.cast) == Outcome(realm.Masters(), rooms, TripOf(realm.cast, exits, dir, able), ch)
    ensures moved == [] && forall c <- realm.cast :: c.room == rooms[c]
  {
    NobodyGoes(realm.Masters(), rooms, TripOf(realm.cast, exits, dir, able), ch, []);
    RoomsOfMeans(realm.cast);
    SomethingIn(moved);
  }
}
