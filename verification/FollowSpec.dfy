/** Who follows whom, as values: what the commands of act.movement.cpp and act.other.cpp do to
    the master pointers and to the lists of followers, and why no run of them makes a loop. */
module FollowSpec {
  import opened Characters
  import opened Seqs

  /** Both sides of the relation as the game stores it, with each list in its order, and the
      characters flagged as group members. */
  datatype Band = Band(master: map<Character, Character>, list: map<Character, seq<Character>>, grouped: set<Character>)

  // ----- Chains of masters -----

  /** n steps up the master pointers lead from c to d. */
  ghost predicate Climbs(m: map<Character, Character>, c: Character, n: nat, d: Character) {
    if n == 0 then c == d else c in m && Climbs(m, m[c], n - 1, d)
  }

  /** `a` is c or one of the masters above it. */
  ghost predicate IsAbove(m: map<Character, Character>, a: Character, c: Character) {
    exists n: nat :: Climbs(m, c, n, a)
  }

  ghost predicate NoLoops(m: map<Character, Character>) {
    forall c: Character, n: nat :: c in m && Climbs(m, c, n, c) ==> n == 0
  }

  /** Every character ranks above its master. */
  ghost predicate Ranks(m: map<Character, Character>, rank: map<Character, nat>) {
    m.Keys + m.Values <= rank.Keys && forall c: Character :: c in m ==> rank[m[c]] < rank[c]
  }

  lemma {:induction false} ClimbLowers(m: map<Character, Character>, rank: map<Character, nat>,
                                       c: Character, n: nat, d: Character)
    requires Ranks(m, rank) && Climbs(m, c, n, d) && c in rank
    ensures d in rank && rank[d] + n <= rank[c]
  {
    if n > 0 {
      assert m[c] in m.Values;
      ClimbLowers(m, rank, m[c], n - 1, d);
    }
  }

  lemma RanksHaveNoLoops(m: map<Character, Character>, rank: map<Character, nat>)
    requires Ranks(m, rank)
    ensures NoLoops(m)
  {
    forall c: Character, n: nat | c in m && Climbs(m, c, n, c) ensures n == 0 {
      if n > 0 { ClimbLowers(m, rank, c, n, c); }
    }
  }

  /** How far c can climb without meeting `seen`. */
  ghost function Height(m: map<Character, Character>, c: Character, seen: set<Character>): nat
    decreases m.Keys - seen
  {
    if c !in m || c in seen then 0 else 1 + Height(m, m[c], seen + {c})
  }

  lemma {:induction false} HeightIgnoresBelow(m: map<Character, Character>, c: Character, s: set<Character>, t: set<Character>)
    requires NoLoops(m) && forall x: Character :: x in s + t ==> !IsAbove(m, x, c)
    ensures Height(m, c, s) == Height(m, c, t)
    decreases m.Keys - s
  {
    if c in m {
      AboveStep(m, c, c);
      forall x: Character | x in s + {c} + t + {c} ensures !IsAbove(m, x, m[c]) {
        AboveStep(m, x, c);
        if n: nat :| x == c && Climbs(m, m[c], n, c) { assert Climbs(m, c, n + 1, c); }
      }
      HeightIgnoresBelow(m, m[c], s + {c}, t + {c});
    }
  }

  ghost function Heights(m: map<Character, Character>, all: set<Character>): map<Character, nat> {
    map c | c in all :: Height(m, c, {})
  }

  /** A relation without loops can be ranked; this is what recursion over it descends on. */
  lemma HeightsRank(m: map<Character, Character>, all: set<Character>)
    requires NoLoops(m) && m.Keys + m.Values <= all
    ensures Ranks(m, Heights(m, all))
  {
    forall c: Character | c in m ensures Height(m, m[c], {}) < Height(m, c, {}) {
      forall x: Character | x in {c} ensures !IsAbove(m, x, m[c]) {
        if n: nat :| Climbs(m, m[c], n, c) { assert Climbs(m, c, n + 1, c); }
      }
      HeightIgnoresBelow(m, m[c], {}, {c});
      assert {} + {c} == {c};
      assert m[c] in m.Values;
    }
  }

  /** A master has fewer masters above it than its follower. */
  lemma HeightDrops(m: map<Character, Character>, c: Character)
    requires NoLoops(m) && c in m
    ensures Height(m, m[c], {}) < Height(m, c, {})
  {
    var all := m.Keys + m.Values;
    HeightsRank(m, all);
    assert m[c] in m.Values;
    assert Heights(m, all)[m[c]] < Heights(m, all)[c];
  }

  lemma AboveStep(m: map<Character, Character>, a: Character, c: Character)
    requires c in m
    ensures IsAbove(m, a, c) <==> a == c || IsAbove(m, a, m[c])
  {
    if a == c { assert Climbs(m, c, 0, a); }
    if n: nat :| Climbs(m, m[c], n, a) { assert Climbs(m, c, n + 1, a); }
    if n: nat :| Climbs(m, c, n, a) {
      if n > 0 { assert Climbs(m, m[c], n - 1, a); }
    }
  }

  lemma AboveRoot(m: map<Character, Character>, a: Character, c: Character)
    requires c !in m
    ensures IsAbove(m, a, c) <==> a == c
  {
    if a == c { assert Climbs(m, c, 0, a); }
  }

  /** Raises ch and everyone under it above the rank of a new leader. */
  ghost function Raised(m: map<Character, Character>, rank: map<Character, nat>, ch: Character, lift: nat): map<Character, nat> {
    map c | c in rank :: if IsAbove(m, ch, c) then rank[c] + lift else rank[c]
  }

  /** For a character who follows nobody. */
  lemma GuardIsExactAtRoot(m: map<Character, Character>, ch: Character, leader: Character)
    requires NoLoops(m) && ch !in m
    ensures NoLoops(m[ch := leader]) <==> !IsAbove(m, ch, leader)
  {
    var more := m[ch := leader];
    if n: nat :| Climbs(m, leader, n, ch) {
      ClimbInMore(m, ch, leader, leader, n);
      assert Climbs(more, ch, n + 1, ch);
    } else {
      var all := m.Keys + m.Values + {ch, leader};
      var rank := Heights(m, all);
      HeightsRank(m, all);
      var up := Raised(m, rank, ch, rank[leader] + 1);
      AboveRoot(m, ch, ch);
      forall c: Character | c in more ensures c in up && more[c] in up && up[more[c]] < up[c] {
        if c != ch {
          assert m[c] in m.Values;
          AboveStep(m, ch, c);
        }
      }
      assert Ranks(more, up);
      RanksHaveNoLoops(more, up);
    }
  }

  /** Climbing to ch never uses an edge out of ch. */
  lemma {:induction false} ClimbInMore(m: map<Character, Character>, ch: Character, leader: Character, c: Character, n: nat)
    requires ch !in m && Climbs(m, c, n, ch)
    ensures Climbs(m[ch := leader], c, n, ch)
  {
    if n > 0 { ClimbInMore(m, ch, leader, m[c], n - 1); }
  }

  /** A climb that stops where it first meets ch does not need the master of ch. */
  lemma {:induction false} ClimbAvoiding(m: map<Character, Character>, ch: Character, c: Character, n: nat) returns (k: nat)
    requires Climbs(m, c, n, ch)
    ensures Climbs(m - {ch}, c, k, ch)
  {
    if c == ch {
      k := 0;
    } else {
      k := ClimbAvoiding(m, ch, m[c], n - 1);
      k := k + 1;
    }
  }

  lemma AboveWithoutItsMaster(m: map<Character, Character>, ch: Character, c: Character)
    ensures IsAbove(m - {ch}, ch, c) <==> IsAbove(m, ch, c)
  {
    if n: nat :| Climbs(m, c, n, ch) { var k := ClimbAvoiding(m, ch, c, n); }
    if n: nat :| Climbs(m - {ch}, c, n, ch) { ClimbInLess(m, {ch}, c, n, ch); }
  }

  /** The test in do_follow is exact, for those who follow somebody already and for those who do not: the
      new master keeps the relation a forest just when the follower is not the leader nor above it. */
  lemma GuardIsExact(m: map<Character, Character>, ch: Character, leader: Character)
    requires NoLoops(m)
    ensures NoLoops(m[ch := leader]) <==> !IsAbove(m, ch, leader)
  {
    var less := m - {ch};
    LessHasNoLoops(m, {ch});
    GuardIsExactAtRoot(less, ch, leader);
    AboveWithoutItsMaster(m, ch, leader);
    assert less[ch := leader] == m[ch := leader];
  }

  // ----- What each operation does -----

  /** x leaves its master's list and group. */
  function Unfollow(b: Band, x: Character): Band {
    if x !in b.master || b.master[x] !in b.list then b else
      var leader := b.master[x];
      Band(b.master - {x}, b.list[leader := Without(b.list[leader], x)], b.grouped - {x})
  }

  function UnfollowAll(b: Band, xs: seq<Character>): Band
    decreases |xs|
  {
    if xs == [] then b else UnfollowAll(Unfollow(b, xs[0]), xs[1..])
  }

  /** add_follower: nothing for a purged character or one that has a master already. */
  function AddFollower(b: Band, ch: Character, leader: Character, purged: bool): Band {
    if purged || ch in b.master || leader !in b.list then b else
      b.(master := b.master[ch := leader], list := b.list[leader := [ch] + b.list[leader]])
  }

  datatype Reply = Refused | AlreadyFollowing | NotFollowing | Stopped | Loop | Following

  /** do_follow once the leader is found: `unwilling` is its refusal over race or over a leader
      without a player, `barred` its refusal in the arena. */
  ghost function FollowReply(b: Band, ch: Character, leader: Character, unwilling: bool, barred: bool): Reply {
    if unwilling then Refused
    else if ch in b.master && b.master[ch] == leader then AlreadyFollowing
    else if barred then Refused
    else if leader == ch then (if ch in b.master then Stopped else NotFollowing)
    else if IsAbove(b.master, ch, leader) then Loop
    else Following
  }

  ghost function DoFollow(b: Band, ch: Character, leader: Character, unwilling: bool, barred: bool, purged: bool): Band {
    match FollowReply(b, ch, leader, unwilling, barred)
    case Stopped => Unfollow(b, ch)
    case Following =>
      var free := Unfollow(b, ch);
      AddFollower(free.(grouped := free.grouped - {ch}), ch, leader, purged)
    case _ => b
  }

  /** die_follower: the dead leave their master, then all their followers leave them. */
  function Die(b: Band, ch: Character): Band {
    var alone := Unfollow(b, ch);
    if ch in alone.list then UnfollowAll(alone, alone.list[ch]) else alone
  }

  function Members(s: seq<Character>, grouped: set<Character>): seq<Character> {
    if s == [] then [] else (if s[0] in grouped then [s[0]] else []) + Members(s[1..], grouped)
  }

  /** do_ungroup without an argument. */
  function Disband(b: Band, ch: Character): Band {
    if ch in b.master || ch !in b.grouped || ch !in b.list then b else
      var rest := UnfollowAll(b, Members(b.list[ch], b.grouped));
      rest.(grouped := rest.grouped - {ch})
  }

  /** do_ungroup with an argument: the flag goes, the following stays. */
  function Expel(b: Band, ch: Character, who: Character): Band {
    if who in b.master && b.master[who] == ch then b.(grouped := b.grouped - {who}) else b
  }

  // ----- The forest -----

  /** Every list holds exactly the characters whose master is its owner, once each, and no
      chain of masters comes back to where it started. */
  ghost predicate Forest(b: Band) {
    && b.master.Keys <= b.list.Keys && b.master.Values <= b.list.Keys
    && (forall c: Character :: c in b.list ==> Distinct(b.list[c]))
    && (forall c: Character, f: Character :: c in b.list && f in b.list[c] ==> f in b.master && b.master[f] == c)
    && (forall f: Character :: f in b.master ==> f in b.list[b.master[f]])
    && NoLoops(b.master)
  }

  lemma {:induction false} ClimbInLess(m: map<Character, Character>, xs: set<Character>, c: Character, n: nat, d: Character)
    requires Climbs(m - xs, c, n, d)
    ensures Climbs(m, c, n, d)
  {
    if n > 0 { ClimbInLess(m, xs, m[c], n - 1, d); }
  }

  lemma LessHasNoLoops(m: map<Character, Character>, xs: set<Character>)
    requires NoLoops(m)
    ensures NoLoops(m - xs)
  {
    forall c: Character, n: nat | c in m - xs && Climbs(m - xs, c, n, c) ensures n == 0 {
      ClimbInLess(m, xs, c, n, c);
    }
  }

  lemma UnfollowKeepsForest(b: Band, x: Character)
    requires Forest(b)
    ensures Forest(Unfollow(b, x))
  {
    hide NoLoops, Without, Distinct;
    if x in b.master {
      LessHasNoLoops(b.master, {x});
      WithoutContents(b.list[b.master[x]], x);
      var after := Unfollow(b, x);
      assert after.master.Values <= b.master.Values;
      var leader, shorter := b.master[x], Without(b.list[b.master[x]], x);
      forall c: Character, f: Character | c in after.list && f in after.list[c] ensures f in after.master && after.master[f] == c {
        if c == leader { assert f in ToSet(shorter); }
      }
      forall f: Character | f in after.master ensures f in after.list[after.master[f]] {
        if after.master[f] == leader { assert f in ToSet(shorter); }
      }
    }
  }

  lemma AddFollowerKeepsForest(b: Band, ch: Character, leader: Character, purged: bool)
    requires Forest(b) && ch in b.list && !IsAbove(b.master, ch, leader)
    ensures Forest(AddFollower(b, ch, leader, purged))
  {
    if !purged && ch !in b.master && leader in b.list {
      GuardIsExact(b.master, ch, leader);
      hide NoLoops, IsAbove;
      var after := AddFollower(b, ch, leader, purged);
      var longer := [ch] + b.list[leader];
      assert forall y: Character :: y in longer <==> y == ch || y in b.list[leader];
      assert after.master.Values <= b.master.Values + {leader};
    }
  }

  /** Stopping does not put anyone above the new leader. */
  lemma StillNotAbove(m: map<Character, Character>, x: Character, a: Character, c: Character)
    requires !IsAbove(m, a, c)
    ensures !IsAbove(m - {x}, a, c)
  {
    if n: nat :| Climbs(m - {x}, c, n, a) { ClimbInLess(m, {x}, c, n, a); }
  }

  lemma DoFollowKeepsForest(b: Band, ch: Character, leader: Character, unwilling: bool, barred: bool, purged: bool)
    requires Forest(b) && ch in b.list
    ensures Forest(DoFollow(b, ch, leader, unwilling, barred, purged))
  {
    UnfollowKeepsForest(b, ch);
    if FollowReply(b, ch, leader, unwilling, barred) == Following {
      if ch in b.master { StillNotAbove(b.master, ch, ch, leader); }
      var free := Unfollow(b, ch);
      assert Forest(free.(grouped := free.grouped - {ch}));
      AddFollowerKeepsForest(free.(grouped := free.grouped - {ch}), ch, leader, purged);
    }
  }

  lemma {:induction false} UnfollowAllKeepsForest(b: Band, xs: seq<Character>)
    requires Forest(b)
    ensures Forest(UnfollowAll(b, xs))
    decreases |xs|
  {
    if xs != [] {
      UnfollowKeepsForest(b, xs[0]);
      hide Forest;
      UnfollowAllKeepsForest(Unfollow(b, xs[0]), xs[1..]);
    }
  }

  // ----- What leaving all at once amounts to -----

  /** The characters of s outside `gone`, in order. */
  function Others(s: seq<Character>, gone: set<Character>): seq<Character> {
    if s == [] then [] else (if s[0] in gone then [] else [s[0]]) + Others(s[1..], gone)
  }

  lemma {:induction false} OthersIgnoresAbsent(s: seq<Character>, gone: set<Character>, x: Character)
    requires x !in s
    ensures Others(s, gone + {x}) == Others(s, gone)
  {
    if s != [] { OthersIgnoresAbsent(s[1..], gone, x); }
  }

  lemma {:induction false} OthersAll(s: seq<Character>, gone: set<Character>)
    requires forall x: Character :: x in s ==> x in gone
    ensures Others(s, gone) == []
  {
    if s != [] { OthersAll(s[1..], gone); }
  }

  lemma {:induction false} OthersNone(s: seq<Character>)
    ensures Others(s, {}) == s
  {
    if s != [] { OthersNone(s[1..]); }
  }

  lemma {:induction false} OthersWithout(s: seq<Character>, gone: set<Character>, x: Character)
    requires Distinct(s)
    ensures Others(Without(s, x), gone) == Others(s, gone + {x})
  {
    if s != [] {
      if s[0] == x {
        OthersIgnoresAbsent(s[1..], gone, x);
      } else {
        OthersWithout(s[1..], gone, x);
        assert ([s[0]] + Without(s[1..], x))[1..] == Without(s[1..], x);
      }
    }
  }

  /** Followers of one leader leaving one after another leave the rest in their order. */
  lemma {:induction false} UnfollowAllAtOnce(b: Band, leader: Character, xs: seq<Character>)
    requires Forest(b) && leader in b.list && Distinct(xs) && ToSet(xs) <= ToSet(b.list[leader])
    ensures UnfollowAll(b, xs) == Band(b.master - ToSet(xs),
                                       b.list[leader := Others(b.list[leader], ToSet(xs))],
                                       b.grouped - ToSet(xs))
    decreases |xs|
  {
    hide Forest, NoLoops, Distinct, Unfollow, Without, Others;
    if xs == [] {
      OthersNone(b.list[leader]);
      assert ToSet(xs) == {};
      assert b.master - {} == b.master && b.list[leader := b.list[leader]] == b.list && b.grouped - {} == b.grouped;
    } else {
      assert xs == [xs[0]] + xs[1..];
      DistinctCons(xs[0], xs[1..]);
      assert ToSet(xs) == ToSet(xs[1..]) + {xs[0]};
      assert xs[0] in ToSet(xs);
      UnfollowIsWithout(b, leader, xs[0]);
      var next := Unfollow(b, xs[0]);
      UnfollowKeepsForest(b, xs[0]);
      OthersWithout(b.list[leader], ToSet(xs[1..]), xs[0]);
      UnfollowAllAtOnce(next, leader, xs[1..]);
      assert next.master - ToSet(xs[1..]) == b.master - ToSet(xs);
      assert next.grouped - ToSet(xs[1..]) == b.grouped - ToSet(xs);
      assert next.list[leader := Others(next.list[leader], ToSet(xs[1..]))]
          == b.list[leader := Others(b.list[leader], ToSet(xs))];
    }
  }

  lemma UnfollowIsWithout(b: Band, leader: Character, x: Character)
    requires Forest(b) && leader in b.list && x in b.list[leader]
    ensures Distinct(b.list[leader])
    ensures Unfollow(b, x) == Band(b.master - {x}, b.list[leader := Without(b.list[leader], x)], b.grouped - {x})
    ensures ToSet(Without(b.list[leader], x)) == ToSet(b.list[leader]) - {x}
  {
    hide Without;
    WithoutContents(b.list[leader], x);
  }

  lemma UnfollowOthers(b: Band, ch: Character)
    requires Forest(b) && ch in b.master
    ensures b.master[ch] != ch && b.master[ch] in b.list
    ensures Unfollow(b, ch).list == b.list[b.master[ch] := Others(b.list[b.master[ch]], {ch})]
  {
    if b.master[ch] == ch { assert Climbs(b.master, ch, 1, ch); }
    OthersWithout(b.list[b.master[ch]], {}, ch);
    OthersNone(Without(b.list[b.master[ch]], ch));
    assert {} + {ch} == {ch};
  }

  lemma OwnListStays(b: Band, ch: Character)
    requires Forest(b) && ch in b.list
    ensures Unfollow(b, ch).list.Keys == b.list.Keys && Unfollow(b, ch).list[ch] == b.list[ch] && Distinct(b.list[ch])
  {
    hide Without, NoLoops;
    if ch in b.master { UnfollowOthers(b, ch); }
  }

  /** The dead follow no one, no one follows them, and no other list or pointer changes. */
  lemma DieAtOnce(b: Band, ch: Character)
    requires Forest(b) && ch in b.list
    ensures var kids := ToSet(b.list[ch]);
            Die(b, ch) == Band(b.master - (kids + {ch}), Unfollow(b, ch).list[ch := []],
                               b.grouped - kids - (if ch in b.master then {ch} else {}))
    ensures ch in b.master ==> Unfollow(b, ch).list == b.list[b.master[ch] := Others(b.list[b.master[ch]], {ch})]
  {
    hide Forest, NoLoops, Others, Without, Distinct;
    var alone, kids := Unfollow(b, ch), b.list[ch];
    if ch in b.master { UnfollowOthers(b, ch); }
    OwnListStays(b, ch);
    UnfollowKeepsForest(b, ch);
    UnfollowAllAtOnce(alone, ch, kids);
    OthersAll(kids, ToSet(kids));
    assert alone.master - ToSet(kids) == b.master - (ToSet(kids) + {ch});
  }

  lemma {:induction false} MembersContents(s: seq<Character>, grouped: set<Character>)
    requires Distinct(s)
    ensures Distinct(Members(s, grouped))
    ensures ToSet(Members(s, grouped)) == set x | x in s && x in grouped
  {
    if s != [] {
      assert s == [s[0]] + s[1..];
      DistinctCons(s[0], s[1..]);
      MembersContents(s[1..], grouped);
      assert s[0] !in ToSet(Members(s[1..], grouped));
      DistinctCons(s[0], Members(s[1..], grouped));
      assert ToSet(Members(s, grouped)) == (if s[0] in grouped then {s[0]} else {}) + ToSet(Members(s[1..], grouped));
    }
  }

  lemma {:induction false} OthersOfMembers(s: seq<Character>, grouped: set<Character>, all: set<Character>)
    requires forall x: Character :: x in s ==> x in all
    ensures Others(s, set x | x in all && x in grouped) == Others(s, grouped)
  {
    if s != [] { OthersOfMembers(s[1..], grouped, all); }
  }

  /** Disbanding sends away exactly the followers who are group members. */
  lemma DisbandAtOnce(b: Band, ch: Character)
    requires Forest(b) && ch in b.list && ch !in b.master && ch in b.grouped
    ensures var leaving := set x | x in b.list[ch] && x in b.grouped;
            Disband(b, ch) == Band(b.master - leaving, b.list[ch := Others(b.list[ch], b.grouped)],
                                   b.grouped - leaving - {ch})
  {
    var s := Members(b.list[ch], b.grouped);
    MembersContents(b.list[ch], b.grouped);
    UnfollowAllAtOnce(b, ch, s);
    hide Forest, NoLoops, Distinct;
    OthersOfMembers(b.list[ch], b.grouped, ToSet(b.list[ch]));
    assert ToSet(s) == set x | x in ToSet(b.list[ch]) && x in b.grouped;
  }

  /** Starting to follow and stopping again changes nothing but the group flag. */
  lemma FollowThenStop(b: Band, ch: Character, leader: Character, purged: bool)
    requires Forest(b) && leader in b.list && ch !in b.master && ch !in b.grouped
    ensures Unfollow(AddFollower(b, ch, leader, purged), ch) == b
  {
  }

  // ----- Every run -----

  datatype Command =
    | Enters(ch: Character)
    | Follows(ch: Character, leader: Character, unwilling: bool, barred: bool, purged: bool)
    | Enrolls(ch: Character)
    | Disbands(ch: Character)
    | Expels(ch: Character, who: Character)
    | Dies(ch: Character)

  ghost function Step(b: Band, c: Command): Band {
    if c.Enters? then (if c.ch in b.list then b else b.(list := b.list[c.ch := []]))
    else if c.ch !in b.list then b
    else match c
         case Follows(ch, leader, unwilling, barred, purged) => DoFollow(b, ch, leader, unwilling, barred, purged)
         case Enrolls(ch) => b.(grouped := b.grouped + {ch})
         case Disbands(ch) => Disband(b, ch)
         case Expels(ch, who) => Expel(b, ch, who)
         case Dies(ch) => Die(b, ch)
         case _ => b
  }

  ghost function Run(b: Band, commands: seq<Command>): Band
    decreases |commands|
  {
    if commands == [] then b else Run(Step(b, commands[0]), commands[1..])
  }

  lemma StepKeepsForest(b: Band, c: Command)
    requires Forest(b)
    ensures Forest(Step(b, c))
  {
    match c
    case Enters(ch) =>
    case Follows(ch, leader, unwilling, barred, purged) =>
      if ch in b.list { DoFollowKeepsForest(b, ch, leader, unwilling, barred, purged); }
    case Enrolls(ch) =>
    case Disbands(ch) =>
      if ch in b.list { UnfollowAllKeepsForest(b, Members(b.list[ch], b.grouped)); }
    case Expels(ch, who) =>
    case Dies(ch) =>
      UnfollowKeepsForest(b, ch);
      var alone := Unfollow(b, ch);
      if ch in b.list { UnfollowAllKeepsForest(alone, alone.list[ch]); }
  }

  lemma {:induction false} RunKeepsForest(b: Band, commands: seq<Command>)
    requires Forest(b)
    ensures Forest(Run(b, commands))
    decreases |commands|
  {
    if commands != [] {
      StepKeepsForest(b, commands[0]);
      hide Forest, Step;
      RunKeepsForest(Step(b, commands[0]), commands[1..]);
    }
  }

  /** Whatever the players do from an empty world on, the followers form a forest. */
  lemma EveryRunIsAForest(commands: seq<Command>)
    ensures Forest(Run(Band(map[], map[], {}), commands))
  {
    RunKeepsForest(Band(map[], map[], {}), commands);
  }

  // ----- What the commands change, read off the masters and lists -----

  /** Whoever leaves a master is out of its list and of the group; nothing else changes. */
  lemma UnfollowMeans(b: Band, x: Character)
    requires Forest(b)
    ensures x !in b.master ==> Unfollow(b, x) == b
    ensures x in b.master ==>
              var m, n := b.master[x], Unfollow(b, x);
              && n.master == b.master - {x} && n.grouped == b.grouped - {x} && n.list.Keys == b.list.Keys
              && m in b.list && OneLess(b.list[m], n.list[m], x)
              && forall c: Character :: c in b.list && c != m ==> n.list[c] == b.list[c]
  {
    if x in b.master { WithoutIsOneLess(b.list[b.master[x]], x); }
  }

  /** One without a master becomes the first in the leader's list; the purged follow nobody. */
  lemma AddFollowerMeans(b: Band, ch: Character, leader: Character, purged: bool)
    requires ch !in b.master && leader in b.list
    ensures var n := AddFollower(b, ch, leader, purged);
            if purged then n == b else
              n.master == b.master[ch := leader] && n.list == b.list[leader := [ch] + b.list[leader]] && n.grouped == b.grouped
  {
  }

  /** Which answer do_follow gives. */
  lemma FollowReplyMeans(b: Band, ch: Character, leader: Character, unwilling: bool, barred: bool)
    ensures var r := FollowReply(b, ch, leader, unwilling, barred);
            var already, free := ch in b.master && b.master[ch] == leader, !unwilling && !barred;
            && (r == AlreadyFollowing <==> !unwilling && already)
            && (r == Refused <==> unwilling || (barred && !already))
            && (r == Stopped <==> free && !already && leader == ch && ch in b.master)
            && (r == NotFollowing <==> free && leader == ch && ch !in b.master)
            && (r == Loop <==> free && !already && leader != ch && IsAbove(b.master, ch, leader))
            && (r == Following <==> free && !already && leader != ch && !IsAbove(b.master, ch, leader))
  {
  }

  /** What do_follow does for each answer. */
  lemma DoFollowMeans(b: Band, ch: Character, leader: Character, unwilling: bool, barred: bool, purged: bool)
    requires Forest(b) && ch in b.list && leader in b.list
    ensures var r, n := FollowReply(b, ch, leader, unwilling, barred), DoFollow(b, ch, leader, unwilling, barred, purged);
            && (r != Following && r != Stopped ==> n == b)
            && (r == Stopped ==> n.master == b.master - {ch})
            && (r == Following ==> n.master == if purged then b.master - {ch} else b.master[ch := leader])
            && (r == Following || r == Stopped ==>
                  && n.grouped == b.grouped - {ch} && n.list.Keys == b.list.Keys
                  && (ch in b.master ==> b.master[ch] in b.list && b.master[ch] != leader
                                         && OneLess(b.list[b.master[ch]], n.list[b.master[ch]], ch))
                  && (forall c: Character :: c in b.list && c != leader && (ch in b.master ==> c != b.master[ch]) ==>
                        n.list[c] == b.list[c])
                  && n.list[leader] == (if r == Following && !purged then [ch] else []) + b.list[leader])
            && ((ch in n.master && n.master[ch] == leader) <==>
                  (r == Following && !purged) || (ch in b.master && b.master[ch] == leader && r != Stopped))
  {
    hide Forest, Unfollow, AddFollower, FollowReply, OneLess, Others;
    FollowReplyMeans(b, ch, leader, unwilling, barred);
    UnfollowMeans(b, ch);
    if ch in b.master { UnfollowOthers(b, ch); }
    var free := Unfollow(b, ch);
    AddFollowerMeans(free.(grouped := free.grouped - {ch}), ch, leader, purged);
  }

  /** The commands that change no master: joining the game, a group flag set, a group flag cleared. */
  lemma StepMeans(b: Band, ch: Character, who: Character)
    requires ch in b.list
    ensures Step(b, Enrolls(ch)) == Band(b.master, b.list, b.grouped + {ch})
    ensures Step(b, Expels(ch, who)) ==
            Band(b.master, b.list, if who in b.master && b.master[who] == ch then b.grouped - {who} else b.grouped)
    ensures who !in b.list ==> Step(b, Enters(who)) == Band(b.master, b.list[who := []], b.grouped)
    ensures ch in b.master || ch !in b.grouped ==> Step(b, Disbands(ch)) == b
  {
  }
}
