/** The pointer form of following: master pointers and singly linked lists of Follower nodes,
    relinked in place, proved to do what FollowSpec says. */
module Followers {
  import opened Characters
  import opened FollowSpec
  import opened Seqs

  type Nodes = map<Character, seq<Follower>>
  type Heads = map<Character, Follower?>
  type Nexts = map<Follower, Follower?>

  /** From `head` on, the next pointers lead through exactly `s`. */
  ghost predicate Linked(head: Follower?, s: seq<Follower>, nexts: Nexts) {
    && (forall i :: 0 <= i < |s| ==> s[i] in nexts)
    && (s == [] ==> head == null)
    && (s != [] ==> head == s[0] && nexts[s[|s| - 1]] == null)
    && forall i :: 0 <= i < |s| - 1 ==> nexts[s[i]] == s[i + 1]
  }

  ghost predicate AllLinked(heads: Heads, nodes: Nodes, nexts: Nexts) {
    heads.Keys == nodes.Keys && forall c: Character :: c in nodes ==> Linked(heads[c], nodes[c], nexts)
  }

  lemma LinkedEmpty(heads: Heads, nodes: Nodes, nexts: Nexts, ch: Character)
    requires AllLinked(heads, nodes, nexts)
    ensures AllLinked(heads[ch := null], nodes[ch := []], nexts)
  {
  }

  lemma AboveItself(m: map<Character, Character>, c: Character)
    ensures IsAbove(m, c, c)
  {
    assert Climbs(m, c, 0, c);
  }

  ghost function Names(s: seq<Follower>): (r: seq<Character>)
    ensures |r| == |s|
    ensures forall i :: 0 <= i < |s| ==> r[i] == s[i].follower
  {
    seq(|s|, i requires 0 <= i < |s| => s[i].follower)
  }

  ghost function Lists(nodes: Nodes): map<Character, seq<Character>> {
    map c | c in nodes :: Names(nodes[c])
  }

  lemma EmptyList(nodes: Nodes, ch: Character)
    ensures Lists(nodes[ch := []]) == Lists(nodes)[ch := []]
  {
    assert Names([]) == [];
  }

  ghost function Cut(s: seq<Follower>, i: nat): seq<Follower>
    requires i < |s|
  {
    s[..i] + s[i + 1..]
  }

  /** Each node's character has the list's owner as its master. */
  lemma Owner(b: Band, nodes: Nodes, c: Character, i: nat)
    requires Forest(b) && b.list == Lists(nodes) && c in nodes && i < |nodes[c]|
    ensures nodes[c][i].follower in b.master && b.master[nodes[c][i].follower] == c
  {
    hide NoLoops, Distinct;
    assert b.list[c][i] == nodes[c][i].follower;
    assert b.list[c][i] in b.list[c];
  }

  /** A character with a master is found in the master's list, in just one place. */
  lemma Place(b: Band, nodes: Nodes, x: Character) returns (i: nat)
    requires Forest(b) && b.list == Lists(nodes) && x in b.master
    ensures b.master[x] in nodes && b.master[x] != x && i < |nodes[b.master[x]]|
    ensures nodes[b.master[x]][i].follower == x
    ensures forall j :: 0 <= j < |nodes[b.master[x]]| && j != i ==> nodes[b.master[x]][j].follower != x
  {
    var m := b.master[x];
    assert m in b.master.Values;
    if m == x { assert Climbs(b.master, x, 1, x); }
    hide NoLoops;
    assert Distinct(b.list[m]) && x in b.list[m];
    i :| 0 <= i < |b.list[m]| && b.list[m][i] == x;
    forall j | 0 <= j < |nodes[m]| && j != i ensures nodes[m][j].follower != x {
      assert b.list[m][j] != b.list[m][i];
    }
  }

  lemma Apart(b: Band, nodes: Nodes, c: Character, i: nat, d: Character, j: nat)
    requires Forest(b) && b.list == Lists(nodes) && c in nodes && d in nodes && i < |nodes[c]| && j < |nodes[d]|
    requires nodes[c][i] == nodes[d][j]
    ensures c == d && i == j
  {
    Owner(b, nodes, c, i);
    Owner(b, nodes, d, j);
    assert Distinct(b.list[c]);
    assert b.list[c][i] == b.list[c][j];
  }

  lemma InNexts(head: Follower?, s: seq<Follower>, nexts: Nexts)
    requires Linked(head, s, nexts)
    ensures forall j :: 0 <= j < |s| ==> s[j] in nexts
  {
  }

  lemma SameLinks(head: Follower?, s: seq<Follower>, nexts: Nexts, after: Nexts)
    requires Linked(head, s, nexts)
    requires forall j :: 0 <= j < |s| && s[j] in nexts ==> s[j] in after && after[s[j]] == nexts[s[j]]
    ensures Linked(head, s, after)
  {
  }

  /** Linking around the i-th of a list. */
  lemma CutLinked(head: Follower?, s: seq<Follower>, nexts: Nexts, i: nat)
    requires Linked(head, s, nexts) && Distinct(s) && i < |s|
    ensures Linked(if i == 0 then nexts[s[0]] else head, Cut(s, i),
                   (if i == 0 then nexts else nexts[s[i - 1] := nexts[s[i]]]) - {s[i]})
  {
  }

  lemma OneList(b: Band, heads: Heads, nodes: Nodes, nexts: Nexts, m: Character)
    requires Forest(b) && b.list == Lists(nodes) && AllLinked(heads, nodes, nexts) && m in nodes
    ensures m in heads && Linked(heads[m], nodes[m], nexts) && Distinct(nodes[m])
  {
    hide Forest;
    forall j, k | 0 <= j < k < |nodes[m]| ensures nodes[m][j] != nodes[m][k] {
      if nodes[m][j] == nodes[m][k] { Apart(b, nodes, m, j, m, k); }
    }
  }

  /** Linking around the i-th node of m leaves every list linked. */
  lemma CutKeepsLinks(b: Band, heads: Heads, nodes: Nodes, nexts: Nexts, m: Character, i: nat)
    requires Forest(b) && b.list == Lists(nodes) && AllLinked(heads, nodes, nexts)
    requires m in nodes && i < |nodes[m]|
    ensures var gone := nodes[m][i];
            AllLinked(if i == 0 then heads[m := nexts[gone]] else heads, nodes[m := Cut(nodes[m], i)],
                      (if i == 0 then nexts else nexts[nodes[m][i - 1] := nexts[gone]]) - {gone})
  {
    hide Forest, Linked;
    OneList(b, heads, nodes, nexts, m);
    assert forall j :: 0 <= j < |nodes[m]| ==> nodes[m][j] in nexts by { InNexts(heads[m], nodes[m], nexts); }
    var gone := nodes[m][i];
    var after := (if i == 0 then nexts else nexts[nodes[m][i - 1] := nexts[gone]]) - {gone};
    forall c: Character | c in nodes && c != m ensures Linked(heads[c], nodes[c], after) {
      forall j | 0 <= j < |nodes[c]| && nodes[c][j] in nexts
        ensures nodes[c][j] in after && after[nodes[c][j]] == nexts[nodes[c][j]]
      {
        if nodes[c][j] == gone { Apart(b, nodes, c, j, m, i); }
        if i > 0 && nodes[c][j] == nodes[m][i - 1] { Apart(b, nodes, c, j, m, i - 1); }
      }
      SameLinks(heads[c], nodes[c], nexts, after);
    }
    CutLinked(heads[m], nodes[m], nexts, i);
  }

  /** The list without that node spells the names without that character. */
  lemma CutIsUnfollow(b: Band, nodes: Nodes, m: Character, i: nat)
    requires Forest(b) && b.list == Lists(nodes) && m in nodes && i < |nodes[m]|
    ensures var x := nodes[m][i].follower;
            Unfollow(b, x) == Band(b.master - {x}, Lists(nodes[m := Cut(nodes[m], i)]), b.grouped - {x})
  {
    var x, names := nodes[m][i].follower, b.list[m];
    Owner(b, nodes, m, i);
    var p := Place(b, nodes, x);
    assert p == i;
    assert forall j :: 0 <= j < i ==> names[j] != x;
    hide Forest;
    WithoutAt(names, i);
    assert Names(Cut(nodes[m], i)) == names[..i] + names[i + 1..];
    assert Lists(nodes[m := Cut(nodes[m], i)]) == b.list[m := Without(names, x)];
  }

  /** A new node in front of leader's list. */
  lemma PushKeepsLinks(heads: Heads, nodes: Nodes, nexts: Nexts, leader: Character, k: Follower)
    requires AllLinked(heads, nodes, nexts) && leader in nodes && k !in nexts
    ensures AllLinked(heads[leader := k], nodes[leader := [k] + nodes[leader]], nexts[k := heads[leader]])
  {
  }

  /** Leaving its old master does not put ch above the new leader. */
  lemma StillNotAboveAfter(b: Band, ch: Character, leader: Character)
    requires Forest(b) && ch in b.master && !IsAbove(b.master, ch, leader)
    ensures !IsAbove(Unfollow(b, ch).master, ch, leader)
  {
    hide IsAbove, NoLoops, Distinct;
    assert b.master[ch] in b.master.Values;
    StillNotAbove(b.master, ch, ch, leader);
  }

  lemma UnfollowNone(b: Band, x: Character)
    requires x !in b.master
    ensures Unfollow(b, x) == b
  {
  }

  lemma PushedLists(nodes: Nodes, leader: Character, k: Follower)
    requires leader in nodes
    ensures Lists(nodes[leader := [k] + nodes[leader]])
         == Lists(nodes)[leader := [k.follower] + Lists(nodes)[leader]]
  {
    assert Names([k] + nodes[leader]) == [k.follower] + Names(nodes[leader]);
  }

  lemma UnfollowFirst(b: Band, s: seq<Follower>)
    requires s != []
    ensures UnfollowAll(b, Names(s)) == UnfollowAll(Unfollow(b, s[0].follower), Names(Cut(s, 0)))
  {
    assert Names(s)[1..] == Names(Cut(s, 0));
  }

  lemma NoneLeft(b: Band)
    ensures UnfollowAll(b, Names([])) == b
  {
  }

  /** Walking over the p-th node: a member leaves, and the rest of the walk stays the same. */
  lemma SplitMembers(b: Band, s: seq<Follower>, p: nat)
    requires p < |s| && forall j :: p < j < |s| ==> s[j].follower != s[p].follower
    requires s[p].follower in b.master && b.master[s[p].follower] in b.list
    ensures var x := s[p].follower;
            UnfollowAll(b, Members(Names(s[p..]), b.grouped)) ==
            if x in b.grouped
            then UnfollowAll(Unfollow(b.(grouped := b.grouped - {x}), x),
                             Members(Names(Cut(s, p)[p..]), Unfollow(b.(grouped := b.grouped - {x}), x).grouped))
            else UnfollowAll(b, Members(Names(s[p + 1..]), b.grouped))
  {
    var x := s[p].follower;
    assert Names(s[p..])[1..] == Names(s[p + 1..]);
    assert Cut(s, p)[p..] == s[p + 1..];
    if x in b.grouped {
      var without := b.(grouped := b.grouped - {x});
      assert Unfollow(without, x).grouped == b.grouped - {x};
      assert Unfollow(without, x) == Unfollow(b, x);
      MembersIgnoreAbsent(Names(s[p + 1..]), b.grouped, x);
      var rest := Members(Names(s[p + 1..]), b.grouped);
      assert Members(Names(s[p..]), b.grouped) == [x] + rest;
      assert ([x] + rest)[1..] == rest;
    } else {
      assert Members(Names(s[p..]), b.grouped) == Members(Names(s[p + 1..]), b.grouped);
    }
  }

  lemma {:induction false} MembersIgnoreAbsent(s: seq<Character>, grouped: set<Character>, x: Character)
    requires x !in s
    ensures Members(s, grouped - {x}) == Members(s, grouped)
  {
    if s != [] { MembersIgnoreAbsent(s[1..], grouped, x); }
  }

  lemma NoMembersLeft(b: Band, s: seq<Follower>)
    ensures UnfollowAll(b, Members(Names(s[|s|..]), b.grouped)) == b
  {
  }

  /** All characters in play, with the lists they head. */
  class Realm {
    ghost var cast: set<Character>
    ghost var cells: set<Follower>   // the nodes not yet deleted
    ghost var nodes: Nodes           // each leader's list

    ghost function Masters(): map<Character, Character>
      reads this`cast, cast`master
    {
      map c | c in cast && c.master != null :: c.master
    }

    ghost function FirstCells(): Heads
      reads this`cast, cast`followers
    {
      map c | c in cast :: c.followers
    }

    ghost function NextCells(): Nexts
      reads this`cells, cells`next
    {
      map n | n in cells :: n.next
    }

    ghost function Grouped(): set<Character>
      reads this`cast, cast`grouped
    {
      set c | c in cast && c.grouped
    }

    /** What the pointers say, as a value. */
    ghost function TheBand(): Band
      reads this`cast, this`nodes, cast`master, cast`grouped
    {
      Band(Masters(), Lists(nodes), Grouped())
    }

    ghost predicate Valid()
      reads this, cast`master, cast`followers, cast`grouped, cells`next
    {
      nodes.Keys == cast && AllLinked(FirstCells(), nodes, NextCells()) && Forest(TheBand())
    }

    constructor ()
      ensures Valid() && cast == {} && TheBand() == Band(map[], map[], {})
    {
      cast, cells, nodes := {}, {}, map[];
    }

    /** A new character has neither leader nor followers. */
    method Enter(ch: Character)
      requires Valid() && ch !in cast && ch.master == null && ch.followers == null && !ch.grouped
      modifies this`cast, this`nodes
      ensures Valid() && cast == old(cast) + {ch} && TheBand() == Step(old(TheBand()), Enters(ch))
    {
      hide Forest, AllLinked, Masters, FirstCells, NextCells, Grouped, Lists;
      ghost var b, heads := TheBand(), FirstCells();
      assert ch !in b.list by { ListsHaveHeads(); }
      StepKeepsForest(b, Enters(ch));
      LinkedEmpty(heads, nodes, NextCells(), ch);
      EmptyList(nodes, ch);
      Admit(ch);
      nodes := nodes[ch := []];
    }

    lemma ListsHaveHeads()
      ensures TheBand().list.Keys == nodes.Keys
    {
    }

    method Admit(ch: Character)
      requires ch !in cast && ch.master == null && ch.followers == null && !ch.grouped
      modifies this`cast
      ensures cast == old(cast) + {ch} && Masters() == old(Masters()) && Grouped() == old(Grouped())
      ensures FirstCells() == old(FirstCells())[ch := null]
    {
      cast := cast + {ch};
    }

    /** The list surgery of stopFollowing: the node of ch, the i-th of m, is taken out and deleted. */
    method Unlink(m: Character, ch: Character, ghost list: seq<Follower>, ghost i: nat)
      requires m in cast && Linked(m.followers, list, NextCells()) && Distinct(list)
      requires i < |list| && list[i].follower == ch && forall j :: 0 <= j < i ==> list[j].follower != ch
      modifies this`cells, m`followers, cells`next
      ensures FirstCells() == if i == 0 then old(FirstCells())[m := old(NextCells())[list[i]]] else old(FirstCells())
      ensures NextCells() == (if i == 0 then old(NextCells())
                              else old(NextCells())[list[i - 1] := old(NextCells())[list[i]]]) - {list[i]}
      ensures cells == old(cells) - {list[i]}
    {
      ghost var heads, nexts := FirstCells(), NextCells();
      if m.followers.follower == ch {
        var k := m.followers;
        m.followers := k.next;
        cells := cells - {k};
      } else {
        var k := m.followers;
        ghost var p := 0;
        while k.next.follower != ch
          invariant 0 <= p < i && k == list[p] && k.next == list[p + 1]
          decreases i - p
        {
          k := k.next;
          p := p + 1;
        }
        var j := k.next;
        k.next := j.next;
        cells := cells - {j};
        assert NextCells() == nexts[list[i - 1] := nexts[list[i]]] - {list[i]};
      }
    }

    /** The end of stopFollowing: no master, no group. */
    method Release(ch: Character)
      requires ch in cast
      modifies ch`master, ch`grouped
      ensures Masters() == old(Masters()) - {ch} && Grouped() == old(Grouped()) - {ch}
    {
      ch.master := null;
      ch.grouped := false;
    }

    lemma MasterOf(ch: Character)
      requires ch in cast
      ensures TheBand().master == Masters() && (ch in Masters() <==> ch.master != null)
      ensures ch in Masters() ==> Masters()[ch] == ch.master
    {
    }

    lemma HeadOf(ch: Character)
      requires ch in cast
      ensures ch in FirstCells() && FirstCells()[ch] == ch.followers
    {
    }

    /** `i` is where ch stood in its master's list. */
    method StopFollowing(ch: Character) returns (ghost i: nat)
      requires Valid() && ch in cast
      modifies this`nodes, this`cells, cast`master, cast`followers, cast`grouped, cells`next
      ensures Valid() && TheBand() == Unfollow(old(TheBand()), ch)
      ensures cells <= old(cells)
      ensures old(ch.master) == null ==> nodes == old(nodes)
      ensures old(ch.master) != null ==>
                var m := old(ch.master);
                m in old(nodes) && i < |old(nodes)[m]| && old(nodes)[m][i].follower == ch
                && nodes == old(nodes)[m := Cut(old(nodes)[m], i)]
    {
      hide Forest, AllLinked, Unfollow, Lists, Masters, Grouped, FirstCells, NextCells;
      ghost var b := TheBand();
      MasterOf(ch);
      i := 0;
      if ch.master == null {
        UnfollowNone(b, ch);
        return;
      }
      i := Place(b, nodes, ch);
      ghost var m, list := ch.master, nodes[ch.master];
      CutIsUnfollow(b, nodes, m, i);
      CutKeepsLinks(b, FirstCells(), nodes, NextCells(), m, i);
      UnfollowKeepsForest(b, ch);
      OneList(b, FirstCells(), nodes, NextCells(), m);
      HeadOf(m);
      Unlink(ch.master, ch, list, i);
      Release(ch);
      nodes := nodes[m := Cut(list, i)];
    }

    /** add_follower; the caller has ruled out a circle. */
    method AddFollower(ch: Character, leader: Character)
      requires Valid() && ch in cast && leader in cast && !IsAbove(Masters(), ch, leader)
      modifies this`nodes, this`cells, ch`master, leader`followers
      ensures Valid() && fresh(cells - old(cells))
      ensures TheBand() == FollowSpec.AddFollower(old(TheBand()), ch, leader, ch.purged || leader.purged)
    {
      hide Forest, AllLinked, Lists, Masters, FirstCells, NextCells, Grouped, IsAbove;
      ghost var b := TheBand();
      MasterOf(ch);
      AddFollowerKeepsForest(b, ch, leader, ch.purged || leader.purged) by { InLists(ch); }
      InLists(leader);
      if ch.purged || leader.purged {
        return;
      }
      if ch.master != null {
        return;
      }
      HeadOf(leader);
      ghost var heads, nexts := FirstCells(), NextCells();
      var k := new Follower(ch, leader.followers);
      PushKeepsLinks(heads, nodes, nexts, leader, k) by { NotACell(k); }
      ghost var more := nodes[leader := [k] + nodes[leader]];
      PushedLists(nodes, leader, k);
      Push(ch, leader, k);
      nodes := more;
      assert TheBand() == FollowSpec.AddFollower(b, ch, leader, false);
    }

    lemma InLists(ch: Character)
      requires nodes.Keys == cast && ch in cast
      ensures ch in TheBand().list
    {
    }

    lemma NotACell(k: Follower)
      requires k !in cells
      ensures k !in NextCells()
    {
    }

    /** The writes of add_follower. */
    method Push(ch: Character, leader: Character, k: Follower)
      requires ch in cast && leader in cast && k !in cells && k.next == leader.followers
      modifies this`cells, ch`master, leader`followers
      ensures Masters() == old(Masters())[ch := leader]
      ensures FirstCells() == old(FirstCells())[leader := k]
      ensures NextCells() == old(NextCells())[k := old(leader.followers)]
      ensures cells == old(cells) + {k}
    {
      ch.master := leader;
      leader.followers := k;
      cells := cells + {k};
    }

    lemma MastersAreSound()
      requires Valid()
      ensures NoLoops(Masters()) && Masters().Keys + Masters().Values <= cast
    {
    }

    /** circleFollow: climbs from the target, looking for ch. */
    method CircleFollow(ch: Character, target: Character) returns (found: bool)
      requires Valid() && ch in cast && target in cast
      ensures found <==> IsAbove(Masters(), ch, target)
    {
      hide Valid, Masters, NoLoops, IsAbove;
      ghost var m := Masters();
      MastersAreSound();
      var k: Character? := target;
      while k != null
        invariant k != null ==> k in cast
        invariant IsAbove(m, ch, target) <==> k != null && IsAbove(m, ch, k)
        decreases k != null, if k != null then Height(m, k, {}) else 0
      {
        MasterOf(k);
        if k == ch {
          AboveItself(m, k);
          return true;
        }
        if k.master != null {
          AboveStep(m, ch, k);
          HeightDrops(m, k);
          assert m[k] in m.Values;
        } else {
          AboveRoot(m, ch, k);
        }
        k := k.master;
      }
      return false;
    }

    /** do_follow with its leader found. The arena answers are the script's. */
    method DoFollow(ch: Character, leader: Character, inArena: bool, freeForAll: bool, sameTeam: bool)
      returns (reply: Reply)
      requires Valid() && ch in cast && leader in cast
      modifies this`nodes, this`cells, cast`master, cast`followers, cast`grouped, cells`next
      ensures Valid()
      ensures reply == FollowReply(old(TheBand()), ch, leader, old(Unwilling(ch, leader, inArena)),
                                   inArena && (freeForAll || !sameTeam))
      ensures TheBand() == FollowSpec.DoFollow(old(TheBand()), ch, leader, old(Unwilling(ch, leader, inArena)),
                                               inArena && (freeForAll || !sameTeam), ch.purged || leader.purged)
      // Refused: another race, a mobile as leader without a player behind it, or the arena.
      ensures reply == Refused <==>
              || (!inArena && leader.race != ch.race && ch.level < 100 && leader.level < 100 && !ch.npc)
              || (leader.npc && !old(leader.linked) && leader != ch && !ch.npc)
              || (inArena && (freeForAll || !sameTeam) && old(ch.master) != leader)
    {
      hide Forest, AllLinked, Lists, Masters, FirstCells, NextCells, Grouped, IsAbove, Unfollow;
      ghost var b := TheBand();
      MasterOf(ch);
      if Unwilling(ch, leader, inArena) { return Refused; }
      if ch.master == leader { return AlreadyFollowing; }
      if inArena && freeForAll { return Refused; }
      if inArena && !sameTeam { return Refused; }
      if leader == ch {
        if ch.master == null { return NotFollowing; }
        ghost var _ := StopFollowing(ch);
        return Stopped;
      }
      var loops := CircleFollow(ch, leader);
      if loops { return Loop; }
      if ch.master != null {
        ghost var _ := StopFollowing(ch);
        StillNotAboveAfter(b, ch, leader);
      } else {
        UnfollowNone(b, ch);
      }
      Ungroup(ch);
      AddFollower(ch, leader);
      return Following;
    }

    /** do_follow's refusals that do not depend on who follows whom. */
    predicate Unwilling(ch: Character, leader: Character, inArena: bool)
      reads leader`linked
    {
      || (!inArena && leader.race != ch.race && ch.level < LVL_IMMORT && leader.level < LVL_IMMORT && !ch.npc)
      || (leader.npc && !leader.linked && leader != ch && !ch.npc)
    }

    /** REMOVE_BIT_AR(AFF_FLAGS(ch), AFF_GROUP). */
    method Ungroup(ch: Character)
      requires Valid() && ch in cast
      modifies ch`grouped
      ensures Valid() && TheBand() == old(TheBand()).(grouped := old(TheBand()).grouped - {ch})
    {
      hide AllLinked, Lists, Masters, FirstCells, NextCells, NoLoops, Distinct;
      ch.grouped := false;
      assert Grouped() == old(Grouped()) - {ch};
    }

    /** The flag that perform_group sets. */
    method Enroll(ch: Character)
      requires Valid() && ch in cast
      modifies ch`grouped
      ensures Valid() && TheBand() == Step(old(TheBand()), Enrolls(ch))
    {
      hide Forest, AllLinked, Lists, Masters, FirstCells, NextCells;
      InLists(ch);
      StepKeepsForest(TheBand(), Enrolls(ch));
      ch.grouped := true;
      assert Grouped() == old(Grouped()) + {ch};
    }

    /** do_ungroup with an argument. */
    method Expel(ch: Character, tch: Character)
      requires Valid() && ch in cast && tch in cast
      modifies tch`grouped
      ensures Valid() && TheBand() == FollowSpec.Expel(old(TheBand()), ch, tch)
    {
      MasterOf(tch);
      if tch.master != ch { return; }
      if !tch.grouped {
        assert tch !in Grouped();
        assert Grouped() - {tch} == Grouped();
        return;
      }
      Ungroup(tch);
    }

    /** die_follower. */
    method DieFollower(ch: Character)
      requires Valid() && ch in cast
      modifies this`nodes, this`cells, cast`master, cast`followers, cast`grouped, cells`next
      ensures Valid() && TheBand() == Die(old(TheBand()), ch)
    {
      hide Forest, AllLinked, Lists, Masters, FirstCells, NextCells, Grouped, Unfollow, Linked, Names, UnfollowAll;
      ghost var all := cells;
      if ch.master != null {
        ghost var _ := StopFollowing(ch);
      } else {
        MasterOf(ch);
        UnfollowNone(TheBand(), ch);
      }
      ListOf(ch);
      var k := ch.followers;
      while k != null
        invariant Valid() && cells <= all && cast == old(cast)
        invariant ch in nodes && k == ch.followers
        invariant k == if nodes[ch] == [] then null else nodes[ch][0]
        invariant UnfollowAll(TheBand(), Names(nodes[ch])) == Die(old(TheBand()), ch)
        decreases if ch in nodes then |nodes[ch]| else 0
      {
        NodeOf(ch, 0);
        var j := k.next;
        UnfollowFirst(TheBand(), nodes[ch]);
        ghost var i := StopFollowing(k.follower);
        k := j;
        ListOf(ch);
      }
      NoneLeft(TheBand());
    }

    lemma ListOf(ch: Character)
      requires Valid() && ch in cast
      ensures ch in nodes && ch in TheBand().list && TheBand().list[ch] == Names(nodes[ch])
      ensures ch.followers == if nodes[ch] == [] then null else nodes[ch][0]
    {
    }

    /** The i-th node of ch is alive, points to the next one, and only it names its follower. */
    lemma NodeOf(ch: Character, i: nat)
      requires Valid() && ch in nodes && i < |nodes[ch]|
      ensures var n := nodes[ch][i];
              n in cells && n.follower in cast && n.follower.master == ch
              && n.next == (if i + 1 < |nodes[ch]| then nodes[ch][i + 1] else null)
      ensures forall j :: 0 <= j < |nodes[ch]| && nodes[ch][j].follower == nodes[ch][i].follower ==> j == i
    {
      hide Forest;
      Owner(TheBand(), nodes, ch, i);
      var p := Place(TheBand(), nodes, nodes[ch][i].follower);
      HeadOf(ch);
      assert Linked(ch.followers, nodes[ch], NextCells());
    }

    /** What one turn of do_ungroup finds at the p-th node, and leaves to the rest of the walk. */
    lemma TurnFacts(ch: Character, p: nat)
      requires Valid() && ch in nodes && p < |nodes[ch]|
      ensures var n, b := nodes[ch][p], TheBand();
              && n in cells && n.follower in cast
              && n.next == (if p + 1 < |nodes[ch]| then nodes[ch][p + 1] else null)
              && UnfollowAll(b, Members(Names(nodes[ch][p..]), b.grouped)) ==
                 if n.follower.grouped
                 then var left := Unfollow(b.(grouped := b.grouped - {n.follower}), n.follower);
                      UnfollowAll(left, Members(Names(Cut(nodes[ch], p)[p..]), left.grouped))
                 else UnfollowAll(b, Members(Names(nodes[ch][p + 1..]), b.grouped))
    {
      NodeOf(ch, p);
      MasterOf(nodes[ch][p].follower);
      GroupedOf(nodes[ch][p].follower);
      ListOf(ch);
      hide Forest, Unfollow, UnfollowAll, Members, Names;
      SplitMembers(TheBand(), nodes[ch], p);
    }

    /** The p-th follower of ch leaves the group and the list. */
    method Dismiss(ch: Character, who: Character, ghost p: nat)
      requires Valid() && ch in nodes && p < |nodes[ch]| && nodes[ch][p].follower == who
      modifies this`nodes, this`cells, cast`master, cast`followers, cast`grouped, cells`next
      ensures Valid() && cells <= old(cells)
      ensures nodes == old(nodes)[ch := Cut(old(nodes)[ch], p)]
      ensures TheBand() == Unfollow(old(TheBand()).(grouped := old(TheBand()).grouped - {who}), who)
    {
      hide Valid, TheBand, Unfollow;
      NodeOf(ch, p);
      Ungroup(who);
      ghost var i := StopFollowing(who);
    }

    /** do_ungroup without an argument: unlinks nodes of the list it is walking. */
    method Disband(ch: Character)
      requires Valid() && ch in cast
      modifies this`nodes, this`cells, cast`master, cast`followers, cast`grouped, cells`next
      ensures Valid() && TheBand() == FollowSpec.Disband(old(TheBand()), ch)
    {
      hide Valid, TheBand, Unfollow, Names, UnfollowAll, Members;
      ghost var all := cells;
      ListOf(ch);
      MasterOf(ch);
      GroupedOf(ch);
      if ch.master != null || !ch.grouped {
        return;
      }
      ghost var goal := UnfollowAll(TheBand(), Members(TheBand().list[ch], TheBand().grouped));
      ghost var p := 0;
      var f := ch.followers;
      while f != null
        invariant Valid() && cells <= all && cast == old(cast)
        invariant ch in nodes && p <= |nodes[ch]|
        invariant f == if p == |nodes[ch]| then null else nodes[ch][p]
        invariant UnfollowAll(TheBand(), Members(Names(nodes[ch][p..]), TheBand().grouped)) == goal
        decreases if ch in nodes then |nodes[ch]| - p else 0
      {
        TurnFacts(ch, p);
        var next := f.next;
        if f.follower.grouped {
          Dismiss(ch, f.follower, p);
        } else {
          p := p + 1;
        }
        f := next;
      }
      NoMembersLeft(TheBand(), nodes[ch]);
      Ungroup(ch);
    }

    lemma GroupedOf(ch: Character)
      requires ch in cast
      ensures ch in TheBand().grouped <==> ch.grouped
    {
    }
  }
}
