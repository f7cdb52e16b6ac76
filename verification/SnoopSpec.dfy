/** Who snoops on whom, and with whose leave. */
module SnoopSpec {

  /** links[a] is the one a snoops on; permitted holds those whose permission flag is set. */
  datatype Snoops<T> = Snoops(links: map<T, T>, permitted: set<T>)

  /** `asks` says that a snooper of this level needs the leave of a victim of that level. */
  datatype Command<T> =
    | Snoop(who: T, victim: T, asks: bool)
    | Stop(who: T)
    | Deny(who: T)
    | Grant(who: T)
    | Leave(who: T)

  /** Everybody is snooped on by at most one other, and never by somebody snooped on in return. */
  ghost predicate Sound<T>(links: map<T, T>) {
    && (forall a <- links, b <- links :: links[a] == links[b] ==> a == b)
    && (forall a <- links :: links[a] != a)
    && (forall a <- links :: links[a] in links ==> links[links[a]] != a)
  }

  ghost predicate SnoopedBy<T>(links: map<T, T>, victim: T, a: T) {
    a in links && links[a] == victim
  }

  /** The set with the one who snoops on the victim, if there is one. */
  ghost function Snoopers<T>(links: map<T, T>, victim: T): set<T> {
    set a | a in links && links[a] == victim
  }

  ghost function StopSnooping<T>(s: Snoops<T>, who: T): Snoops<T> {
    if who in s.links then Snoops(s.links - {who}, s.permitted - {who}) else s
  }

  ghost function Step<T>(s: Snoops<T>, c: Command<T>): Snoops<T> {
    match c
    case Stop(who) => StopSnooping(s, who)
    case Snoop(who, victim, asks) =>
      if victim == who then StopSnooping(s, who)
      else if Snoopers(s.links, victim) != {} || SnoopedBy(s.links, who, victim) then s
      else Snoops(s.links[who := victim], if asks then s.permitted - {who} else s.permitted + {who})
    case Deny(who) => Snoops(s.links - (Snoopers(s.links, who) - s.permitted), s.permitted)
    case Grant(who) => Snoops(s.links, s.permitted + Snoopers(s.links, who))
    case Leave(who) => Snoops(s.links - {who} - Snoopers(s.links, who), s.permitted)
  }

  lemma StepKeepsSound<T>(s: Snoops<T>, c: Command<T>)
    requires Sound(s.links)
    ensures Sound(Step(s, c).links)
  {
    if c.Snoop? && c.who != c.victim {
      assert forall a <- s.links :: s.links[a] == c.victim ==> a in Snoopers(s.links, c.victim);
    }
  }

  // ----- What each command does to each link and flag -----

  /** "snoop" at oneself, or "snoop" without a victim, ends the snooping and takes the flag; a
      victim who is snooped on already, or who snoops on the asker, is refused; otherwise the new
      link takes the place of an old one, with permission unless it must be asked for. */
  lemma SnoopMeans<T>(s: Snoops<T>, who: T, victim: T, asks: bool)
    ensures var n := Step(s, Stop(who));
            && n.links == s.links - {who}
            && n.permitted == if who in s.links then s.permitted - {who} else s.permitted
    ensures Step(s, Snoop(who, who, asks)) == Step(s, Stop(who))
    ensures var n := Step(s, Snoop(who, victim, asks));
            var refused := (victim in s.links && s.links[victim] == who) || exists a :: a in s.links && s.links[a] == victim;
            && (victim != who && refused ==> n == s)
            && (victim != who && !refused ==>
                  && n.links == s.links[who := victim]
                  && n.permitted == if asks then s.permitted - {who} else s.permitted + {who})
  {
    assert forall a <- s.links :: s.links[a] == victim ==> a in Snoopers(s.links, victim);
  }

  /** Denying ends the snooping of one without permission, granting gives permission, and leaving
      ends the snooping on both sides. */
  lemma AnswersMean<T>(s: Snoops<T>, who: T, a: T)
    ensures var n := Step(s, Deny(who));
            && n.permitted == s.permitted
            && (a in n.links <==> a in s.links && (s.links[a] != who || a in s.permitted))
            && (a in n.links ==> n.links[a] == s.links[a])
    ensures var n := Step(s, Grant(who));
            n.links == s.links && (a in n.permitted <==> a in s.permitted || (a in s.links && s.links[a] == who))
    ensures var n := Step(s, Leave(who));
            && n.permitted == s.permitted
            && (a in n.links <==> a in s.links && a != who && s.links[a] != who)
            && (a in n.links ==> n.links[a] == s.links[a])
  {
  }

  ghost function Run<T>(s: Snoops<T>, cs: seq<Command<T>>): Snoops<T>
    decreases |cs|
  {
    if cs == [] then s else Run(Step(s, cs[0]), cs[1..])
  }

  /** Every run keeps the links sound. */
  lemma {:induction false} RunKeepsSound<T>(s: Snoops<T>, cs: seq<Command<T>>)
    requires Sound(s.links)
    ensures Sound(Run(s, cs).links)
    decreases |cs|
  {
    if cs != [] {
      StepKeepsSound(s, cs[0]);
      RunKeepsSound(Step(s, cs[0]), cs[1..]);
    }
  }

  lemma {:induction false} RunTwice<T>(s: Snoops<T>, cs: seq<Command<T>>, ds: seq<Command<T>>)
    ensures Run(s, cs + ds) == Run(Run(s, cs), ds)
    decreases |cs|
  {
    if cs == [] {
      assert cs + ds == ds;
    } else {
      assert (cs + ds)[1..] == cs[1..] + ds;
      RunTwice(Step(s, cs[0]), cs[1..], ds);
    }
  }

  ghost const NOBODY: Snoops<nat> := Snoops(map[], {})

  lemma LastLink(links: map<nat, nat>, a: nat, permitted: set<nat>)
    requires Sound(links) && a in links
    ensures Sound(links - {a}) && (links - {a}).Keys == links.Keys - {a}
    ensures Step(Snoops(links - {a}, permitted), Snoop(a, links[a], true)).links == links
  {
    var s := Snoops(links - {a}, permitted);
    assert Snoopers(s.links, links[a]) == {};
    assert s.links[a := links[a]] == links;
  }

  /** Nothing more is excluded: every sound set of links is reached by some run. */
  lemma {:induction false} EverySoundIsReached(links: map<nat, nat>) returns (cs: seq<Command<nat>>)
    requires Sound(links)
    ensures Run(NOBODY, cs).links == links
    decreases |links.Keys|
  {
    hide Sound, Step;
    if links == map[] {
      cs := [];
    } else {
      var a :| a in links;
      var last := Snoop(a, links[a], true);
      LastLink(links, a, {});
      var before := EverySoundIsReached(links - {a});
      LastLink(links, a, Run(NOBODY, before).permitted);
      cs := before + [last];
      RunTwice(NOBODY, before, [last]);
      assert [last][1..] == [];
    }
  }

  /** The links that runs can reach are exactly the sound ones. */
  lemma ReachedIffSound(links: map<nat, nat>)
    ensures (exists cs :: Run(NOBODY, cs).links == links) <==> Sound(links)
  {
    if cs :| Run(NOBODY, cs).links == links {
      RunKeepsSound(NOBODY, cs);
    }
    if Sound(links) {
      var cs := EverySoundIsReached(links);
    }
  }

  /** Three can snoop on one another in a circle. */
  lemma CircleOfThree() returns (cs: seq<Command<nat>>)
    ensures Run(NOBODY, cs).links == map[1 := 2, 2 := 3, 3 := 1]
  {
    cs := EverySoundIsReached(map[1 := 2, 2 := 3, 3 := 1]);
  }

  // ----- Permission -----

  /** The snooper sees what the victim sees. */
  ghost predicate Watches<T>(s: Snoops<T>, a: T, victim: T) {
    SnoopedBy(s.links, victim, a) && a in s.permitted
  }

  /** The command lets a watch the victim: the victim grants it, or a is powerful and starts to snoop. */
  ghost predicate GivesLeave<T>(s: Snoops<T>, c: Command<T>, a: T, victim: T) {
    c == Grant(victim) || (c == Snoop(a, victim, false) && !SnoopedBy(s.links, victim, a))
  }

  /** At step i leave was given, and a has snooped on the victim ever since. */
  ghost predicate HasLeave<T>(s: Snoops<T>, cs: seq<Command<T>>, i: nat, a: T, victim: T)
    requires i < |cs|
  {
    && GivesLeave(Run(s, cs[..i]), cs[i], a, victim)
    && forall j :: i < j <= |cs| ==> SnoopedBy(Run(s, cs[..j]).links, victim, a)
  }

  lemma RunLast<T>(s: Snoops<T>, cs: seq<Command<T>>)
    requires cs != []
    ensures Run(s, cs) == Step(Run(s, cs[..|cs| - 1]), cs[|cs| - 1])
  {
    var n := |cs| - 1;
    assert cs == cs[..n] + [cs[n]];
    assert [cs[n]][1..] == [];
    RunTwice(s, cs[..n], [cs[n]]);
  }

  lemma WatchesNext<T>(s: Snoops<T>, c: Command<T>, a: T, victim: T)
    requires SnoopedBy(Step(s, c).links, victim, a)
    ensures Watches(Step(s, c), a, victim) <==> Watches(s, a, victim) || GivesLeave(s, c, a, victim)
  {
  }

  /** A permission flag outlives the link it was given for, and yet over every run nobody watches
      without leave: a watches the victim exactly when the victim granted it, or a could start
      without asking, and a has snooped on that victim from then on. */
  lemma {:induction false} WatchedByLeave<T>(s: Snoops<T>, cs: seq<Command<T>>, a: T, victim: T)
    requires s.links == map[]
    requires SnoopedBy(Run(s, cs).links, victim, a)
    ensures Watches(Run(s, cs), a, victim) <==> exists i :: 0 <= i < |cs| && HasLeave(s, cs, i, a, victim)
    decreases |cs|
  {
    var n := |cs| - 1;
    assert cs != [];
    var front, before := cs[..n], Run(s, cs[..n]);
    RunLast(s, cs);
    WatchesNext(before, cs[n], a, victim);
    assert cs[..|cs|] == cs;
    assert forall j :: 0 <= j <= n ==> front[..j] == cs[..j];
    assert front[..n] == front;
    if SnoopedBy(before.links, victim, a) {
      WatchedByLeave(s, front, a, victim);
      if i :| 0 <= i < n && HasLeave(s, front, i, a, victim) {
        assert HasLeave(s, cs, i, a, victim);
      }
    }
    if GivesLeave(before, cs[n], a, victim) {
      assert HasLeave(s, cs, n, a, victim);
    }
    if i :| 0 <= i < |cs| && HasLeave(s, cs, i, a, victim) {
      if i < n {
        assert SnoopedBy(Run(s, cs[..n]).links, victim, a);
        assert HasLeave(s, front, i, a, victim);
      }
    }
  }
}
