/** Output relayed to whoever watches, and from there to whoever watches the watcher. */
module SnoopRelay {
  import opened Options
  import opened Seqs
  import opened SnoopSpec

  /** The set with the one who watches d, if there is one. */
  ghost function Watchers<T>(s: Snoops<T>, d: T): set<T> {
    set a | a in s.links && s.links[a] == d && a in s.permitted
  }

  /** sendInstant, with what is written to whom, in order; None when calls nest deeper than `depth`. */
  ghost function SendInstant<T>(s: Snoops<T>, d: T, text: string, depth: nat): Option<seq<(T, string)>>
    decreases depth
  {
    if depth == 0 then None
    else if Watchers(s, d) == {} then Some([(d, text)])
    else
      var a :| a in Watchers(s, d);
      var mark, copy := SendInstant(s, a, "% ", depth - 1), SendInstant(s, a, text, depth - 1);
      if mark.None? || copy.None? then None else Some(mark.value + copy.value + [(d, text)])
  }

  lemma SendsOn<T>(s: Snoops<T>, d: T, a: T, text: string, depth: nat)
    requires Watchers(s, d) == {a}
    ensures SendInstant(s, d, text, depth + 1) ==
            var mark, copy := SendInstant(s, a, "% ", depth), SendInstant(s, a, text, depth);
            if mark.None? || copy.None? then None else Some(mark.value + copy.value + [(d, text)])
  {
  }

  /** Climbing from d to its watcher, to the watcher's watcher and so on ends within n steps. */
  ghost predicate Ends<T>(s: Snoops<T>, d: T, n: nat) {
    Watchers(s, d) == {} || (n > 0 && exists a :: a in Watchers(s, d) && Ends(s, a, n - 1))
  }

  lemma OneWatcher<T>(s: Snoops<T>, d: T, a: T, b: T)
    requires Sound(s.links) && a in Watchers(s, d) && b in Watchers(s, d)
    ensures a == b
  {
  }

  lemma {:induction false} RelaysIffEnds<T>(s: Snoops<T>, d: T, text: string, n: nat)
    requires Sound(s.links)
    ensures SendInstant(s, d, text, n + 1).Some? <==> Ends(s, d, n)
    decreases n
  {
    if Watchers(s, d) != {} {
      var a :| a in Watchers(s, d);
      forall b | b in Watchers(s, d) ensures a == b { OneWatcher(s, d, a, b); }
      assert Watchers(s, d) == {a};
      SendsOn(s, d, a, text, n);
      if n > 0 {
        RelaysIffEnds(s, a, "% ", n - 1);
        RelaysIffEnds(s, a, text, n - 1);
      }
    }
  }

  /** Without a permitted snooper only d is written to; with one, all that the snooper is sent, first
      the mark "% " and then the text, comes before. */
  lemma RelayMeans<T>(s: Snoops<T>, d: T, text: string, depth: nat)
    requires Sound(s.links)
    ensures (forall a <- s.links :: s.links[a] == d ==> a !in s.permitted) ==>
              SendInstant(s, d, text, depth + 1) == Some([(d, text)])
    ensures forall a <- s.links :: s.links[a] == d && a in s.permitted ==>
              var mark, copy := SendInstant(s, a, "% ", depth), SendInstant(s, a, text, depth);
              SendInstant(s, d, text, depth + 1) ==
              if mark.None? || copy.None? then None else Some(mark.value + copy.value + [(d, text)])
  {
    forall a <- s.links | s.links[a] == d && a in s.permitted ensures Watchers(s, d) == {a} {
      assert a in Watchers(s, d);
      forall b | b in Watchers(s, d) ensures a == b { OneWatcher(s, d, a, b); }
    }
  }

  /** The relay ends exactly when climbing through the watchers comes to an end. */
  lemma RelayEndsIffClimbEnds<T>(s: Snoops<T>, d: T, text: string)
    requires Sound(s.links)
    ensures (exists depth: nat :: SendInstant(s, d, text, depth).Some?) <==> exists n: nat :: Ends(s, d, n)
  {
    if depth: nat :| SendInstant(s, d, text, depth).Some? { RelaysIffEnds(s, d, text, depth - 1); }
    if n: nat :| Ends(s, d, n) { RelaysIffEnds(s, d, text, n); }
  }

  // ----- Circles -----

  /** From p[0] on, each is watched by the next. */
  ghost predicate Chain<T>(s: Snoops<T>, p: seq<T>) {
    p != [] && forall i :: 0 <= i < |p| - 1 ==> p[i + 1] in Watchers(s, p[i])
  }

  ghost predicate IsCircle<T>(s: Snoops<T>, p: seq<T>) {
    Chain(s, p) && p[0] in Watchers(s, p[|p| - 1])
  }

  /** d is watched by one who is watched by one ... who is watched by d. */
  ghost predicate InCircle<T(!new)>(s: Snoops<T>, d: T) {
    exists p: seq<T> :: IsCircle(s, p) && p[0] == d
  }

  lemma {:induction false} CircleNeverEnds<T>(s: Snoops<T>, p: seq<T>, i: nat, n: nat)
    requires Sound(s.links) && IsCircle(s, p) && i < |p|
    ensures !Ends(s, p[i], n)
    decreases n
  {
    var j := if i + 1 < |p| then i + 1 else 0;
    assert p[j] in Watchers(s, p[i]);
    if n > 0 {
      CircleNeverEnds(s, p, j, n - 1);
      if b :| b in Watchers(s, p[i]) && Ends(s, b, n - 1) { OneWatcher(s, p[i], p[j], b); }
    }
  }

  lemma ChainIsShort<T>(s: Snoops<T>, p: seq<T>)
    requires Chain(s, p) && Distinct(p)
    ensures |p| - 1 <= |s.links.Keys|
  {
    var q := p[1..];
    assert Distinct(q) by { forall i, j | 0 <= i < j < |q| ensures q[i] != q[j] { assert p[i + 1] != p[j + 1]; } }
    DistinctSize(q);
    forall a | a in ToSet(q) ensures a in s.links.Keys {
      var i :| 0 <= i < |q| && q[i] == a;
      assert p[i + 1] in Watchers(s, p[i]);
    }
    SubsetSize(ToSet(q), s.links.Keys);
  }

  lemma OnlyTheFirstReturns<T>(s: Snoops<T>, p: seq<T>, j: nat)
    requires Sound(s.links) && Chain(s, p) && Distinct(p) && j < |p| && p[j] in Watchers(s, p[|p| - 1])
    ensures j == 0
  {
    assert j > 0 ==> s.links[p[j]] == p[j - 1] by {
      if j > 0 { assert p[j - 1 + 1] in Watchers(s, p[j - 1]); }
    }
  }

  /** A climb without repetition ends, or comes back to where it began. */
  lemma {:induction false} ClimbOn<T>(s: Snoops<T>, p: seq<T>) returns (circle: bool, q: seq<T>, n: nat)
    requires Sound(s.links) && Chain(s, p) && Distinct(p)
    ensures if circle then IsCircle(s, q) && q[0] == p[0] else Ends(s, p[|p| - 1], n)
    decreases |s.links.Keys| + 1 - |p|
  {
    ChainIsShort(s, p);
    var last := p[|p| - 1];
    circle, q, n := false, p, 0;
    if Watchers(s, last) != {} {
      var a :| a in Watchers(s, last);
      if a in p {
        var j :| 0 <= j < |p| && p[j] == a;
        OnlyTheFirstReturns(s, p, j);
        circle := true;
      } else {
        var longer := p + [a];
        assert Chain(s, longer) && Distinct(longer);
        ChainIsShort(s, longer);
        circle, q, n := ClimbOn(s, longer);
        n := n + 1;
      }
    }
  }

  /** Output for d is relayed without end exactly when d is in a circle of watchers. */
  lemma RelayEndsIffNoCircle<T(!new)>(s: Snoops<T>, d: T, text: string)
    requires Sound(s.links)
    ensures (exists depth: nat :: SendInstant(s, d, text, depth).Some?) <==> !InCircle(s, d)
  {
    RelayEndsIffClimbEnds(s, d, text);
    if InCircle(s, d) {
      var p: seq<T> :| IsCircle(s, p) && p[0] == d;
      forall n: nat ensures !Ends(s, d, n) { CircleNeverEnds(s, p, 0, n); }
    } else {
      var circle, q, n := ClimbOn(s, [d]);
      assert !circle && Ends(s, d, n);
    }
  }

  /** Three who need not ask can watch one another in a circle, and what one of them is sent is then
      relayed without end. */
  lemma CircleRelaysForever(text: string, depth: nat)
    ensures var s := Run(NOBODY, [Snoop(1, 2, false)] + ([Snoop(2, 3, false)] + ([Snoop(3, 1, false)] + [])));
            s == Snoops(map[1 := 2, 2 := 3, 3 := 1], {1, 2, 3}) && SendInstant(s, 1, text, depth).None?
  {
    RunThree();
    CircleOfThreeRelays(Snoops(map[1 := 2, 2 := 3, 3 := 1], {1, 2, 3}), text, depth);
  }

  lemma CircleOfThreeRelays(s: Snoops<nat>, text: string, depth: nat)
    requires s == Snoops(map[1 := 2, 2 := 3, 3 := 1], {1, 2, 3})
    ensures SendInstant(s, 1, text, depth).None?
  {
    assert 3 in Watchers(s, 1) && 2 in Watchers(s, 3) && 1 in Watchers(s, 2);
    assert IsCircle(s, [1, 3, 2]) && [1, 3, 2][0] == 1;
    assert InCircle(s, 1);
    RelayEndsIffNoCircle(s, 1, text);
  }

  lemma RunThree()
    ensures Run(NOBODY, [Snoop(1, 2, false)] + ([Snoop(2, 3, false)] + ([Snoop(3, 1, false)] + []))) ==
            Snoops(map[1 := 2, 2 := 3, 3 := 1], {1, 2, 3})
  {
    var s1: Snoops<nat>, s2: Snoops<nat> := Snoops(map[1 := 2], {1}), Snoops(map[1 := 2, 2 := 3], {1, 2});
    var s3: Snoops<nat> := Snoops(map[1 := 2, 2 := 3, 3 := 1], {1, 2, 3});
    assert Snoopers(NOBODY.links, 2) == {} && Snoopers(s1.links, 3) == {} && Snoopers(s2.links, 1) == {};
    assert Step(NOBODY, Snoop(1, 2, false)) == s1;
    assert Step(s1, Snoop(2, 3, false)) == s2;
    assert Step(s2, Snoop(3, 1, false)) == s3;
    RunFirst(s2, Snoop(3, 1, false), []);
    RunFirst(s1, Snoop(2, 3, false), [Snoop(3, 1, false)] + []);
    RunFirst(NOBODY, Snoop(1, 2, false), [Snoop(2, 3, false)] + ([Snoop(3, 1, false)] + []));
  }

  lemma RunFirst(s: Snoops<nat>, c: Command<nat>, cs: seq<Command<nat>>)
    ensures Run(s, [c] + cs) == Run(Step(s, c), cs)
  {
    assert ([c] + cs)[1..] == cs;
  }
}
