/** Who lies bashed, and for how many pulses more. */
module BashSpec {
  type Who = nat

  const PULSE_VIOLENCE: int := 28

  /** The pulses left to every bashed character. */
  type Bashes = map<Who, int>

  datatype Command = Bash(who: Who, pulses: int) | Flee(who: Who) | Leave(who: Who) | Pulse

  function Max(a: int, b: int): int {
    if a < b then b else a
  }

  function SetBash(m: Bashes, who: Who, pulses: int): Bashes {
    m[who := if who in m then Max(0, m[who] + pulses) else pulses]
  }

  /** One run through the events: whoever has no pulse left stands up. */
  function Tick(m: Bashes): Bashes {
    map who | who in m && m[who] - 1 > 0 :: m[who] - 1
  }

  function Step(m: Bashes, c: Command): Bashes {
    match c
    case Bash(who, pulses) => SetBash(m, who, pulses)
    case Flee(who) => if who in m then SetBash(m, who, -PULSE_VIOLENCE) else m
    case Leave(who) => m - {who}
    case Pulse => Tick(m)
  }

  function Run(m: Bashes, cs: seq<Command>): Bashes
    decreases |cs|
  {
    if cs == [] then m else Run(Step(m, cs[0]), cs[1..])
  }

  // ----- What each command does to each character -----

  /** w stands in both, or lies in both with the same pulses left. */
  ghost predicate Alike(m: Bashes, n: Bashes, w: Who) {
    (w in m <==> w in n) && (w in m ==> m[w] == n[w])
  }

  /** A bash gives one who stands all its pulses, and one who lies no less than none. */
  lemma BashMeans(m: Bashes, who: Who, pulses: int)
    ensures var n := Step(m, Bash(who, pulses));
            && who in n
            && n[who] == (if who !in m then pulses else if m[who] + pulses > 0 then m[who] + pulses else 0)
            && forall w :: w != who ==> Alike(m, n, w)
  {
  }

  /** One who lies and whose opponent flees is spared 28 pulses; one who stands stays standing. */
  lemma FleeMeans(m: Bashes, who: Who)
    ensures var n := Step(m, Flee(who));
            && (who !in m ==> who !in n)
            && (who in m ==> who in n && n[who] == if m[who] > 28 then m[who] - 28 else 0)
            && forall w :: w != who ==> Alike(m, n, w)
  {
  }

  lemma LeaveMeans(m: Bashes, who: Who)
    ensures var n := Step(m, Leave(who)); who !in n && forall w :: w != who ==> Alike(m, n, w)
  {
  }

  /** A pulse takes one off every bash, and ends those with no more than one left. */
  lemma PulseMeans(m: Bashes, w: Who)
    ensures var n := Step(m, Pulse); (w in n <==> w in m && m[w] >= 2) && (w in n ==> n[w] == m[w] - 1)
  {
  }

  // ----- The clock of one character -----

  /** The command, unless it is about somebody else. */
  predicate Concerns(c: Command, who: Who) {
    c.Pulse? || c.who == who
  }

  function Own(cs: seq<Command>, who: Who): seq<Command> {
    if cs == [] then [] else (if Concerns(cs[0], who) then [cs[0]] else []) + Own(cs[1..], who)
  }

  /** A character lies and stands up by the bashes on that character and the clock alone. */
  lemma {:induction false} OthersDoNotMatter(m: Bashes, n: Bashes, cs: seq<Command>, who: Who)
    requires Alike(m, n, who)
    ensures Alike(Run(m, cs), Run(n, Own(cs, who)), who)
    decreases |cs|
  {
    if cs != [] {
      if Concerns(cs[0], who) {
        assert Own(cs, who)[1..] == Own(cs[1..], who);
        OthersDoNotMatter(Step(m, cs[0]), Step(n, cs[0]), cs[1..], who);
      } else {
        assert Own(cs, who) == Own(cs[1..], who);
        OthersDoNotMatter(Step(m, cs[0]), n, cs[1..], who);
      }
    }
  }

  // ----- When a bashed character stands up -----

  /** The command lengthens or shortens the bash of `who`; the sum is then floored at zero. */
  predicate Adjusts(c: Command, who: Who) {
    (c.Bash? || c.Flee?) && c.who == who
  }

  function Gain(c: Command, who: Who): int {
    if c.Pulse? then -1
    else if !Adjusts(c, who) then 0
    else if c.Bash? then c.pulses else -PULSE_VIOLENCE
  }

  /** The pulses added for `who`, less the pulses taken off and the pulses that passed. */
  function Balance(cs: seq<Command>, who: Who): int {
    if cs == [] then 0 else Gain(cs[0], who) + Balance(cs[1..], who)
  }

  /** `who` lies all through the run. */
  predicate Lies(m: Bashes, cs: seq<Command>, who: Who)
    decreases |cs|
  {
    who in m && (cs != [] ==> Lies(Step(m, cs[0]), cs[1..], who))
  }

  /** The count may begin at the start of the run, or behind any command where the floor may have
      forgotten what was before. */
  predicate Begins(cs: seq<Command>, j: nat, who: Who)
    requires j <= |cs|
  {
    j == 0 || Adjusts(cs[j - 1], who)
  }

  /** The balance from there up to step k, with t pulses to go at the start of the run. */
  function Since(t: int, cs: seq<Command>, j: nat, k: nat, who: Who): int
    requires j <= k <= |cs|
  {
    (if j == 0 then t else 0) + Balance(cs[j..k], who)
  }

  /** Counted from somewhere, at least v pulses are left at step k. */
  ghost predicate AtLeast(t: int, cs: seq<Command>, k: nat, v: int, who: Who)
    requires k <= |cs|
  {
    exists j :: 0 <= j <= k && Begins(cs, j, who) && Since(t, cs, j, k, who) >= v
  }

  /** After every pulse something is left, counted from somewhere. */
  ghost predicate KeepsLeft(t: int, cs: seq<Command>, who: Who) {
    forall k :: 0 < k <= |cs| && cs[k - 1].Pulse? ==> AtLeast(t, cs, k, 1, who)
  }

  /** v is the largest of the counts at the end of the run. */
  ghost predicate IsMost(v: int, t: int, cs: seq<Command>, who: Who) {
    AtLeast(t, cs, |cs|, v, who) && !AtLeast(t, cs, |cs|, v + 1, who)
  }

  /** What the first command leaves of t, before it is known whether anybody stands up. */
  function After(t: int, c: Command, who: Who): int {
    if Adjusts(c, who) then Max(0, t + Gain(c, who)) else t + Gain(c, who)
  }

  lemma SinceStart(t: int, u: int, cs: seq<Command>, k: nat, who: Who)
    requires 0 < k <= |cs|
    ensures Since(t, cs, 0, k, who) == t - u + Gain(cs[0], who) + Since(u, cs[1..], 0, k - 1, who)
    ensures Since(t, cs, 1, k, who) == Since(u, cs[1..], 0, k - 1, who) - u
  {
    assert cs[0..k][1..] == cs[1..k] == cs[1..][0..k - 1];
  }

  lemma SinceLater(t: int, u: int, cs: seq<Command>, j: nat, k: nat, who: Who)
    requires 0 < j < k <= |cs|
    ensures Since(t, cs, j + 1, k, who) == Since(u, cs[1..], j, k - 1, who)
  {
    var a, b := cs[j + 1..k], cs[1..][j..k - 1];
    assert forall i :: 0 <= i < |a| ==> a[i] == cs[j + 1 + i];
    assert forall i :: 0 <= i < |b| ==> b[i] == cs[1..][j + i] == cs[j + i + 1];
    assert a == b;
  }

  /** Counting from step 1 on gives the same, once the first command has been applied to t. */
  lemma AtLeastLater(t: int, cs: seq<Command>, k: nat, v: int, who: Who)
    requires 0 < k <= |cs|
    ensures AtLeast(t, cs, k, v, who) <==> AtLeast(After(t, cs[0], who), cs[1..], k - 1, v, who)
  {
    hide Since;
    var u, rest := After(t, cs[0], who), cs[1..];
    SinceStart(t, u, cs, k, who);
    if j :| 0 <= j <= k && Begins(cs, j, who) && Since(t, cs, j, k, who) >= v {
      var i := if j <= 1 then 0 else j - 1;
      if j > 1 { SinceLater(t, u, cs, i, k, who); }
      assert Begins(rest, i, who) && Since(u, rest, i, k - 1, who) >= v;
    }
    if i :| 0 <= i <= k - 1 && Begins(rest, i, who) && Since(u, rest, i, k - 1, who) >= v {
      var j := if i > 0 then i + 1 else if Adjusts(cs[0], who) && t + Gain(cs[0], who) < 0 then 1 else 0;
      if i > 0 { SinceLater(t, u, cs, i, k, who); }
      assert Begins(cs, j, who) && Since(t, cs, j, k, who) >= v;
    }
  }

  lemma KeepsLeftLater(t: int, cs: seq<Command>, who: Who)
    requires cs != []
    ensures KeepsLeft(t, cs, who) <==>
            (cs[0].Pulse? ==> t > 1) && KeepsLeft(After(t, cs[0], who), cs[1..], who)
  {
    hide AtLeast;
    var u, rest := After(t, cs[0], who), cs[1..];
    forall k | 0 < k <= |cs| ensures AtLeast(t, cs, k, 1, who) <==> AtLeast(u, rest, k - 1, 1, who) {
      AtLeastLater(t, cs, k, 1, who);
    }
    AtLeastNow(u, rest, 1, who);
    if KeepsLeft(t, cs, who) {
      forall k | 0 < k <= |rest| && rest[k - 1].Pulse? ensures AtLeast(u, rest, k, 1, who) {
        assert cs[k].Pulse? && AtLeast(t, cs, k + 1, 1, who);
      }
      if cs[0].Pulse? { assert AtLeast(t, cs, 1, 1, who); }
    } else {
      var k :| 0 < k <= |cs| && cs[k - 1].Pulse? && !AtLeast(t, cs, k, 1, who);
      assert k > 1 ==> rest[k - 2].Pulse?;
    }
  }

  lemma AtLeastNow(t: int, cs: seq<Command>, v: int, who: Who)
    ensures AtLeast(t, cs, 0, v, who) <==> t >= v
  {
    assert Since(t, cs, 0, 0, who) == t;
    assert Begins(cs, 0, who);
  }

  /** Over every run of bashes, escapes and pulses: a bashed character who does not leave lies exactly as
      long as, after every pulse, the pulses given exceed the pulses taken off and passed, counted from
      the start or from behind some bash or escape; the largest of these counts is what is left. */
  lemma {:induction false} BashesAddUp(m: Bashes, cs: seq<Command>, who: Who)
    requires who in m
    ensures Lies(m, cs, who) <==> Leave(who) !in cs && KeepsLeft(m[who], cs, who)
    ensures Lies(m, cs, who) ==> who in Run(m, cs) && IsMost(Run(m, cs)[who], m[who], cs, who)
    decreases |cs|
  {
    if cs == [] {
      AtLeastNow(m[who], cs, m[who], who);
      AtLeastNow(m[who], cs, m[who] + 1, who);
    } else {
      hide KeepsLeft, AtLeast;
      var n, t := Step(m, cs[0]), m[who];
      assert cs == [cs[0]] + cs[1..];
      KeepsLeftLater(t, cs, who);
      if who in n {
        assert n[who] == After(t, cs[0], who);
        BashesAddUp(n, cs[1..], who);
        forall v ensures AtLeast(t, cs, |cs|, v, who) <==> AtLeast(n[who], cs[1..], |cs| - 1, v, who) {
          AtLeastLater(t, cs, |cs|, v, who);
        }
      }
    }
  }

  // ----- Bashes that are not shortened -----

  /** Commands that only lengthen the bash of `who`. */
  predicate Lengthens(c: Command, who: Who) {
    Concerns(c, who) ==> c.Pulse? || (c.Bash? && c.pulses >= 0)
  }

  /** After every pulse something is left of t and the pulses given so far. */
  ghost predicate NeverRunsOut(t: int, cs: seq<Command>, who: Who) {
    forall k :: 0 < k <= |cs| && cs[k - 1].Pulse? ==> t + Balance(cs[..k], who) > 0
  }

  /** Where nothing shortens a bash the plain sum decides: with t pulses to go, the character lies exactly
      as long as t and the pulses added exceed the pulses passed, and has the difference left. */
  lemma {:induction false} LongerBashesAddUp(m: Bashes, cs: seq<Command>, who: Who)
    requires who in m && m[who] >= 0
    requires forall i :: 0 <= i < |cs| ==> Lengthens(cs[i], who)
    ensures Lies(m, cs, who) <==> NeverRunsOut(m[who], cs, who)
    ensures Lies(m, cs, who) ==> who in Run(m, cs) && Run(m, cs)[who] == m[who] + Balance(cs, who)
    decreases |cs|
  {
    if cs != [] {
      var n, t := Step(m, cs[0]), m[who];
      var gain := Gain(cs[0], who);
      assert Lengthens(cs[0], who);
      assert who in n <==> (cs[0].Pulse? ==> t + gain > 0);
      assert cs[..1][1..] == [];
      assert Balance(cs[..1], who) == gain;
      if who in n {
        LongerBashesAddUp(n, cs[1..], who);
        RunsOutLater(t, cs, who);
      } else {
        assert !NeverRunsOut(t, cs, who);
      }
    }
  }

  lemma RunsOutLater(t: int, cs: seq<Command>, who: Who)
    requires cs != [] && (cs[0].Pulse? ==> t + Gain(cs[0], who) > 0)
    ensures NeverRunsOut(t, cs, who) <==> NeverRunsOut(t + Gain(cs[0], who), cs[1..], who)
  {
    forall k | 0 < k <= |cs|
      ensures Balance(cs[..k], who) == Gain(cs[0], who) + Balance(cs[1..][..k - 1], who)
    {
      assert cs[..k][1..] == cs[1..][..k - 1];
    }
    if NeverRunsOut(t, cs, who) {
      forall k | 0 < k <= |cs[1..]| && cs[1..][k - 1].Pulse?
        ensures t + Gain(cs[0], who) + Balance(cs[1..][..k], who) > 0
      {
        assert cs[k].Pulse? && t + Balance(cs[..k + 1], who) > 0;
      }
    } else {
      var k :| 0 < k <= |cs| && cs[k - 1].Pulse? && !(t + Balance(cs[..k], who) > 0);
      assert Balance(cs[..k], who) == Gain(cs[0], who) + Balance(cs[1..][..k - 1], who);
      assert k > 1 ==> cs[1..][k - 2].Pulse?;
    }
  }

  /** The pulses left at the start are forgotten or kept whole: what is left in the end is the larger of the
      plain balance and of what a character with no pulse to go at the start would have left. */
  lemma FloorForgets(m: Bashes, cs: seq<Command>, who: Who)
    requires who in m && m[who] >= 0 && Lies(m, cs, who) && Lies(m[who := 0], cs, who)
    ensures who in Run(m, cs) && who in Run(m[who := 0], cs)
    ensures Run(m, cs)[who] == Max(m[who] + Balance(cs, who), Run(m[who := 0], cs)[who])
  {
    var t, a, b := m[who], Run(m, cs), Run(m[who := 0], cs);
    BashesAddUp(m, cs, who);
    BashesAddUp(m[who := 0], cs, who);
    assert cs[0..|cs|] == cs;
    forall v ensures AtLeast(t, cs, |cs|, v, who) <==> t + Balance(cs, who) >= v || AtLeast(0, cs, |cs|, v, who) {
      OnlyTheStartDiffers(t, cs, v, who);
    }
  }

  lemma OnlyTheStartDiffers(t: int, cs: seq<Command>, v: int, who: Who)
    requires t >= 0
    ensures AtLeast(t, cs, |cs|, v, who) <==> t + Balance(cs, who) >= v || AtLeast(0, cs, |cs|, v, who)
  {
    assert cs[0..|cs|] == cs;
    assert Since(t, cs, 0, |cs|, who) == t + Balance(cs, who) && Begins(cs, 0, who);
    if j :| 0 <= j <= |cs| && Begins(cs, j, who) && Since(0, cs, j, |cs|, who) >= v {
      assert Since(t, cs, j, |cs|, who) >= v;
    }
    if j :| 0 <= j <= |cs| && Begins(cs, j, who) && Since(t, cs, j, |cs|, who) >= v && j > 0 {
      assert Since(0, cs, j, |cs|, who) >= v;
    }
  }

  /** A bash that an escape shortened to nothing starts afresh: the plain sum is long below zero here. */
  lemma ShortenedBash()
    ensures var cs := [Flee(1), Bash(1, 20), Pulse, Pulse, Pulse];
            Lies(map[1 := 10], cs, 1) && 10 + Balance(cs, 1) < 0
  {
    var cs := [Flee(1), Bash(1, 20), Pulse, Pulse, Pulse];
    assert cs[1..] == [Bash(1, 20), Pulse, Pulse, Pulse] && cs[1..][1..] == [Pulse, Pulse, Pulse];
    assert [Pulse, Pulse, Pulse][1..] == [Pulse, Pulse] && [Pulse, Pulse][1..] == [Pulse] && [Pulse][1..] == [];
    assert Step(map[1 := 10], Flee(1)) == map[1 := 0];
    assert Step(map[1 := 0], Bash(1, 20)) == map[1 := 20];
    assert Lies(map[1 := 20], [Pulse, Pulse, Pulse], 1) by {
      assert Tick(map[1 := 20]) == map[1 := 19] && Tick(map[1 := 19]) == map[1 := 18];
      assert Tick(map[1 := 18]) == map[1 := 17];
      assert Lies(map[1 := 18], [Pulse], 1);
    }
    assert Balance([Pulse, Pulse, Pulse], 1) == -3;
  }
}
