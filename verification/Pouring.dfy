/** do_pour: pouring from drink containers into others and into lanterns, and filling them from
    fountains and corpses. */
module Pouring {

  datatype Kind = DrinkCon | Fountain | Container | Light | Other

  const LIQ_BLOOD := 13
  const OIL := 16

  /** An object's kind, the value slots do_pour uses, and the blood of a corpse. Drink containers
      and fountains hold v1 of at most v0 of liquid v2, poisoned if v3; lights hold v2 of at most
      v3 of oil, without limit if v3 is 0, and can be refilled if v4 is not 0. */
  datatype Vessel = Vessel(kind: Kind, v0: int, v1: int, v2: int, v3: int, v4: int, blood: int)

  predicate IsCorpse(v: Vessel) {
    v.kind == Container && v.v3 == 1
  }

  /** What an int becomes when stored in a sh_int. */
  function Short(n: int): int {
    (n + 32768) % 65536 - 32768
  }

  datatype Reply = CannotPour | CannotRefill | NotOil | Empty | Full | Same | Mixed | NotThere | Done

  // ----- One command -----

  /** Filling a light from a drink container. */
  function PourOil(f: Vessel, t: Vessel): (Reply, Vessel, Vessel) {
    var amount, current, max := f.v1, t.v2, t.v3;
    if f.v2 != OIL then (NotOil, f, t)
    else if t.v4 == 0 then (CannotRefill, f, t)
    else if amount == 0 then (Empty, f, t)
    else if max == 0 || amount <= max - current then (Done, f.(v1 := 0), t.(v2 := Short(current + amount)))
    else if current == max then (Full, f, t)
    else (Done, f.(v1 := Short(amount - (max - current))), t.(v2 := max))
  }

  function Source(v: Vessel): int {
    if IsCorpse(v) then v.blood else v.v1
  }

  function WithSource(v: Vessel, amount: int): Vessel {
    if IsCorpse(v) then v.(blood := amount) else v.(v1 := amount)
  }

  function LiquidOf(v: Vessel): int {
    if IsCorpse(v) then LIQ_BLOOD else v.v2
  }

  /** The common end of pouring and filling. */
  function Transfer(f: Vessel, t: Vessel): (Reply, Vessel, Vessel) {
    if t.v1 != 0 && t.v2 != LiquidOf(f) then (Mixed, f, t)
    else if t.v1 >= t.v0 then (Full, f, t)
    else
      var left := Short(Source(f) - (t.v0 - t.v1));
      var dry := left < 0;
      var f1 := if !dry then WithSource(f, left)
                else if IsCorpse(f) then WithSource(f, 0) else f.(v1 := 0, v2 := 0, v3 := 0);
      var t1 := t.(v2 := LiquidOf(f), v1 := if dry then Short(t.v0 + left) else t.v0);
      (Done, f1, t1.(v3 := if t.v3 != 0 || (f1.v3 != 0 && !IsCorpse(f)) then 1 else 0))
  }

  /** "pour f t", both found and different objects. */
  function Pour(f: Vessel, t: Vessel): (Reply, Vessel, Vessel) {
    if f.kind != DrinkCon then (CannotPour, f, t)
    else if t.kind == Light then PourOil(f, t)
    else if f.v1 == 0 then (Empty, f, t)
    else if t.kind != DrinkCon && t.kind != Fountain then (CannotPour, f, t)
    else Transfer(f, t)
  }

  /** "fill t f", both found and different objects. */
  function Fill(f: Vessel, t: Vessel): (Reply, Vessel, Vessel) {
    if t.kind != DrinkCon then (CannotRefill, f, t)
    else if f.kind != Fountain && !IsCorpse(f) then (CannotPour, f, t)
    else if Source(f) == 0 then (Empty, f, t)
    else Transfer(f, t)
  }

  // ----- What is in a vessel -----

  function Quantity(v: Vessel, liquid: int): int {
    if v.kind == DrinkCon || v.kind == Fountain then (if v.v2 == liquid then v.v1 else 0)
    else if v.kind == Light then (if liquid == OIL then v.v2 else 0)
    else if IsCorpse(v) then (if liquid == LIQ_BLOOD then v.blood else 0)
    else 0
  }

  const SHRT_MAX := 32767

  /** Nothing is negative and nothing holds more than it can. */
  predicate Sound(v: Vessel) {
    && -SHRT_MAX <= v.v0 <= SHRT_MAX && -SHRT_MAX <= v.v2 <= SHRT_MAX
    && (v.kind == DrinkCon || v.kind == Fountain ==> 0 <= v.v1 <= v.v0)
    && (v.kind == Light ==> 0 <= v.v2 && 0 <= v.v3 <= SHRT_MAX && (v.v3 == 0 || v.v2 <= v.v3))
    && (v.kind == Container ==> 0 <= v.blood <= SHRT_MAX)
  }

  /** A lantern without limit is given more than its counter can hold. */
  predicate Overflows(f: Vessel, t: Vessel) {
    f.kind == DrinkCon && t.kind == Light && f.v2 == OIL && t.v4 != 0 && t.v3 == 0 && t.v2 + f.v1 > SHRT_MAX
  }

  predicate Conserved(f: Vessel, t: Vessel, f1: Vessel, t1: Vessel, liquid: int) {
    Quantity(f1, liquid) + Quantity(t1, liquid) == Quantity(f, liquid) + Quantity(t, liquid)
  }

  lemma TransferConserves(f: Vessel, t: Vessel, liquid: int)
    requires Sound(f) && Sound(t) && (t.kind == DrinkCon || t.kind == Fountain)
    requires f.kind == DrinkCon || f.kind == Fountain || IsCorpse(f)
    ensures var (_, f1, t1) := Transfer(f, t); Sound(f1) && Sound(t1) && Conserved(f, t, f1, t1, liquid)
  {
    var left := Source(f) - (t.v0 - t.v1);
    if t.v1 < t.v0 {
      assert Short(left) == left && (left < 0 ==> Short(t.v0 + left) == t.v1 + Source(f));
    }
    hide Short;
  }

  lemma PourOilConserves(f: Vessel, t: Vessel, liquid: int)
    requires Sound(f) && Sound(t) && f.kind == DrinkCon && t.kind == Light
    ensures var (_, f1, t1) := PourOil(f, t);
            && (!Overflows(f, t) ==> Sound(f1) && Sound(t1) && Conserved(f, t, f1, t1, liquid))
            && (Overflows(f, t) ==> !Sound(t1) && !Conserved(f, t, f1, t1, OIL))
  {
  }

  /** A pour moves liquid without making or losing any, exactly when it does not run over the
      counter of a lantern without limit. */
  lemma PourConserves(f: Vessel, t: Vessel)
    requires Sound(f) && Sound(t)
    ensures var (_, f1, t1) := Pour(f, t);
            (Sound(f1) && Sound(t1) && forall liquid :: Conserved(f, t, f1, t1, liquid)) <==> !Overflows(f, t)
  {
    hide Quantity, Transfer, PourOil, Sound;
    var (_, f1, t1) := Pour(f, t);
    forall liquid ensures !Overflows(f, t) ==> Sound(f1) && Sound(t1) && Conserved(f, t, f1, t1, liquid) {
      if f.kind == DrinkCon && t.kind == Light {
        PourOilConserves(f, t, liquid);
      } else if f.kind == DrinkCon && (t.kind == DrinkCon || t.kind == Fountain) {
        TransferConserves(f, t, liquid);
      }
    }
    assert !Overflows(f, t) ==> Conserved(f, t, f1, t1, 0) || Sound(f1);
    if Overflows(f, t) { PourOilConserves(f, t, OIL); }
  }

  lemma FillConserves(f: Vessel, t: Vessel)
    requires Sound(f) && Sound(t)
    ensures var (_, f1, t1) := Fill(f, t);
            Sound(f1) && Sound(t1) && forall liquid :: Conserved(f, t, f1, t1, liquid)
  {
    hide Quantity, Transfer, Sound;
    var (_, f1, t1) := Fill(f, t);
    forall liquid ensures Sound(f1) && Sound(t1) && Conserved(f, t, f1, t1, liquid) {
      if t.kind == DrinkCon && (f.kind == Fountain || IsCorpse(f)) { TransferConserves(f, t, liquid); }
    }
    assert Conserved(f, t, f1, t1, 0);
  }

  /** Poison follows the liquid except when the source had less than was asked for: the source
      is cleared of poison before the poison is copied. */
  lemma PoisonFollows(f: Vessel, t: Vessel)
    requires Sound(f) && Sound(t) && (t.kind == DrinkCon || t.kind == Fountain)
    requires (f.kind == DrinkCon || f.kind == Fountain) && Transfer(f, t).0 == Done
    ensures Transfer(f, t).2.v3 != 0 <==> t.v3 != 0 || (f.v3 != 0 && f.v1 >= t.v0 - t.v1)
  {
  }

  // ----- How much is poured, and when nothing is -----

  /** Pouring and filling end alike: nothing happens if the target holds another liquid or is full;
      otherwise the smaller of what the source has and the target has room for goes over, and a
      source with less than was asked for forgets its liquid and its poison. */
  lemma TransferMeans(f: Vessel, t: Vessel)
    requires Sound(f) && Sound(t) && (t.kind == DrinkCon || t.kind == Fountain)
    requires f.kind == DrinkCon || f.kind == Fountain || (f.kind == Container && f.v3 == 1)
    ensures var (reply, f1, t1) := Transfer(f, t);
            var corpse, room := f.kind == Container, t.v0 - t.v1;
            var liquid, has := if corpse then 13 else f.v2, if corpse then f.blood else f.v1;
            var moved := if has < room then has else room;
            && (reply == Mixed <==> t.v1 != 0 && t.v2 != liquid)
            && (reply == Full <==> (t.v1 == 0 || t.v2 == liquid) && room == 0)
            && reply in {Mixed, Full, Done}
            && (reply != Done ==> (f1, t1) == (f, t))
            && (reply == Done ==>
                  && t1 == t.(v1 := t.v1 + moved, v2 := liquid, v3 := t1.v3)
                  && f1 == (if corpse then f.(blood := has - moved)
                            else if has < room then f.(v1 := 0, v2 := 0, v3 := 0) else f.(v1 := has - moved)))
  {
    var left := Source(f) - (t.v0 - t.v1);
    if t.v1 < t.v0 {
      assert Short(left) == left && (left < 0 ==> Short(t.v0 + left) == t.v1 + Source(f));
    }
    hide Short;
  }

  /** A pour into a light takes oil only, and only from a container that has some into a light that
      can be refilled and has room; without limit everything goes over, and otherwise what fits. */
  lemma PourOilMeans(f: Vessel, t: Vessel)
    requires Sound(f) && Sound(t) && f.kind == DrinkCon && t.kind == Light && t.v2 + f.v1 <= 32767
    ensures var (reply, f1, t1) := Pour(f, t);
            var moved := if t.v3 == 0 || f.v1 <= t.v3 - t.v2 then f.v1 else t.v3 - t.v2;
            && reply == (if f.v2 != 16 then NotOil else if t.v4 == 0 then CannotRefill else if f.v1 == 0 then Empty
                         else if t.v3 != 0 && t.v2 == t.v3 then Full else Done)
            && (f1, t1) == if reply == Done then (f.(v1 := f.v1 - moved), t.(v2 := t.v2 + moved)) else (f, t)
  {
  }

  /** What can be poured and filled, and from and into what. */
  lemma PourAndFillMeans(f: Vessel, t: Vessel)
    ensures var (reply, f1, t1) := Pour(f, t);
            && (f.kind != DrinkCon ==> (reply, f1, t1) == (CannotPour, f, t))
            && (f.kind == DrinkCon && t.kind != Light && f.v1 == 0 ==> (reply, f1, t1) == (Empty, f, t))
            && (f.kind == DrinkCon && f.v1 != 0 && (t.kind == Container || t.kind == Other) ==>
                  (reply, f1, t1) == (CannotPour, f, t))
            && (f.kind == DrinkCon && f.v1 != 0 && (t.kind == DrinkCon || t.kind == Fountain) ==>
                  (reply, f1, t1) == Transfer(f, t))
    ensures var (reply, f1, t1) := Fill(f, t);
            var corpse := f.kind == Container && f.v3 == 1;
            && (t.kind != DrinkCon ==> (reply, f1, t1) == (CannotRefill, f, t))
            && (t.kind == DrinkCon && f.kind != Fountain && !corpse ==> (reply, f1, t1) == (CannotPour, f, t))
            && (t.kind == DrinkCon && (f.kind == Fountain || corpse) && (if corpse then f.blood else f.v1) == 0 ==>
                  (reply, f1, t1) == (Empty, f, t))
            && (t.kind == DrinkCon && (f.kind == Fountain || corpse) && (if corpse then f.blood else f.v1) != 0 ==>
                  (reply, f1, t1) == Transfer(f, t))
  {
    hide Transfer, PourOil;
  }

  // ----- Every run -----

  function Total(w: seq<Vessel>, liquid: int): int {
    if w == [] then 0 else Quantity(w[0], liquid) + Total(w[1..], liquid)
  }

  ghost predicate AllSound(w: seq<Vessel>) {
    forall i :: 0 <= i < |w| ==> Sound(w[i])
  }

  lemma {:induction false} TotalUpdate(w: seq<Vessel>, i: nat, v: Vessel, liquid: int)
    requires i < |w|
    ensures Total(w[i := v], liquid) == Total(w, liquid) - Quantity(w[i], liquid) + Quantity(v, liquid)
  {
    if i > 0 {
      assert w[i := v][1..] == w[1..][i - 1 := v];
      TotalUpdate(w[1..], i - 1, v, liquid);
    } else {
      assert w[i := v][1..] == w[1..];
    }
  }

  /** Some player pours vessel i into vessel j, or fills j from i. */
  datatype Command = PourInto(i: nat, j: nat) | FillFrom(i: nat, j: nat)

  function Step(w: seq<Vessel>, c: Command): seq<Vessel> {
    if c.i >= |w| || c.j >= |w| || c.i == c.j then w else
      var (_, f, t) := if c.PourInto? then Pour(w[c.i], w[c.j]) else Fill(w[c.i], w[c.j]);
      w[c.i := f][c.j := t]
  }

  function Run(w: seq<Vessel>, commands: seq<Command>): seq<Vessel>
    decreases |commands|
  {
    if commands == [] then w else Run(Step(w, commands[0]), commands[1..])
  }

  /** No lantern without limit runs over during the run. */
  predicate NeverOverflows(w: seq<Vessel>, commands: seq<Command>)
    decreases |commands|
  {
    commands == [] ||
    (var c := commands[0];
     !(c.PourInto? && c.i < |w| && c.j < |w| && c.i != c.j && Overflows(w[c.i], w[c.j]))
     && NeverOverflows(Step(w, c), commands[1..]))
  }

  lemma StepConserves(w: seq<Vessel>, c: Command)
    requires AllSound(w) && NeverOverflows(w, [c])
    ensures |Step(w, c)| == |w| && AllSound(Step(w, c)) && forall liquid :: Total(Step(w, c), liquid) == Total(w, liquid)
  {
    hide Pour, Fill, Sound, Quantity, Total;
    if c.i < |w| && c.j < |w| && c.i != c.j {
      var (_, f, t) := if c.PourInto? then Pour(w[c.i], w[c.j]) else Fill(w[c.i], w[c.j]);
      if c.PourInto? { PourConserves(w[c.i], w[c.j]); } else { FillConserves(w[c.i], w[c.j]); }
      forall liquid ensures Total(Step(w, c), liquid) == Total(w, liquid) {
        TotalUpdate(w, c.i, f, liquid);
        TotalUpdate(w[c.i := f], c.j, t, liquid);
        assert Conserved(w[c.i], w[c.j], f, t, liquid);
      }
    }
  }

  /** Over any sequence of pours and fills every liquid's total stays what it was, and no vessel
      goes below empty or above full. */
  lemma {:induction false} RunConserves(w: seq<Vessel>, commands: seq<Command>)
    requires AllSound(w) && NeverOverflows(w, commands)
    ensures AllSound(Run(w, commands)) && forall liquid :: Total(Run(w, commands), liquid) == Total(w, liquid)
    decreases |commands|
  {
    if commands != [] {
      assert NeverOverflows(w, commands[..1]) by { assert commands[..1][1..] == []; }
      assert commands[..1] == [commands[0]];
      StepConserves(w, commands[0]);
      hide Step, AllSound, Total;
      RunConserves(Step(w, commands[0]), commands[1..]);
    }
  }

  // ----- What an overflow costs -----

  /** Sound, but for a lantern without limit whose counter may have run over. */
  predicate Steady(v: Vessel) {
    Sound(v) || (v.kind == Light && v.v3 == 0 && -SHRT_MAX <= v.v0 <= SHRT_MAX && -SHRT_MAX - 1 <= v.v2 <= SHRT_MAX)
  }

  ghost predicate AllSteady(w: seq<Vessel>) {
    forall i :: 0 <= i < |w| ==> Steady(w[i])
  }

  predicate RunsOver(w: seq<Vessel>, c: Command) {
    c.PourInto? && c.i < |w| && c.j < |w| && c.i != c.j && Overflows(w[c.i], w[c.j])
  }

  lemma PourCounts(f: Vessel, t: Vessel, liquid: int)
    requires Steady(f) && Steady(t)
    ensures var (_, f1, t1) := Pour(f, t);
            && Steady(f1) && Steady(t1)
            && Quantity(f1, liquid) + Quantity(t1, liquid) ==
               Quantity(f, liquid) + Quantity(t, liquid) - (if Overflows(f, t) && liquid == OIL then 65536 else 0)
  {
    if f.kind == DrinkCon && (t.kind == DrinkCon || t.kind == Fountain) {
      hide Transfer;
      TransferConserves(f, t, liquid);
    }
  }

  lemma StepCounts(w: seq<Vessel>, c: Command, liquid: int)
    requires AllSteady(w)
    ensures |Step(w, c)| == |w| && AllSteady(Step(w, c))
    ensures Total(Step(w, c), liquid) == Total(w, liquid) - (if RunsOver(w, c) && liquid == OIL then 65536 else 0)
  {
    hide Pour, Fill, Quantity, Total, Overflows;
    if c.i < |w| && c.j < |w| && c.i != c.j {
      var (_, f, t) := if c.PourInto? then Pour(w[c.i], w[c.j]) else Fill(w[c.i], w[c.j]);
      if c.PourInto? {
        PourCounts(w[c.i], w[c.j], liquid);
      } else {
        FillCounts(w[c.i], w[c.j], liquid);
      }
      TotalUpdate(w, c.i, f, liquid);
      TotalUpdate(w[c.i := f], c.j, t, liquid);
    }
  }

  lemma FillCounts(f: Vessel, t: Vessel, liquid: int)
    requires Steady(f) && Steady(t)
    ensures var (_, f1, t1) := Fill(f, t);
            && Steady(f1) && Steady(t1)
            && Quantity(f1, liquid) + Quantity(t1, liquid) == Quantity(f, liquid) + Quantity(t, liquid)
  {
    hide Transfer;
    if t.kind == DrinkCon && (f.kind == Fountain || IsCorpse(f)) { TransferConserves(f, t, liquid); }
  }

  /** The pours of a run that run over the counter of a lantern. */
  function Overflowings(w: seq<Vessel>, commands: seq<Command>): nat
    decreases |commands|
  {
    if commands == [] then 0 else
      (if RunsOver(w, commands[0]) then 1 else 0) + Overflowings(Step(w, commands[0]), commands[1..])
  }

  /** Each overflow takes 65536 units of oil out of the world, and nothing else changes a total. */
  lemma {:induction false} RunCounts(w: seq<Vessel>, commands: seq<Command>, liquid: int)
    requires AllSteady(w)
    ensures Total(Run(w, commands), liquid) ==
            Total(w, liquid) - (if liquid == OIL then 65536 * Overflowings(w, commands) else 0)
    decreases |commands|
  {
    if commands != [] {
      StepCounts(w, commands[0], liquid);
      hide Step, AllSteady, Total, RunsOver;
      RunCounts(Step(w, commands[0]), commands[1..], liquid);
    }
  }

  lemma {:induction false} NoOverflowings(w: seq<Vessel>, commands: seq<Command>)
    ensures Overflowings(w, commands) == 0 <==> NeverOverflows(w, commands)
    decreases |commands|
  {
    if commands != [] {
      NoOverflowings(Step(w, commands[0]), commands[1..]);
    }
  }

  /** A run conserves every liquid exactly when no pour runs over a lantern without limit; it then
      leaves every vessel sound as well. */
  lemma RunConservesExactly(w: seq<Vessel>, commands: seq<Command>)
    requires AllSound(w)
    ensures (forall liquid :: Total(Run(w, commands), liquid) == Total(w, liquid)) <==> NeverOverflows(w, commands)
    ensures NeverOverflows(w, commands) ==> AllSound(Run(w, commands))
  {
    NoOverflowings(w, commands);
    forall liquid
      ensures Total(Run(w, commands), liquid) ==
              Total(w, liquid) - (if liquid == OIL then 65536 * Overflowings(w, commands) else 0)
    {
      RunCounts(w, commands, liquid);
    }
    assert Total(Run(w, commands), OIL) == Total(w, OIL) - 65536 * Overflowings(w, commands);
    if NeverOverflows(w, commands) { RunConserves(w, commands); }
  }

  // ----- Where it goes wrong -----

  /** Two sound vessels, and an overflow: 30000 of oil for a lantern without limit that holds 10000. */
  lemma LanternRunsOver()
    ensures var flask := Vessel(DrinkCon, 30000, 30000, OIL, 0, 0, 0);
            var lantern := Vessel(Light, 0, 0, 10000, 0, 1, 0);
            Sound(flask) && Sound(lantern) && Overflows(flask, lantern) && Pour(flask, lantern).2.v2 == -25536
  {
  }

  /** A flask poisoned with 3 of 10 is poured into an empty one, and the poison is gone. */
  lemma PoisonIsLost()
    ensures var flask := Vessel(DrinkCon, 10, 3, 0, 1, 0, 0);
            var cup := Vessel(DrinkCon, 10, 0, 0, 0, 0, 0);
            && Sound(flask) && Sound(cup)
            && Pour(flask, cup) == (Done, flask.(v1 := 0, v3 := 0), cup.(v1 := 3))
  {
    assert Short(-7) == -7 && Short(3) == 3;
    hide Short;
  }

  // ----- In place -----

  class Item {
    const kind: Kind
    var v0: int
    var v1: int
    var v2: int
    var v3: int
    var v4: int
    var blood: int

    function Contents(): Vessel
      reads this
    {
      Vessel(kind, v0, v1, v2, v3, v4, blood)
    }

    constructor (v: Vessel)
      ensures Contents() == v
    {
      kind, v0, v1, v2, v3, v4, blood := v.kind, v.v0, v.v1, v.v2, v.v3, v.v4, v.blood;
    }
  }

  /** "pour from ...": into `to` if one was found, or onto the ground. */
  method DoPour(from: Item, to: Item?, out: bool) returns (reply: Reply)
    modifies from, to
    ensures to != null && to != from && (to.kind == Light || !out) ==>
              (reply, from.Contents(), to.Contents()) == Pour(old(from.Contents()), old(to.Contents()))
    ensures (to == null || to == from) && !out ==>
              && from.Contents() == old(from.Contents())
              && reply == if from.kind != DrinkCon then CannotPour else if old(from.v1) == 0 then Empty
                          else if to == null then NotThere else Same
    ensures out && (to == null || to.kind != Light) ==>
              && reply == (if from.kind != DrinkCon then CannotPour else if old(from.v1) == 0 then Empty else Done)
              && from.Contents() == if reply == Done then old(from.Contents()).(v1 := 0, v2 := 0, v3 := 0)
                                    else old(from.Contents())
    ensures out && to != null && to.kind != Light && to != from ==> to.Contents() == old(to.Contents())
  {
    if from.kind != DrinkCon { return CannotPour; }
    if to != null && to.kind == Light {
      if from.v2 != OIL { return NotOil; }
      if to.v4 == 0 { return CannotRefill; }
      var amount, current, max := from.v1, to.v2, to.v3;
      if amount == 0 { return Empty; }
      if max == 0 || amount <= max - current {
        to.v2 := Short(current + amount);
        from.v1 := 0;
      } else if current == max {
        return Full;
      } else {
        to.v2 := max;
        from.v1 := Short(amount - (max - current));
      }
      return Done;
    }
    if from.v1 == 0 { return Empty; }
    if out {
      from.v1, from.v2, from.v3 := 0, 0, 0;
      return Done;
    }
    if to == null { return NotThere; }
    if to.kind != DrinkCon && to.kind != Fountain { return CannotPour; }
    if to == from { return Same; }
    reply := TransferInPlace(from, to);
  }

  /** "fill to from". */
  method DoFill(to: Item, from: Item) returns (reply: Reply)
    modifies from, to
    ensures to != from ==> (reply, from.Contents(), to.Contents()) == Fill(old(from.Contents()), old(to.Contents()))
    ensures to == from ==> from.Contents() == old(from.Contents()) && reply != Done
  {
    if to.kind != DrinkCon { return CannotRefill; }
    if from.kind != Fountain && !IsCorpse(from.Contents()) { return CannotPour; }
    if Source(from.Contents()) == 0 { return Empty; }
    if to == from { return Same; }
    reply := TransferInPlace(from, to);
  }

  method TransferInPlace(from: Item, to: Item) returns (reply: Reply)
    requires to != from
    modifies from, to
    ensures (reply, from.Contents(), to.Contents()) == Transfer(old(from.Contents()), old(to.Contents()))
  {
    var corpse := from.kind == Container && from.v3 == 1;
    var liquid := if corpse then LIQ_BLOOD else from.v2;
    if to.v1 != 0 && to.v2 != liquid { return Mixed; }
    if !(to.v1 < to.v0) { return Full; }
    to.v2 := liquid;
    var left := Short((if corpse then from.blood else from.v1) - (to.v0 - to.v1));
    if corpse { from.blood := left; } else { from.v1 := left; }
    to.v1 := to.v0;
    if left < 0 {
      to.v1 := Short(to.v1 + left);
      if corpse {
        from.blood := 0;
      } else {
        from.v1, from.v2, from.v3 := 0, 0, 0;
      }
    }
    to.v3 := if to.v3 != 0 || (from.v3 != 0 && !corpse) then 1 else 0;
    return Done;
  }
}
