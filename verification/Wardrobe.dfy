/** No item is lost, doubled or held in too few hands, over any run of equipment commands. */
module Wardrobe {
  import opened Options
  import opened Seqs
  import opened Equipment

  // ----- Where every item is -----

  function Hits(o: Option<Item>, x: Item): nat {
    if o == Some(x) then 1 else 0
  }

  function Worn(worn: seq<Option<Item>>, x: Item): nat {
    if worn == [] then 0 else Hits(worn[0], x) + Worn(worn[1..], x)
  }

  function Listed(s: seq<Item>, x: Item): nat {
    if s == [] then 0 else (if s[0] == x then 1 else 0) + Listed(s[1..], x)
  }

  function Stored(inside: seq<seq<Item>>, x: Item): nat {
    if inside == [] then 0 else Listed(inside[0], x) + Stored(inside[1..], x)
  }

  /** The number of places x is in: slots it is worn in, the inventory, the insides of things. */
  function Places(g: Gear, x: Item): nat {
    Worn(g.worn, x) + Listed(g.carried, x) + Stored(g.inside, x)
  }

  ghost predicate OnePlace(g: Gear) {
    forall x :: Places(g, x) <= 1
  }

  lemma {:induction false} WornUpdate(worn: seq<Option<Item>>, i: nat, o: Option<Item>, x: Item)
    requires i < |worn|
    ensures Worn(worn[i := o], x) + Hits(worn[i], x) == Worn(worn, x) + Hits(o, x)
  {
    var w := worn[i := o];
    if i == 0 {
      assert w[1..] == worn[1..];
    } else {
      WornUpdate(worn[1..], i - 1, o, x);
      assert w[1..] == worn[1..][i - 1 := o];
    }
  }

  lemma {:induction false} StoredUpdate(inside: seq<seq<Item>>, k: nat, c: seq<Item>, x: Item)
    requires k < |inside|
    ensures Stored(inside[k := c], x) + Listed(inside[k], x) == Stored(inside, x) + Listed(c, x)
  {
    var n := inside[k := c];
    if k == 0 {
      assert n[1..] == inside[1..];
    } else {
      StoredUpdate(inside[1..], k - 1, c, x);
      assert n[1..] == inside[1..][k - 1 := c];
    }
  }

  lemma ListedPush(y: Item, s: seq<Item>, x: Item)
    ensures Listed([y] + s, x) == (if x == y then 1 else 0) + Listed(s, x)
  {
  }

  lemma {:induction false} WithoutOne(s: seq<Item>, y: Item, x: Item)
    requires y in s
    ensures Listed(Without(s, y), x) == Listed(s, x) - (if x == y then 1 else 0)
  {
    if s[0] != y {
      WithoutOne(s[1..], y, x);
      ListedPush(s[0], Without(s[1..], y), x);
    }
  }

  lemma {:induction false} WithoutStays(s: seq<Item>, y: Item)
    ensures forall x :: x in Without(s, y) ==> x in s
  {
    if s != [] && s[0] != y {
      WithoutStays(s[1..], y);
    }
  }

  // ----- Commands -----

  datatype Command =
    | DoWear(item: Item, slot: Slot, heavy: set<Item>, allowed: bool)
    | DoRemove(slot: Slot, capacity: int, allowed: bool)
    | DoDraw(heavy: set<Item>)
    | DoSheath

  function Step(g: Gear, makes: seq<Make>, c: Command): Gear
    requires Shaped(g, makes)
  {
    match c
    case DoWear(item, slot, heavy, allowed) => Wear(g, makes, heavy, item, slot, allowed)
    case DoRemove(slot, capacity, allowed) => Remove(g, makes, slot, capacity, allowed)
    case DoDraw(heavy) => Draw(g, makes, heavy).1
    case DoSheath => Sheathe(g, makes).1
  }

  lemma StepKeepsShape(g: Gear, makes: seq<Make>, c: Command)
    requires Shaped(g, makes)
    ensures Shaped(Step(g, makes, c), makes)
  {
    if c.DoWear? {
      WithoutStays(g.carried, c.item);
      var s := Without(g.carried, c.item);
      assert forall i :: 0 <= i < |s| ==> s[i] in s;
    }
  }

  /** The wielded weapon is itself an empty sheath for its own kind, and no earlier slot has one. */
  predicate OwnSheath(g: Gear, makes: seq<Make>)
    requires Shaped(g, makes)
  {
    && g.worn[WEAR_WIELD].Some?
    && EmptySheath(g, makes, g.worn[WEAR_WIELD].value, WEAR_WIELD)
    && forall s :: 0 <= s < WEAR_WIELD ==> !EmptySheath(g, makes, g.worn[WEAR_WIELD].value, s)
  }

  predicate NoDoubleGrip(g: Gear, makes: seq<Make>)
    requires Shaped(g, makes)
  {
    g.worn[WEAR_SHIELD].Some? && g.worn[WEAR_WIELD].Some? ==> !makes[g.worn[WEAR_WIELD].value].twoHanded
  }

  lemma WearConserves(g: Gear, makes: seq<Make>, heavy: set<Item>, item: Item, slot: Slot, allowed: bool, x: Item)
    requires Shaped(g, makes)
    ensures var h := Wear(g, makes, heavy, item, slot, allowed);
            var n := if x == item && h != g then 1 else 0;
            && Worn(h.worn, x) == Worn(g.worn, x) + n && Listed(h.carried, x) == Listed(g.carried, x) - n
            && h.inside == g.inside && Places(h, x) == Places(g, x)
  {
    if item in g.carried && CanWear(g, makes, heavy, item, slot, allowed) {
      WornUpdate(g.worn, Place(g, slot), Some(item), x);
      WithoutOne(g.carried, item, x);
    }
  }

  lemma RemoveConserves(g: Gear, makes: seq<Make>, slot: Slot, capacity: int, allowed: bool, x: Item)
    requires Shaped(g, makes)
    ensures var h := Remove(g, makes, slot, capacity, allowed);
            var n := if g.worn[slot] == Some(x) && !makes[x].cursed && |g.carried| < capacity && allowed then 1 else 0;
            && Worn(h.worn, x) == Worn(g.worn, x) - n && Listed(h.carried, x) == Listed(g.carried, x) + n
            && h.inside == g.inside && Places(h, x) == Places(g, x)
  {
    WornUpdate(g.worn, slot, None, x);
    if g.worn[slot].Some? {
      ListedPush(g.worn[slot].value, g.carried, x);
    }
  }

  lemma DrawConserves(g: Gear, makes: seq<Make>, heavy: set<Item>, x: Item)
    requires Shaped(g, makes)
    ensures Places(Draw(g, makes, heavy).1, x) == Places(g, x)
  {
    var i := FindLoaded(g, makes, 0);
    if g.worn[WEAR_WIELD].None? && i < NUM_WEARS {
      var sheath := g.worn[i].value;
      var contents := g.inside[sheath];
      WornUpdate(g.worn, WEAR_WIELD, Some(contents[0]), x);
      StoredUpdate(g.inside, sheath, contents[1..], x);
    }
  }

  lemma OwnSheathIsFound(g: Gear, makes: seq<Make>)
    requires Shaped(g, makes) && g.worn[WEAR_WIELD].Some?
    ensures OwnSheath(g, makes) <==> FindEmpty(g, makes, g.worn[WEAR_WIELD].value, 0) == WEAR_WIELD
  {
  }

  /** Two slots hold two items, and nothing worn is inside something. */
  lemma WornApart(g: Gear, i: nat, j: nat)
    requires OnePlace(g) && i < |g.worn| && j < |g.worn| && i != j && g.worn[i].Some? && g.worn[j].Some?
    ensures g.worn[i].value != g.worn[j].value
  {
    var x := g.worn[i].value;
    WornUpdate(g.worn, i, None, x);
    WornUpdate(g.worn[i := None], j, None, x);
    assert Places(g, x) <= 1;
  }

  lemma WornNotStored(g: Gear, i: nat, k: nat)
    requires OnePlace(g) && i < |g.worn| && k < |g.inside| && g.worn[i].Some? && g.inside[k] != []
    ensures g.inside[k][0] != g.worn[i].value
  {
    var x := g.worn[i].value;
    WornUpdate(g.worn, i, None, x);
    StoredUpdate(g.inside, k, [], x);
    assert Places(g, x) <= 1;
  }

  /** Whether item x is the weapon that a sheathing would lose. */
  predicate Vanishes(g: Gear, makes: seq<Make>, c: Command, x: Item)
    requires Shaped(g, makes)
  {
    c.DoSheath? && OwnSheath(g, makes) && x == g.worn[WEAR_WIELD].value
  }

  lemma SheatheConserves(g: Gear, makes: seq<Make>, x: Item)
    requires Shaped(g, makes) && OnePlace(g)
    ensures Places(Sheathe(g, makes).1, x) == Places(g, x) - (if Vanishes(g, makes, DoSheath, x) then 1 else 0)
  {
    if g.worn[WEAR_WIELD].Some? {
      OwnSheathIsFound(g, makes);
      var weapon := g.worn[WEAR_WIELD].value;
      var i := FindEmpty(g, makes, weapon, 0);
      WornUpdate(g.worn, WEAR_WIELD, None, x);
      if i < NUM_WEARS && i != WEAR_WIELD {
        WornApart(g, WEAR_WIELD, i);
        var sheath := g.worn[i].value;
        StoredUpdate(g.inside, sheath, [weapon] + g.inside[sheath], x);
        ListedPush(weapon, g.inside[sheath], x);
      }
    }
  }

  /** A command moves items but neither makes nor loses one, save a weapon put into itself. */
  lemma StepConserves(g: Gear, makes: seq<Make>, c: Command, x: Item)
    requires Shaped(g, makes) && OnePlace(g)
    ensures Places(Step(g, makes, c), x) == Places(g, x) - (if Vanishes(g, makes, c, x) then 1 else 0)
  {
    match c
    case DoWear(item, slot, heavy, allowed) => WearConserves(g, makes, heavy, item, slot, allowed, x);
    case DoRemove(slot, capacity, allowed) => RemoveConserves(g, makes, slot, capacity, allowed, x);
    case DoDraw(heavy) => DrawConserves(g, makes, heavy, x);
    case DoSheath => SheatheConserves(g, makes, x);
  }

  lemma StepKeepsOneGrip(g: Gear, makes: seq<Make>, c: Command)
    requires Shaped(g, makes) && NoDoubleGrip(g, makes)
    ensures Shaped(Step(g, makes, c), makes) && NoDoubleGrip(Step(g, makes, c), makes)
  {
    StepKeepsShape(g, makes, c);
  }

  // ----- Runs -----

  function Run(g: Gear, makes: seq<Make>, cs: seq<Command>): (r: Gear)
    requires Shaped(g, makes)
    ensures Shaped(r, makes)
    decreases |cs|
  {
    if cs == [] then g else
      StepKeepsShape(g, makes, cs[0]);
      Run(Step(g, makes, cs[0]), makes, cs[1..])
  }

  /** Somewhere along the run x is wielded, is its own sheath, and is sheathed. */
  predicate Swallowed(g: Gear, makes: seq<Make>, cs: seq<Command>, x: Item)
    requires Shaped(g, makes)
    decreases |cs|
  {
    cs != [] &&
      (StepKeepsShape(g, makes, cs[0]);
       Vanishes(g, makes, cs[0], x) || Swallowed(Step(g, makes, cs[0]), makes, cs[1..], x))
  }

  /** Over every run each item stays in exactly one place, except that a weapon disappears, for good,
      exactly when it is its own sheath and is sheathed. */
  lemma {:induction false} RunConserves(g: Gear, makes: seq<Make>, cs: seq<Command>, x: Item)
    requires Shaped(g, makes) && OnePlace(g)
    ensures OnePlace(Run(g, makes, cs))
    ensures Places(Run(g, makes, cs), x) == if Swallowed(g, makes, cs, x) then 0 else Places(g, x)
    decreases |cs|
  {
    if cs != [] {
      var h := Step(g, makes, cs[0]);
      StepKeepsShape(g, makes, cs[0]);
      forall y ensures Places(h, y) <= 1 {
        StepConserves(g, makes, cs[0], y);
        assert Places(g, y) <= 1;
      }
      StepConserves(g, makes, cs[0], x);
      RunConserves(h, makes, cs[1..], x);
      assert Places(g, x) <= 1;
    }
  }

  /** A shield is never worn beside a wielded two-handed weapon. */
  lemma {:induction false} RunKeepsOneGrip(g: Gear, makes: seq<Make>, cs: seq<Command>)
    requires Shaped(g, makes) && NoDoubleGrip(g, makes)
    ensures NoDoubleGrip(Run(g, makes, cs), makes)
    decreases |cs|
  {
    if cs != [] {
      StepKeepsOneGrip(g, makes, cs[0]);
      RunKeepsOneGrip(Step(g, makes, cs[0]), makes, cs[1..]);
    }
  }

  /** Where no kind of thing is both a weapon and a sheath for that weapon, nothing is ever lost. */
  lemma {:induction false} SafeMakesConserve(g: Gear, makes: seq<Make>, cs: seq<Command>, x: Item)
    requires Shaped(g, makes) && OnePlace(g)
    requires forall i :: 0 <= i < |makes| ==> !Takes(makes[i], makes[i])
    ensures Places(Run(g, makes, cs), x) == Places(g, x)
  {
    NeverSwallowed(g, makes, cs, x);
    RunConserves(g, makes, cs, x);
  }

  lemma {:induction false} NeverSwallowed(g: Gear, makes: seq<Make>, cs: seq<Command>, x: Item)
    requires Shaped(g, makes)
    requires forall i :: 0 <= i < |makes| ==> !Takes(makes[i], makes[i])
    ensures !Swallowed(g, makes, cs, x)
    decreases |cs|
  {
    if cs != [] {
      StepKeepsShape(g, makes, cs[0]);
      NeverSwallowed(Step(g, makes, cs[0]), makes, cs[1..], x);
    }
  }

  /** A dagger that is a dagger sheath is wielded and sheathed, and is nowhere. */
  lemma DaggerIsSwallowed()
    ensures var g := Gear(seq(NUM_WEARS, _ => None), [0], [[]]);
            var makes := [Make(true, false, false, ShortBlade, false, false, {WEAR_WIELD})];
            Shaped(g, makes) && Places(g, 0) == 1 && OnePlace(g)
            && Places(Run(g, makes, [DoWear(0, WEAR_WIELD, {}, true), DoSheath]), 0) == 0
  {
    var none: seq<Option<Item>> := seq(NUM_WEARS, _ => None);
    var g := Gear(none, [0], [[]]);
    var makes := [Make(true, false, false, ShortBlade, false, false, {WEAR_WIELD})];
    var cs := [DoWear(0, WEAR_WIELD, {}, true), DoSheath];
    forall x ensures Places(g, x) == if x == 0 then 1 else 0 {
      NothingWorn(none, x);
      assert g.inside[1..] == [] && g.carried[1..] == [];
      assert Listed([0], x) == if x == 0 then 1 else 0 by { assert [0][1..] == []; }
      assert Stored([[]], x) == 0 by { assert Stored([[]], x) == Listed([], x) + Stored([], x); }
    }
    var h := Step(g, makes, cs[0]);
    assert h.worn == none[WEAR_WIELD := Some(0)];
    assert Swallowed(h, makes, cs[1..], 0);
    assert !Vanishes(g, makes, cs[0], 0);
    RunConserves(g, makes, cs, 0);
  }

  lemma {:induction false} NothingWorn(worn: seq<Option<Item>>, x: Item)
    requires forall s :: 0 <= s < |worn| ==> worn[s].None?
    ensures Worn(worn, x) == 0
  {
    if worn != [] {
      NothingWorn(worn[1..], x);
    }
  }

  // ----- Sheathing and drawing again -----

  /** No worn sheath in a slot before i, the hand aside, has something in it. */
  predicate NoneLoadedBefore(g: Gear, makes: seq<Make>, i: nat)
    requires Shaped(g, makes) && i <= NUM_WEARS
  {
    forall s :: 0 <= s < i && s != WEAR_WIELD ==> !LoadedSheath(g, makes, s)
  }

  /** Drawing after a sheathing brings everything back exactly when the weapon is not its own sheath,
      is not too heavy, and no earlier worn sheath has something in it. */
  lemma SheatheThenDraw(g: Gear, makes: seq<Make>, heavy: set<Item>)
    requires Shaped(g, makes) && OnePlace(g) && NoDoubleGrip(g, makes) && Sheathe(g, makes).0 == 1
    ensures Shaped(Sheathe(g, makes).1, makes)
    ensures Draw(Sheathe(g, makes).1, makes, heavy) == (1, g) <==>
            && !OwnSheath(g, makes) && g.worn[WEAR_WIELD].value !in heavy
            && NoneLoadedBefore(g, makes, FindEmpty(g, makes, g.worn[WEAR_WIELD].value, 0))
  {
    StepKeepsShape(g, makes, DoSheath);
    OwnSheathIsFound(g, makes);
    var weapon := g.worn[WEAR_WIELD].value;
    var h := Sheathe(g, makes).1;
    var i := FindEmpty(g, makes, weapon, 0);
    if i == WEAR_WIELD {
      DrawConserves(h, makes, heavy, weapon);
      SheatheConserves(g, makes, weapon);
    } else {
      OtherSheath(g, makes, heavy, i);
    }
  }

  lemma OtherSheath(g: Gear, makes: seq<Make>, heavy: set<Item>, i: nat)
    requires Shaped(g, makes) && OnePlace(g) && NoDoubleGrip(g, makes) && g.worn[WEAR_WIELD].Some?
    requires i == FindEmpty(g, makes, g.worn[WEAR_WIELD].value, 0) && i < NUM_WEARS && i != WEAR_WIELD
    requires Shaped(Sheathe(g, makes).1, makes)
    ensures Draw(Sheathe(g, makes).1, makes, heavy) == (1, g) <==>
            g.worn[WEAR_WIELD].value !in heavy && NoneLoadedBefore(g, makes, i)
  {
    var weapon, sheath := g.worn[WEAR_WIELD].value, g.worn[i].value;
    var h := Sheathe(g, makes).1;
    WornApart(g, WEAR_WIELD, i);
    assert [weapon] + g.inside[sheath] == [weapon];
    assert LoadedSheath(h, makes, i);
    var j := FindLoaded(h, makes, 0);
    if j == i {
      assert h.inside[sheath := h.inside[sheath][1..]] == g.inside;
      assert h.worn[WEAR_WIELD := Some(weapon)] == g.worn;
      forall s | 0 <= s < i && s != WEAR_WIELD ensures !LoadedSheath(g, makes, s) {
        assert !LoadedSheath(h, makes, s);
        assert h.worn[s] == g.worn[s];
      }
    } else {
      WornApart(g, i, j);
      assert LoadedSheath(g, makes, j);
      WornNotStored(g, WEAR_WIELD, g.worn[j].value);
    }
  }

  // ----- What each command does, slot by slot -----

  /** The gear with slot s holding o and the inventory c, and nothing else moved. */
  ghost predicate Moved(g: Gear, h: Gear, s: Slot, o: Option<Item>, c: seq<Item>)
  {
    && |h.worn| == |g.worn| == NUM_WEARS && h.worn[s] == o && h.carried == c
    && forall t: Slot :: t != s ==> h.worn[t] == g.worn[t]
  }

  /** performRemove takes an item off exactly when it is not cursed, there is room in the
      inventory, and it is allowed; then the item is the first in the inventory. */
  lemma RemoveMeans(g: Gear, makes: seq<Make>, slot: Slot, capacity: int, allowed: bool)
    requires Shaped(g, makes)
    ensures var h := Remove(g, makes, slot, capacity, allowed);
            if g.worn[slot].Some? && !makes[g.worn[slot].value].cursed && |g.carried| < capacity && allowed then
              var x := g.worn[slot].value;
              && Moved(g, h, slot, None, [x] + g.carried) && h.inside == g.inside
              && Worn(h.worn, x) == Worn(g.worn, x) - 1 && Listed(h.carried, x) == Listed(g.carried, x) + 1
            else h == g
  {
    WornUpdate(g.worn, slot, None, if g.worn[slot].Some? then g.worn[slot].value else 0);
  }

  /** performWear moves an item from the inventory to the slot, or to the one behind it for a
      second neck, ear, wrist or finger, exactly when CanWear refuses nothing: the item is made for
      the slot, it needs no hand that is taken, it is not too heavy to wield, and the place is free. */
  lemma WearMeans(g: Gear, makes: seq<Make>, heavy: set<Item>, x: Item, slot: Slot, allowed: bool)
    requires Shaped(g, makes)
    ensures var h := Wear(g, makes, heavy, x, slot, allowed);
            var place := if slot in {2, 4, 13, 16} && g.worn[slot].Some? then slot + 1 else slot;
            if && x in g.carried && allowed && slot in makes[x].fits && g.worn[place].None?
               && (g.worn[19].Some? ==> !makes[x].twoHanded)
               && (slot == 19 && g.worn[18].Some? ==> !makes[g.worn[18].value].twoHanded)
               && (slot == 18 ==> x !in heavy)
            then
              && Moved(g, h, place, Some(x), h.carried) && OneLess(g.carried, h.carried, x) && h.inside == g.inside
              && Worn(h.worn, x) == Worn(g.worn, x) + 1 && Listed(h.carried, x) == Listed(g.carried, x) - 1
            else h == g
  {
    if x in g.carried {
      WithoutIsOneLess(g.carried, x);
      WithoutOne(g.carried, x, x);
      WornUpdate(g.worn, Place(g, slot), Some(x), x);
    }
  }

  /** An item worn and taken off again is back in the inventory, in front, and nothing else has
      changed. */
  lemma WearThenRemove(g: Gear, makes: seq<Make>, heavy: set<Item>, x: Item, slot: Slot, capacity: int)
    requires Shaped(g, makes) && x < |makes| && !makes[x].cursed && |g.carried| <= capacity
    requires Wear(g, makes, heavy, x, slot, true) != g
    ensures var place := if slot in {2, 4, 13, 16} && g.worn[slot].Some? then slot + 1 else slot;
            var worn := Wear(g, makes, heavy, x, slot, true);
            && Shaped(worn, makes)
            && var h := Remove(worn, makes, place, capacity, true);
               && h.worn == g.worn && h.inside == g.inside && |h.carried| > 0 && h.carried[0] == x
               && OneLess(g.carried, h.carried[1..], x)
  {
    hide Wear, Remove, OneLess;
    var place: Slot := if slot in {2, 4, 13, 16} && g.worn[slot].Some? then slot + 1 else slot;
    var worn := Wear(g, makes, heavy, x, slot, true);
    StepKeepsShape(g, makes, DoWear(x, slot, heavy, true));
    WearMeans(g, makes, heavy, x, slot, true);
    OneShorter(g.carried, worn.carried, x);
    RemoveMeans(worn, makes, place, capacity, true);
    var h := Remove(worn, makes, place, capacity, true);
    forall t: Slot ensures h.worn[t] == g.worn[t] {}
  }

  lemma OneShorter(before: seq<Item>, after: seq<Item>, x: Item)
    requires OneLess(before, after, x)
    ensures |after| == |before| - 1
  {
  }

  /** A sheath with something in it is worn in the slot. */
  ghost predicate Loaded(g: Gear, makes: seq<Make>, s: Slot)
    requires Shaped(g, makes)
  {
    && g.worn[s].Some? && g.inside[g.worn[s].value] != []
    && var m := makes[g.worn[s].value]; m.daggerSheath || m.swordSheath || m.spearSheath
  }

  /** Draw does nothing with a weapon in hand or without a filled sheath. */
  lemma DrawsNothing(g: Gear, makes: seq<Make>, heavy: set<Item>)
    requires Shaped(g, makes)
    ensures g.worn[18].Some? ==> Draw(g, makes, heavy) == (1, g)
    ensures Draw(g, makes, heavy).0 == 0 <==> g.worn[18].None? && forall s: Slot :: !Loaded(g, makes, s)
    ensures Draw(g, makes, heavy).0 == 0 ==> Draw(g, makes, heavy).1 == g
    ensures Draw(g, makes, heavy).0 in {0, 1}
  {
    var i := FindLoaded(g, makes, 0);
    forall s: Slot ensures Loaded(g, makes, s) <==> LoadedSheath(g, makes, s) {}
    if i < NUM_WEARS { assert Loaded(g, makes, i); }
  }

  /** Draw takes the first thing out of the first filled sheath into the hand, unless it takes two
      hands beside a shield or is too heavy. */
  lemma DrawMeans(g: Gear, makes: seq<Make>, heavy: set<Item>, s: Slot)
    requires Shaped(g, makes) && g.worn[18].None?
    requires Loaded(g, makes, s) && forall t: Slot :: t < s ==> !Loaded(g, makes, t)
    ensures var (r, h) := Draw(g, makes, heavy);
            var sheath := g.worn[s].value;
            var x := g.inside[sheath][0];
            && r == 1
            && if (g.worn[19].Some? && makes[x].twoHanded) || x in heavy then h == g else
                 && Moved(g, h, 18, Some(x), g.carried)
                 && |h.inside| == |g.inside| && g.inside[sheath] == [x] + h.inside[sheath]
                 && forall k :: 0 <= k < |g.inside| && k != sheath ==> h.inside[k] == g.inside[k]
  {
    var i := FindLoaded(g, makes, 0);
    assert LoadedSheath(g, makes, s);
    if i < s { assert Loaded(g, makes, i); }
  }

  /** An empty sheath of the weapon's kind is worn in the slot. */
  ghost predicate Fitting(g: Gear, makes: seq<Make>, weapon: Item, s: Slot)
    requires Shaped(g, makes) && weapon < |makes|
  {
    && g.worn[s].Some? && g.inside[g.worn[s].value] == []
    && var m, blade := makes[g.worn[s].value], makes[weapon].blade;
       (blade == ShortBlade && m.daggerSheath) || (blade == LongBlade && m.swordSheath) || (blade == Spear && m.spearSheath)
  }

  /** Sheath does nothing without a weapon in hand, or without an empty sheath for it. */
  lemma SheathesNothing(g: Gear, makes: seq<Make>)
    requires Shaped(g, makes)
    ensures Sheathe(g, makes).0 == -1 <==> g.worn[18].None?
    ensures Sheathe(g, makes).0 == 0 <==>
            g.worn[18].Some? && forall s: Slot :: !Fitting(g, makes, g.worn[18].value, s)
    ensures Sheathe(g, makes).0 != 1 ==> Sheathe(g, makes).1 == g
    ensures Sheathe(g, makes).0 in {-1, 0, 1}
  {
    if g.worn[18].Some? {
      var weapon := g.worn[18].value;
      var i := FindEmpty(g, makes, weapon, 0);
      forall s: Slot ensures Fitting(g, makes, weapon, s) <==> EmptySheath(g, makes, weapon, s) {}
      if i < NUM_WEARS { assert Fitting(g, makes, weapon, i); }
    }
  }

  /** Sheath moves the weapon from the hand into the first empty sheath for it, and nowhere when
      that is the weapon itself. */
  lemma SheatheMeans(g: Gear, makes: seq<Make>, s: Slot)
    requires Shaped(g, makes) && g.worn[18].Some?
    requires Fitting(g, makes, g.worn[18].value, s) && forall t: Slot :: t < s ==> !Fitting(g, makes, g.worn[18].value, t)
    ensures var (r, h) := Sheathe(g, makes);
            var weapon, sheath := g.worn[18].value, g.worn[s].value;
            && r == 1 && Moved(g, h, 18, None, g.carried)
            && |h.inside| == |g.inside| && h.inside[sheath] == (if s == 18 || sheath == weapon then [] else [weapon])
            && forall k :: 0 <= k < |g.inside| && k != sheath ==> h.inside[k] == g.inside[k]
  {
    var weapon := g.worn[18].value;
    var i := FindEmpty(g, makes, weapon, 0);
    assert EmptySheath(g, makes, weapon, s);
    if i < s { assert Fitting(g, makes, weapon, i); }
  }

  // ----- The commands on a character -----

  class Wearer {
    const worn: array<Option<Item>>
    var carried: seq<Item>
    var inside: seq<seq<Item>>

    constructor (count: nat)
      ensures fresh(worn) && worn.Length == NUM_WEARS && carried == [] && |inside| == count
      ensures forall s :: 0 <= s < NUM_WEARS ==> worn[s].None?
      ensures forall k :: 0 <= k < count ==> inside[k] == []
    {
      worn := new Option<Item>[NUM_WEARS](_ => None);
      carried := [];
      inside := seq(count, _ => []);
    }

    function TheGear(): Gear
      reads this, worn
    {
      Gear(worn[..], carried, inside)
    }

    method Draw(makes: seq<Make>, heavy: set<Item>) returns (result: int)
      requires Shaped(TheGear(), makes)
      modifies this, worn
      ensures (result, TheGear()) == Equipment.Draw(old(TheGear()), makes, heavy)
    {
      if worn[WEAR_WIELD].Some? { return 1; }
      var i := 0;
      while i < NUM_WEARS
        invariant 0 <= i <= NUM_WEARS
        invariant TheGear() == old(TheGear())
        invariant FindLoaded(TheGear(), makes, 0) == FindLoaded(TheGear(), makes, i)
      {
        if worn[i].Some? {
          var item := worn[i].value;
          if (makes[item].daggerSheath || makes[item].swordSheath || makes[item].spearSheath) && inside[item] != [] {
            if !CanDraw(TheGear(), makes, heavy, inside[item][0]) { return 1; }
            break;
          }
        }
        i := i + 1;
      }
      if i == NUM_WEARS { return 0; }
      var sheath := worn[i].value;
      var item := inside[sheath][0];
      inside := inside[sheath := inside[sheath][1..]];
      worn[WEAR_WIELD] := Some(item);
      result := 1;
    }

    method Sheath(makes: seq<Make>) returns (result: int)
      requires Shaped(TheGear(), makes)
      modifies this, worn
      ensures (result, TheGear()) == Sheathe(old(TheGear()), makes)
    {
      if worn[WEAR_WIELD].None? { return -1; }
      var weapon := worn[WEAR_WIELD].value;
      var i := 0;
      while i < NUM_WEARS
        invariant 0 <= i <= NUM_WEARS
        invariant TheGear() == old(TheGear())
        invariant FindEmpty(TheGear(), makes, weapon, 0) == FindEmpty(TheGear(), makes, weapon, i)
      {
        if worn[i].Some? && inside[worn[i].value] == [] {
          if Takes(makes[worn[i].value], makes[weapon]) { break; }
        }
        i := i + 1;
      }
      if i == NUM_WEARS { return 0; }
      worn[WEAR_WIELD] := None;
      var into := worn[i];
      if into.Some? && into.value != weapon {
        inside := inside[into.value := [weapon] + inside[into.value]];
      }
      result := 1;
    }

    method PerformWear(makes: seq<Make>, heavy: set<Item>, item: Item, slot: Slot, allowed: bool)
      requires Shaped(TheGear(), makes) && item in carried
      modifies this, worn
      ensures TheGear() == Wear(old(TheGear()), makes, heavy, item, slot, allowed)
    {
      if slot !in makes[item].fits { return; }
      if worn[WEAR_SHIELD].Some? && makes[item].twoHanded { return; }
      if worn[WEAR_WIELD].Some? && slot == WEAR_SHIELD && makes[worn[WEAR_WIELD].value].twoHanded { return; }
      if slot == WEAR_WIELD && item in heavy { return; }
      var place := slot;
      if slot == WEAR_FINGER_R || slot == WEAR_NECK_1 || slot == WEAR_WRIST_R || slot == WEAR_EAR_1 {
        if worn[place].Some? { place := place + 1; }
      }
      if worn[place].Some? || !allowed { return; }
      carried := Without(carried, item);
      worn[place] := Some(item);
    }

    method PerformRemove(makes: seq<Make>, slot: Slot, capacity: int, allowed: bool)
      requires Shaped(TheGear(), makes)
      modifies this, worn
      ensures TheGear() == Remove(old(TheGear()), makes, slot, capacity, allowed)
    {
      if worn[slot].None? || makes[worn[slot].value].cursed || |carried| >= capacity || !allowed { return; }
      var item := worn[slot].value;
      worn[slot] := None;
      carried := [item] + carried;
    }
  }
}
