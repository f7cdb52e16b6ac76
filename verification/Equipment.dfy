/** Wearing, removing, drawing and sheathing: where a character's items are. */
module Equipment {

  import opened Options
  import opened Seqs

  type Item = nat

  const NUM_WEARS: nat := 22
  const WEAR_NECK_1: nat := 2
  const WEAR_EAR_1: nat := 4
  const WEAR_WRIST_R: nat := 13
  const WEAR_FINGER_R: nat := 16
  const WEAR_WIELD: nat := 18
  const WEAR_SHIELD: nat := 19

  type Slot = s: nat | s < NUM_WEARS

  datatype Blade = ShortBlade | LongBlade | Spear | NoBlade

  /** What the builders gave an item: the sheath flags, the kind of weapon, whether it takes two
      hands or is cursed, and the slots it is made for. */
  datatype Make = Make(daggerSheath: bool, swordSheath: bool, spearSheath: bool, blade: Blade,
                       twoHanded: bool, cursed: bool, fits: set<Slot>)

  /** Who wears, carries and contains what; `inside` lists the contents of every item. */
  datatype Gear = Gear(worn: seq<Option<Item>>, carried: seq<Item>, inside: seq<seq<Item>>)

  predicate Shaped(g: Gear, makes: seq<Make>) {
    && |g.worn| == NUM_WEARS && |g.inside| == |makes|
    && (forall s :: 0 <= s < NUM_WEARS && g.worn[s].Some? ==> g.worn[s].value < |makes|)
    && (forall i :: 0 <= i < |g.carried| ==> g.carried[i] < |makes|)
    && (forall k, i :: 0 <= k < |makes| && 0 <= i < |g.inside[k]| ==> g.inside[k][i] < |makes|)
  }

  predicate IsSheath(m: Make) {
    m.daggerSheath || m.swordSheath || m.spearSheath
  }

  /** The sheath takes the weapon. */
  predicate Takes(sheath: Make, weapon: Make) {
    || (sheath.daggerSheath && weapon.blade == ShortBlade)
    || (sheath.swordSheath && weapon.blade == LongBlade)
    || (sheath.spearSheath && weapon.blade == Spear)
  }

  // ----- Sheathing and drawing -----

  predicate EmptySheath(g: Gear, makes: seq<Make>, weapon: Item, s: nat)
    requires Shaped(g, makes) && weapon < |makes| && s < NUM_WEARS
  {
    g.worn[s].Some? && g.inside[g.worn[s].value] == [] && Takes(makes[g.worn[s].value], makes[weapon])
  }

  predicate LoadedSheath(g: Gear, makes: seq<Make>, s: nat)
    requires Shaped(g, makes) && s < NUM_WEARS
  {
    g.worn[s].Some? && IsSheath(makes[g.worn[s].value]) && g.inside[g.worn[s].value] != []
  }

  /** The first slot, from s on, with an empty sheath for the weapon; NUM_WEARS if there is none. */
  function FindEmpty(g: Gear, makes: seq<Make>, weapon: Item, s: nat): (r: nat)
    requires Shaped(g, makes) && weapon < |makes| && s <= NUM_WEARS
    ensures s <= r <= NUM_WEARS && (r < NUM_WEARS ==> EmptySheath(g, makes, weapon, r))
    ensures forall j :: s <= j < r ==> !EmptySheath(g, makes, weapon, j)
    decreases NUM_WEARS - s
  {
    if s == NUM_WEARS || EmptySheath(g, makes, weapon, s) then s else FindEmpty(g, makes, weapon, s + 1)
  }

  function FindLoaded(g: Gear, makes: seq<Make>, s: nat): (r: nat)
    requires Shaped(g, makes) && s <= NUM_WEARS
    ensures s <= r <= NUM_WEARS && (r < NUM_WEARS ==> LoadedSheath(g, makes, r))
    ensures forall j :: s <= j < r ==> !LoadedSheath(g, makes, j)
    decreases NUM_WEARS - s
  {
    if s == NUM_WEARS || LoadedSheath(g, makes, s) then s else FindLoaded(g, makes, s + 1)
  }

  /** obj_to_obj, which refuses to put an object into itself or into nothing. */
  function PutInside(g: Gear, item: Item, into: Option<Item>): Gear
    requires into.Some? ==> into.value < |g.inside|
  {
    if into.None? || into.value == item then g
    else g.(inside := g.inside[into.value := [item] + g.inside[into.value]])
  }

  /** Sheath, with its result. The weapon leaves the hand before it enters the sheath. */
  function Sheathe(g: Gear, makes: seq<Make>): (int, Gear)
    requires Shaped(g, makes)
  {
    if g.worn[WEAR_WIELD].None? then (-1, g) else
      var weapon := g.worn[WEAR_WIELD].value;
      var i := FindEmpty(g, makes, weapon, 0);
      if i == NUM_WEARS then (0, g)
      else (1, PutInside(g.(worn := g.worn[WEAR_WIELD := None]), weapon, g.worn[i]))
  }

  /** `heavy` holds the items that weigh more, contents included, than the character is strong. */
  predicate CanDraw(g: Gear, makes: seq<Make>, heavy: set<Item>, item: Item)
    requires Shaped(g, makes) && item < |makes|
  {
    !(g.worn[WEAR_SHIELD].Some? && makes[item].twoHanded) && item !in heavy
  }

  /** Draw, with its result. */
  function Draw(g: Gear, makes: seq<Make>, heavy: set<Item>): (int, Gear)
    requires Shaped(g, makes)
  {
    if g.worn[WEAR_WIELD].Some? then (1, g) else
      var i := FindLoaded(g, makes, 0);
      if i == NUM_WEARS then (0, g) else
        var sheath := g.worn[i].value;
        var item := g.inside[sheath][0];
        if !CanDraw(g, makes, heavy, item) then (1, g)
        else (1, g.(worn := g.worn[WEAR_WIELD := Some(item)], inside := g.inside[sheath := g.inside[sheath][1..]]))
  }

  // ----- Wearing and removing -----

  /** Neck, ear, wrist and finger have a second place. */
  function Place(g: Gear, slot: Slot): Slot
    requires |g.worn| == NUM_WEARS
  {
    if slot in {WEAR_NECK_1, WEAR_EAR_1, WEAR_WRIST_R, WEAR_FINGER_R} && g.worn[slot].Some? then slot + 1 else slot
  }

  /** CanWear; `allowed` stands for the checks of clan gear and of scripts. */
  predicate CanWear(g: Gear, makes: seq<Make>, heavy: set<Item>, item: Item, slot: Slot, allowed: bool)
    requires Shaped(g, makes) && item < |makes|
  {
    && slot in makes[item].fits
    && !(g.worn[WEAR_SHIELD].Some? && makes[item].twoHanded)
    && !(g.worn[WEAR_WIELD].Some? && slot == WEAR_SHIELD && makes[g.worn[WEAR_WIELD].value].twoHanded)
    && !(slot == WEAR_WIELD && item in heavy)
    && g.worn[Place(g, slot)].None? && allowed
  }

  /** performWear of a carried item. */
  function Wear(g: Gear, makes: seq<Make>, heavy: set<Item>, item: Item, slot: Slot, allowed: bool): Gear
    requires Shaped(g, makes)
  {
    if item !in g.carried || !CanWear(g, makes, heavy, item, slot, allowed) then g
    else g.(worn := g.worn[Place(g, slot) := Some(item)], carried := Without(g.carried, item))
  }

  /** performRemove, for a character who can carry `capacity` things. */
  function Remove(g: Gear, makes: seq<Make>, slot: Slot, capacity: int, allowed: bool): Gear
    requires Shaped(g, makes)
  {
    if g.worn[slot].None? || makes[g.worn[slot].value].cursed || |g.carried| >= capacity || !allowed then g
    else g.(worn := g.worn[slot := None], carried := [g.worn[slot].value] + g.carried)
  }
}
