/** The parts of the game's Character and Follower classes that following and moving use. */
module Characters {

  import opened Exits

  const LVL_IMMORT := 100

  class Character {
    const npc: bool
    const race: int
    const level: int
    var linked: bool      // has a descriptor
    var master: Character?
    var followers: Follower?
    var grouped: bool     // AFF_GROUP
    var purged: bool
    var room: Room
    var standing: bool    // GET_POS is at least POS_STANDING
    var fighting: bool
    var atTable: bool     // PokerData or PokerTable is set

    constructor (npc: bool, race: int, level: int, room: Room)
      ensures this.npc == npc && this.race == race && this.level == level && this.room == room
      ensures master == null && followers == null && !grouped && !purged && linked == !npc
      ensures standing && !fighting && !atTable
    {
      this.npc, this.race, this.level, this.room := npc, race, level, room;
      linked, master, followers, grouped, purged := !npc, null, null, false, false;
      standing, fighting, atTable := true, false, false;
    }
  }

  /** A node of a leader's list of followers. */
  class Follower {
    const follower: Character
    var next: Follower?

    constructor (follower: Character, next: Follower?)
      ensures this.follower == follower && this.next == next
    {
      this.follower, this.next := follower, next;
    }
  }
}
