/** Rooms and the exits between them. */
module Exits {
  import opened Options

  type Room = nat

  const NUM_OF_DIRS: nat := 6

  datatype Exit = Exit(toRoom: Option<Room>, hiddenLevel: int, closed: bool, disabled: bool)
}
