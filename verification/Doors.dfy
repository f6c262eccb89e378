/**
 Doors have two sides, each an exit of its own room with its own flags. Every command works on
 the near side and, if the far side leads straight back, on that too.
 */
module Doors {
  import opened Directions

  class Exit {
    var toRoom: RoomDoors?
    var closed: bool
    var locked: bool
    const isDoor: bool
    const pickProof: bool
    const key: int

    constructor (toRoom: RoomDoors?, closed: bool, locked: bool, isDoor: bool, pickProof: bool, key: int)
      ensures this.toRoom == toRoom && this.closed == closed && this.locked == locked
      ensures this.isDoor == isDoor && this.pickProof == pickProof && this.key == key
    {
      this.toRoom, this.closed, this.locked := toRoom, closed, locked;
      this.isDoor, this.pickProof, this.key := isDoor, pickProof, key;
    }
  }

  /** A room's exits; who is in it is not needed here. */
  class RoomDoors {
    const exits: map<Direction, Exit>

    constructor (exits: map<Direction, Exit>)
      ensures this.exits == exits
    {
      this.exits := exits;
    }
  }

  /** Who is at the door: a mortal or not, with the right key or not. */
  datatype Actor = Actor(mortal: bool, hasKey: bool)

  datatype Outcome = Done | NoDoor | AlreadyOpen | AlreadyClosed | NotClosed | Locked | NoKeyhole | NoKey
                   | AlreadyLocked | AlreadyUnlocked | Failed

  /** Every exit belongs to one room and one direction; rooms they lead to are known. */
  ghost predicate Built(rooms: set<RoomDoors>)
    reads (set r, d | r in rooms && d in r.exits :: r.exits[d])`toRoom
  {
    && (forall r, d :: r in rooms && d in r.exits ==> r.exits[d].toRoom == null || r.exits[d].toRoom in rooms)
    && (forall r, d, s, e :: r in rooms && s in rooms && d in r.exits && e in s.exits && r.exits[d] == s.exits[e] ==>
          r == s && d == e)
  }

  /** The exit on the other side, if the exit's target leads straight back. */
  function FarSide(room: RoomDoors, d: Direction): (rev: Exit?)
    requires d in room.exits
    reads {room.exits[d]}`toRoom
    reads (if room.exits[d].toRoom == null then {} else room.exits[d].toRoom.exits.Values)`toRoom
  {
    var to := room.exits[d].toRoom;
    if to != null && Reverse(d) in to.exits && to.exits[Reverse(d)].toRoom == room then to.exits[Reverse(d)] else null
  }

  /**
   The far side is the exit the opposite way in the room behind, if that leads straight back, and
   otherwise there is none.
   */
  lemma FarSideExactly(room: RoomDoors, d: Direction, to: RoomDoors, e: Direction)
    requires d in room.exits && room.exits[d].toRoom == to && e in to.exits && Opposite(d, e)
    ensures if to.exits[e].toRoom == room then FarSide(room, d) == to.exits[e] else FarSide(room, d) == null
  {
    ReverseGoesBack(d, e);
  }

  /** Two sides of one door are in the same state. */
  ghost predicate Agree(rooms: set<RoomDoors>)
    reads set r, d | r in rooms && d in r.exits :: r.exits[d]
    requires Built(rooms)
  {
    forall r, d :: r in rooms && d in r.exits && FarSide(r, d) != null ==>
      r.exits[d].closed == FarSide(r, d).closed && r.exits[d].locked == FarSide(r, d).locked
  }

  ghost predicate LockedImpliesClosed(rooms: set<RoomDoors>)
    reads set r, d | r in rooms && d in r.exits :: r.exits[d]
  {
    forall r, d :: r in rooms && d in r.exits && r.exits[d].locked ==> r.exits[d].closed
  }

  ghost function AllExits(rooms: set<RoomDoors>): set<Exit> {
    set r, d | r in rooms && d in r.exits :: r.exits[d]
  }

  /** The far side's far side is the near side, and the two are different objects. */
  lemma FarSideOfFarSide(rooms: set<RoomDoors>, room: RoomDoors, d: Direction)
    requires Built(rooms) && room in rooms && d in room.exits && FarSide(room, d) != null
    ensures var to := room.exits[d].toRoom;
            && to in rooms && Reverse(d) in to.exits && FarSide(room, d) == to.exits[Reverse(d)]
            && FarSide(to, Reverse(d)) == room.exits[d]
            && room.exits[d] != FarSide(room, d)
  {
    ReverseTwice(d);
  }

  /** The near side of a door and, if it leads straight back, the far side. */
  ghost function Sides(room: RoomDoors, d: Direction): set<Exit>
    requires d in room.exits
    reads {room.exits[d]}`toRoom
    reads (if room.exits[d].toRoom == null then {} else room.exits[d].toRoom.exits.Values)`toRoom
  {
    {room.exits[d]} + var rev := FarSide(room, d); if rev == null then {} else {rev}
  }

  /** If one side of a door is a side of the door at hand, so is its other side. */
  lemma FarSideToo(rooms: set<RoomDoors>, room: RoomDoors, d: Direction, r: RoomDoors, e: Direction)
    requires Built(rooms) && room in rooms && d in room.exits && r in rooms && e in r.exits && FarSide(r, e) != null
    requires r.exits[e] in Sides(room, d)
    ensures FarSide(r, e) in Sides(room, d)
  {
    if r.exits[e] == room.exits[d] {
      assert r == room && e == d;
    } else {
      FarSideOfFarSide(rooms, room, d);
      assert r == room.exits[d].toRoom && e == Reverse(d);
    }
  }

  lemma SidesPair(rooms: set<RoomDoors>, room: RoomDoors, d: Direction, r: RoomDoors, e: Direction)
    requires Built(rooms) && room in rooms && d in room.exits && r in rooms && e in r.exits && FarSide(r, e) != null
    ensures r.exits[e] in Sides(room, d) <==> FarSide(r, e) in Sides(room, d)
  {
    FarSideOfFarSide(rooms, r, e);
    if r.exits[e] in Sides(room, d) {
      FarSideToo(rooms, room, d, r, e);
    }
    if FarSide(r, e) in Sides(room, d) {
      FarSideToo(rooms, room, d, r.exits[e].toRoom, Reverse(e));
    }
  }

  lemma AllSidesPair(rooms: set<RoomDoors>, room: RoomDoors, d: Direction)
    requires Built(rooms) && room in rooms && d in room.exits
    ensures forall r, e :: r in rooms && e in r.exits && FarSide(r, e) != null ==>
        (r.exits[e] in Sides(room, d) <==> FarSide(r, e) in Sides(room, d))
  {
    forall r, e | r in rooms && e in r.exits && FarSide(r, e) != null
      ensures r.exits[e] in Sides(room, d) <==> FarSide(r, e) in Sides(room, d)
    {
      SidesPair(rooms, room, d, r, e);
    }
  }

  /** Both sides of a door are exits of known rooms. */
  lemma SidesKnown(rooms: set<RoomDoors>, room: RoomDoors, d: Direction, x: Exit)
    requires Built(rooms) && room in rooms && d in room.exits && x in Sides(room, d)
    ensures exists r, e :: r in rooms && e in r.exits && r.exits[e] == x
  {
    if x == room.exits[d] {
      assert room in rooms && d in room.exits;
    } else {
      var to := room.exits[d].toRoom;
      assert to in rooms && Reverse(d) in to.exits && to.exits[Reverse(d)] == x;
    }
  }

  /** `closed` on both sides, as `do_open` and `do_close` set it. */
  method SetClosed(room: RoomDoors, d: Direction, value: bool)
    requires d in room.exits
    modifies Sides(room, d)`closed
    ensures forall x :: x in Sides(room, d) ==> x.closed == value
  {
    room.exits[d].closed := value;
    var rev := FarSide(room, d);
    if rev != null {
      rev.closed := value;
    }
  }

  /** `locked` on both sides, as `do_lock`, `do_unlock` and `do_pick` set it. */
  method SetLocked(room: RoomDoors, d: Direction, value: bool)
    requires d in room.exits
    modifies Sides(room, d)`locked
    ensures forall x :: x in Sides(room, d) ==> x.locked == value
  {
    room.exits[d].locked := value;
    var rev := FarSide(room, d);
    if rev != null {
      rev.locked := value;
    }
  }

  /** Whether a named direction has a door at all (`find_door`). */
  predicate IsDoor(room: RoomDoors, d: Direction) {
    d in room.exits && room.exits[d].isDoor
  }

  lemma DoorKnown(rooms: set<RoomDoors>, room: RoomDoors, d: Direction)
    requires Built(rooms) && room in rooms && d in room.exits
    ensures forall r, e :: r in rooms && e in r.exits && FarSide(r, e) != null ==>
        (r.exits[e] in Sides(room, d) <==> FarSide(r, e) in Sides(room, d))
    ensures forall x :: x in Sides(room, d) ==> exists r, e :: r in rooms && e in r.exits && r.exits[e] == x
  {
    AllSidesPair(rooms, room, d);
    forall x | x in Sides(room, d) ensures exists r, e :: r in rooms && e in r.exits && r.exits[e] == x {
      SidesKnown(rooms, room, d, x);
    }
  }

  method OpenBoth(room: RoomDoors, d: Direction, ghost rooms: set<RoomDoors>)
    requires Built(rooms) && room in rooms && d in room.exits
    modifies Sides(room, d)`closed
    ensures Built(rooms) && (old(Agree(rooms)) ==> Agree(rooms))
    ensures forall x :: x in old(Sides(room, d)) ==> !x.closed
    ensures old(LockedImpliesClosed(rooms)) ==>
        (LockedImpliesClosed(rooms) <==> forall x :: x in old(Sides(room, d)) ==> !x.locked)
  {
    DoorKnown(rooms, room, d);
    SetClosed(room, d, false);
  }

  /**
   `do_open`. Locks stay on closed doors exactly if neither side was locked: the near side is
   checked, the far side is not.
   */
  method DoOpen(room: RoomDoors, d: Direction, ghost rooms: set<RoomDoors>) returns (outcome: Outcome)
    requires Built(rooms) && room in rooms
    modifies (if d in room.exits then Sides(room, d) else {})`closed
    ensures Built(rooms) && (old(Agree(rooms)) ==> Agree(rooms))
    ensures outcome == Done <==> IsDoor(room, d) && old(room.exits[d].closed && !room.exits[d].locked)
    ensures outcome != Done && d in room.exits ==>
        forall x :: x in old(Sides(room, d)) ==> x.closed == old(x.closed)
    ensures outcome == Done ==> forall x :: x in old(Sides(room, d)) ==> !x.closed
    ensures outcome == Done && old(LockedImpliesClosed(rooms)) ==>
        (LockedImpliesClosed(rooms) <==> forall x :: x in old(Sides(room, d)) ==> !x.locked)
    ensures old(Agree(rooms) && LockedImpliesClosed(rooms)) ==> LockedImpliesClosed(rooms)
  {
    if !IsDoor(room, d) {
      return NoDoor;
    }
    if !room.exits[d].closed {
      return AlreadyOpen;
    }
    if room.exits[d].locked {
      return Locked;
    }
    OpenBoth(room, d, rooms);
    return Done;
  }

  /** `do_close`. Closing is always safe for locks. */
  method DoClose(room: RoomDoors, d: Direction, ghost rooms: set<RoomDoors>) returns (outcome: Outcome)
    requires Built(rooms) && room in rooms
    modifies (if d in room.exits then Sides(room, d) else {})`closed
    ensures Built(rooms) && (old(Agree(rooms)) ==> Agree(rooms))
    ensures outcome == Done <==> IsDoor(room, d) && !old(room.exits[d].closed)
    ensures outcome != Done && d in room.exits ==>
        forall x :: x in old(Sides(room, d)) ==> x.closed == old(x.closed)
    ensures outcome == Done ==> forall x :: x in old(Sides(room, d)) ==> x.closed
    ensures old(LockedImpliesClosed(rooms)) ==> LockedImpliesClosed(rooms)
  {
    if !IsDoor(room, d) {
      return NoDoor;
    }
    if room.exits[d].closed {
      return AlreadyClosed;
    }
    DoorKnown(rooms, room, d);
    SetClosed(room, d, true);
    return Done;
  }

  method LockBoth(room: RoomDoors, d: Direction, ghost rooms: set<RoomDoors>)
    requires Built(rooms) && room in rooms && d in room.exits
    modifies Sides(room, d)`locked
    ensures Built(rooms) && (old(Agree(rooms)) ==> Agree(rooms))
    ensures forall x :: x in old(Sides(room, d)) ==> x.locked
    ensures old(LockedImpliesClosed(rooms)) ==>
        (LockedImpliesClosed(rooms) <==> forall x :: x in old(Sides(room, d)) ==> x.closed)
  {
    DoorKnown(rooms, room, d);
    SetLocked(room, d, true);
  }

  /** `do_lock`. Locks stay on closed doors exactly if the far side was closed too. */
  method DoLock(room: RoomDoors, d: Direction, actor: Actor, ghost rooms: set<RoomDoors>) returns (outcome: Outcome)
    requires Built(rooms) && room in rooms
    modifies (if d in room.exits then Sides(room, d) else {})`locked
    ensures Built(rooms) && (old(Agree(rooms)) ==> Agree(rooms))
    ensures outcome == Done <==>
        && IsDoor(room, d) && old(room.exits[d].closed && !room.exits[d].locked)
        && room.exits[d].key >= 0 && actor.hasKey
    ensures outcome != Done && d in room.exits ==>
        forall x :: x in old(Sides(room, d)) ==> x.locked == old(x.locked)
    ensures outcome == Done ==> forall x :: x in old(Sides(room, d)) ==> x.locked
    ensures outcome == Done && old(LockedImpliesClosed(rooms)) ==>
        (LockedImpliesClosed(rooms) <==> forall x :: x in old(Sides(room, d)) ==> x.closed)
    ensures old(Agree(rooms) && LockedImpliesClosed(rooms)) ==> LockedImpliesClosed(rooms)
  {
    if !IsDoor(room, d) {
      return NoDoor;
    }
    if !room.exits[d].closed {
      return NotClosed;
    }
    if room.exits[d].key < 0 {
      return NoKeyhole;
    }
    if !actor.hasKey {
      return NoKey;
    }
    if room.exits[d].locked {
      return AlreadyLocked;
    }
    LockBoth(room, d, rooms);
    return Done;
  }

  /** Unlocking both sides keeps every door as sound as it was. */
  method ReleaseLock(room: RoomDoors, d: Direction, ghost rooms: set<RoomDoors>)
    requires Built(rooms) && room in rooms && d in room.exits
    modifies Sides(room, d)`locked
    ensures Built(rooms) && (old(Agree(rooms)) ==> Agree(rooms))
    ensures old(LockedImpliesClosed(rooms)) ==> LockedImpliesClosed(rooms)
    ensures forall x :: x in old(Sides(room, d)) ==> !x.locked
  {
    DoorKnown(rooms, room, d);
    SetLocked(room, d, false);
  }

  /** `do_unlock`. Unlocking is always safe for locks. */
  method DoUnlock(room: RoomDoors, d: Direction, actor: Actor, ghost rooms: set<RoomDoors>) returns (outcome: Outcome)
    requires Built(rooms) && room in rooms
    modifies (if d in room.exits then Sides(room, d) else {})`locked
    ensures Built(rooms) && (old(Agree(rooms)) ==> Agree(rooms))
    ensures outcome == Done <==>
        && IsDoor(room, d) && old(room.exits[d].closed && room.exits[d].locked)
        && room.exits[d].key >= 0 && actor.hasKey
    ensures outcome != Done && d in room.exits ==>
        forall x :: x in old(Sides(room, d)) ==> x.locked == old(x.locked)
    ensures outcome == Done ==> forall x :: x in old(Sides(room, d)) ==> !x.locked
    ensures old(LockedImpliesClosed(rooms)) ==> LockedImpliesClosed(rooms)
  {
    if !IsDoor(room, d) {
      return NoDoor;
    }
    if !room.exits[d].closed {
      return NotClosed;
    }
    if room.exits[d].key < 0 {
      return NoKeyhole;
    }
    if !actor.hasKey {
      return NoKey;
    }
    if !room.exits[d].locked {
      return AlreadyUnlocked;
    }
    ReleaseLock(room, d, rooms);
    return Done;
  }

  /** `do_pick` once the guards and the skill roll have let it through. Immortals skip every check but one. */
  method DoPick(room: RoomDoors, d: Direction, actor: Actor, ghost rooms: set<RoomDoors>) returns (outcome: Outcome)
    requires Built(rooms) && room in rooms
    modifies (if d in room.exits then Sides(room, d) else {})`locked
    ensures Built(rooms) && (old(Agree(rooms)) ==> Agree(rooms))
    ensures outcome == Done <==>
        (IsDoor(room, d) && old(room.exits[d].locked)
         && (actor.mortal ==> old(room.exits[d].closed) && room.exits[d].key >= 0 && !room.exits[d].pickProof))
    ensures outcome != Done && d in room.exits ==>
        forall x :: x in old(Sides(room, d)) ==> x.locked == old(x.locked)
    ensures outcome == Done ==> forall x :: x in old(Sides(room, d)) ==> !x.locked
    ensures old(LockedImpliesClosed(rooms)) ==> LockedImpliesClosed(rooms)
  {
    if !IsDoor(room, d) {
      return NoDoor;
    }
    if !room.exits[d].closed && actor.mortal {
      return NotClosed;
    }
    if room.exits[d].key < 0 && actor.mortal {
      return NoKeyhole;
    }
    if !room.exits[d].locked {
      return AlreadyUnlocked;
    }
    if room.exits[d].pickProof && actor.mortal {
      return Failed;
    }
    ReleaseLock(room, d, rooms);
    return Done;
  }

  // ----- why the two sides must agree

  /** A door from the near side of which nothing tells that the far side is locked, or stands open. */
  ghost predicate OutOfStep(room: RoomDoors, d: Direction, farClosed: bool, farLocked: bool)
    reads {if d in room.exits then room.exits[d] else null}
    reads (if d in room.exits && room.exits[d].toRoom != null then room.exits[d].toRoom.exits.Values else {})
  {
    && IsDoor(room, d) && room.exits[d].closed && !room.exits[d].locked && room.exits[d].key >= 0
    && FarSide(room, d) != null && FarSide(room, d).closed == farClosed && FarSide(room, d).locked == farLocked
  }

  /** Two rooms and one door between them, closed on the near side, and on the far side as a reset may leave it. */
  method TwoRooms(farClosed: bool, farLocked: bool) returns (room: RoomDoors, d: Direction, rooms: set<RoomDoors>)
    requires farLocked ==> farClosed
    ensures Built(rooms) && room in rooms && LockedImpliesClosed(rooms) && OutOfStep(room, d, farClosed, farLocked)
    ensures fresh(rooms) && fresh(AllExits(rooms))
  {
    var near := new Exit(null, true, false, true, false, 1);
    var far := new Exit(null, farClosed, farLocked, true, false, 1);
    d := East;
    room := new RoomDoors(map[East := near]);
    var other := new RoomDoors(map[West := far]);
    near.toRoom, far.toRoom := other, room;
    rooms := {room, other};
  }

  /** Near side closed, far side closed and locked: opening leaves the lock on an open door. */
  method OpeningCanFail() returns (rooms: set<RoomDoors>, outcome: Outcome)
    ensures Built(rooms) && outcome == Done && !LockedImpliesClosed(rooms)
  {
    var room, d;
    room, d, rooms := TwoRooms(true, true);
    assert LockedImpliesClosed(rooms);
    outcome := DoOpen(room, d, rooms);
    assert FarSide(room, d) in Sides(room, d);
  }

  /** Near side closed, far side open: locking puts a lock on an open door. */
  method LockingCanFail() returns (rooms: set<RoomDoors>, outcome: Outcome)
    ensures Built(rooms) && outcome == Done && !LockedImpliesClosed(rooms)
  {
    var room, d;
    room, d, rooms := TwoRooms(false, false);
    assert LockedImpliesClosed(rooms);
    outcome := DoLock(room, d, Actor(true, true), rooms);
    assert FarSide(room, d) in Sides(room, d);
  }

  // ----- whole runs

  datatype Verb = Open | Close | Lock | Unlock | Pick

  datatype Command = Command(verb: Verb, room: RoomDoors, direction: Direction, actor: Actor)

  method Perform(c: Command, ghost rooms: set<RoomDoors>) returns (outcome: Outcome)
    requires Built(rooms) && c.room in rooms && Agree(rooms) && LockedImpliesClosed(rooms)
    modifies (if c.direction in c.room.exits then Sides(c.room, c.direction) else {})`closed
    modifies (if c.direction in c.room.exits then Sides(c.room, c.direction) else {})`locked
    ensures Built(rooms) && Agree(rooms) && LockedImpliesClosed(rooms)
  {
    match c.verb {
      case Open => outcome := DoOpen(c.room, c.direction, rooms);
      case Close => outcome := DoClose(c.room, c.direction, rooms);
      case Lock => outcome := DoLock(c.room, c.direction, c.actor, rooms);
      case Unlock => outcome := DoUnlock(c.room, c.direction, c.actor, rooms);
      case Pick => outcome := DoPick(c.room, c.direction, c.actor, rooms);
    }
  }

  /**
   From any map whose doors agree on both sides and are locked only when closed, every sequence
   of commands by anybody, at self-loops and one-way exits too, leaves them so.
   */
  method PerformAll(commands: seq<Command>, ghost rooms: set<RoomDoors>)
    requires Built(rooms) && Agree(rooms) && LockedImpliesClosed(rooms)
    requires forall i :: 0 <= i < |commands| ==> commands[i].room in rooms
    modifies AllExits(rooms)`closed, AllExits(rooms)`locked
    ensures Built(rooms) && Agree(rooms) && LockedImpliesClosed(rooms)
  {
    for i := 0 to |commands|
      invariant Built(rooms) && Agree(rooms) && LockedImpliesClosed(rooms)
    {
      var c := commands[i];
      if c.direction in c.room.exits {
        DoorKnown(rooms, c.room, c.direction);
      }
      var outcome := Perform(c, rooms);
    }
  }
}
