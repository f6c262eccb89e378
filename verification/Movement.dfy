/**
 Walking, and the followers who come along. Rooms list their people; a character who moves pulls
 its standing followers after it, they pull theirs, and so on, over a follower graph that may
 have cycles. Whether a character could take the exit on its own is one predicate `may` of the character.
 */
module Movement {
  import opened Directions
  import opened Folding

  datatype Position = Dead | Mortal | Incap | Stunned | Sleeping | Resting | Sitting | Fighting | Standing

  class Char {
    var inRoom: Room?
    var master: Char?
    var position: Position
    var riding: bool
    const charmed: bool
    const affectedBySleep: bool
    const aggressiveNpc: bool

    constructor (charmed: bool, affectedBySleep: bool, aggressiveNpc: bool)
      ensures inRoom == null && master == null && position == Standing && !riding
    {
      this.charmed, this.affectedBySleep, this.aggressiveNpc := charmed, affectedBySleep, aggressiveNpc;
      inRoom, master, position, riding := null, null, Standing, false;
    }

    predicate IsPreoccupied()
      reads this`position
    {
      position != Standing
    }

    /** The charmed do not leave their masters. */
    predicate IsTied()
      reads this, master
    {
      charmed && master != null && master.inRoom == inRoom
    }

    /** `do_stand`: a rider only dismounts, and only sleepers and sitters can get up. */
    method Stand()
      modifies this`position, this`riding
      ensures Stance(position, riding) == Prodded(Stance(old(position), old(riding)), affectedBySleep)
      ensures !riding
      ensures position == Standing <==>
          || old(position) == Standing
          || (!old(riding) && (old(position) == Resting || old(position) == Sitting
                               || (old(position) == Sleeping && !affectedBySleep)))
      ensures position != Standing ==> position == old(position)
    {
      if riding {
        riding := false;
        return;
      }
      match position {
        case Sleeping =>
          if !affectedBySleep {
            position := Standing;
          }
        case Resting | Sitting =>
          position := Standing;
        case _ =>
      }
    }
  }

  datatype Stance = Stance(position: Position, riding: bool)

  function Prodded(s: Stance, asleep: bool): Stance {
    if s.riding then s.(riding := false)
    else if s.position == Resting || s.position == Sitting then Stance(Standing, false)
    else if s.position == Sleeping && !asleep then Stance(Standing, false)
    else s
  }

  /** What becomes of a follower whose master has gone: the charmed are told to stand up. */
  function Called(c: Char, s: Stance): Stance {
    if c.charmed && s.position != Standing then Prodded(s, c.affectedBySleep) else s
  }

  /** Can get up when told to: resting, sitting or asleep, but under no spell, and on no mount. */
  predicate CanGetUp(c: Char, s: Stance) {
    !s.riding && (s.position == Resting || s.position == Sitting || (s.position == Sleeping && !c.affectedBySleep))
  }

  /** Stands already, or will once told to, which only the charmed are. */
  predicate StandsOnceTold(c: Char, s: Stance) {
    s.position == Standing || (c.charmed && CanGetUp(c, s))
  }

  lemma CalledMeans(c: Char, s: Stance)
    ensures Called(c, s).position == Standing <==> StandsOnceTold(c, s)
    ensures Called(c, s).position != s.position ==> Called(c, s).position == Standing && c.charmed && CanGetUp(c, s)
    ensures Called(c, s).riding <==> s.riding && !(c.charmed && s.position != Standing)
  {
  }

  /** A room with the people in it; its doors are not needed here. */
  class Room {
    var people: seq<Char>
    const law: bool
    const exits: map<Direction, Room>

    constructor (law: bool, exits: map<Direction, Room>)
      ensures people == [] && this.law == law && this.exits == exits
    {
      this.people, this.law, this.exits := [], law, exits;
    }
  }

  ghost function People(rooms: set<Room>): map<Room, seq<Char>>
    reads rooms`people
  {
    map r | r in rooms :: r.people
  }

  ghost function Stances(chars: set<Char>): map<Char, Stance>
    reads chars`position, chars`riding
  {
    map c | c in chars :: Stance(c.position, c.riding)
  }

  ghost function Places(chars: set<Char>): map<Char, Room?>
    reads chars`inRoom
  {
    map c | c in chars :: c.inRoom
  }

  /** Everyone is listed once, in the room they are in; exits lead to known rooms. */
  ghost predicate Placed(rooms: set<Room>, chars: set<Char>)
    reads rooms`people, chars`inRoom
  {
    Matched(People(rooms), Places(chars))
  }

  ghost predicate Matched(p: map<Room, seq<Char>>, places: map<Char, Room?>) {
    forall n {:trigger Open(n)} :: Open(n) ==>
      && (forall r :: r in p ==> NoRepeats(p[r]) && r.exits.Values <= p.Keys)
      && (forall r, c :: r in p && c in p[r] ==> c in places && places[c] == r)
      && (forall c :: c in places && places[c] != null ==> places[c] in p && c in p[places[c]])
  }

  lemma PlacedMeans(rooms: set<Room>, chars: set<Char>)
    requires Placed(rooms, chars)
    ensures forall r :: r in rooms ==> NoRepeats(r.people) && r.exits.Values <= rooms
    ensures forall r, c :: r in rooms && c in r.people ==> c in chars && c.inRoom == r
    ensures forall c :: c in chars && c.inRoom != null ==> c.inRoom in rooms && c in c.inRoom.people
  {
    assert Open(0);
    var p, places := People(rooms), Places(chars);
    assert p.Keys == rooms;
    forall r | r in rooms ensures NoRepeats(r.people) && r.exits.Values <= rooms {
      assert r in p;
    }
    forall r, c | r in rooms && c in r.people ensures c in chars && c.inRoom == r {
      assert r in p && c in p[r] && c in places;
    }
    forall c | c in chars && c.inRoom != null ensures c.inRoom in rooms && c in c.inRoom.people {
      assert c in places && places[c] == c.inRoom;
    }
  }

  /** The lists after `ch` has gone from the list of one room to the front of another's. */
  ghost function Gone(p: map<Room, seq<Char>>, ch: Char, from: Room, to: Room): map<Room, seq<Char>>
    requires from in p && to in p
  {
    var q := p[from := Without(p[from], [ch])];
    q[to := [ch] + q[to]]
  }

  lemma GoneMatched(p: map<Room, seq<Char>>, places: map<Char, Room?>, ch: Char, from: Room, to: Room)
    requires Matched(p, places) && ch in places && places[ch] == from && from in p && to in p
    ensures Matched(Gone(p, ch, from, to), places[ch := to])
  {
    var q := p[from := Without(p[from], [ch])];
    TakenMatched(p, places, ch, from);
    AddedMatched(q, places[ch := null], ch, to);
    assert places[ch := null][ch := to] == places[ch := to];
  }

  lemma TakenMatched(p: map<Room, seq<Char>>, places: map<Char, Room?>, ch: Char, from: Room)
    requires Matched(p, places) && ch in places && places[ch] == from && from in p
    ensures Matched(p[from := Without(p[from], [ch])], places[ch := null])
  {
    assert Open(0);
    WithoutNoRepeats(p[from], [ch]);
    assert p[from := Without(p[from], [ch])].Keys == p.Keys;
  }

  lemma AddedMatched(p: map<Room, seq<Char>>, places: map<Char, Room?>, ch: Char, to: Room)
    requires Matched(p, places) && ch in places && places[ch] == null && to in p
    ensures Matched(p[to := [ch] + p[to]], places[ch := to])
  {
    assert Open(0);
    assert p[to := [ch] + p[to]].Keys == p.Keys;
    assert ch !in p[to];
  }

  ghost predicate NoRepeats<X>(s: seq<X>) {
    forall i, j :: 0 <= i < j < |s| ==> s[i] != s[j]
  }

  /** The sequence without the members of `gone`. */
  function Without<X(==)>(s: seq<X>, gone: seq<X>): (r: seq<X>)
    ensures forall x :: x in r ==> x in s && x !in gone
    ensures forall x :: x in s && x !in gone ==> x in r
  {
    if s == [] then []
    else (if s[0] in gone then [] else [s[0]]) + Without(s[1..], gone)
  }

  function Reversed<X>(s: seq<X>): seq<X> {
    if s == [] then [] else Reversed(s[1..]) + [s[0]]
  }

  lemma {:induction false} WithoutNoRepeats<X>(s: seq<X>, gone: seq<X>)
    requires NoRepeats(s)
    ensures NoRepeats(Without(s, gone))
    ensures |Without(s, gone)| <= |s|
    ensures (exists x :: x in s && x in gone) ==> |Without(s, gone)| < |s|
  {
    if s != [] {
      WithoutNoRepeats(s[1..], gone);
    }
  }

  lemma {:induction false} WithoutTwice<X>(s: seq<X>, a: seq<X>, b: seq<X>)
    ensures Without(Without(s, a), b) == Without(s, a + b)
  {
    if s != [] {
      WithoutTwice(s[1..], a, b);
      if s[0] in a {
        assert Without(s, a) == Without(s[1..], a);
      } else {
        assert Without(s, a)[1..] == Without(s[1..], a);
      }
    }
  }

  lemma {:induction false} ReversedConcat<X>(a: seq<X>, b: seq<X>)
    ensures Reversed(a + b) == Reversed(b) + Reversed(a)
  {
    if a == [] {
      assert a + b == b;
    } else {
      assert (a + b)[1..] == a[1..] + b;
      ReversedConcat(a[1..], b);
    }
  }

  // ----- moving one character

  /** `char_from_room` and `char_to_room`. */
  method Relocate(ch: Char, to: Room, ghost rooms: set<Room>, ghost chars: set<Char>)
    requires Placed(rooms, chars) && ch in chars && ch.inRoom != null && to in rooms
    modifies ch`inRoom, ch.inRoom`people, to`people
    ensures Placed(rooms, chars) && ch.inRoom == to
    ensures old(ch.inRoom) in rooms && People(rooms) == Gone(old(People(rooms)), ch, old(ch.inRoom), to)
  {
    FoundInRoom(ch, rooms, chars);
    GoneMatched(People(rooms), Places(chars), ch, ch.inRoom, to);
    var from := ch.inRoom;
    ghost var p, places := People(rooms), Places(chars);
    from.people := Without(from.people, [ch]);
    ch.inRoom := null;
    ch.inRoom := to;
    to.people := [ch] + to.people;
    assert Places(chars) == places[ch := to];
    assert People(rooms) == Gone(p, ch, from, to);
  }

  lemma FoundInRoom(ch: Char, rooms: set<Room>, chars: set<Char>)
    requires Placed(rooms, chars) && ch in chars
    ensures ch.inRoom != null ==>
        ch.inRoom in rooms && ch in ch.inRoom.people && NoRepeats(ch.inRoom.people) && ch.inRoom.exits.Values <= rooms
  {
    PlacedMeans(rooms, chars);
  }

  // ----- the cascade, on values

  /** `moved` have gone one by one from the first room to the front of the second. */
  ghost predicate Shifted(f0: seq<Char>, t0: seq<Char>, moved: seq<Char>, f1: seq<Char>, t1: seq<Char>) {
    && NoRepeats(moved) && (forall c :: c in moved ==> c in f0)
    && f1 == Without(f0, moved) && t1 == Reversed(moved) + t0
  }

  lemma {:induction false} WithoutNone<X>(s: seq<X>)
    ensures Without(s, []) == s
  {
    if s != [] {
      WithoutNone(s[1..]);
    }
  }

  lemma NoneShifted(f: seq<Char>, t: seq<Char>)
    ensures Shifted(f, t, [], f, t)
  {
    WithoutNone(f);
    assert Reversed([]) + t == t;
  }

  lemma ShiftedThen(
      f0: seq<Char>, t0: seq<Char>, a: seq<Char>, f1: seq<Char>, t1: seq<Char>,
      b: seq<Char>, f2: seq<Char>, t2: seq<Char>)
    requires Shifted(f0, t0, a, f1, t1) && Shifted(f1, t1, b, f2, t2)
    ensures Shifted(f0, t0, a + b, f2, t2)
  {
    WithoutTwice(f0, a, b);
    ReversedConcat(a, b);
    forall i, j | 0 <= i < j < |a + b| ensures (a + b)[i] != (a + b)[j] {
      if i < |a| <= j {
        assert a[i] in a && b[j - |a|] in f1;
      }
    }
    assert Reversed(b) + (Reversed(a) + t0) == (Reversed(b) + Reversed(a)) + t0;
  }

  /** Everyone in `moved` follows `leader` or somebody earlier in `moved`. */
  ghost predicate Follow(moved: seq<Char>, leader: Char)
    reads moved`master
  {
    forall i :: 0 <= i < |moved| ==>
      moved[i].master == leader || exists j :: 0 <= j < i && moved[i].master == moved[j]
  }

  lemma FollowThen(leader: Char, a: seq<Char>, c: Char, b: seq<Char>)
    requires Follow(a, leader) && c.master == leader && Follow(b, c)
    ensures Follow(a + ([c] + b), leader)
  {
    var all := a + ([c] + b);
    forall i | 0 <= i < |all|
      ensures all[i].master == leader || exists j :: 0 <= j < i && all[i].master == all[j]
    {
      if i < |a| {
        if j :| 0 <= j < i && a[i].master == a[j] {
          assert all[i].master == all[j];
        }
      } else if i > |a| {
        var k := i - |a| - 1;
        if b[k].master == c {
          assert all[i].master == all[|a|];
        } else {
          var j :| 0 <= j < k && b[k].master == b[j];
          assert all[i].master == all[|a| + 1 + j];
        }
      }
    }
  }

  /** Nobody was told anything but followers of those who went, and they once. */
  ghost predicate Roused(s0: map<Char, Stance>, s1: map<Char, Stance>, masters: seq<Char>)
    reads s0.Keys`master
  {
    s1.Keys == s0.Keys && forall c :: c in s0 && s1[c] != s0[c] ==> c.master in masters && s1[c] == Called(c, s0[c])
  }

  /** Followers who went were free to go and stood, perhaps since they were told to. */
  ghost predicate Went(moved: seq<Char>, s0: map<Char, Stance>, s1: map<Char, Stance>, may: Char -> bool) {
    forall c :: c in moved ==>
      may(c) && c in s0 && c in s1 && s1[c] == Called(c, s0[c]) && s1[c].position == Standing
  }

  /** The people in the room that is being left, and how everybody stands. */
  datatype Scene = Scene(people: seq<Char>, stances: map<Char, Stance>)

  ghost predicate WasCalled(c: Char, a: Scene, b: Scene) {
    c in a.stances && c in b.stances && b.stances[c] == Called(c, a.stances[c])
  }

  /** Told to stand if charmed, and then not standing or not free to go. */
  ghost predicate Stays(c: Char, a: Scene, b: Scene, may: Char -> bool, to: Room) {
    && WasCalled(c, a, b)
    && (b.stances[c].position != Standing || (!may(c) && !(to.law && c.aggressiveNpc)))
  }

  /** Told to stand if charmed, and standing, but barred from a place of law. */
  ghost predicate Barred(c: Char, a: Scene, b: Scene, to: Room) {
    WasCalled(c, a, b) && b.stances[c].position == Standing && to.law && c.aggressiveNpc
  }

  ghost predicate Ahead<X>(s: seq<X>, x: X, y: X) {
    exists i, j :: 0 <= i < j < |s| && s[i] == x && s[j] == y
  }

  /**
   Of `leader`'s followers, `stop` was barred; those ahead of it were asked and went or stay, those
   behind it were not asked.
   */
  ghost predicate CutShort(a: Scene, b: Scene, leader: Char, stop: Char, may: Char -> bool, to: Room)
    reads a.people`master, b.people`master, stop`master
  {
    && stop in b.people && stop.master == leader && Barred(stop, a, b, to)
    && (forall c :: c in b.people && c.master == leader && Ahead(a.people, c, stop) ==> Stays(c, a, b, may, to))
    && (forall c :: c in a.people && c.master == leader && Ahead(a.people, stop, c) ==> Unasked(c, a, b))
  }

  ghost predicate Unasked(c: Char, a: Scene, b: Scene) {
    c in b.people && c in a.stances && c in b.stances && b.stances[c] == a.stances[c]
  }

  /** Whoever stayed although `leader` went could not go, or was not asked after one of them was barred. */
  ghost predicate SettledFor(a: Scene, b: Scene, leader: Char, may: Char -> bool, to: Room)
    reads a.people`master, b.people`master
  {
    || (forall c :: c in b.people && c.master == leader ==> Stays(c, a, b, may, to))
    || (exists stop :: stop in b.people && CutShort(a, b, leader, stop, may, to))
  }

  ghost predicate Settled(a: Scene, b: Scene, leaders: seq<Char>, may: Char -> bool, to: Room)
    reads a.people`master, b.people`master
  {
    forall m :: m in leaders ==> SettledFor(a, b, m, may, to)
  }

  /** No lawbreaker was led into a place of law. */
  ghost predicate Lawful(followers: seq<Char>, to: Room) {
    to.law ==> forall c :: c in followers ==> !c.aggressiveNpc
  }

  /**
   Nobody's position has changed but that of charmed characters who could get up, and they stand.
   Whoever was dead, dying, stunned, fighting, mounted or under a spell of sleep is as before.
   */
  ghost predicate OnlyRose(s0: map<Char, Stance>, s1: map<Char, Stance>) {
    forall c :: c in s0 && c in s1 && s1[c].position != s0[c].position ==>
      s1[c].position == Standing && c.charmed && CanGetUp(c, s0[c])
  }

  lemma RousedRose(s0: map<Char, Stance>, s1: map<Char, Stance>, masters: seq<Char>)
    requires Roused(s0, s1, masters)
    ensures OnlyRose(s0, s1)
  {
    forall c | c in s0 && c in s1 && s1[c].position != s0[c].position
      ensures s1[c].position == Standing && c.charmed && CanGetUp(c, s0[c])
    {
      CalledMeans(c, s0[c]);
    }
  }

  // ----- the cascade

  /** Only two rooms can have been touched. */
  ghost predicate OnlyBetween(p0: map<Room, seq<Char>>, p1: map<Room, seq<Char>>, from: Room, to: Room) {
    p1.Keys == p0.Keys && from in p0 && to in p0 && forall r :: r in p0 && r != from && r != to ==> p1[r] == p0[r]
  }

  /**
   `move_char`. Ends for every follower graph, since each call that goes on has taken somebody out
   of the room that is being left and nobody comes back to it.
   */
  method MoveChar(ch: Char, direction: Direction, may: Char -> bool, ghost rooms: set<Room>, ghost chars: set<Char>)
    returns (ghost moved: seq<Char>)
    requires Placed(rooms, chars) && ch in chars
    modifies rooms`people, chars`inRoom, chars`position, chars`riding
    ensures Placed(rooms, chars) && Roused(old(Stances(chars)), Stances(chars), moved)
    ensures OnlyRose(old(Stances(chars)), Stances(chars))
    ensures moved != [] <==>
        && old(ch.inRoom != null && direction in ch.inRoom.exits) && may(ch)
        && !old(ch.charmed && ch.master != null && ch.master.inRoom == ch.inRoom)
    ensures moved == [] ==> People(rooms) == old(People(rooms))
    ensures moved != [] ==>
        && moved[0] == ch && Follow(moved[1..], ch)
        && var p0, p1, from, to := old(People(rooms)), People(rooms), old(ch.inRoom), old(ch.inRoom).exits[direction];
        && OnlyBetween(p0, p1, from, to)
        && if from == to then
             moved == [ch] && p1[to] == [ch] + Without(p0[to], [ch]) && Stances(chars) == old(Stances(chars))
           else
             && Shifted(p0[from], p0[to], moved, p1[from], p1[to])
             && Lawful(moved[1..], to) && Went(moved[1..], old(Stances(chars)), Stances(chars), may)
             && var a, b := Scene(Without(p0[from], [ch]), old(Stances(chars))), Scene(p1[from], Stances(chars));
             Settled(a, b, moved, may, to)
    decreases (if ch.inRoom == null then 0 else |ch.inRoom.people|), 0
  {
    FoundInRoom(ch, rooms, chars);
    RousedRose(Stances(chars), Stances(chars), []);
    moved := [];
    if ch.inRoom == null || direction !in ch.inRoom.exits {
      return;
    }
    var inRoom, toRoom := ch.inRoom, ch.inRoom.exits[direction];
    if ch.IsTied() || !may(ch) {
      return;
    }
    ghost var p0, s0 := People(rooms), Stances(chars);
    WithoutNoRepeats(inRoom.people, [ch]);
    Relocate(ch, toRoom, rooms, chars);
    assert Stances(chars) == s0;
    moved := [ch];
    if inRoom == toRoom {
      return;
    }
    ghost var p1 := People(rooms);
    ghost var followers := Followers(ch, direction, may, inRoom, toRoom, rooms, chars);
    moved := [ch] + followers;
    LeaderFirst(ch, may, inRoom, toRoom, p0, p1, s0, People(rooms), Stances(chars), followers);
  }

  /** The leader's move and what its followers did, put together. */
  lemma LeaderFirst(
      ch: Char, may: Char -> bool, from: Room, to: Room, p0: map<Room, seq<Char>>,
      p1: map<Room, seq<Char>>, s1: map<Char, Stance>, p2: map<Room, seq<Char>>, s2: map<Char, Stance>,
      followers: seq<Char>)
    requires from != to && from in p0 && to in p0 && ch in p0[from] && p1 == Gone(p0, ch, from, to)
    requires Gathered(ch, may, from, to, p1, s1, p2, s2, followers)
    ensures var moved := [ch] + followers;
        && OnlyBetween(p0, p2, from, to) && Shifted(p0[from], p0[to], moved, p2[from], p2[to])
        && moved[1..] == followers && Follow(followers, ch) && Roused(s1, s2, moved) && OnlyRose(s1, s2)
        && Lawful(followers, to) && Went(followers, s1, s2, may)
        && Settled(Scene(Without(p0[from], [ch]), s1), Scene(p2[from], s2), moved, may, to)
  {
    assert Open(0);
    assert Reversed([ch]) == [ch];
    ShiftedThen(p0[from], p0[to], [ch], p1[from], p1[to], followers, p2[from], p2[to]);
    RousedRose(s1, s2, [ch] + followers);
  }

  /**
   The loop over the people left behind, once `ch` has gone. They leave while it runs and nobody
   is added, so going over those who were there at the start and passing over those who have
   gone visits whom the list's own iteration visits (`Traversal.LoopIsSnapshot`).
   */
  method Followers(
      ch: Char, direction: Direction, may: Char -> bool, from: Room, to: Room,
      ghost rooms: set<Room>, ghost chars: set<Char>)
    returns (ghost moved: seq<Char>)
    requires Placed(rooms, chars) && ch in chars && ch.inRoom == to != from
    requires from in rooms && direction in from.exits && from.exits[direction] == to
    modifies rooms`people, chars`inRoom, chars`position, chars`riding
    ensures Placed(rooms, chars)
    ensures Gathered(ch, may, from, to, old(People(rooms)), old(Stances(chars)), People(rooms), Stances(chars), moved)
    decreases |from.people|, 4
  {
    moved := [];
    var watched := from.people;
    ghost var p0, s0 := People(rooms), Stances(chars);
    assert watched[..0] == [];
    Starts(ch, may, from, to, rooms, chars);
    var i := 0;
    while i < |watched|
      invariant i <= |watched|
      invariant Placed(rooms, chars) && ch.inRoom == to && |from.people| <= |watched|
      invariant Progress(ch, may, from, to, p0, s0, People(rooms), Stances(chars), moved, watched[..i])
    {
      ListedAt(watched, chars, i);
      var barred;
      var fch := watched[i];
      barred, moved := NextFollower(ch, fch, direction, may, from, to, rooms, chars, p0, s0, moved, watched[..i]);
      if barred {
        return;
      }
      i := i + 1;
    }
    assert watched[..|watched|] == watched;
    Ends(ch, may, from, to, p0, s0, People(rooms), Stances(chars), moved, watched[..i]);
  }

  /** What has become of everybody once the loop is over. */
  ghost predicate Gathered(
      ch: Char, may: Char -> bool, from: Room, to: Room, p0: map<Room, seq<Char>>, s0: map<Char, Stance>,
      p1: map<Room, seq<Char>>, s1: map<Char, Stance>, moved: seq<Char>)
    reads s0.Keys`master, moved`master
    reads (if from in p0 then p0[from] else [])`master, (if from in p1 then p1[from] else [])`master
  {
    forall n {:trigger Open(n)} :: Open(n) ==>
      && OnlyBetween(p0, p1, from, to) && Shifted(p0[from], p0[to], moved, p1[from], p1[to])
      && Roused(s0, s1, [ch] + moved) && Follow(moved, ch) && Lawful(moved, to) && Went(moved, s0, s1, may)
      && Settled(Scene(p0[from], s0), Scene(p1[from], s1), [ch] + moved, may, to)
  }

  /** Known characters, each once. */
  ghost predicate Listed(people: seq<Char>, chars: set<Char>) {
    forall n {:trigger Open(n)} :: Open(n) ==> NoRepeats(people) && forall c :: c in people ==> c in chars
  }

  lemma ListedAt(people: seq<Char>, chars: set<Char>, i: nat)
    requires Listed(people, chars) && i < |people|
    ensures people[i] in chars && people[i] !in people[..i]
    ensures people[..i] + [people[i]] == people[..i + 1]
  {
    assert Open(0);
  }

  /** What the loop has done: from the people `p0` and the stances `s0` at its start to `p1` and `s1`. */
  ghost predicate Progress(
      ch: Char, may: Char -> bool, from: Room, to: Room, p0: map<Room, seq<Char>>, s0: map<Char, Stance>,
      p1: map<Room, seq<Char>>, s1: map<Char, Stance>, moved: seq<Char>, passed: seq<Char>)
    reads s0.Keys`master, moved`master
    reads (if from in p0 then p0[from] else [])`master, (if from in p1 then p1[from] else [])`master
  {
    forall n {:trigger Open(n)} :: Open(n) ==>
      && OnlyBetween(p0, p1, from, to) && ch !in p0[from] && NoRepeats(p0[from]) && passed <= p0[from]
      && s1.Keys == s0.Keys && (forall c :: c in p0[from] ==> c in s0)
      && (forall c :: c in s0 && s1[c] != s0[c] ==>
            s1[c] == Called(c, s0[c]) && (c.master in moved || (c.master == ch && c in passed)))
      && Shifted(p0[from], p0[to], moved, p1[from], p1[to])
      && Follow(moved, ch) && Lawful(moved, to) && Went(moved, s0, s1, may)
      && (forall c :: c in moved && c.master == ch ==> c in passed)
      && Settled(Scene(p0[from], s0), Scene(p1[from], s1), moved, may, to)
      && (forall c :: c in p1[from] && c in passed && c.master == ch ==>
            Stays(c, Scene(p0[from], s0), Scene(p1[from], s1), may, to))
  }

  lemma Starts(ch: Char, may: Char -> bool, from: Room, to: Room, rooms: set<Room>, chars: set<Char>)
    requires Placed(rooms, chars) && from in rooms && to in from.exits.Values && ch.inRoom != from
    ensures Progress(ch, may, from, to, People(rooms), Stances(chars), People(rooms), Stances(chars), [], [])
    ensures Listed(from.people, chars)
  {
    PlacedMeans(rooms, chars);
    NoneShifted(from.people, to.people);
  }

  /** Nobody who was there is left to be asked once all have been. */
  lemma Ends(
      ch: Char, may: Char -> bool, from: Room, to: Room, p0: map<Room, seq<Char>>, s0: map<Char, Stance>,
      p1: map<Room, seq<Char>>, s1: map<Char, Stance>, moved: seq<Char>, passed: seq<Char>)
    requires Progress(ch, may, from, to, p0, s0, p1, s1, moved, passed)
    requires from in p0 && passed == p0[from]
    ensures Gathered(ch, may, from, to, p0, s0, p1, s1, moved)
  {
    assert Open(0);
  }

  /** One turn of the loop: `Follower`, and what that makes of all that the loop has done. */
  method NextFollower(
      ch: Char, fch: Char, direction: Direction, may: Char -> bool, from: Room, to: Room,
      ghost rooms: set<Room>, ghost chars: set<Char>,
      ghost p0: map<Room, seq<Char>>, ghost s0: map<Char, Stance>, ghost before: seq<Char>, ghost passed: seq<Char>)
    returns (barred: bool, ghost moved: seq<Char>)
    requires Placed(rooms, chars) && ch in chars && ch.inRoom == to != from && fch in chars && fch !in passed
    requires from in p0 && passed + [fch] <= p0[from]
    requires from in rooms && direction in from.exits && from.exits[direction] == to
    requires Progress(ch, may, from, to, p0, s0, People(rooms), Stances(chars), before, passed)
    modifies rooms`people, chars`inRoom, chars`position, chars`riding
    ensures Placed(rooms, chars) && ch.inRoom == to && |from.people| <= old(|from.people|)
    ensures if barred then Gathered(ch, may, from, to, p0, s0, People(rooms), Stances(chars), moved)
            else Progress(ch, may, from, to, p0, s0, People(rooms), Stances(chars), moved, passed + [fch])
    decreases |from.people|, 3
  {
    barred, moved := false, before;
    if fch.inRoom != from {
      PassedOver(ch, fch, may, from, to, rooms, chars, p0, s0, before, passed);
      return;
    }
    ghost var p1, s1 := People(rooms), Stances(chars);
    ghost var m;
    FromAndTo(ch, fch, from, to, rooms, chars);
    barred, m := Follower(ch, fch, direction, may, from, to, rooms, chars);
    assert before + [] == before;
    if barred {
      Stops(ch, fch, may, from, to, p0, s0, p1, s1, Stances(chars), before, passed);
    } else {
      Advances(ch, fch, may, from, to, p0, s0, p1, s1, People(rooms), Stances(chars), before, passed, m);
    }
    moved := before + m;
  }

  lemma PassedOver(
      ch: Char, fch: Char, may: Char -> bool, from: Room, to: Room, rooms: set<Room>, chars: set<Char>,
      p0: map<Room, seq<Char>>, s0: map<Char, Stance>, before: seq<Char>, passed: seq<Char>)
    requires Placed(rooms, chars) && from in rooms && fch.inRoom != from
    requires from in p0 && passed + [fch] <= p0[from]
    requires Progress(ch, may, from, to, p0, s0, People(rooms), Stances(chars), before, passed)
    ensures Progress(ch, may, from, to, p0, s0, People(rooms), Stances(chars), before, passed + [fch])
  {
    assert Open(0);
    PlacedMeans(rooms, chars);
  }

  lemma Advances(
      ch: Char, fch: Char, may: Char -> bool, from: Room, to: Room, p0: map<Room, seq<Char>>, s0: map<Char, Stance>,
      p1: map<Room, seq<Char>>, s1: map<Char, Stance>, p2: map<Room, seq<Char>>, s2: map<Char, Stance>,
      before: seq<Char>, passed: seq<Char>, m: seq<Char>)
    requires Progress(ch, may, from, to, p0, s0, p1, s1, before, passed)
    requires Turned(ch, fch, may, from, to, p1, s1, p2, s2, m)
    requires fch !in passed && from in p1 && fch in p1[from] && from in p0 && passed + [fch] <= p0[from]
    ensures Progress(ch, may, from, to, p0, s0, p2, s2, before + m, passed + [fch])
  {
    assert Open(0);
    TurnsApart(ch, fch, may, from, to, p0, s0, p1, s1, p2, s2, before, passed, m);
    GoesOn(ch, fch, may, from, to, p0, s0, p1, s1, p2, s2, before, passed, m);
    SettlesMore(ch, fch, may, from, to, p0, s0, p1, s1, p2, s2, before, passed, m);
  }

  lemma GoesOn(
      ch: Char, fch: Char, may: Char -> bool, from: Room, to: Room, p0: map<Room, seq<Char>>, s0: map<Char, Stance>,
      p1: map<Room, seq<Char>>, s1: map<Char, Stance>, p2: map<Room, seq<Char>>, s2: map<Char, Stance>,
      before: seq<Char>, passed: seq<Char>, m: seq<Char>)
    requires Progress(ch, may, from, to, p0, s0, p1, s1, before, passed)
    requires Turned(ch, fch, may, from, to, p1, s1, p2, s2, m)
    requires fch !in passed && from in p1 && fch in p1[from]
    ensures OnlyBetween(p0, p2, from, to) && Shifted(p0[from], p0[to], before + m, p2[from], p2[to])
    ensures Follow(before + m, ch) && Lawful(before + m, to) && Went(before + m, s0, s2, may)
  {
    assert Open(0);
    TurnsApart(ch, fch, may, from, to, p0, s0, p1, s1, p2, s2, before, passed, m);
    WentOn(before, m, s0, s1, s2, may, ch, fch);
    ShiftedThen(p0[from], p0[to], before, p1[from], p1[to], m, p2[from], p2[to]);
    FollowersThen(ch, before, fch, m);
  }

  lemma WentOn(
      before: seq<Char>, m: seq<Char>, s0: map<Char, Stance>, s1: map<Char, Stance>, s2: map<Char, Stance>,
      may: Char -> bool, ch: Char, fch: Char)
    requires s2.Keys == s1.Keys == s0.Keys
    requires forall c :: c in s0 && (c.master in m || (c == fch && c.master == ch)) ==> s1[c] == s0[c]
    requires forall c :: c in s0 && (c.master in before || (c.master == ch && c != fch)) ==> s2[c] == s1[c]
    requires Went(before, s0, s1, may) && Went(m, s1, s2, may) && Follow(before, ch) && fch !in before
    requires m != [] ==> m[0] == fch && fch.master == ch && Follow(m[1..], fch)
    ensures Went(before + m, s0, s2, may)
  {
    forall c | c in before ensures s2[c] == s1[c] {
      var i :| 0 <= i < |before| && before[i] == c;
    }
    forall c | c in m ensures s1[c] == s0[c] {
      var i :| 0 <= i < |m| && m[i] == c;
      assert i > 0 ==> m[1..][i - 1] == c;
    }
  }

  lemma SettlesMore(
      ch: Char, fch: Char, may: Char -> bool, from: Room, to: Room, p0: map<Room, seq<Char>>, s0: map<Char, Stance>,
      p1: map<Room, seq<Char>>, s1: map<Char, Stance>, p2: map<Room, seq<Char>>, s2: map<Char, Stance>,
      before: seq<Char>, passed: seq<Char>, m: seq<Char>)
    requires Progress(ch, may, from, to, p0, s0, p1, s1, before, passed)
    requires Turned(ch, fch, may, from, to, p1, s1, p2, s2, m)
    requires fch !in passed && from in p1 && fch in p1[from] && from in p0 && from in p2
    ensures forall c :: c in before + m && c.master == ch ==> c in passed + [fch]
    ensures var a, c := Scene(p0[from], s0), Scene(p2[from], s2);
            && Settled(a, c, before + m, may, to)
            && forall x :: x in c.people && x in passed + [fch] && x.master == ch ==> Stays(x, a, c, may, to)
  {
    assert Open(0);
    TurnsApart(ch, fch, may, from, to, p0, s0, p1, s1, p2, s2, before, passed, m);
    var a, b, c := Scene(p0[from], s0), Scene(p1[from], s1), Scene(p2[from], s2);
    MastersApart(ch, fch, before, m);
    SettledStill(a, b, c, before, may, to);
    SettledBySome(a, b, c, before, m, may, to);
    StayersStay(a, b, c, passed, fch, ch, may, to);
  }

  /** Those who went in one turn follow nobody who went before it. */
  lemma MastersApart(ch: Char, fch: Char, before: seq<Char>, m: seq<Char>)
    requires Follow(before, ch) && (m != [] ==> m[0] == fch && fch.master == ch && Follow(m[1..], fch))
    requires ch !in before && fch !in before && ch !in m && forall c :: c in m ==> c !in before
    ensures forall c :: c in m ==> c.master !in before
    ensures forall c :: c in before ==> c.master !in m
    ensures forall c :: c in m && c.master == ch ==> c == fch
  {
    forall c | c in m ensures c.master in m || c == fch {
      var i :| 0 <= i < |m| && m[i] == c;
      assert i > 0 ==> m[1..][i - 1] == c;
    }
    forall c | c in before ensures c.master in before || c.master == ch {
      var i :| 0 <= i < |before| && before[i] == c;
    }
  }

  /** A turn changes nothing for the followers of those who went before it. */
  lemma SettledStill(a: Scene, b: Scene, c: Scene, leaders: seq<Char>, may: Char -> bool, to: Room)
    requires Settled(a, b, leaders, may, to)
    requires c.stances.Keys == b.stances.Keys && (forall x :: x in c.people ==> x in b.people)
    requires forall x :: x in b.people && x.master in leaders ==> x in c.people
    requires forall x :: x in b.stances && x.master in leaders ==> c.stances[x] == b.stances[x]
    ensures Settled(a, c, leaders, may, to)
  {
    forall m | m in leaders ensures SettledFor(a, c, m, may, to) {
      assert SettledFor(a, b, m, may, to);
      if stop :| stop in b.people && CutShort(a, b, m, stop, may, to) {
        assert CutShort(a, c, m, stop, may, to);
      }
    }
  }

  /** What a turn settles for those who went in it is settled as seen from the start. */
  lemma SettledBySome(a: Scene, b: Scene, c: Scene, before: seq<Char>, m: seq<Char>, may: Char -> bool, to: Room)
    requires Settled(b, c, m, may, to) && b.people == Without(a.people, before)
    requires forall x :: x in c.people ==> x in b.people
    requires a.stances.Keys == b.stances.Keys == c.stances.Keys
    requires forall x :: x in b.stances && x.master in m ==> b.stances[x] == a.stances[x]
    requires forall x :: x in before ==> x.master !in m
    ensures Settled(a, c, m, may, to)
  {
    forall l | l in m ensures SettledFor(a, c, l, may, to) {
      assert SettledFor(b, c, l, may, to);
      if stop :| stop in c.people && CutShort(b, c, l, stop, may, to) {
        CutSeenFromStart(a, b, c, before, l, stop, may, to);
      }
    }
  }

  lemma CutSeenFromStart(
      a: Scene, b: Scene, c: Scene, before: seq<Char>, l: Char, stop: Char, may: Char -> bool, to: Room)
    requires CutShort(b, c, l, stop, may, to) && b.people == Without(a.people, before)
    requires forall x :: x in c.people ==> x in b.people
    requires a.stances.Keys == b.stances.Keys == c.stances.Keys
    requires forall x :: x in b.stances && x.master == l ==> b.stances[x] == a.stances[x]
    requires forall x :: x in before ==> x.master != l
    ensures CutShort(a, c, l, stop, may, to)
  {
    forall x | x in c.people && x.master == l && Ahead(a.people, x, stop) ensures Stays(x, a, c, may, to) {
      AheadWithout(a.people, before, x, stop);
      assert Stays(x, b, c, may, to);
    }
    forall x | x in a.people && x.master == l && Ahead(a.people, stop, x) ensures Unasked(x, a, c) {
      AheadWithout(a.people, before, stop, x);
      assert Unasked(x, b, c);
    }
  }

  /** Taking some out leaves the others in order. */
  lemma {:induction false} AheadWithout<X>(s: seq<X>, gone: seq<X>, x: X, y: X)
    requires Ahead(s, x, y) && x !in gone && y !in gone
    ensures Ahead(Without(s, gone), x, y)
  {
    var i, j :| 0 <= i < j < |s| && s[i] == x && s[j] == y;
    var rest := Without(s[1..], gone);
    if i == 0 {
      assert y in s[1..];
      var k :| 0 <= k < |rest| && rest[k] == y;
      assert Without(s, gone)[0] == x && Without(s, gone)[k + 1] == y;
    } else {
      assert s[1..][i - 1] == x && s[1..][j - 1] == y;
      AheadWithout(s[1..], gone, x, y);
      var k, n :| 0 <= k < n < |rest| && rest[k] == x && rest[n] == y;
      var d := |Without(s, gone)| - |rest|;
      assert Without(s, gone)[k + d] == x && Without(s, gone)[n + d] == y;
    }
  }

  lemma StayersStay(
      a: Scene, b: Scene, c: Scene, passed: seq<Char>, fch: Char, ch: Char, may: Char -> bool, to: Room)
    requires a.stances.Keys == b.stances.Keys == c.stances.Keys && forall x :: x in c.people ==> x in b.people
    requires forall x :: x in b.people && x in passed && x.master == ch ==> Stays(x, a, b, may, to)
    requires forall x :: x in a.stances && x.master == ch && x != fch ==> c.stances[x] == b.stances[x]
    requires fch.master == ch && fch in a.stances ==> b.stances[fch] == a.stances[fch]
    requires fch !in passed && (fch in c.people && fch.master == ch ==> Stays(fch, b, c, may, to))
    ensures forall x :: x in c.people && x in passed + [fch] && x.master == ch ==> Stays(x, a, c, may, to)
  {
  }

  /** A follower is barred: nobody behind it has been asked, and everybody ahead of it has. */
  lemma Stops(
      ch: Char, fch: Char, may: Char -> bool, from: Room, to: Room, p0: map<Room, seq<Char>>, s0: map<Char, Stance>,
      p1: map<Room, seq<Char>>, s1: map<Char, Stance>, s2: map<Char, Stance>, before: seq<Char>, passed: seq<Char>)
    requires Progress(ch, may, from, to, p0, s0, p1, s1, before, passed)
    requires from in p0 && passed + [fch] <= p0[from] && from in p1 && fch in p1[from]
    requires TurnedBack(ch, fch, to, s1, s2)
    ensures Gathered(ch, may, from, to, p0, s0, p1, s2, before)
  {
    assert Open(0);
    var a, b, c := Scene(p0[from], s0), Scene(p1[from], s1), Scene(p1[from], s2);
    PrefixIsAhead(a.people, passed, fch);
    StopRouses(ch, fch, may, to, s0, s1, s2, before, passed);
    SettledStill(a, b, c, before, may, to);
    StopsHere(a, b, c, before, passed, ch, fch, may, to);
  }

  lemma StopRouses(
      ch: Char, fch: Char, may: Char -> bool, to: Room,
      s0: map<Char, Stance>, s1: map<Char, Stance>, s2: map<Char, Stance>, before: seq<Char>, passed: seq<Char>)
    requires TurnedBack(ch, fch, to, s1, s2) && fch !in passed && ch !in before && fch !in before && s1.Keys == s0.Keys
    requires forall c :: c in s0 && s1[c] != s0[c] ==>
        s1[c] == Called(c, s0[c]) && (c.master in before || (c.master == ch && c in passed))
    requires Went(before, s0, s1, may)
    ensures Roused(s0, s2, [ch] + before) && Went(before, s0, s2, may)
    ensures forall c :: c in s1 && c != fch ==> s2[c] == s1[c]
  {
    assert forall c :: c in s1 && c != fch ==> s2[c] == s1[c];
    assert s1[fch] == s0[fch];
  }

  lemma StopsHere(
      a: Scene, b: Scene, c: Scene, before: seq<Char>, passed: seq<Char>, ch: Char, fch: Char,
      may: Char -> bool, to: Room)
    requires b.people == c.people == Without(a.people, before) && fch in b.people
    requires a.stances.Keys == b.stances.Keys && (forall x :: x in a.people ==> x in a.stances)
    requires forall x :: x in a.stances && x.master == ch && x !in before && x !in passed ==>
        b.stances[x] == a.stances[x]
    requires forall x :: x in before && x.master == ch ==> x in passed
    requires forall x :: x in b.people && x in passed && x.master == ch ==> Stays(x, a, b, may, to)
    requires forall x ::
        && (Ahead(a.people, x, fch) <==> x in passed)
        && (Ahead(a.people, fch, x) ==> x !in passed && x != fch)
    requires TurnedBack(ch, fch, to, b.stances, c.stances) && fch !in passed
    ensures CutShort(a, c, ch, fch, may, to)
  {
    assert forall x :: x in a.stances && x != fch ==> c.stances[x] == b.stances[x];
    forall x | x in c.people && x.master == ch && Ahead(a.people, x, fch) ensures Stays(x, a, c, may, to) {
      assert x in passed && Stays(x, a, b, may, to);
    }
    forall x | x in a.people && x.master == ch && Ahead(a.people, fch, x) ensures Unasked(x, a, c) {
      assert x !in passed && x !in before;
    }
  }

  /** In a list without repeats that starts with `passed` and then `y`, exactly `passed` is ahead of `y`. */
  lemma PrefixIsAhead<X>(s: seq<X>, passed: seq<X>, y: X)
    requires NoRepeats(s) && passed + [y] <= s
    ensures y !in passed
    ensures forall x :: (Ahead(s, x, y) <==> x in passed) && (Ahead(s, y, x) ==> x !in passed && x != y)
  {
    var n := |passed|;
    assert s[n] == (passed + [y])[n] && forall k :: 0 <= k < n ==> s[k] == (passed + [y])[k] == passed[k];
  }

  /** `fch` was told to stand, stood, and was barred. */
  ghost predicate TurnedBack(ch: Char, fch: Char, to: Room, s1: map<Char, Stance>, s2: map<Char, Stance>)
    reads fch`master
  {
    Stood(fch, ch, s1, s2) && fch.master == ch && s2[fch].position == Standing && to.law && fch.aggressiveNpc
  }

  /** Whom one turn tells anything, nobody has told anything before. */
  lemma TurnsApart(
      ch: Char, fch: Char, may: Char -> bool, from: Room, to: Room, p0: map<Room, seq<Char>>, s0: map<Char, Stance>,
      p1: map<Room, seq<Char>>, s1: map<Char, Stance>, p2: map<Room, seq<Char>>, s2: map<Char, Stance>,
      before: seq<Char>, passed: seq<Char>, m: seq<Char>)
    requires Progress(ch, may, from, to, p0, s0, p1, s1, before, passed)
    requires Turned(ch, fch, may, from, to, p1, s1, p2, s2, m)
    requires fch !in passed && from in p1 && fch in p1[from]
    ensures s2.Keys == s1.Keys == s0.Keys
    ensures forall c :: c in s0 && (c.master in m || (c == fch && c.master == ch)) ==> s1[c] == s0[c]
    ensures forall c :: c in s0 && (c.master in before || (c.master == ch && c != fch)) ==> s2[c] == s1[c]
    ensures forall c :: c in s0 && s2[c] != s0[c] ==>
        s2[c] == Called(c, s0[c]) && (c.master in before + m || (c.master == ch && c in passed + [fch]))
  {
    assert Open(0);
    assert ch !in before && ch !in m;
    assert forall c :: c in m ==> c !in before;
  }

  lemma FollowersThen(leader: Char, a: seq<Char>, c: Char, b: seq<Char>)
    requires Follow(a, leader) && (b != [] ==> b[0] == c && c.master == leader && Follow(b[1..], c))
    ensures Follow(a + b, leader)
  {
    if b != [] {
      FollowThen(leader, a, c, b[1..]);
      assert a + ([c] + b[1..]) == a + b;
    } else {
      assert a + b == a;
    }
  }

  /** What one turn makes of the people and the stances when `fch`'s turn comes. */
  ghost predicate Turned(
      ch: Char, fch: Char, may: Char -> bool, from: Room, to: Room, p1: map<Room, seq<Char>>, s1: map<Char, Stance>,
      p2: map<Room, seq<Char>>, s2: map<Char, Stance>, moved: seq<Char>)
    reads s1.Keys`master, moved`master, fch`master
    reads (if from in p1 then p1[from] else [])`master, (if from in p2 then p2[from] else [])`master
  {
    forall n {:trigger Open(n)} :: Open(n) ==>
      && OnlyBetween(p1, p2, from, to) && s2.Keys == s1.Keys && fch in s1
      && (forall c :: c in s1 && s2[c] != s1[c] ==>
            s2[c] == Called(c, s1[c]) && (c.master in moved || (c == fch && c.master == ch)))
      && Shifted(p1[from], p1[to], moved, p2[from], p2[to])
      && (moved != [] ==> moved[0] == fch && fch.master == ch && Follow(moved[1..], fch))
      && Lawful(moved, to) && Went(moved, s1, s2, may)
      && Settled(Scene(p1[from], s1), Scene(p2[from], s2), moved, may, to)
      && (fch in p2[from] && fch.master == ch ==> Stays(fch, Scene(p1[from], s1), Scene(p2[from], s2), may, to))
  }

  /** One turn of that loop: the person is told to stand up, is barred, or is asked to follow. */
  method Follower(
      ch: Char, fch: Char, direction: Direction, may: Char -> bool, from: Room, to: Room,
      ghost rooms: set<Room>, ghost chars: set<Char>)
    returns (barred: bool, ghost moved: seq<Char>)
    requires Placed(rooms, chars) && ch in chars && ch.inRoom == to != from && fch in chars && fch.inRoom == from
    requires from in rooms && direction in from.exits && from.exits[direction] == to
    modifies rooms`people, chars`inRoom, chars`position, chars`riding
    ensures Placed(rooms, chars) && ch.inRoom == to && |from.people| <= old(|from.people|)
    ensures barred ==>
        && moved == [] && People(rooms) == old(People(rooms))
        && TurnedBack(ch, fch, to, old(Stances(chars)), Stances(chars))
    ensures !barred ==>
        Turned(ch, fch, may, from, to, old(People(rooms)), old(Stances(chars)), People(rooms), Stances(chars), moved)
    decreases |from.people|, 2
  {
    barred, moved := false, [];
    ghost var p0, s0 := People(rooms), Stances(chars);
    FromAndTo(ch, fch, from, to, rooms, chars);
    Call(ch, fch, chars);
    ghost var s1 := Stances(chars);
    if fch.master == ch && fch.position == Standing {
      if to.law && fch.aggressiveNpc {
        barred := true;
        return;
      }
      moved := Ask(ch, fch, direction, may, from, to, rooms, chars, s0);
    } else {
      TurnsStill(ch, fch, may, from, to, p0, s0, s1);
    }
  }

  /** Somebody who stands and is not barred is asked to follow. */
  method Ask(
      ch: Char, fch: Char, direction: Direction, may: Char -> bool, from: Room, to: Room,
      ghost rooms: set<Room>, ghost chars: set<Char>, ghost s0: map<Char, Stance>)
    returns (ghost moved: seq<Char>)
    requires Placed(rooms, chars) && ch in chars && ch.inRoom == to != from && fch in chars && fch.inRoom == from
    requires from in rooms && direction in from.exits && from.exits[direction] == to
    requires fch.master == ch && fch.position == Standing && !(to.law && fch.aggressiveNpc)
    requires Stood(fch, ch, s0, Stances(chars))
    modifies rooms`people, chars`inRoom, chars`position, chars`riding
    ensures Placed(rooms, chars) && ch.inRoom == to && |from.people| <= old(|from.people|)
    ensures Turned(ch, fch, may, from, to, old(People(rooms)), s0, People(rooms), Stances(chars), moved)
    decreases |from.people|, 1
  {
    ghost var p1, s1 := People(rooms), Stances(chars);
    FromAndTo(ch, fch, from, to, rooms, chars);
    moved := MoveChar(fch, direction, may, rooms, chars);
    if moved == [] {
      assert Stances(chars) == s1;
      TurnsStill(ch, fch, may, from, to, p1, s0, s1);
    } else {
      TurnsWalking(ch, fch, may, from, to, p1, s0, s1, People(rooms), Stances(chars), moved);
    }
    StillIn(ch, to, rooms, chars);
  }

  /** The charmed are told to stand up. */
  method Call(ch: Char, fch: Char, ghost chars: set<Char>)
    requires fch in chars
    modifies fch`position, fch`riding
    ensures Stood(fch, ch, old(Stances(chars)), Stances(chars))
  {
    ghost var s0 := Stances(chars);
    if fch.master == ch && fch.charmed && fch.IsPreoccupied() {
      fch.Stand();
    }
    assert Stances(chars) == s0[fch := Stance(fch.position, fch.riding)];
  }

  lemma FromAndTo(ch: Char, fch: Char, from: Room, to: Room, rooms: set<Room>, chars: set<Char>)
    requires Placed(rooms, chars) && from in rooms && to in from.exits.Values
    requires ch in chars && ch.inRoom == to != from && fch in chars && fch.inRoom == from
    ensures to in rooms && NoRepeats(from.people) && fch in from.people && ch !in from.people && ch in to.people
  {
    PlacedMeans(rooms, chars);
  }

  lemma StillIn(ch: Char, to: Room, rooms: set<Room>, chars: set<Char>)
    requires Placed(rooms, chars) && to in rooms && ch in to.people
    ensures ch.inRoom == to
  {
    PlacedMeans(rooms, chars);
  }

  /** The change of stances by `do_stand`, if `fch` was told to stand at all. */
  ghost predicate Stood(fch: Char, ch: Char, s0: map<Char, Stance>, s1: map<Char, Stance>)
    reads fch`master
  {
    fch in s0 && s1 == s0[fch := if fch.master == ch then Called(fch, s0[fch]) else s0[fch]]
  }

  lemma TurnsStill(
      ch: Char, fch: Char, may: Char -> bool, from: Room, to: Room,
      p: map<Room, seq<Char>>, s0: map<Char, Stance>, s1: map<Char, Stance>)
    requires from in p && to in p && Stood(fch, ch, s0, s1)
    requires fch.master == ch ==> s1[fch].position != Standing || (!may(fch) && !(to.law && fch.aggressiveNpc))
    ensures Turned(ch, fch, may, from, to, p, s0, p, s1, [])
  {
    NoneShifted(p[from], p[to]);
  }

  lemma TurnsWalking(
      ch: Char, fch: Char, may: Char -> bool, from: Room, to: Room, p1: map<Room, seq<Char>>, s0: map<Char, Stance>,
      s1: map<Char, Stance>, p2: map<Room, seq<Char>>, s2: map<Char, Stance>, moved: seq<Char>)
    requires from in p1 && to in p1 && NoRepeats(p1[from]) && fch in p1[from] && ch !in p1[from]
    requires Stood(fch, ch, s0, s1) && fch.master == ch && s1[fch].position == Standing
    requires Roused(s1, s2, moved) && may(fch) && !(to.law && fch.aggressiveNpc)
    requires moved != [] && moved[0] == fch && Follow(moved[1..], fch) && OnlyBetween(p1, p2, from, to)
    requires Shifted(p1[from], p1[to], moved, p2[from], p2[to])
    requires Lawful(moved[1..], to) && Went(moved[1..], s1, s2, may)
    requires Settled(Scene(Without(p1[from], [fch]), s1), Scene(p2[from], s2), moved, may, to)
    ensures from in p2 && to in p2 && |p2[from]| <= |p1[from]| && forall c :: c in p1[to] ==> c in p2[to]
    ensures Turned(ch, fch, may, from, to, p1, s0, p2, s2, moved)
  {
    WithoutNoRepeats(p1[from], moved);
    assert ch !in moved;
    StoodThenRoused(ch, fch, s0, s1, s2, moved);
    assert moved == [fch] + moved[1..] && fch !in moved[1..];
    WentAfterStanding(fch, s0, s1, s2, moved, may);
    SettledAfterStanding(ch, fch, p1[from], p2[from], s0, s1, s2, moved, may, to);
  }

  lemma WentAfterStanding(
      fch: Char, s0: map<Char, Stance>, s1: map<Char, Stance>, s2: map<Char, Stance>, moved: seq<Char>,
      may: Char -> bool)
    requires moved != [] && moved[0] == fch && fch !in moved[1..] && fch in s0 && may(fch)
    requires s2.Keys == s1.Keys == s0.Keys && s2[fch] == s1[fch] == Called(fch, s0[fch]) && s1[fch].position == Standing
    requires (forall c :: c in s0 && c != fch ==> s1[c] == s0[c]) && Went(moved[1..], s1, s2, may)
    ensures Went(moved, s0, s2, may)
  {
    forall c | c in moved ensures c == fch || c in moved[1..] {
      assert moved == [fch] + moved[1..];
    }
  }

  lemma SettledAfterStanding(
      ch: Char, fch: Char, f1: seq<Char>, f2: seq<Char>,
      s0: map<Char, Stance>, s1: map<Char, Stance>, s2: map<Char, Stance>, moved: seq<Char>,
      may: Char -> bool, to: Room)
    requires moved != [] && moved[0] == fch && fch.master == ch && ch !in moved && f2 == Without(f1, moved)
    requires s2.Keys == s1.Keys == s0.Keys && forall c :: c in s0 && c != fch ==> s1[c] == s0[c]
    requires Settled(Scene(Without(f1, [fch]), s1), Scene(f2, s2), moved, may, to)
    ensures Settled(Scene(f1, s0), Scene(f2, s2), moved, may, to)
  {
    var a, b, c := Scene(f1, s0), Scene(Without(f1, [fch]), s1), Scene(f2, s2);
    assert fch in moved;
    SettledBySome(a, b, c, [fch], moved, may, to);
  }

  lemma StoodThenRoused(
      ch: Char, fch: Char, s0: map<Char, Stance>, s1: map<Char, Stance>, s2: map<Char, Stance>, moved: seq<Char>)
    requires Stood(fch, ch, s0, s1) && fch.master == ch && ch !in moved && Roused(s1, s2, moved)
    ensures s2.Keys == s1.Keys == s0.Keys && s2[fch] == s1[fch] == Called(fch, s0[fch])
    ensures forall c :: c in s0 && c != fch ==> s1[c] == s0[c]
  {
  }

  // ----- who is pulled along

  /** Whoever stands there, once told to, and is barred from the place the leader has gone to. */
  ghost predicate Bars(b: Char, a: Scene, to: Room) {
    to.law && b in a.people && b in a.stances && b.aggressiveNpc && StandsOnceTold(b, a.stances[b])
  }

  /** No follower of the same master who would be barred is asked before `c`, nor is `c` barred. */
  ghost predicate IsAsked(c: Char, a: Scene, to: Room)
    reads c, a.people`master
  {
    forall b :: b in a.people && Bars(b, a, to) && b.master == c.master ==> b != c && !Ahead(a.people, b, c)
  }

  /**
   Exactly those come along who were there, whose master goes, who are asked before the law stops
   the asking, who stand once told to, and who are free to go.
   */
  lemma WhoComesAlong(
      ch: Char, moved: seq<Char>, f0: seq<Char>, t0: seq<Char>, f1: seq<Char>, t1: seq<Char>,
      s0: map<Char, Stance>, s1: map<Char, Stance>, may: Char -> bool, to: Room, c: Char)
    requires moved != [] && moved[0] == ch && Follow(moved[1..], ch) && NoRepeats(f0) && Shifted(f0, t0, moved, f1, t1)
    requires Lawful(moved[1..], to) && Went(moved[1..], s0, s1, may)
    requires Settled(Scene(Without(f0, [ch]), s0), Scene(f1, s1), moved, may, to)
    requires c != ch && c in s0
    ensures c in moved <==>
        && c in f0 && c.master in moved && StandsOnceTold(c, s0[c]) && may(c)
        && IsAsked(c, Scene(Without(f0, [ch]), s0), to)
  {
    var a, b := Scene(Without(f0, [ch]), s0), Scene(f1, s1);
    WithoutNoRepeats(f0, [ch]);
    CalledMeans(c, s0[c]);
    if c in moved {
      MastersGo(ch, moved, c);
      forall x | x in a.people && Bars(x, a, to) && x.master == c.master ensures x != c && !Ahead(a.people, x, c) {
        BarredDoNotGo(moved, a, to, x);
        AskedIfMoved(a, b, may, to, c, x);
      }
    } else if c in f0 && c.master in moved {
      assert c in f1 && SettledFor(a, b, c.master, may, to);
      NotMoved(a, b, may, to, c);
    }
  }

  lemma MastersGo(ch: Char, moved: seq<Char>, c: Char)
    requires moved != [] && moved[0] == ch && Follow(moved[1..], ch) && c in moved && c != ch
    ensures c in moved[1..] && c.master in moved
  {
    var i :| 0 < i < |moved| && moved[i] == c;
    assert moved[1..][i - 1] == c;
    if c.master != ch {
      var j :| 0 <= j < i - 1 && c.master == moved[1..][j];
    }
  }

  lemma NotMoved(a: Scene, b: Scene, may: Char -> bool, to: Room, c: Char)
    requires c.master != null && SettledFor(a, b, c.master, may, to) && c in b.people && c in a.people
    requires forall x :: x in b.people ==> x in a.people
    ensures c in a.stances
    ensures StandsOnceTold(c, a.stances[c]) && may(c) ==> !IsAsked(c, a, to)
  {
    CallsMean(a);
  }

  lemma CallsMean(a: Scene)
    ensures forall c :: c in a.stances ==>
        (Called(c, a.stances[c]).position == Standing <==> StandsOnceTold(c, a.stances[c]))
  {
    forall c | c in a.stances
      ensures Called(c, a.stances[c]).position == Standing <==> StandsOnceTold(c, a.stances[c])
    {
      CalledMeans(c, a.stances[c]);
    }
  }

  lemma AskedIfMoved(a: Scene, b: Scene, may: Char -> bool, to: Room, c: Char, x: Char)
    requires NoRepeats(a.people) && c in a.people && c !in b.people && forall y :: y in b.people ==> y in a.people
    requires c.master != null && SettledFor(a, b, c.master, may, to)
    requires Bars(x, a, to) && x in b.people && x.master == c.master
    ensures x != c && !Ahead(a.people, x, c)
  {
    CallsMean(a);
    var stop :| stop in b.people && CutShort(a, b, c.master, stop, may, to);
    assert Ahead(a.people, x, stop) ==> Stays(x, a, b, may, to);
    assert Ahead(a.people, stop, c) ==> Unasked(c, a, b);
    assert Bars(x, a, to) && !Stays(x, a, b, may, to) && !Unasked(c, a, b);
    AheadOrder(a.people, x, stop, c);
  }

  lemma BarredDoNotGo(moved: seq<Char>, a: Scene, to: Room, x: Char)
    requires moved != [] && Lawful(moved[1..], to) && Bars(x, a, to) && x != moved[0]
    ensures x !in moved
  {
    assert moved == [moved[0]] + moved[1..];
  }

  lemma AheadOrder<X>(s: seq<X>, x: X, y: X, z: X)
    requires NoRepeats(s) && x in s && y in s
    requires !Ahead(s, x, y) && !Ahead(s, y, z)
    ensures !Ahead(s, x, z)
  {
  }

  /** Going from master to master along `path` leads from its first character to its last. */
  ghost predicate MasterPath(path: seq<Char>)
    reads path`master
  {
    path != [] && forall i :: 0 <= i < |path| - 1 ==> path[i].master == path[i + 1]
  }

  /** Everyone who came along reaches the leader by going from master to master. */
  lemma {:induction false} FollowersReachLeader(moved: seq<Char>, leader: Char, i: nat) returns (path: seq<Char>)
    requires Follow(moved, leader) && i < |moved|
    ensures MasterPath(path) && path[0] == moved[i] && path[|path| - 1] == leader
    decreases i
  {
    if moved[i].master == leader {
      path := [moved[i], leader];
    } else {
      var j :| 0 <= j < i && moved[i].master == moved[j];
      path := FollowersReachLeader(moved, leader, j);
      path := [moved[i]] + path;
    }
  }
}
