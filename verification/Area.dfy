/**
 The reset timer of an area: what each event does to it, how far apart resets can be over any
 run of entries, exits and updates, and the object that keeps the timer.
 */
module Area {

  const USHORT := 0x1_0000
  const RESET_AGE_OCCUPIED := 15
  const RESET_AGE_UNOCCUPIED := 10

  /** The timer; `school` marks the one area that holds the Mud School entrance. */
  datatype Timer = Timer(age: nat, players: nat, empty: bool, school: bool)

  /** An update carries the roll that sets the age if it resets the area. */
  datatype Event = Enter | Leave | Update(roll: nat)

  function Entered(t: Timer): Timer {
    var cleared := if t.empty then t.(empty := false, age := 0) else t;
    cleared.(players := (t.players + 1) % USHORT)
  }

  /** Unsigned, so leaving an area nobody is in wraps around. */
  function Left(t: Timer): Timer {
    t.(players := (t.players + USHORT - 1) % USHORT)
  }

  function Threshold(t: Timer): nat {
    if t.empty then RESET_AGE_UNOCCUPIED else RESET_AGE_OCCUPIED
  }

  /** The next update resets the area. */
  predicate Due(t: Timer) {
    (t.age + 1) % USHORT >= Threshold(t)
  }

  function Reset(t: Timer, roll: nat): Timer {
    if t.school then t.(age := RESET_AGE_UNOCCUPIED)
    else t.(age := roll, empty := t.empty || t.players == 0)
  }

  function Updated(t: Timer, roll: nat): Timer {
    var older := t.(age := (t.age + 1) % USHORT);
    if Due(t) then Reset(older, roll) else older
  }

  function Step(t: Timer, e: Event): Timer {
    match e
    case Enter => Entered(t)
    case Leave => Left(t)
    case Update(roll) => Updated(t, roll)
  }

  /** As an area is loaded: old enough that the first update resets it. */
  function Loaded(school: bool): Timer {
    Timer(USHORT - 2, 0, false, school)
  }

  ghost predicate RollsOk(events: seq<Event>) {
    forall i :: 0 <= i < |events| && events[i].Update? ==> events[i].roll <= 3
  }

  /** The numbers of the updates that reset the area, counting from `n`. */
  function ResetTimes(t: Timer, events: seq<Event>, n: nat): seq<nat>
    decreases |events|
  {
    if events == [] then []
    else if !events[0].Update? then ResetTimes(Step(t, events[0]), events[1..], n)
    else
      var later := ResetTimes(Step(t, events[0]), events[1..], n + 1);
      if Due(t) then [n] + later else later
  }

  function Updates(events: seq<Event>): nat {
    if events == [] then 0 else (if events[0].Update? then 1 else 0) + Updates(events[1..])
  }

  // ----- time in hand

  /** Between resets. */
  ghost predicate Running(t: Timer) {
    t.age < Threshold(t) && (t.school ==> !t.empty && t.age >= RESET_AGE_UNOCCUPIED)
  }

  /** Updates up to and including the next reset if nobody comes or goes. */
  function Least(t: Timer): int {
    Threshold(t) - t.age
  }

  /** The most updates the next reset can be made to wait: one entry at the last moment starts 15 anew. */
  function Most(t: Timer): int {
    if t.empty then RESET_AGE_OCCUPIED + RESET_AGE_UNOCCUPIED - 1 - t.age else RESET_AGE_OCCUPIED - t.age
  }

  /** The fewest updates between two resets. */
  function MinGap(school: bool): int {
    if school then 5 else 7
  }

  function MaxGap(school: bool): int {
    if school then 5 else 24
  }

  /** Coming and going never hastens the next reset; only the first entry into an empty area delays it. */
  lemma ComingAndGoing(t: Timer)
    requires Running(t)
    ensures Running(Left(t)) && Least(Left(t)) == Least(t) && Most(Left(t)) == Most(t) && Left(t).empty == t.empty
    ensures Running(Entered(t)) && Least(Entered(t)) >= Least(t) && Most(Entered(t)) <= Most(t)
    ensures Least(Entered(t)) > Least(t) <==> t.empty
    ensures !Entered(t).empty
  {
  }

  /** Only a reset marks an area as empty, so there is at most one such delay between two resets. */
  lemma EmptyOnlyByReset(t: Timer, e: Event)
    requires !t.empty && Step(t, e).empty
    ensures e.Update? && Due(t)
  {
  }

  lemma UpdateCountsDown(t: Timer, roll: nat)
    requires Running(t) && roll <= 3
    ensures Due(t) <==> Least(t) == 1
    ensures Running(Updated(t, roll))
    ensures !Due(t) ==> Least(Updated(t, roll)) == Least(t) - 1 && Most(Updated(t, roll)) == Most(t) - 1
    ensures Due(t) ==> Least(Updated(t, roll)) >= MinGap(t.school) && Most(Updated(t, roll)) <= MaxGap(t.school)
    ensures Updated(t, roll).school == t.school
  {
  }

  /** The first reset after update `last`, where the timer stands as it should `n - last` updates later. */
  ghost predicate OnTime(t: Timer, last: int, n: int) {
    && Running(t)
    && (n - 1 - last) + Least(t) >= MinGap(t.school)
    && (n - 1 - last) + Most(t) <= MaxGap(t.school)
  }

  /** Each reset comes in time after the one before, the first of them after update `last`. */
  ghost predicate Paced(times: seq<nat>, last: int, school: bool) {
    times == [] ||
    (MinGap(school) <= times[0] - last <= MaxGap(school) && Paced(times[1..], times[0], school))
  }

  function Latest(times: seq<nat>, last: int): int {
    if times == [] then last else times[|times| - 1]
  }

  lemma {:induction false} ResetsArePaced(t: Timer, events: seq<Event>, n: nat, last: int)
    requires OnTime(t, last, n) && RollsOk(events)
    ensures var times := ResetTimes(t, events, n);
            Paced(times, last, t.school) && n + Updates(events) - 1 - Latest(times, last) < MaxGap(t.school)
    decreases |events|
  {
    if events != [] {
      var e, rest := events[0], events[1..];
      assert RollsOk(rest);
      match e
      case Update(roll) =>
        UpdateCountsDown(t, roll);
        if Due(t) {
          ResetsArePaced(Updated(t, roll), rest, n + 1, n);
          assert ResetTimes(t, events, n)[1..] == ResetTimes(Updated(t, roll), rest, n + 1);
        } else {
          ResetsArePaced(Updated(t, roll), rest, n + 1, last);
        }
      case _ =>
        ComingAndGoing(t);
        ResetsArePaced(Step(t, e), rest, n, last);
    }
  }

  lemma {:induction false} FirstUpdateResets(t: Timer, events: seq<Event>, n: nat)
    requires t.age == USHORT - 2 && !t.empty && RollsOk(events)
    ensures var times := ResetTimes(t, events, n);
            if Updates(events) == 0 then times == []
            else times != [] && times[0] == n && Paced(times[1..], n, t.school)
                 && n + Updates(events) - 1 - Latest(times, n) < MaxGap(t.school)
    decreases |events|
  {
    if events != [] {
      var e, rest := events[0], events[1..];
      assert RollsOk(rest);
      if e.Update? {
        assert OnTime(Updated(t, e.roll), n, n + 1);
        ResetsArePaced(Updated(t, e.roll), rest, n + 1, n);
        assert ResetTimes(t, events, n)[1..] == ResetTimes(Updated(t, e.roll), rest, n + 1);
      } else {
        FirstUpdateResets(Step(t, e), rest, n);
      }
    }
  }

  lemma {:induction false} PacedGaps(times: seq<nat>, last: int, school: bool, i: nat)
    requires Paced(times, last, school) && i < |times|
    ensures MinGap(school) <= times[i] - (if i == 0 then last else times[i - 1]) <= MaxGap(school)
  {
    if i > 0 {
      PacedGaps(times[1..], times[0], school, i - 1);
    }
  }

  /**
   For every area as loaded and any interleaving of entries, exits and updates: the first update
   resets it; after that resets are 7 to 24 updates apart, in Mud School always 5; and the time
   since the last reset is always shorter than the longest gap.
   */
  lemma AreasKeepResetting(school: bool, events: seq<Event>)
    requires RollsOk(events) && Updates(events) > 0
    ensures var times := ResetTimes(Loaded(school), events, 0);
            && times != [] && times[0] == 0
            && (forall i :: 0 < i < |times| ==>
                  if school then times[i] == times[i - 1] + 5 else times[i - 1] + 7 <= times[i] <= times[i - 1] + 24)
            && Updates(events) - 1 - times[|times| - 1] < if school then 5 else 24
  {
    FirstUpdateResets(Loaded(school), events, 0);
    var times := ResetTimes(Loaded(school), events, 0);
    forall i | 0 < i < |times| ensures MinGap(school) <= times[i] - times[i - 1] <= MaxGap(school) {
      PacedGaps(times[1..], 0, school, i - 1);
    }
  }

  // ----- what it means that somebody is there

  function Headcount(events: seq<Event>): int {
    if events == [] then 0
    else (match events[0] case Enter => 1 case Leave => -1 case Update(_) => 0) + Headcount(events[1..])
  }

  function After(t: Timer, events: seq<Event>): Timer
    decreases |events|
  {
    if events == [] then t else After(Step(t, events[0]), events[1..])
  }

  /** The area knows how many players are in it, as far as 16 bits go. */
  lemma {:induction false} PlayersAreCounted(t: Timer, events: seq<Event>)
    requires t.players < USHORT
    ensures After(t, events).players == (t.players + Headcount(events)) % USHORT
    decreases |events|
  {
    if events != [] {
      PlayersAreCounted(Step(t, events[0]), events[1..]);
    }
  }

  /** Until the next reset, the age of an area that is not marked empty only counts updates. */
  lemma {:induction false} OccupiedWaits(t: Timer, events: seq<Event>, n: nat)
    requires !t.empty && t.age < RESET_AGE_OCCUPIED
    ensures var times := ResetTimes(t, events, n); times != [] ==> times[0] == n + RESET_AGE_OCCUPIED - 1 - t.age
    ensures n + Updates(events) >= n + RESET_AGE_OCCUPIED - t.age ==> ResetTimes(t, events, n) != []
    decreases |events|
  {
    if events != [] && !(events[0].Update? && Due(t)) {
      OccupiedWaits(Step(t, events[0]), events[1..], if events[0].Update? then n + 1 else n);
    }
  }

  /** An area with somebody in it when it is reset waits 15 updates less the roll, whoever comes and goes. */
  lemma OccupiedGap(t: Timer, roll: nat, events: seq<Event>, n: nat)
    requires Due(t) && !t.empty && t.players > 0 && !t.school && roll <= 3
    ensures var times := ResetTimes(t, [Update(roll)] + events, n);
            && times != [] && times[0] == n
            && (|times| > 1 ==> times[1] == n + 15 - roll)
            && (Updates(events) >= 15 - roll ==> |times| > 1)
  {
    assert ([Update(roll)] + events)[1..] == events;
    OccupiedWaits(Updated(t, roll), events, n + 1);
  }

  /** An area with nobody in it when it is reset, and nobody coming, waits 10 updates less the roll. */
  lemma EmptyGap(t: Timer, roll: nat, quiet: nat, n: nat)
    requires Due(t) && t.players == 0 && !t.school && roll <= 3 && quiet == 9 - roll
    ensures ResetTimes(t, [Update(roll)] + (Quiet(quiet, 0) + [Update(0)]), n) == [n, n + 10 - roll]
  {
    var rest := Quiet(quiet, 0) + [Update(0)];
    assert ([Update(roll)] + rest)[1..] == rest;
    QuietTime(Updated(t, roll), quiet, 0, [Update(0)], n + 1);
    LastReset(Updated(t, roll).(age := 9), 0, n + 10 - roll);
  }

  // ----- the bounds are met

  /** Updates in a row with nobody coming or going, all with the same roll. */
  function Quiet(n: nat, roll: nat): seq<Event> {
    if n == 0 then [] else [Update(roll)] + Quiet(n - 1, roll)
  }

  /** As long as an area is not due, quiet updates only make it older. */
  lemma {:induction false} QuietTime(t: Timer, n: nat, roll: nat, rest: seq<Event>, from: nat)
    requires t.age + n < Threshold(t)
    ensures ResetTimes(t, Quiet(n, roll) + rest, from) == ResetTimes(t.(age := t.age + n), rest, from + n)
    decreases n
  {
    if n == 0 {
      assert Quiet(n, roll) + rest == rest;
    } else {
      var later := Quiet(n - 1, roll) + rest;
      assert Quiet(n, roll) + rest == [Update(roll)] + later;
      QuietUpdate(t, roll, later, from);
      QuietTime(t.(age := t.age + 1), n - 1, roll, rest, from + 1);
    }
  }

  lemma QuietUpdate(t: Timer, roll: nat, rest: seq<Event>, from: nat)
    requires t.age + 1 < Threshold(t)
    ensures ResetTimes(t, [Update(roll)] + rest, from) == ResetTimes(t.(age := t.age + 1), rest, from + 1)
  {
    assert ([Update(roll)] + rest)[1..] == rest;
  }

  lemma LastReset(t: Timer, roll: nat, from: nat)
    requires Due(t)
    ensures ResetTimes(t, [Update(roll)], from) == [from]
  {
    assert [Update(roll)][1..] == [];
  }

  /** An update in which a freshly loaded area with nobody in it is reset. */
  lemma FirstReset(roll: nat, rest: seq<Event>)
    ensures ResetTimes(Loaded(false), [Update(roll)] + rest, 0) ==
        [0] + ResetTimes(Timer(roll, 0, true, false), rest, 1)
  {
    assert ([Update(roll)] + rest)[1..] == rest;
  }

  /** The shortest gap: the highest roll, and nobody comes. */
  lemma GapOfSeven()
    ensures var events := [Update(3)] + (Quiet(6, 0) + [Update(0)]);
            RollsOk(events) && ResetTimes(Loaded(false), events, 0) == [0, 7]
  {
    QuietRolls(6);
    FirstReset(3, Quiet(6, 0) + [Update(0)]);
    QuietTime(Timer(3, 0, true, false), 6, 0, [Update(0)], 1);
    LastReset(Timer(9, 0, true, false), 0, 7);
  }

  /** The longest gap: the lowest roll, and somebody comes just before the empty area would be reset. */
  lemma GapOfTwentyFour()
    ensures var events := [Update(0)] + (Quiet(9, 0) + ([Enter] + (Quiet(14, 0) + [Update(0)])));
            RollsOk(events) && ResetTimes(Loaded(false), events, 0) == [0, 24]
  {
    QuietRolls(9);
    QuietRolls(14);
    FirstReset(0, Quiet(9, 0) + ([Enter] + (Quiet(14, 0) + [Update(0)])));
    QuietTime(Timer(0, 0, true, false), 9, 0, [Enter] + (Quiet(14, 0) + [Update(0)]), 1);
    ResetAfterEntry(Timer(9, 0, true, false), 10);
  }

  lemma ResetAfterEntry(t: Timer, from: nat)
    requires t.empty && !t.school
    ensures ResetTimes(t, [Enter] + (Quiet(14, 0) + [Update(0)]), from) == [from + 14]
  {
    var last := Quiet(14, 0) + [Update(0)];
    assert ([Enter] + last)[1..] == last;
    QuietTime(Entered(t), 14, 0, [Update(0)], from);
    LastReset(Entered(t).(age := 14), 0, from + 14);
  }

  lemma {:induction false} QuietRolls(n: nat)
    ensures RollsOk(Quiet(n, 0))
  {
    if n > 0 {
      QuietRolls(n - 1);
      assert forall i :: 0 < i < |Quiet(n, 0)| ==> Quiet(n, 0)[i] == Quiet(n - 1, 0)[i - 1];
    }
  }

  // ----- the object

  class AreaTimer {
    var age: nat
    var numPlayers: nat
    var emptySinceLastReset: bool
    const school: bool
    ghost var resets: nat

    ghost function View(): Timer
      reads this
    {
      Timer(age, numPlayers, emptySinceLastReset, school)
    }

    constructor (school: bool)
      ensures View() == Loaded(school) && resets == 0
    {
      this.school := school;
      age, numPlayers, emptySinceLastReset, resets := USHORT - 1 - 1, 0, false, 0;
    }

    method PlayerEntered()
      modifies this
      ensures View() == Entered(old(View())) && resets == old(resets)
    {
      if emptySinceLastReset {
        emptySinceLastReset := false;
        age := 0;
      }
      numPlayers := (numPlayers + 1) % USHORT;
    }

    method PlayerLeft()
      modifies this
      ensures View() == Left(old(View())) && resets == old(resets)
    {
      numPlayers := (numPlayers + USHORT - 1) % USHORT;
    }

    /** `roll` is what `number_range(0, 3)` gives if the area resets. */
    method Update(roll: nat)
      requires roll <= 3
      modifies this
      ensures View() == Updated(old(View()), roll)
      ensures resets == old(resets) + if old(Due(View())) then 1 else 0
    {
      age := (age + 1) % USHORT;
      var resetAge := if emptySinceLastReset then RESET_AGE_UNOCCUPIED else RESET_AGE_OCCUPIED;
      if age >= resetAge {
        DoReset(roll);
      }
    }

    method DoReset(roll: nat)
      modifies this
      ensures View() == Reset(old(View()), roll) && resets == old(resets) + 1
    {
      resets := resets + 1;
      age := roll;
      if school {
        age := RESET_AGE_UNOCCUPIED;
      } else if numPlayers == 0 {
        emptySinceLastReset := true;
      }
    }
  }
}
