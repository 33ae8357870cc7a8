/** Publishing reserved names to AdGuard: a journal of ownership, a remote set, and a process that
    may stop, or be left in doubt, at any single change. */
module Reservations {
  import opened Common

  // A DNS rewrite: name and answer, as the readers normalize them.
  datatype Rewrite = Rewrite(name: string, answer: string)

  type Rewrites = set<Rewrite>

  // The remote rewrites, and the ownership file if it was ever written.
  datatype World = World(remote: Rewrites, file: Option<Rewrites>)

  function Previous(w: World): Rewrites { if w.file.Some? then w.file.value else {} }

  function Names(entries: Rewrites): set<string> { set e | e in entries :: e.name }

  function Conflicts(w: World, desired: Rewrites): Rewrites {
    set e | e in w.remote && e.name in Names(desired) && e !in desired + Previous(w)
  }

  function Additions(w: World, desired: Rewrites): Rewrites { desired - w.remote }

  function Removals(w: World, desired: Rewrites): Rewrites { (Previous(w) - desired) * w.remote }

  function Pending(w: World, desired: Rewrites): Rewrites { Previous(w) + desired }

  // The file a run leaves before it changes the remote side, and the one it leaves at the end.
  function Journaled(w: World, desired: Rewrites): Option<Rewrites> {
    if Pending(w, desired) != Previous(w) then Some(Pending(w, desired)) else w.file
  }

  function Confirmed(w: World, desired: Rewrites): Option<Rewrites> {
    if desired != Pending(w, desired) then Some(desired) else Journaled(w, desired)
  }

  // An uninterrupted run that meets no conflict.
  function Complete(w: World, desired: Rewrites): World {
    World(w.remote + Additions(w, desired) - Removals(w, desired), Confirmed(w, desired))
  }

  // The additions and removals a run has carried out so far, in whatever order it takes them: all
  // additions come before the first removal.
  ghost predicate Progress(w: World, desired: Rewrites, added: Rewrites, removed: Rewrites) {
    && added <= Additions(w, desired)
    && removed <= Removals(w, desired)
    && (removed != {} ==> added == Additions(w, desired))
  }

  // A world in which an interrupted run may leave things: it did nothing, or it journaled its
  // intent and carried out some of its changes, or it finished. A change whose outcome is in
  // doubt either happened or did not, so it is covered by the two neighbouring cases.
  ghost predicate Interrupted(w: World, desired: Rewrites, after: World) {
    || after == w
    || after == Complete(w, desired)
    || exists added, removed ::
         Progress(w, desired, added, removed) &&
         after == World(w.remote + added - removed, Journaled(w, desired))
  }

  lemma StoppedMidway(w: World, desired: Rewrites, added: Rewrites, removed: Rewrites, after: World)
    requires Progress(w, desired, added, removed)
    requires after.file == Journaled(w, desired) && after.remote == w.remote + added - removed
    ensures Interrupted(w, desired, after)
  {
    assert after == World(w.remote + added - removed, Journaled(w, desired));
  }

  // The read-back after the changes finds every addition and no removal.
  lemma ChangesConfirmed(w: World, desired: Rewrites)
    ensures desired <= Complete(w, desired).remote && Removals(w, desired) * Complete(w, desired).remote == {}
  {
  }

  datatype Failure = Conflicting(entries: Rewrites) | Unconfirmed | Stopped

  // ------------------------------------------------------------ the program

  class Client {
    var world: World

    constructor (w: World)
      ensures world == w
    {
      world := w;
    }

    method WriteState(entries: Rewrites)
      modifies this
      ensures world == old(world).(file := Some(entries))
    {
      world := world.(file := Some(entries));
    }

    method Add(e: Rewrite)
      modifies this
      ensures world == old(world).(remote := old(world).remote + {e})
    {
      world := world.(remote := world.remote + {e});
    }

    method Delete(e: Rewrite)
      modifies this
      ensures world == old(world).(remote := old(world).remote - {e})
    {
      world := world.(remote := world.remote - {e});
    }

    method AddAll(entries: Rewrites, fuel: nat) returns (done: Rewrites, left: nat)
      modifies this
      ensures world == old(world).(remote := old(world).remote + done) && done <= entries
      ensures if fuel >= |entries| then done == entries && left == fuel - |entries| else done != entries
    {
      done, left := {}, fuel;
      var todo := entries;
      while todo != {} && left > 0
        invariant done == entries - todo && todo <= entries
        invariant world == old(world).(remote := old(world).remote + done)
        invariant left + |done| == fuel
        decreases left
      {
        var e :| e in todo;
        Add(e);
        todo, done, left := todo - {e}, done + {e}, left - 1;
      }
      SubsetSize(done, entries);
      if done != entries { SmallerSet(done, entries); }
    }

    method DeleteAll(entries: Rewrites, fuel: nat) returns (done: Rewrites, left: nat)
      modifies this
      ensures world == old(world).(remote := old(world).remote - done) && done <= entries
      ensures if fuel >= |entries| then done == entries && left == fuel - |entries| else done != entries
    {
      done, left := {}, fuel;
      var todo := entries;
      while todo != {} && left > 0
        invariant done == entries - todo && todo <= entries
        invariant world == old(world).(remote := old(world).remote - done)
        invariant left + |done| == fuel
        decreases left
      {
        var e :| e in todo;
        Delete(e);
        todo, done, left := todo - {e}, done + {e}, left - 1;
      }
      SubsetSize(done, entries);
      if done != entries { SmallerSet(done, entries); }
    }

    // `fuel` is the number of changes (file writes and remote calls) the process lives to make;
    // the caller sees Stopped when it runs out.
    method Reconcile(desired: Rewrites, dryRun: bool, fuel: nat) returns (reply: Result<(nat, nat), Failure>)
      modifies this
      ensures var w := old(world);
              if Conflicts(w, desired) != {} then reply == Err(Conflicting(Conflicts(w, desired))) && world == w
              else if dryRun then reply == Ok((|Additions(w, desired)|, |Removals(w, desired)|)) && world == w
              else if fuel >= |Additions(w, desired)| + |Removals(w, desired)| + 2 || reply.Ok?
              then reply == Ok((|Additions(w, desired)|, |Removals(w, desired)|)) && world == Complete(w, desired)
              else reply == Err(Stopped) && Interrupted(w, desired, world)
    {
      var previous := Previous(world);
      var current := world.remote;
      var conflicts := set e | e in current && e.name in Names(desired) && e !in desired + previous;
      if conflicts != {} { return Err(Conflicting(conflicts)); }
      var additions := desired - current;
      var removals := (previous - desired) * current;
      if dryRun { return Ok((|additions|, |removals|)); }
      reply := CarryOut(desired, previous, additions, removals, fuel);
    }

    // The changes of a run: journal the intent, add, delete, read back, confirm.
    method CarryOut(desired: Rewrites, previous: Rewrites, additions: Rewrites, removals: Rewrites, fuel: nat)
      returns (reply: Result<(nat, nat), Failure>)
      requires previous == Previous(world) && additions == Additions(world, desired) && removals == Removals(world, desired)
      modifies this
      ensures if fuel >= |additions| + |removals| + 2 || reply.Ok?
              then reply == Ok((|additions|, |removals|)) && world == Complete(old(world), desired)
              else reply == Err(Stopped) && Interrupted(old(world), desired, world)
    {
      ghost var w := world;
      var left := fuel;
      var pending := previous + desired;
      if pending != previous {
        if left == 0 { return Err(Stopped); }
        WriteState(pending);
        left := left - 1;
      }
      assert world == World(w.remote, Journaled(w, desired));
      var added, removed: Rewrites;
      added, left := AddAll(additions, left);
      StoppedMidway(w, desired, added, {}, world);
      if added != additions { return Err(Stopped); }
      removed, left := DeleteAll(removals, left);
      StoppedMidway(w, desired, added, removed, world);
      if removed != removals { return Err(Stopped); }
      ChangesConfirmed(w, desired);
      var verified := world.remote;
      if !(desired <= verified) || removals * verified != {} { return Err(Unconfirmed); }
      if desired != pending {
        if left == 0 { return Err(Stopped); }
        WriteState(desired);
      }
      return Ok((|additions|, |removals|));
    }
  }

  // ------------------------------------------------- crash confluence

  // Whatever an interrupted run left behind, running again for the same names meets no new
  // conflict and ends where an uninterrupted run would have ended.
  lemma InterruptionIsHarmless(w: World, desired: Rewrites, after: World)
    requires Conflicts(w, desired) == {} && Interrupted(w, desired, after)
    ensures Conflicts(after, desired) == {}
    ensures Complete(after, desired) == Complete(w, desired)
  {
    NoConflict(w, desired);
    forall e | e in after.remote && e.name in Names(desired) ensures e in desired + Previous(after) {
      if e in w.remote { assert e in desired + Previous(w); }
    }
    assert Complete(after, desired).remote == Complete(w, desired).remote;
  }

  lemma NoConflict(w: World, desired: Rewrites)
    requires Conflicts(w, desired) == {}
    ensures forall e :: e in w.remote && e.name in Names(desired) ==> e in desired + Previous(w)
  {
    forall e | e in w.remote && e.name in Names(desired) ensures e in desired + Previous(w) {
      assert e !in Conflicts(w, desired);
    }
  }

  // Worlds left by any number of interrupted runs for the same names, one after the other.
  ghost predicate InterruptedRuns(ws: seq<World>, desired: Rewrites) {
    |ws| > 0 && forall i :: 0 < i < |ws| ==> Interrupted(ws[i - 1], desired, ws[i])
  }

  lemma {:induction false} CrashesConverge(ws: seq<World>, desired: Rewrites)
    requires InterruptedRuns(ws, desired) && Conflicts(ws[0], desired) == {}
    ensures Conflicts(ws[|ws| - 1], desired) == {}
    ensures Complete(ws[|ws| - 1], desired) == Complete(ws[0], desired)
  {
    if |ws| > 1 {
      var before := ws[..|ws| - 1];
      forall i | 0 < i < |before| ensures Interrupted(before[i - 1], desired, before[i]) {
        assert Interrupted(ws[i - 1], desired, ws[i]);
      }
      CrashesConverge(before, desired);
      assert Interrupted(ws[|ws| - 2], desired, ws[|ws| - 1]);
      InterruptionIsHarmless(ws[|ws| - 2], desired, ws[|ws| - 1]);
    }
  }

  // ------------------------------------------------------------ exactness

  // After a finished run the rewrites under reserved names are exactly the desired ones, every
  // other rewrite that was not owned is untouched, and the file owns exactly the desired ones.
  lemma FinishedRunIsExact(w: World, desired: Rewrites)
    requires Conflicts(w, desired) == {}
    ensures var done := Complete(w, desired);
            && (set e | e in done.remote && e.name in Names(desired)) == desired
            && done.remote - desired == w.remote - desired - Previous(w)
            && Previous(done) == desired
            && (done.file == None ==> desired == {})
  {
    NoConflict(w, desired);
    var done := Complete(w, desired);
    forall e ensures e in done.remote && e.name in Names(desired) <==> e in desired {
      if e in desired { assert e.name in Names(desired); }
    }
  }

  // A repeat run has nothing to add, remove or write.
  lemma RepeatRunDoesNothing(w: World, desired: Rewrites)
    requires Conflicts(w, desired) == {}
    ensures var done := Complete(w, desired);
            && Conflicts(done, desired) == {}
            && Additions(done, desired) == {} && Removals(done, desired) == {}
            && Pending(done, desired) == Previous(done) == desired
            && Complete(done, desired) == done
  {
    FinishedRunIsExact(w, desired);
    InterruptionIsHarmless(w, desired, Complete(w, desired));
  }

  // A run is refused exactly for an entry somebody else published under a desired name: neither
  // desired nor in the file.
  lemma RefusedExactly(w: World, desired: Rewrites)
    ensures Conflicts(w, desired) != {} <==>
              exists e, d :: e in w.remote && d in desired && e.name == d.name && e !in desired
                             && (w.file.None? || e !in w.file.value)
  {
    if e :| e in Conflicts(w, desired) {
      var d :| d in desired && d.name == e.name;
      assert e in w.remote && e !in desired;
    }
    if e, d :| e in w.remote && d in desired && e.name == d.name && e !in desired
               && (w.file.None? || e !in w.file.value) {
      assert e in Conflicts(w, desired);
    }
  }

  // ------------------------------------------- ownership, under manual edits

  // Single steps of runs, of their crashes, and of people editing the rewrites by hand meanwhile.
  // An active run remembers what it read when it began.
  datatype Activity =
    | Idle
    | Journaling(desired: Rewrites, add: Rewrites, remove: Rewrites, write: Option<Rewrites>)
    | Changing(desired: Rewrites, add: Rewrites, remove: Rewrites, removals: Rewrites)

  // `owned` collects everything some run has journaled as desired; the program does not store it.
  datatype State = State(world: World, run: Activity, owned: Rewrites)

  datatype Event =
    | Begin(desired: Rewrites)
    | WriteIntent
    | AddOne(entry: Rewrite)
    | DeleteOne(entry: Rewrite)
    | Finish
    | Crash
    | ManualEdit(remote: Rewrites)

  function StepOn(s: State, e: Event): State {
    match e
    case Begin(desired) =>
      if !s.run.Idle? || Conflicts(s.world, desired) != {} then s else
      s.(run := Journaling(desired, Additions(s.world, desired), Removals(s.world, desired),
                           if Pending(s.world, desired) != Previous(s.world) then Some(Pending(s.world, desired)) else None))
    case WriteIntent =>
      if !s.run.Journaling? then s else
      State(if s.run.write.Some? then s.world.(file := s.run.write) else s.world,
            Changing(s.run.desired, s.run.add, s.run.remove, s.run.remove),
            s.owned + s.run.desired)
    case AddOne(entry) =>
      if !s.run.Changing? || entry !in s.run.add then s else
      s.(world := s.world.(remote := s.world.remote + {entry}), run := s.run.(add := s.run.add - {entry}))
    case DeleteOne(entry) =>
      if !s.run.Changing? || s.run.add != {} || entry !in s.run.remove then s else
      s.(world := s.world.(remote := s.world.remote - {entry}), run := s.run.(remove := s.run.remove - {entry}))
    case Finish =>
      // The verification may fail after a manual edit; then the run ends like a crash.
      if !s.run.Changing? || s.run.add != {} || s.run.remove != {} then s
      else if !(s.run.desired <= s.world.remote) || s.run.removals * s.world.remote != {} then s.(run := Idle)
      else if Previous(s.world) == s.run.desired then s.(run := Idle)
      else s.(world := s.world.(file := Some(s.run.desired)), run := Idle)
    case Crash => s.(run := Idle)
    case ManualEdit(remote) => s.(world := s.world.(remote := remote))
  }

  ghost predicate OwnershipInv(s: State) {
    && Previous(s.world) <= s.owned
    && (s.run.Journaling? ==>
          s.run.remove <= s.owned && s.run.remove !! s.run.desired
          && (s.run.write.Some? ==> s.run.write.value <= s.owned + s.run.desired))
    && (s.run.Changing? ==> s.run.desired <= s.owned && s.run.remove <= s.owned && s.run.remove !! s.run.desired)
  }

  ghost function Steps(s: State, events: seq<Event>): State {
    if events == [] then s else StepOn(Steps(s, events[..|events| - 1]), events[|events| - 1])
  }

  lemma {:induction false} OwnershipHolds(w: World, events: seq<Event>)
    ensures OwnershipInv(Steps(State(w, Idle, Previous(w)), events))
  {
    if events != [] {
      OwnershipHolds(w, events[..|events| - 1]);
    }
  }

  // Did some run, at one of these steps, journal this entry as desired?
  ghost predicate JournaledBefore(w: World, events: seq<Event>, entry: Rewrite) {
    exists k :: 0 <= k < |events| && JournaledAt(w, events, entry, k)
  }

  ghost predicate JournaledAt(w: World, events: seq<Event>, entry: Rewrite, k: nat)
    requires k < |events|
  {
    var s := Steps(State(w, Idle, Previous(w)), events[..k]);
    events[k].WriteIntent? && s.run.Journaling? && entry in s.run.desired
  }

  lemma {:induction false} OwnedWasJournaled(w: World, events: seq<Event>, entry: Rewrite)
    requires entry in Steps(State(w, Idle, Previous(w)), events).owned
    ensures entry in Previous(w) || JournaledBefore(w, events, entry)
  {
    if events != [] {
      var before := events[..|events| - 1];
      if entry in Steps(State(w, Idle, Previous(w)), before).owned {
        OwnedWasJournaled(w, before, entry);
        if entry !in Previous(w) {
          var k :| 0 <= k < |before| && JournaledAt(w, before, entry, k);
          assert before[..k] == events[..k];
          assert JournaledAt(w, events, entry, k);
        }
      } else {
        assert JournaledAt(w, events, entry, |events| - 1);
      }
    }
  }

  // Only entries the first file owned, or that an earlier run journaled as desired, are ever
  // deleted by a run, whatever crashes and manual edits come between; and never a desired one.
  lemma DeletesOnlyWhatItOwns(w: World, events: seq<Event>, entry: Rewrite)
    requires var s := Steps(State(w, Idle, Previous(w)), events);
             entry in s.world.remote && entry !in StepOn(s, DeleteOne(entry)).world.remote
    ensures entry in Previous(w) || JournaledBefore(w, events, entry)
    ensures entry !in Steps(State(w, Idle, Previous(w)), events).run.desired
  {
    OwnershipHolds(w, events);
    OwnedWasJournaled(w, events, entry);
  }

  // Where the steps of one run for `desired` on world w can stand.
  ghost predicate RunInv(w: World, desired: Rewrites, s: State) {
    match s.run
    case Idle => Interrupted(w, desired, s.world)
    case Journaling(d, add, remove, write) =>
      && s.world == w && d == desired && add == Additions(w, desired) && remove == Removals(w, desired)
      && write == if Pending(w, desired) != Previous(w) then Some(Pending(w, desired)) else None
    case Changing(d, add, remove, removals) =>
      && d == desired && add <= Additions(w, desired) && remove <= Removals(w, desired) == removals
      && Progress(w, desired, Additions(w, desired) - add, Removals(w, desired) - remove)
      && s.world == World(w.remote + (Additions(w, desired) - add) - (Removals(w, desired) - remove), Journaled(w, desired))
  }

  lemma RunStepInv(w: World, desired: Rewrites, s: State, e: Event)
    requires RunInv(w, desired, s) && !e.Begin? && !e.ManualEdit?
    ensures RunInv(w, desired, StepOn(s, e))
  {
    if s.run.Changing? {
      var add, remove := s.run.add, s.run.remove;
      match e
      case AddOne(entry) =>
        if entry in add {
          assert Additions(w, desired) - (add - {entry}) == Additions(w, desired) - add + {entry};
          assert remove == Removals(w, desired);
        }
      case DeleteOne(entry) =>
        if entry in remove && add == {} {
          assert Removals(w, desired) - (remove - {entry}) == Removals(w, desired) - remove + {entry};
        }
      case Finish =>
        if add == {} && remove == {} {
          assert Additions(w, desired) - add == Additions(w, desired);
          assert Removals(w, desired) - remove == Removals(w, desired);
          assert desired <= s.world.remote;
          assert StepOn(s, e).world == Complete(w, desired);
        }
      case _ =>
    }
  }

  // Wherever the steps of a run are cut off, the world is one that Interrupted describes.
  lemma {:induction false} StepsAreInterruptions(w: World, owned: Rewrites, desired: Rewrites, events: seq<Event>)
    requires Conflicts(w, desired) == {}
    requires forall e :: e in events ==> !e.Begin? && !e.ManualEdit?
    ensures var s := Steps(StepOn(State(w, Idle, owned), Begin(desired)), events);
            RunInv(w, desired, s) && Interrupted(w, desired, s.world)
  {
    var s0 := StepOn(State(w, Idle, owned), Begin(desired));
    if events != [] {
      var shorter := events[..|events| - 1];
      StepsAreInterruptions(w, owned, desired, shorter);
      RunStepInv(w, desired, Steps(s0, shorter), events[|events| - 1]);
    }
    var s := Steps(s0, events);
    if s.run.Changing? {
      var added, removed := Additions(w, desired) - s.run.add, Removals(w, desired) - s.run.remove;
      assert Progress(w, desired, added, removed);
    }
  }

  // ------------------------------------------------ no entry is forgotten

  // A sequence of runs, each for its own names, finished or interrupted, without manual edits.
  // Whatever a run published and a later one no longer wants is gone after the next finished run.
  ghost predicate RunsFor(ws: seq<World>, wanted: seq<Rewrites>) {
    && |ws| == |wanted| + 1
    && forall i :: 0 <= i < |wanted| ==>
         ws[i + 1] == ws[i] || (Conflicts(ws[i], wanted[i]) == {} && Interrupted(ws[i], wanted[i], ws[i + 1]))
  }

  lemma {:induction false} NothingIsLeaked(ws: seq<World>, wanted: seq<Rewrites>)
    requires RunsFor(ws, wanted)
    ensures ws[|wanted|].remote <= (ws[0].remote - Previous(ws[0])) + Previous(ws[|wanted|])
  {
    if wanted != [] {
      var n := |wanted| - 1;
      assert RunsFor(ws[..n + 1], wanted[..n]) by {
        forall i | 0 <= i < n
          ensures ws[..n + 1][i + 1] == ws[..n + 1][i] ||
                  (Conflicts(ws[..n + 1][i], wanted[..n][i]) == {}
                   && Interrupted(ws[..n + 1][i], wanted[..n][i], ws[..n + 1][i + 1]))
        {
          assert ws[i + 1] == ws[i] || (Conflicts(ws[i], wanted[i]) == {} && Interrupted(ws[i], wanted[i], ws[i + 1]));
        }
      }
      NothingIsLeaked(ws[..n + 1], wanted[..n]);
      assert ws[n + 1] == ws[n] || Interrupted(ws[n], wanted[n], ws[n + 1]);
    }
  }

  // Without manual edits no run is ever refused, for any names the first remote set did not use, or used
  // by entries the first file owned: what the runs themselves published never stands in their way.
  lemma OwnEntriesNeverRefuse(ws: seq<World>, wanted: seq<Rewrites>, desired: Rewrites)
    requires RunsFor(ws, wanted)
    requires forall e, d :: e in ws[0].remote && d in desired && e.name == d.name ==> e in Previous(ws[0])
    ensures Conflicts(ws[|wanted|], desired) == {}
  {
    NothingIsLeaked(ws, wanted);
    var w := ws[|wanted|];
    forall e | e in w.remote && e.name in Names(desired) ensures e in Previous(w) {
      var d :| d in desired && d.name == e.name;
      assert (e in ws[0].remote && e !in Previous(ws[0])) || e in Previous(w);
    }
  }

  lemma FinishedRunClearsTheRest(ws: seq<World>, wanted: seq<Rewrites>, desired: Rewrites)
    requires RunsFor(ws, wanted) && Conflicts(ws[|wanted|], desired) == {}
    ensures Complete(ws[|wanted|], desired).remote <= (ws[0].remote - Previous(ws[0])) + desired
  {
    NothingIsLeaked(ws, wanted);
  }
}
