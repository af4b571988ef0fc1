/** Reminder scheduling: the notes subscription rebuilds the map from note id
    to timer handle (`activeAlarms`) from every snapshot, a fired timer drops
    its own entry, deleting a note cancels its timer, and unmounting clears
    every timer.

    The component reads and writes `activeAlarms`/`setActiveAlarms` but never
    declares that state among its hooks; this class gives it the evidently
    intended form, a map-valued field. The snapshot callback and the cleanup
    here read that field as it is now, whereas the component's closures keep
    the map of the render in which the subscription effect ran. */
module Alarms {
  import opened Docs

  /** A `setTimeout` handle. */
  type Handle = nat

  /** A timer that is armed: the note it belongs to, the title its alert
      shows and the instant (in milliseconds) it fires. */
  datatype Timer = Timer(note: NoteId, title: string, due: int)

  /** A snapshot never holds two documents with the same id. */
  predicate DistinctIds(snapshot: seq<Entry>) {
    forall i, j :: 0 <= i < j < |snapshot| ==> snapshot[i].id != snapshot[j].id
  }

  /** `if (note.alarmTimestamp)` and `alarmDate > now`. */
  predicate IsDue(e: Entry, now: int) {
    e.note.alarmTimestamp.Some? && e.note.alarmTimestamp.value > now
  }

  /** The timers one snapshot arms, keyed by note id, built entry by entry
      like the callback's `forEach`. */
  function DueTimers(snapshot: seq<Entry>, now: int): (m: map<NoteId, Timer>)
    ensures forall id :: id in m <==>
      exists i :: 0 <= i < |snapshot| && snapshot[i].id == id && IsDue(snapshot[i], now)
    ensures forall id :: id in m ==> m[id].note == id && m[id].due > now
    decreases |snapshot|
  {
    if snapshot == [] then map[]
    else
      var init := snapshot[..|snapshot| - 1];
      var e := snapshot[|snapshot| - 1];
      var m := DueTimers(init, now);
      assert forall i :: 0 <= i < |init| ==> init[i] == snapshot[i];
      if IsDue(e, now) then m[e.id := Timer(e.id, e.note.title, e.note.alarmTimestamp.value)] else m
  }

  /** With distinct ids, the timer armed for a due note carries that note's
      title and fires at that note's alarm instant. */
  lemma {:induction false} DueTimerOf(snapshot: seq<Entry>, now: int, i: nat)
    requires DistinctIds(snapshot)
    requires i < |snapshot| && IsDue(snapshot[i], now)
    ensures var e := snapshot[i];
      DueTimers(snapshot, now)[e.id] == Timer(e.id, e.note.title, e.note.alarmTimestamp.value)
    decreases |snapshot|
  {
    var init := snapshot[..|snapshot| - 1];
    if i < |snapshot| - 1 {
      assert DistinctIds(init) by {
        assert forall k :: 0 <= k < |init| ==> init[k] == snapshot[k];
      }
      DueTimerOf(init, now, i);
      assert init[i] == snapshot[i];
    }
  }

  /** One more entry of the snapshot arms at most one more timer. */
  lemma DueTimersSnoc(snapshot: seq<Entry>, i: nat, now: int)
    requires i < |snapshot|
    ensures var e := snapshot[i];
      DueTimers(snapshot[..i + 1], now) ==
        if IsDue(e, now) then DueTimers(snapshot[..i], now)[e.id := Timer(e.id, e.note.title, e.note.alarmTimestamp.value)]
        else DueTimers(snapshot[..i], now)
  {
    assert snapshot[..i + 1][..i] == snapshot[..i];
  }

  /** With distinct ids, no earlier entry has armed a timer for this one. */
  lemma NotYetArmed(snapshot: seq<Entry>, i: nat, now: int)
    requires DistinctIds(snapshot) && i < |snapshot|
    ensures snapshot[i].id !in DueTimers(snapshot[..i], now)
  {
  }

  /** `armed` records, for the notes of `due`, handles in `lo..hi` of armed
      timers equal to their `due` timers, and every armed timer is recorded
      under its own note. */
  ghost predicate Tracks(armed: map<NoteId, Handle>, pending: map<Handle, Timer>, due: map<NoteId, Timer>, lo: Handle, hi: Handle) {
    && armed.Keys == due.Keys
    && (forall n :: n in armed ==> armed[n] in pending && pending[armed[n]] == due[n])
    && (forall h :: h in pending ==> lo <= h < hi)
    && (forall h :: h in pending ==> pending[h].note in armed && armed[pending[h].note] == h)
  }

  /** Arming one more timer, under the next handle, for a note not yet
      recorded keeps the record exact. */
  lemma TracksArm(armed: map<NoteId, Handle>, pending: map<Handle, Timer>, due: map<NoteId, Timer>, lo: Handle, hi: Handle, t: Timer)
    requires Tracks(armed, pending, due, lo, hi) && lo <= hi && t.note !in due
    ensures Tracks(armed[t.note := hi], pending[hi := t], due[t.note := t], lo, hi + 1)
  {
    var armed', pending', due' := armed[t.note := hi], pending[hi := t], due[t.note := t];
    forall n | n in armed' ensures armed'[n] in pending' && pending'[armed'[n]] == due'[n] {
      if n != t.note {
        assert armed[n] in pending && armed[n] < hi;
      }
    }
    forall h | h in pending' ensures pending'[h].note in armed' && armed'[pending'[h].note] == h {
      if h != hi {
        assert pending[h].note in due;
      }
    }
  }

  /** One step of the snapshot's `forEach`: a due entry arms one timer
      under handle `next`, any other entry arms nothing, and either way the
      record matches the timers of the longer prefix. */
  lemma ArmStep(snapshot: seq<Entry>, i: nat, now: int, armed: map<NoteId, Handle>, timers: map<Handle, Timer>, lo: Handle, next: Handle)
    requires DistinctIds(snapshot) && i < |snapshot| && lo <= next
    requires Tracks(armed, timers, DueTimers(snapshot[..i], now), lo, next)
    ensures var e := snapshot[i];
      IsDue(e, now) ==>
        var t := Timer(e.id, e.note.title, e.note.alarmTimestamp.value);
        Tracks(armed[e.id := next], timers[next := t], DueTimers(snapshot[..i + 1], now), lo, next + 1)
    ensures !IsDue(snapshot[i], now) ==> Tracks(armed, timers, DueTimers(snapshot[..i + 1], now), lo, next)
  {
    var e := snapshot[i];
    DueTimersSnoc(snapshot, i, now);
    if IsDue(e, now) {
      NotYetArmed(snapshot, i, now);
      TracksArm(armed, timers, DueTimers(snapshot[..i], now), lo, next, Timer(e.id, e.note.title, e.note.alarmTimestamp.value));
    }
  }

  /** The registry behind `activeAlarms`, together with the runtime's armed
      timers and a millisecond clock. */
  class AlarmRegistry {
    /** `activeAlarms`: note id to the handle of its armed timer. */
    var active: map<NoteId, Handle>
    /** Timers the runtime holds: armed and neither cleared nor fired. */
    var pending: map<Handle, Timer>
    /** The handle the next `setTimeout` returns; React Native hands out
        handles from 1, so a recorded handle is never the falsy 0. */
    var nextHandle: Handle
    /** `Date.now()`. */
    var clock: int

    /** Each entry of `active` names exactly one armed timer, of its own
        note, and every armed timer is recorded there. */
    ghost predicate Valid()
      reads this
    {
      && (forall h :: h in pending ==> h < nextHandle)
      && (forall n :: n in active ==> active[n] in pending && pending[active[n]].note == n)
      && (forall h :: h in pending ==> pending[h].note in active && active[pending[h].note] == h)
    }

    /** The armed timers that belong to note `n`. */
    ghost function TimersFor(n: NoteId): set<Handle>
      reads this
    {
      set h | h in pending && pending[h].note == n
    }

    /** In a valid registry a note has at most one armed timer: the one its
        entry names. */
    lemma OneTimerPerNote(n: NoteId)
      requires Valid()
      ensures TimersFor(n) == if n in active then {active[n]} else {}
    {
    }

    constructor (now: int)
      ensures Valid()
      ensures active == map[] && pending == map[] && nextHandle == 1 && clock == now
    {
      active, pending, nextHandle, clock := map[], map[], 1, now;
    }

    /** Time passes. */
    method AdvanceClock(ms: nat)
      requires Valid()
      modifies this
      ensures Valid() && clock == old(clock) + ms
      ensures active == old(active) && pending == old(pending) && nextHandle == old(nextHandle)
    {
      clock := clock + ms;
    }

    /** The notes `onSnapshot` callback: clear every timer `activeAlarms`
        names, then arm one timer per note whose alarm is strictly later than
        now, with delay `alarm - now`, and make the new map the state. */
    method Reconcile(snapshot: seq<Entry>)
      requires Valid()
      requires DistinctIds(snapshot)
      modifies this
      ensures Valid() && clock == old(clock)
      ensures active.Keys == DueTimers(snapshot, clock).Keys
      ensures forall n :: n in active ==> pending[active[n]] == DueTimers(snapshot, clock)[n]
      ensures forall h :: h in pending ==> old(nextHandle) <= h && pending[h].due - clock > 0
      ensures forall n :: TimersFor(n) == if n in DueTimers(snapshot, clock) then {active[n]} else {}
    {
      ClearTimers();
      var armed := ArmTimers(snapshot);
      active := armed;
      forall n ensures TimersFor(n) == if n in DueTimers(snapshot, clock) then {active[n]} else {} {
        OneTimerPerNote(n);
      }
    }

    /** `Object.values(activeAlarms).forEach(clearTimeout)`: in a valid
        registry those handles are exactly the armed timers. */
    method ClearTimers()
      requires Valid()
      modifies this
      ensures pending == map[]
      ensures active == old(active) && nextHandle == old(nextHandle) && clock == old(clock)
    {
      var handles := set n | n in active :: active[n];
      while handles != {}
        invariant pending.Keys == handles
        invariant active == old(active) && nextHandle == old(nextHandle) && clock == old(clock)
        decreases handles
      {
        var h :| h in handles;
        pending := pending - {h};
        handles := handles - {h};
      }
    }

    /** The `forEach` over the snapshot: one new timer per due note, recorded
        in the map it returns (`newActiveAlarms`). */
    method ArmTimers(snapshot: seq<Entry>) returns (armed: map<NoteId, Handle>)
      requires pending == map[]
      requires DistinctIds(snapshot)
      modifies this
      ensures Tracks(armed, pending, DueTimers(snapshot, clock), old(nextHandle), nextHandle)
      ensures active == old(active) && clock == old(clock)
    {
      var timers: map<Handle, Timer> := map[];
      var next, now := nextHandle, clock;
      armed := map[];
      var i := 0;
      while i < |snapshot|
        modifies {}
        invariant 0 <= i <= |snapshot|
        invariant nextHandle <= next
        invariant Tracks(armed, timers, DueTimers(snapshot[..i], now), nextHandle, next)
      {
        var e := snapshot[i];
        ArmStep(snapshot, i, now, armed, timers, nextHandle, next);
        if e.note.alarmTimestamp.Some? && e.note.alarmTimestamp.value > now {
          timers := timers[next := Timer(e.id, e.note.title, e.note.alarmTimestamp.value)];
          armed := armed[e.id := next];
          next := next + 1;
        }
        i := i + 1;
      }
      assert snapshot[..i] == snapshot;
      assert Tracks(armed, timers, DueTimers(snapshot, now), nextHandle, next);
      pending, nextHandle := timers, next;
    }

    /** A timer fires: it shows its note's alert and deletes only its own
        note's entry. */
    method Fire(h: Handle) returns (message: string)
      requires Valid()
      requires h in pending && pending[h].due <= clock
      modifies this
      ensures Valid() && clock == old(clock)
      ensures message == "Alarm! Not: \"" + old(pending)[h].title + "\""
      ensures active == old(active) - {old(pending)[h].note}
      ensures pending == old(pending) - {h}
      ensures nextHandle == old(nextHandle)
    {
      var t := pending[h];
      message := "Alarm! Not: \"" + t.title + "\"";
      pending := pending - {h};
      active := active - {t.note};
    }

    /** Deleting a note: if `activeAlarms[id]` is set, clear that timer and
        drop the entry. Handles start at 1, so the truthiness test of the
        entry is the membership test `id in active`. */
    method Cancel(id: NoteId)
      requires Valid()
      modifies this
      ensures Valid() && clock == old(clock)
      ensures active == old(active) - {id}
      ensures pending == if id in old(active) then old(pending) - {old(active)[id]} else old(pending)
      ensures nextHandle == old(nextHandle)
      ensures TimersFor(id) == {}
    {
      if id in active {
        pending := pending - {active[id]};
        active := active - {id};
      }
    }

    /** Unmounting: every timer `activeAlarms` names is cleared. The map
        itself is left as it was, as the component is gone. */
    method Teardown()
      requires Valid()
      modifies this
      ensures pending == map[]
      ensures active == old(active) && nextHandle == old(nextHandle) && clock == old(clock)
    {
      ClearTimers();
    }
  }

  /** Receiving the same snapshot twice leaves one timer per due note and
      none for any other note, as receiving it once does. */
  method ReconcileTwice(r: AlarmRegistry, snapshot: seq<Entry>)
    requires r.Valid() && DistinctIds(snapshot)
    modifies r
    ensures r.Valid()
    ensures r.active.Keys == DueTimers(snapshot, r.clock).Keys
    ensures forall n :: |r.TimersFor(n)| == if n in DueTimers(snapshot, r.clock) then 1 else 0
  {
    r.Reconcile(snapshot);
    r.Reconcile(snapshot);
  }
}
