/** The note app's Firestore data as the handlers change it: one object
    holding both collections, whose handler methods await one write at a
    time and stop at the first write that fails. */
module NoteStore {
  import opened Lists
  import opened Docs
  import opened Forms
  import opened Plans
  import Alarms

  /** A run that has already applied `k` writes before this one. */
  function Shift(r: Ran, k: nat): Ran {
    Ran(r.state, r.applied + k)
  }

  /** Both collections of one user, and how many more writes the backend
      accepts before the connection fails (`quota`). */
  class Store {
    var notes: map<NoteId, Note>
    var groups: map<GroupId, Group>
    var quota: nat

    function Docs(): State
      reads this
    {
      State(notes, groups)
    }

    constructor (st: State, quota: nat)
      ensures Docs() == st && this.quota == quota
    {
      notes, groups, this.quota := st.notes, st.groups, quota;
    }

    /** One awaited write: it fails when the connection is gone or when it
        updates a missing document, and then changes nothing. */
    method Perform(w: Write) returns (ok: bool)
      modifies this
      ensures ok <==> old(quota) > 0 && Step(old(Docs()), w).Some?
      ensures ok ==> Docs() == Step(old(Docs()), w).value && quota == old(quota) - 1
      ensures !ok ==> Docs() == old(Docs()) && quota == old(quota)
    {
      if quota == 0 {
        return false;
      }
      var r := Step(Docs(), w);
      if r.None? {
        return false;
      }
      notes, groups, quota := r.value.notes, r.value.groups, quota - 1;
      ok := true;
    }

    /** `for (const groupId of ids) await groupRef.update({ noteIds: op(n) })`:
        stops at the first write that fails and reports how many were
        applied. */
    method UpdateGroups(ids: seq<GroupId>, op: ArrayOp, n: NoteId) returns (applied: nat)
      modifies this
      ensures var r := Run(old(Docs()), GroupWrites(ids, op, n), old(quota));
        Docs() == r.state && applied == r.applied && quota == old(quota) - applied
    {
      ghost var ws := GroupWrites(ids, op, n);
      applied := 0;
      while applied < |ids|
        invariant applied <= |ids| && applied <= old(quota)
        invariant quota == old(quota) - applied
        invariant Run(old(Docs()), ws, old(quota)) == Shift(Run(Docs(), ws[applied..], quota), applied)
      {
        assert ws[applied] == GroupArrayUpdate(ids[applied], op, n);
        ghost var cur := Docs();
        var ok := Perform(GroupArrayUpdate(ids[applied], op, n));
        if !ok {
          RunHalts(cur, ws, applied, quota);
          return;
        }
        RunAdvance(cur, ws, applied, quota + 1);
        applied := applied + 1;
      }
      RunHalts(Docs(), ws, applied, quota);
    }

    /** `for (const noteId of ids) await noteRef.update({ groupIds: op(g) })`:
        stops at the first write that fails and reports how many were
        applied. */
    method UpdateNotes(ids: seq<NoteId>, op: ArrayOp, g: GroupId) returns (applied: nat)
      modifies this
      ensures var r := Run(old(Docs()), NoteWrites(ids, op, g), old(quota));
        Docs() == r.state && applied == r.applied && quota == old(quota) - applied
    {
      ghost var ws := NoteWrites(ids, op, g);
      applied := 0;
      while applied < |ids|
        invariant applied <= |ids| && applied <= old(quota)
        invariant quota == old(quota) - applied
        invariant Run(old(Docs()), ws, old(quota)) == Shift(Run(Docs(), ws[applied..], quota), applied)
      {
        assert ws[applied] == NoteArrayUpdate(ids[applied], op, g);
        ghost var cur := Docs();
        var ok := Perform(NoteArrayUpdate(ids[applied], op, g));
        if !ok {
          RunHalts(cur, ws, applied, quota);
          return;
        }
        RunAdvance(cur, ws, applied, quota + 1);
        applied := applied + 1;
      }
      RunHalts(Docs(), ws, applied, quota);
    }

    /** `handleSaveNote`: a form the checks refuse changes nothing;
        otherwise the store is where the run of its plan leaves it, and the
        handler reports whether every write went through. */
    method SaveNote(form: NoteForm, cache: seq<Entry>, now: int, newId: NoteId, toMillis: string -> int)
      returns (out: Outcome)
      modifies this
      ensures var v := CheckNote(form, toMillis);
        v.Reject? ==> out == Rejected(v.why) && Docs() == old(Docs()) && quota == old(quota)
      ensures var v := CheckNote(form, toMillis);
        v.Pass? ==>
          var plan := SaveNotePlan(form, v.alarm, cache, now, newId);
          var r := Run(old(Docs()), plan, old(quota));
          Docs() == r.state && quota == old(quota) - r.applied && out == Conclude(r, plan)
    {
      var v := CheckNote(form, toMillis);
      if v.Reject? {
        return Rejected(v.why);
      }
      var note := SavedNote(form, v.alarm, now);
      match form.editing {
        case Some(id) =>
          out := EditNote(id, note, CachedGroupIds(cache, id));
        case None =>
          out := CreateNote(newId, note);
      }
    }

    /** The edit branch of `handleSaveNote`, from the note update on. */
    method EditNote(id: NoteId, note: Note, before: seq<GroupId>) returns (out: Outcome)
      modifies this
      ensures var plan := EditNotePlan(id, note, before);
        var r := Run(old(Docs()), plan, old(quota));
        Docs() == r.state && quota == old(quota) - r.applied && out == Conclude(r, plan)
    {
      ghost var st0, q0 := Docs(), quota;
      ghost var first := [NoteUpdate(id, note)];
      var rest := RegroupWrites(id, before, note.groupIds);
      RunOne(st0, NoteUpdate(id, note), q0);
      var ok := Perform(NoteUpdate(id, note));
      ghost var r1 := Ran(Docs(), if ok then 1 else 0);
      if !ok {
        RunChain(st0, first, rest, q0, r1, r1);
        return Failed(0);
      }
      assert quota == q0 - |first|;
      var a := Regroup(id, Without(note.groupIds, before), Without(before, note.groupIds));
      RunChain(st0, first, rest, q0, r1, Ran(Docs(), a));
      out := if a < |rest| then Failed(1 + a) else Done;
    }

    /** The two diff loops of the edit branch: `addedGroups` (`added`),
        then `removedGroups` (`removed`). */
    method Regroup(id: NoteId, added: seq<GroupId>, removed: seq<GroupId>) returns (applied: nat)
      modifies this
      ensures var r := Run(old(Docs()), GroupWrites(added, Union, id) + GroupWrites(removed, Remove, id), old(quota));
        Docs() == r.state && applied == r.applied && quota == old(quota) - applied
    {
      ghost var st0, q0 := Docs(), quota;
      ghost var unions := GroupWrites(added, Union, id);
      ghost var removals := GroupWrites(removed, Remove, id);
      var a := UpdateGroups(added, Union, id);
      ghost var r1 := Ran(Docs(), a);
      if a < |added| {
        RunChain(st0, unions, removals, q0, r1, r1);
        return a;
      }
      assert quota == q0 - |unions|;
      var b := UpdateGroups(removed, Remove, id);
      RunChain(st0, unions, removals, q0, r1, Ran(Docs(), b));
      applied := a + b;
    }

    /** The create branch of `handleSaveNote`, from the `add` on. */
    method CreateNote(newId: NoteId, note: Note) returns (out: Outcome)
      modifies this
      ensures var plan := CreateNotePlan(newId, note);
        var r := Run(old(Docs()), plan, old(quota));
        Docs() == r.state && quota == old(quota) - r.applied && out == Conclude(r, plan)
    {
      ghost var st0, q0 := Docs(), quota;
      ghost var first := [NoteAdd(newId, note)];
      ghost var rest := GroupWrites(note.groupIds, Union, newId);
      RunOne(st0, NoteAdd(newId, note), q0);
      var ok := Perform(NoteAdd(newId, note));
      ghost var r1 := Ran(Docs(), if ok then 1 else 0);
      if !ok {
        RunChain(st0, first, rest, q0, r1, r1);
        return Failed(0);
      }
      assert quota == q0 - |first|;
      var a := UpdateGroups(note.groupIds, Union, newId);
      RunChain(st0, first, rest, q0, r1, Ran(Docs(), a));
      out := if a < |note.groupIds| then Failed(1 + a) else Done;
    }

    /** The confirmed branch of `handleDeleteNote`: the store is where the
        run of its plan leaves it; once the note document is deleted, the
        note's alarm entry (if any) is cancelled. */
    method DeleteNote(id: NoteId, cache: seq<Entry>, alarms: Alarms.AlarmRegistry) returns (out: Outcome)
      requires alarms.Valid()
      modifies this, alarms
      ensures var plan := DeleteNotePlan(id, cache);
        var r := Run(old(Docs()), plan, old(quota));
        Docs() == r.state && quota == old(quota) - r.applied && out == Conclude(r, plan)
      ensures alarms.Valid() && alarms.clock == old(alarms.clock)
      ensures Run(old(Docs()), DeleteNotePlan(id, cache), old(quota)).applied == 0 ==>
        alarms.active == old(alarms.active) && alarms.pending == old(alarms.pending)
      ensures Run(old(Docs()), DeleteNotePlan(id, cache), old(quota)).applied > 0 ==>
        && alarms.active == old(alarms.active) - {id}
        && alarms.pending == if id in old(alarms.active) then old(alarms.pending) - {old(alarms.active)[id]} else old(alarms.pending)
    {
      ghost var st0, q0 := Docs(), quota;
      var ids := CachedGroupIds(cache, id);
      ghost var first := [NoteDelete(id)];
      ghost var rest := GroupWrites(ids, Remove, id);
      RunOne(st0, NoteDelete(id), q0);
      var ok := Perform(NoteDelete(id));
      ghost var r1 := Ran(Docs(), if ok then 1 else 0);
      if !ok {
        RunChain(st0, first, rest, q0, r1, r1);
        return Failed(0);
      }
      alarms.Cancel(id);
      assert quota == q0 - |first|;
      var a := UpdateGroups(ids, Remove, id);
      RunChain(st0, first, rest, q0, r1, Ran(Docs(), a));
      out := if a < |ids| then Failed(1 + a) else Done;
    }

    /** `handleSaveGroup`: a blank name changes nothing; otherwise the one
        write of its plan is attempted. */
    method SaveGroup(editing: Option<GroupId>, name: string, now: int, newId: GroupId) returns (out: Outcome)
      modifies this
      ensures CheckGroupName(name).Some? ==>
        out == Rejected(BlankGroupName) && Docs() == old(Docs()) && quota == old(quota)
      ensures CheckGroupName(name).None? ==>
        var plan := SaveGroupPlan(editing, name, now, newId);
        var r := Run(old(Docs()), plan, old(quota));
        Docs() == r.state && quota == old(quota) - r.applied && out == Conclude(r, plan)
    {
      var why := CheckGroupName(name);
      if why.Some? {
        return Rejected(why.value);
      }
      var w := match editing case Some(g) => GroupRename(g, name, now) case None => GroupAdd(newId, Group(name, [], now));
      assert SaveGroupPlan(editing, name, now, newId) == [w];
      RunOne(Docs(), w, quota);
      var ok := Perform(w);
      out := if ok then Done else Failed(0);
    }

    /** The confirmed branch of `handleDeleteGroup`: the store is where the
        run of its plan leaves it. */
    method DeleteGroup(g: GroupId, cache: seq<Entry>) returns (out: Outcome)
      modifies this
      ensures var plan := DeleteGroupPlan(g, cache);
        var r := Run(old(Docs()), plan, old(quota));
        Docs() == r.state && quota == old(quota) - r.applied && out == Conclude(r, plan)
    {
      ghost var st0, q0 := Docs(), quota;
      var ids := NotesInGroup(cache, g);
      ghost var first := [GroupDelete(g)];
      ghost var rest := NoteWrites(ids, Remove, g);
      RunOne(st0, GroupDelete(g), q0);
      var ok := Perform(GroupDelete(g));
      ghost var r1 := Ran(Docs(), if ok then 1 else 0);
      if !ok {
        RunChain(st0, first, rest, q0, r1, r1);
        return Failed(0);
      }
      assert quota == q0 - |first|;
      var a := UpdateNotes(ids, Remove, g);
      RunChain(st0, first, rest, q0, r1, Ran(Docs(), a));
      out := if a < |ids| then Failed(1 + a) else Done;
    }

    /** `handleSaveNotesToGroup`: with no group selected nothing changes;
        otherwise the store is where the run of its plan leaves it. */
    method SaveNotesToGroup(editing: Option<GroupEntry>, selection: seq<NoteId>) returns (out: Outcome)
      modifies this
      ensures editing.None? ==> out == Rejected(NoGroupSelected) && Docs() == old(Docs()) && quota == old(quota)
      ensures editing.Some? ==>
        var plan := MembershipPlan(editing.value, selection);
        var r := Run(old(Docs()), plan, old(quota));
        Docs() == r.state && quota == old(quota) - r.applied && out == Conclude(r, plan)
    {
      if editing.None? {
        return Rejected(NoGroupSelected);
      }
      var e := editing.value;
      ghost var st0, q0 := Docs(), quota;
      var diff := RegroupMemberWrites(e.id, e.group.noteIds, selection);
      ghost var last := [GroupNoteIdsSet(e.id, selection)];
      var a := RegroupMembers(e.id, Without(selection, e.group.noteIds), Without(e.group.noteIds, selection));
      ghost var r1 := Ran(Docs(), a);
      if a < |diff| {
        RunChain(st0, diff, last, q0, r1, r1);
        return Failed(a);
      }
      ghost var st1, q1 := Docs(), quota;
      assert q1 == q0 - |diff|;
      RunOne(st1, GroupNoteIdsSet(e.id, selection), q1);
      var ok := Perform(GroupNoteIdsSet(e.id, selection));
      RunChain(st0, diff, last, q0, r1, Ran(Docs(), if ok then 1 else 0));
      out := if ok then Done else Failed(a);
    }

    /** The two diff loops of the membership editor: `notesToAdd`
        (`added`), then `notesToRemove` (`removed`). */
    method RegroupMembers(g: GroupId, added: seq<NoteId>, removed: seq<NoteId>) returns (applied: nat)
      modifies this
      ensures var r := Run(old(Docs()), NoteWrites(added, Union, g) + NoteWrites(removed, Remove, g), old(quota));
        Docs() == r.state && applied == r.applied && quota == old(quota) - applied
    {
      ghost var st0, q0 := Docs(), quota;
      ghost var unions := NoteWrites(added, Union, g);
      ghost var removals := NoteWrites(removed, Remove, g);
      var a := UpdateNotes(added, Union, g);
      ghost var r1 := Ran(Docs(), a);
      if a < |added| {
        RunChain(st0, unions, removals, q0, r1, r1);
        return a;
      }
      assert quota == q0 - |unions|;
      var b := UpdateNotes(removed, Remove, g);
      RunChain(st0, unions, removals, q0, r1, Ran(Docs(), b));
      applied := a + b;
    }
  }
}
