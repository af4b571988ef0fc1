/** What the handlers' write plans do to the two-way membership between
    notes and groups: which handlers keep `Consistent` when every write goes
    through, which keep it even when a write fails half-way, and which
    documents a plan never touches. */
module Membership {
  import opened Lists
  import opened Docs
  import opened Forms
  import opened Plans

  /** The groups after note `id` joined every group of `after` that
      `before` lacks and then left every group of `before` that `after`
      lacks. */
  function Regrouped(groups: map<GroupId, Group>, id: NoteId, before: seq<GroupId>, after: seq<GroupId>): map<GroupId, Group> {
    GroupsWithOp(GroupsWithOp(groups, Without(after, before), Union, id), Without(before, after), Remove, id)
  }

  /** In `Regrouped`, note `id` belongs to a group it joined, not to a group
      it left, and elsewhere as before; no other note moves and no group is
      renamed, added or dropped. */
  lemma RegroupedMembership(groups: map<GroupId, Group>, id: NoteId, before: seq<GroupId>, after: seq<GroupId>)
    ensures var fin := Regrouped(groups, id, before, after);
      && fin.Keys == groups.Keys
      && (forall g :: g in fin ==> fin[g].name == groups[g].name && fin[g].timestamp == groups[g].timestamp)
      && (forall g, n :: g in fin && n != id ==> (n in fin[g].noteIds <==> n in groups[g].noteIds))
      && (forall g :: g in fin ==>
            (id in fin[g].noteIds <==>
              (g in after && g !in before) || (id in groups[g].noteIds && !(g in before && g !in after))))
  {
  }

  /** A completed pair of edit loops leaves the notes alone and the groups
      `Regrouped`; every group they wrote exists. */
  lemma RegroupCompleted(st: State, id: NoteId, before: seq<GroupId>, after: seq<GroupId>, budget: nat)
    requires Run(st, RegroupWrites(id, before, after), budget).applied == |RegroupWrites(id, before, after)|
    ensures Run(st, RegroupWrites(id, before, after), budget).state ==
      st.(groups := Regrouped(st.groups, id, before, after))
    ensures forall g :: (g in after <==> g !in before) ==> g in st.groups
  {
    var added := Without(after, before);
    var removed := Without(before, after);
    var unions := GroupWrites(added, Union, id);
    var removals := GroupWrites(removed, Remove, id);
    ChainCompleted(st, unions, removals, budget);
    LoopPairCompleted(st, added, removed, id, budget);
  }

  /** Both group loops of a completed pair ran to the end. */
  lemma LoopPairCompleted(st: State, added: seq<GroupId>, removed: seq<GroupId>, id: NoteId, budget: nat)
    requires Run(st, GroupWrites(added, Union, id), budget).applied == |added|
    requires Run(Run(st, GroupWrites(added, Union, id), budget).state, GroupWrites(removed, Remove, id), budget - |added|).applied == |removed|
    ensures Run(Run(st, GroupWrites(added, Union, id), budget).state, GroupWrites(removed, Remove, id), budget - |added|).state ==
      st.(groups := GroupsWithOp(GroupsWithOp(st.groups, added, Union, id), removed, Remove, id))
    ensures forall k :: 0 <= k < |added| ==> added[k] in st.groups
    ensures forall k :: 0 <= k < |removed| ==> removed[k] in st.groups
  {
    var st1 := Run(st, GroupWrites(added, Union, id), budget).state;
    GroupWritesCompleted(st1, removed, Remove, id, budget - |added|);
    GroupWritesCompleted(st, added, Union, id, budget);
  }

  /** The notes after group `g` joined every note of `after` that `before`
      lacks and then left every note of `before` that `after` lacks. */
  function RegroupedMembers(notes: map<NoteId, Note>, g: GroupId, before: seq<NoteId>, after: seq<NoteId>): map<NoteId, Note> {
    NotesWithOp(NotesWithOp(notes, Without(after, before), Union, g), Without(before, after), Remove, g)
  }

  /** In `RegroupedMembers`, group `g` is listed by a note it joined, not by
      a note it left, and elsewhere as before; no other group moves and no
      other field of any note changes. */
  lemma RegroupedMembersMembership(notes: map<NoteId, Note>, g: GroupId, before: seq<NoteId>, after: seq<NoteId>)
    ensures var fin := RegroupedMembers(notes, g, before, after);
      && fin.Keys == notes.Keys
      && (forall n :: n in fin ==> fin[n].(groupIds := notes[n].groupIds) == notes[n])
      && (forall n, h :: n in fin && h != g ==> (h in fin[n].groupIds <==> h in notes[n].groupIds))
      && (forall n :: n in fin ==>
            (g in fin[n].groupIds <==>
              (n in after && n !in before) || (g in notes[n].groupIds && !(n in before && n !in after))))
  {
  }

  /** A completed pair of membership loops leaves the groups alone and the
      notes `RegroupedMembers`; every note they wrote exists. */
  lemma RegroupMembersCompleted(st: State, g: GroupId, before: seq<NoteId>, after: seq<NoteId>, budget: nat)
    requires Run(st, RegroupMemberWrites(g, before, after), budget).applied == |RegroupMemberWrites(g, before, after)|
    ensures Run(st, RegroupMemberWrites(g, before, after), budget).state ==
      st.(notes := RegroupedMembers(st.notes, g, before, after))
    ensures forall n :: (n in after <==> n !in before) ==> n in st.notes
  {
    var added := Without(after, before);
    var removed := Without(before, after);
    var unions := NoteWrites(added, Union, g);
    var removals := NoteWrites(removed, Remove, g);
    ChainCompleted(st, unions, removals, budget);
    MemberLoopPairCompleted(st, added, removed, g, budget);
  }

  /** Both note loops of a completed pair ran to the end. */
  lemma MemberLoopPairCompleted(st: State, added: seq<NoteId>, removed: seq<NoteId>, g: GroupId, budget: nat)
    requires Run(st, NoteWrites(added, Union, g), budget).applied == |added|
    requires Run(Run(st, NoteWrites(added, Union, g), budget).state, NoteWrites(removed, Remove, g), budget - |added|).applied == |removed|
    ensures Run(Run(st, NoteWrites(added, Union, g), budget).state, NoteWrites(removed, Remove, g), budget - |added|).state ==
      st.(notes := NotesWithOp(NotesWithOp(st.notes, added, Union, g), removed, Remove, g))
    ensures forall k :: 0 <= k < |added| ==> added[k] in st.notes
    ensures forall k :: 0 <= k < |removed| ==> removed[k] in st.notes
  {
    var st1 := Run(st, NoteWrites(added, Union, g), budget).state;
    NoteWritesCompleted(st1, removed, Remove, g, budget - |added|);
    NoteWritesCompleted(st, added, Union, g, budget);
  }

  /** One group array write about a note that does not exist keeps the
      membership consistent. */
  lemma AbsentNoteWrite(st: State, g: GroupId, op: ArrayOp, n: NoteId)
    requires n !in st.notes && Consistent(st) && g in st.groups
    ensures Consistent(st.(groups := st.groups[g := st.groups[g].(noteIds := ApplyOp(op, st.groups[g].noteIds, n))]))
  {
  }

  /** One note array write about a group that does not exist keeps the
      membership consistent. */
  lemma AbsentGroupWrite(st: State, n: NoteId, op: ArrayOp, g: GroupId)
    requires g !in st.groups && Consistent(st) && n in st.notes
    ensures Consistent(st.(notes := st.notes[n := st.notes[n].(groupIds := ApplyOp(op, st.notes[n].groupIds, g))]))
  {
  }

  /** Group writes about a note that does not exist keep the membership
      consistent, however far they get, and touch no note and no group's
      existence. */
  lemma {:induction false} AbsentNoteWrites(st: State, ids: seq<GroupId>, op: ArrayOp, n: NoteId, budget: nat)
    requires n !in st.notes && Consistent(st)
    ensures var fin := Run(st, GroupWrites(ids, op, n), budget).state;
      Consistent(fin) && fin.notes == st.notes && fin.groups.Keys == st.groups.Keys
    decreases |ids|
  {
    if ids != [] {
      var g := ids[0];
      GroupWritesFirst(st, ids, op, n, budget);
      if budget > 0 && g in st.groups {
        var next := st.(groups := st.groups[g := st.groups[g].(noteIds := ApplyOp(op, st.groups[g].noteIds, n))]);
        AbsentNoteWrite(st, g, op, n);
        AbsentNoteWrites(next, ids[1..], op, n, budget - 1);
      }
    }
  }

  /** Note writes about a group that does not exist keep the membership
      consistent, however far they get, and touch no group and no note's
      existence. */
  lemma {:induction false} AbsentGroupWrites(st: State, ids: seq<NoteId>, op: ArrayOp, g: GroupId, budget: nat)
    requires g !in st.groups && Consistent(st)
    ensures var fin := Run(st, NoteWrites(ids, op, g), budget).state;
      Consistent(fin) && fin.groups == st.groups && fin.notes.Keys == st.notes.Keys
    decreases |ids|
  {
    if ids != [] {
      var n := ids[0];
      NoteWritesFirst(st, ids, op, g, budget);
      if budget > 0 && n in st.notes {
        var next := st.(notes := st.notes[n := st.notes[n].(groupIds := ApplyOp(op, st.notes[n].groupIds, g))]);
        AbsentGroupWrite(st, n, op, g);
        AbsentGroupWrites(next, ids[1..], op, g, budget - 1);
      }
    }
  }

  /** A completed edit plan updated a note that exists and then
      regrouped it. */
  lemma EditCompleted(st: State, id: NoteId, note: Note, before: seq<GroupId>, budget: nat)
    requires Run(st, EditNotePlan(id, note, before), budget).applied == |EditNotePlan(id, note, before)|
    ensures id in st.notes
    ensures Run(st, EditNotePlan(id, note, before), budget).state ==
      State(st.notes[id := note], Regrouped(st.groups, id, before, note.groupIds))
  {
    var rest := RegroupWrites(id, before, note.groupIds);
    HeadCompleted(st, NoteUpdate(id, note), rest, budget);
    RegroupCompleted(st.(notes := st.notes[id := note]), id, before, note.groupIds, budget - 1);
  }

  /** Replacing a consistent store's note `id` by `note` and regrouping it
      from its stored groups to the ones `note` lists gives a consistent
      store in which `id` belongs to exactly those groups. */
  lemma RegroupedConsistent(st: State, id: NoteId, note: Note)
    requires Consistent(st) && id in st.notes
    ensures var fin := State(st.notes[id := note], Regrouped(st.groups, id, st.notes[id].groupIds, note.groupIds));
      && Consistent(fin)
      && (forall g :: g in fin.groups ==> (id in fin.groups[g].noteIds <==> g in note.groupIds))
  {
    var before := st.notes[id].groupIds;
    RegroupedMembership(st.groups, id, before, note.groupIds);
  }

  /** Editing a note, when every write goes through and the groups the
      handler read are the note's stored ones: the note is stored as the
      form gave it, it belongs to exactly the groups it now lists, and the
      membership stays consistent. */
  lemma EditKeepsConsistent(st: State, id: NoteId, note: Note, before: seq<GroupId>, budget: nat)
    requires Consistent(st)
    requires id in st.notes ==> before == st.notes[id].groupIds
    requires Run(st, EditNotePlan(id, note, before), budget).applied == |EditNotePlan(id, note, before)|
    ensures var fin := Run(st, EditNotePlan(id, note, before), budget).state;
      && Consistent(fin)
      && id in st.notes && fin.notes == st.notes[id := note]
      && fin.groups.Keys == st.groups.Keys
      && (forall g :: g in fin.groups ==> (id in fin.groups[g].noteIds <==> g in note.groupIds))
  {
    EditCompleted(st, id, note, before, budget);
    RegroupedConsistent(st, id, note);
    RegroupedMembership(st.groups, id, before, note.groupIds);
  }

  /** Creating a note under a fresh id, when every write goes through: the
      note is stored, every group it lists now lists it and no other group
      does, and the membership stays consistent. */
  lemma CreateKeepsConsistent(st: State, newId: NoteId, note: Note, budget: nat)
    requires Consistent(st)
    requires newId !in st.notes
    requires forall g :: g in st.groups ==> newId !in st.groups[g].noteIds
    requires Run(st, CreateNotePlan(newId, note), budget).applied == |CreateNotePlan(newId, note)|
    ensures var fin := Run(st, CreateNotePlan(newId, note), budget).state;
      && Consistent(fin)
      && fin.notes == st.notes[newId := note]
      && fin.groups.Keys == st.groups.Keys
      && (forall g :: g in note.groupIds ==> g in fin.groups && newId in fin.groups[g].noteIds)
      && (forall g :: g in fin.groups ==> (newId in fin.groups[g].noteIds <==> g in note.groupIds))
  {
    CreateRan(st, newId, note, budget);
  }

  /** A completed create plan stored the note and then put its id into
      every group it lists, all of which exist. */
  lemma CreateRan(st: State, newId: NoteId, note: Note, budget: nat)
    requires Run(st, CreateNotePlan(newId, note), budget).applied == |CreateNotePlan(newId, note)|
    ensures forall i :: 0 <= i < |note.groupIds| ==> note.groupIds[i] in st.groups
    ensures Run(st, CreateNotePlan(newId, note), budget).state ==
      State(st.notes[newId := note], GroupsWithOp(st.groups, note.groupIds, Union, newId))
  {
    var rest := GroupWrites(note.groupIds, Union, newId);
    var st1 := st.(notes := st.notes[newId := note]);
    HeadCompleted(st, NoteAdd(newId, note), rest, budget);
    GroupWritesCompleted(st1, note.groupIds, Union, newId, budget - 1);
  }

  /** `SaveNotePlan` with a cache that mirrors the store: when every write
      goes through, the saved note is stored under its id, the groups that
      list it are exactly the ones the form selected, and the membership
      stays consistent. A new note's id must be fresh and unreferenced. */
  lemma SaveNoteKeepsConsistent(st: State, form: NoteForm, alarm: Option<int>, cache: seq<Entry>, now: int, newId: NoteId, budget: nat)
    requires Consistent(st) && Mirrors(cache, st)
    requires form.editing.None? ==>
      newId !in st.notes && forall g :: g in st.groups ==> newId !in st.groups[g].noteIds
    requires Run(st, SaveNotePlan(form, alarm, cache, now, newId), budget).applied == |SaveNotePlan(form, alarm, cache, now, newId)|
    ensures var fin := Run(st, SaveNotePlan(form, alarm, cache, now, newId), budget).state;
      var id := if form.editing.Some? then form.editing.value else newId;
      && Consistent(fin)
      && fin.notes == st.notes[id := SavedNote(form, alarm, now)]
      && fin.groups.Keys == st.groups.Keys
      && (forall g :: g in fin.groups ==> (id in fin.groups[g].noteIds <==> g in form.groups))
  {
    var note := SavedNote(form, alarm, now);
    match form.editing
    case Some(id) =>
      FindMirrored(cache, st, id);
      EditKeepsConsistent(st, id, note, CachedGroupIds(cache, id), budget);
    case None =>
      CreateKeepsConsistent(st, newId, note, budget);
  }

  /** Deleting a note keeps the membership consistent however far its writes
      get: once the note is gone, taking its id out of groups cannot break
      any pair of existing documents. No group is dropped, and the only note
      that may go is the deleted one. */
  lemma DeleteNoteKeepsConsistent(st: State, id: NoteId, cache: seq<Entry>, budget: nat)
    requires Consistent(st)
    ensures var r := Run(st, DeleteNotePlan(id, cache), budget);
      && Consistent(r.state)
      && r.state.notes == (if r.applied > 0 then st.notes - {id} else st.notes)
      && r.state.groups.Keys == st.groups.Keys
  {
    DeleteWritesKeepConsistent(st, id, CachedGroupIds(cache, id), budget);
  }

  /** Deleting note `id` and then taking it out of groups `ids`, however
      far those writes get, keeps the membership consistent. */
  lemma DeleteWritesKeepConsistent(st: State, id: NoteId, ids: seq<GroupId>, budget: nat)
    requires Consistent(st)
    ensures var r := Run(st, [NoteDelete(id)] + GroupWrites(ids, Remove, id), budget);
      && Consistent(r.state)
      && r.state.notes == (if r.applied > 0 then st.notes - {id} else st.notes)
      && r.state.groups.Keys == st.groups.Keys
  {
    var first := [NoteDelete(id)];
    var rest := GroupWrites(ids, Remove, id);
    if budget > 0 {
      var st1 := st.(notes := st.notes - {id});
      var r := Run(st1, rest, budget - 1);
      assert Run(st, first + rest, budget) == Ran(r.state, r.applied + 1) by {
        RunOne(st, NoteDelete(id), budget);
        RunChain(st, first, rest, budget, Ran(st1, 1), r);
      }
      assert Consistent(st1);
      AbsentNoteWrites(st1, ids, Remove, id, budget - 1);
    }
  }

  /** A completed delete plan removed the note and then took its id out of
      every group the cached note listed, all of which exist. */
  lemma DeleteNoteRan(st: State, id: NoteId, cache: seq<Entry>, budget: nat)
    requires Run(st, DeleteNotePlan(id, cache), budget).applied == |DeleteNotePlan(id, cache)|
    ensures forall g :: g in CachedGroupIds(cache, id) ==> g in st.groups
    ensures Run(st, DeleteNotePlan(id, cache), budget).state ==
      State(st.notes - {id}, GroupsWithOp(st.groups, CachedGroupIds(cache, id), Remove, id))
  {
    var ids := CachedGroupIds(cache, id);
    var rest := GroupWrites(ids, Remove, id);
    var st1 := st.(notes := st.notes - {id});
    HeadCompleted(st, NoteDelete(id), rest, budget);
    GroupWritesCompleted(st1, ids, Remove, id, budget - 1);
  }

  /** A delete whose writes all go through leaves no group the cached note
      listed holding its id; with a current cache and a consistent store
      (and the note present), no group at all holds it any more. The
      groups it did not list are untouched. */
  lemma DeleteNoteCompleted(st: State, id: NoteId, cache: seq<Entry>, budget: nat)
    requires Run(st, DeleteNotePlan(id, cache), budget).applied == |DeleteNotePlan(id, cache)|
    ensures var fin := Run(st, DeleteNotePlan(id, cache), budget).state;
      && fin.notes == st.notes - {id}
      && fin.groups.Keys == st.groups.Keys
      && (forall g :: g in CachedGroupIds(cache, id) ==> g in fin.groups && id !in fin.groups[g].noteIds)
      && (forall g :: g in st.groups && g !in CachedGroupIds(cache, id) ==> fin.groups[g] == st.groups[g])
    ensures Consistent(st) && Mirrors(cache, st) && id in st.notes ==>
      var fin := Run(st, DeleteNotePlan(id, cache), budget).state;
      forall g :: g in fin.groups ==> id !in fin.groups[g].noteIds
  {
    DeleteNoteRan(st, id, cache, budget);
    if Mirrors(cache, st) && id in st.notes {
      FindMirrored(cache, st, id);
    }
  }

  /** Deleting a group keeps the membership consistent however far its
      writes get, and no note is ever deleted. */
  lemma DeleteGroupKeepsConsistent(st: State, g: GroupId, cache: seq<Entry>, budget: nat)
    requires Consistent(st)
    ensures var r := Run(st, DeleteGroupPlan(g, cache), budget);
      && Consistent(r.state)
      && r.state.notes.Keys == st.notes.Keys
      && r.state.groups == (if r.applied > 0 then st.groups - {g} else st.groups)
  {
    var plan := DeleteGroupPlan(g, cache);
    if budget > 0 {
      var st1 := st.(groups := st.groups - {g});
      assert Step(st, plan[0]) == Some(st1);
      assert plan[1..] == NoteWrites(NotesInGroup(cache, g), Remove, g);
      RunFirst(st, plan, budget);
      AbsentGroupWrites(st1, NotesInGroup(cache, g), Remove, g, budget - 1);
    }
  }

  /** A group delete whose writes all go through, with a current cache:
      the group is gone, no note lists it any more, and the notes that did
      not list it are untouched. */
  lemma DeleteGroupCompleted(st: State, g: GroupId, cache: seq<Entry>, budget: nat)
    requires Mirrors(cache, st)
    requires Run(st, DeleteGroupPlan(g, cache), budget).applied == |DeleteGroupPlan(g, cache)|
    ensures var fin := Run(st, DeleteGroupPlan(g, cache), budget).state;
      && fin.groups == st.groups - {g}
      && fin.notes.Keys == st.notes.Keys
      && (forall n :: n in fin.notes ==> g !in fin.notes[n].groupIds)
      && (forall n :: n in st.notes && g !in st.notes[n].groupIds ==> fin.notes[n] == st.notes[n])
  {
    DeleteGroupRan(st, g, cache, budget);
    NotesInGroupMirrored(cache, st, g);
  }

  /** A completed group delete removed the group document and took `g`
      out of every cached note that lists it. */
  lemma DeleteGroupRan(st: State, g: GroupId, cache: seq<Entry>, budget: nat)
    requires Run(st, DeleteGroupPlan(g, cache), budget).applied == |DeleteGroupPlan(g, cache)|
    ensures Run(st, DeleteGroupPlan(g, cache), budget).state ==
      State(NotesWithOp(st.notes, NotesInGroup(cache, g), Remove, g), st.groups - {g})
  {
    var ids := NotesInGroup(cache, g);
    var rest := NoteWrites(ids, Remove, g);
    var st1 := st.(groups := st.groups - {g});
    HeadCompleted(st, GroupDelete(g), rest, budget);
    NoteWritesCompleted(st1, ids, Remove, g, budget - 1);
  }

  /** A completed membership plan regrouped the notes and then overwrote
      the `noteIds` of a group that exists. */
  lemma MembershipCompleted(st: State, e: GroupEntry, selection: seq<NoteId>, budget: nat)
    requires Run(st, MembershipPlan(e, selection), budget).applied == |MembershipPlan(e, selection)|
    ensures e.id in st.groups
    ensures Run(st, MembershipPlan(e, selection), budget).state ==
      State(RegroupedMembers(st.notes, e.id, e.group.noteIds, selection), st.groups[e.id := st.groups[e.id].(noteIds := selection)])
  {
    var diff := RegroupMemberWrites(e.id, e.group.noteIds, selection);
    var last := [GroupNoteIdsSet(e.id, selection)];
    ChainCompleted(st, diff, last, budget);
    RegroupMembersCompleted(st, e.id, e.group.noteIds, selection, budget);
    var st1 := st.(notes := RegroupedMembers(st.notes, e.id, e.group.noteIds, selection));
    RunOne(st1, GroupNoteIdsSet(e.id, selection), budget - |diff|);
  }

  /** Moving a consistent store's group `g` from the notes it lists to the
      notes of `selection`, on both sides, gives a consistent store in which
      a note lists `g` exactly when it is selected. */
  lemma MembersRegroupedConsistent(st: State, g: GroupId, selection: seq<NoteId>)
    requires Consistent(st) && g in st.groups
    ensures var fin := State(RegroupedMembers(st.notes, g, st.groups[g].noteIds, selection), st.groups[g := st.groups[g].(noteIds := selection)]);
      && Consistent(fin)
      && (forall n :: n in fin.notes ==> (g in fin.notes[n].groupIds <==> n in selection))
  {
    RegroupedMembersMembership(st.notes, g, st.groups[g].noteIds, selection);
  }

  /** Saving a membership selection, when every write goes through and the
      cached group is current: the group lists exactly the selection, a note
      lists the group exactly when it is selected, nothing else moves, and
      the membership stays consistent. */
  lemma MembershipKeepsConsistent(st: State, e: GroupEntry, selection: seq<NoteId>, budget: nat)
    requires Consistent(st)
    requires e.id in st.groups && st.groups[e.id] == e.group
    requires Run(st, MembershipPlan(e, selection), budget).applied == |MembershipPlan(e, selection)|
    ensures var fin := Run(st, MembershipPlan(e, selection), budget).state;
      && Consistent(fin)
      && fin.groups == st.groups[e.id := e.group.(noteIds := selection)]
      && fin.notes.Keys == st.notes.Keys
      && (forall n :: n in fin.notes ==> (e.id in fin.notes[n].groupIds <==> n in selection))
  {
    MembershipCompleted(st, e, selection, budget);
    MembersRegroupedConsistent(st, e.id, selection);
    RegroupedMembersMembership(st.notes, e.id, e.group.noteIds, selection);
  }

  /** Saving a group keeps the membership consistent: a rename changes only
      the name and timestamp and keeps `noteIds`; a new group (under a fresh
      id no note lists) starts with no notes. */
  lemma SaveGroupKeepsConsistent(st: State, editing: Option<GroupId>, name: string, now: int, newId: GroupId, budget: nat)
    requires Consistent(st)
    requires editing.None? ==>
      newId !in st.groups && forall n :: n in st.notes ==> newId !in st.notes[n].groupIds
    ensures var r := Run(st, SaveGroupPlan(editing, name, now, newId), budget);
      && Consistent(r.state)
      && r.state.notes == st.notes
      && (r.applied == 1 && editing.Some? ==>
            r.state.groups == st.groups[editing.value := st.groups[editing.value].(name := name, timestamp := now)])
      && (r.applied == 1 && editing.None? ==>
            r.state.groups == st.groups[newId := Group(name, [], now)])
      && (r.applied == 0 ==> r.state == st)
  {
    var w := SaveGroupPlan(editing, name, now, newId)[0];
    assert SaveGroupPlan(editing, name, now, newId) == [w];
    RunOne(st, w, budget);
  }

  /** Saving a note writes only to groups whose membership it changes:
      when editing, a group the form selects exactly when the cached note
      already listed it is left as it was; when creating, so is every group
      the form does not select. This holds however far the writes get. */
  lemma SaveNoteTouchesOnlyChangedGroups(st: State, form: NoteForm, alarm: Option<int>, cache: seq<Entry>, now: int, newId: NoteId, budget: nat, g: GroupId)
    requires form.editing.Some? ==> (g in form.groups <==> g in CachedGroupIds(cache, form.editing.value))
    requires form.editing.None? ==> g !in form.groups
    ensures var fin := Run(st, SaveNotePlan(form, alarm, cache, now, newId), budget).state;
      (g in fin.groups <==> g in st.groups) && (g in st.groups ==> fin.groups[g] == st.groups[g])
  {
    var plan := SaveNotePlan(form, alarm, cache, now, newId);
    SaveNotePlanWrites(form, alarm, cache, now, newId);
    RunLeavesGroup(st, plan, budget, g);
  }

  /** Deleting a note writes only to the groups the cached note lists;
      every other group is left as it was, however far the writes get. */
  lemma DeleteNoteSparesOtherGroups(st: State, id: NoteId, cache: seq<Entry>, budget: nat, g: GroupId)
    requires g !in CachedGroupIds(cache, id)
    ensures var fin := Run(st, DeleteNotePlan(id, cache), budget).state;
      (g in fin.groups <==> g in st.groups) && (g in st.groups ==> fin.groups[g] == st.groups[g])
  {
    var plan := DeleteNotePlan(id, cache);
    assert forall i :: 1 <= i < |plan| ==> plan[i].id == CachedGroupIds(cache, id)[i - 1];
    RunLeavesGroup(st, plan, budget, g);
  }

  /** With a current cache, deleting a group writes only to the notes that
      list it; every other note is left as it was, however far the writes
      get. */
  lemma DeleteGroupSparesOtherNotes(st: State, g: GroupId, cache: seq<Entry>, budget: nat, n: NoteId)
    requires Mirrors(cache, st)
    requires n in st.notes && g !in st.notes[n].groupIds
    ensures var fin := Run(st, DeleteGroupPlan(g, cache), budget).state;
      n in fin.notes && fin.notes[n] == st.notes[n]
  {
    var plan := DeleteGroupPlan(g, cache);
    var ids := NotesInGroup(cache, g);
    NotesInGroupMirrored(cache, st, g);
    forall i | 1 <= i < |plan| ensures plan[i].id != n {
      assert plan[i].id == ids[i - 1];
    }
    RunLeavesNote(st, plan, budget, n);
  }

  /** The membership editor writes only to notes whose membership it
      changes: a note the selection holds exactly when the cached group
      already listed it is left as it was, however far the writes get. */
  lemma MembershipTouchesOnlyChangedNotes(st: State, e: GroupEntry, selection: seq<NoteId>, budget: nat, n: NoteId)
    requires n in selection <==> n in e.group.noteIds
    ensures var fin := Run(st, MembershipPlan(e, selection), budget).state;
      (n in fin.notes <==> n in st.notes) && (n in st.notes ==> fin.notes[n] == st.notes[n])
  {
    MembershipPlanWrites(e, selection);
    RunLeavesNote(st, MembershipPlan(e, selection), budget, n);
  }
}
