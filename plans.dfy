/** The remote writes each handler awaits, in the order it awaits them, as a
    pure function of what the handler reads: the form, the cached note list
    (`notes`, the last snapshot in `timestamp desc` order) or the cached group
    (`editingGroup`), `Timestamp.now()` and the id `add` generates. */
module Plans {
  import opened Lists
  import opened Docs
  import opened Forms

  /** How a handler ended: it finished, it refused the form before any
      write, or the write at index `applied` failed and was caught (the
      earlier writes stay applied). */
  datatype Outcome = Done | Rejected(why: Rejection) | Failed(applied: nat)

  /** The outcome of a run of `plan`. */
  function Conclude(r: Ran, plan: seq<Write>): (out: Outcome)
    ensures out == Done <==> r.applied == |plan|
    ensures out.Failed? <==> r.applied != |plan|
    ensures out.Failed? ==> out.applied == r.applied
  {
    if r.applied == |plan| then Done else Failed(r.applied)
  }

  /** A group as the component holds it in `editingGroup`. */
  datatype GroupEntry = GroupEntry(id: GroupId, group: Group)

  /** `notes.find(n => n.id === id)`: the first cached note with that id. */
  function Find(cache: seq<Entry>, id: NoteId): (r: Option<Note>)
    ensures r.None? <==> forall i :: 0 <= i < |cache| ==> cache[i].id != id
    ensures r.Some? ==>
      exists i :: 0 <= i < |cache| && cache[i].id == id && cache[i].note == r.value && (forall j :: 0 <= j < i ==> cache[j].id != id)
  {
    if cache == [] then None
    else if cache[0].id == id then Some(cache[0].note)
    else
      var r := Find(cache[1..], id);
      assert forall i :: 1 <= i < |cache| ==> cache[1..][i - 1] == cache[i];
      r
  }

  /** The cache is the current snapshot of the notes collection: every
      cached entry is the stored note of that id, and every stored note is
      cached. */
  ghost predicate Mirrors(cache: seq<Entry>, st: State) {
    && (forall i :: 0 <= i < |cache| ==> cache[i].id in st.notes && st.notes[cache[i].id] == cache[i].note)
    && (forall n :: n in st.notes ==> exists i :: 0 <= i < |cache| && cache[i].id == n)
  }

  /** A cache that mirrors the store finds exactly the stored notes. */
  lemma FindMirrored(cache: seq<Entry>, st: State, id: NoteId)
    requires Mirrors(cache, st)
    ensures Find(cache, id) == if id in st.notes then Some(st.notes[id]) else None
  {
    if id in st.notes {
      var i :| 0 <= i < |cache| && cache[i].id == id;
    }
  }

  /** `oldNote ? oldNote.groupIds : []` (and the same lookup in the delete
      handler): the cached groups of a note, none when it is not cached. */
  function CachedGroupIds(cache: seq<Entry>, id: NoteId): (ids: seq<GroupId>)
    ensures Find(cache, id).None? ==> ids == []
    ensures Find(cache, id).Some? ==> ids == Find(cache, id).value.groupIds
  {
    match Find(cache, id)
    case Some(n) => n.groupIds
    case None => []
  }

  /** `notes.filter(note => note.groupIds && note.groupIds.includes(g))`,
      as ids: the cached notes that list group `g`, in cache order. */
  function NotesInGroup(cache: seq<Entry>, g: GroupId): (ids: seq<NoteId>)
    ensures |ids| <= |cache|
    ensures forall n :: n in ids <==>
      exists i :: 0 <= i < |cache| && cache[i].id == n && g in cache[i].note.groupIds
  {
    if cache == [] then []
    else
      var rest := NotesInGroup(cache[1..], g);
      assert forall i :: 1 <= i < |cache| ==> cache[1..][i - 1] == cache[i];
      (if g in cache[0].note.groupIds then [cache[0].id] else []) + rest
  }

  /** A cache that mirrors the store lists, for group `g`, exactly the
      stored notes that list `g`. */
  lemma NotesInGroupMirrored(cache: seq<Entry>, st: State, g: GroupId)
    requires Mirrors(cache, st)
    ensures forall n :: n in NotesInGroup(cache, g) <==> n in st.notes && g in st.notes[n].groupIds
  {
    forall n | n in st.notes && g in st.notes[n].groupIds ensures n in NotesInGroup(cache, g) {
      var j :| 0 <= j < |cache| && cache[j].id == n;
    }
  }

  /** The note document `handleSaveNote` writes, in both branches. */
  function SavedNote(form: NoteForm, alarm: Option<int>, now: int): Note {
    Note(form.title, form.content, now, alarm, form.groups)
  }

  /** `handleSaveNote` after its checks. Editing: update the note, then
      `arrayUnion` its id into each group newly selected, then `arrayRemove`
      it from each group no longer selected (the groups read from the cached
      note). Creating: add the note under `newId`, then union that id into
      every selected group. */
  function SaveNotePlan(form: NoteForm, alarm: Option<int>, cache: seq<Entry>, now: int, newId: NoteId): seq<Write> {
    var note := SavedNote(form, alarm, now);
    match form.editing
    case Some(id) => EditNotePlan(id, note, CachedGroupIds(cache, id))
    case None => CreateNotePlan(newId, note)
  }

  /** The edit branch: update note `id` to `note`, then union its id into
      each group it now lists and `before` did not, then remove it from each
      group `before` lists and it no longer does. */
  function EditNotePlan(id: NoteId, note: Note, before: seq<GroupId>): seq<Write> {
    [NoteUpdate(id, note)] + RegroupWrites(id, before, note.groupIds)
  }

  /** The note is updated first; then come the unions, then the removals.
      Every group write is of that note's id; it puts the note into the
      group exactly when the new note lists the group, and only where that
      changes what `before` records. Every group whose membership changes
      gets a write. */
  lemma EditNotePlanWrites(id: NoteId, note: Note, before: seq<GroupId>)
    ensures var plan := EditNotePlan(id, note, before);
      |plan| >= 1 && plan[0] == NoteUpdate(id, note)
    ensures var plan := EditNotePlan(id, note, before);
      forall i :: 1 <= i < |plan| ==>
        && plan[i].GroupArrayUpdate? && plan[i].member == id
        && (plan[i].op == Union <==> plan[i].id in note.groupIds)
        && (plan[i].id in note.groupIds <==> plan[i].id !in before)
    ensures var plan := EditNotePlan(id, note, before);
      forall i :: 1 <= i < |plan| ==> (plan[i].op == Union <==> i <= |Without(note.groupIds, before)|)
    ensures var plan := EditNotePlan(id, note, before);
      forall g :: (g in note.groupIds <==> g !in before) ==> exists i :: 1 <= i < |plan| && plan[i].id == g
  {
    EditNotePlanCovers(id, note, before);
  }

  /** Every group whose membership of the note changes gets a write. */
  lemma EditNotePlanCovers(id: NoteId, note: Note, before: seq<GroupId>)
    ensures var plan := EditNotePlan(id, note, before);
      forall g :: (g in note.groupIds <==> g !in before) ==> exists i :: 1 <= i < |plan| && plan[i].id == g
  {
    var added, removed := Without(note.groupIds, before), Without(before, note.groupIds);
    assert EditNotePlan(id, note, before) ==
      [NoteUpdate(id, note)] + GroupWrites(added, Union, id) + GroupWrites(removed, Remove, id);
    GroupWritesCover(NoteUpdate(id, note), added, removed, id);
  }

  /** A write followed by two loops of group writes has a write for every
      group either loop lists. */
  lemma GroupWritesCover(w: Write, added: seq<GroupId>, removed: seq<GroupId>, id: NoteId)
    ensures var plan := [w] + GroupWrites(added, Union, id) + GroupWrites(removed, Remove, id);
      forall g :: g in added || g in removed ==> exists i :: 1 <= i < |plan| && plan[i].id == g
  {
    var ws1, ws2 := GroupWrites(added, Union, id), GroupWrites(removed, Remove, id);
    var plan := [w] + ws1 + ws2;
    forall g | g in added || g in removed
      ensures exists i :: 1 <= i < |plan| && plan[i].id == g
    {
      if g in added {
        var k :| 0 <= k < |added| && added[k] == g;
        assert plan[1 + k] == ws1[k];
      } else {
        var k :| 0 <= k < |removed| && removed[k] == g;
        assert plan[1 + |ws1| + k] == ws2[k];
      }
    }
  }

  /** The two diff loops of the edit branch: union note `id` into each group
      of `after` not in `before`, then remove it from each group of `before`
      not in `after`. */
  function RegroupWrites(id: NoteId, before: seq<GroupId>, after: seq<GroupId>): seq<Write> {
    GroupWrites(Without(after, before), Union, id) + GroupWrites(Without(before, after), Remove, id)
  }

  /** The create branch: add `note` under `newId`, then union that id into
      every group it lists. */
  function CreateNotePlan(newId: NoteId, note: Note): seq<Write> {
    [NoteAdd(newId, note)] + GroupWrites(note.groupIds, Union, newId)
  }

  /** The note is added first; then its id is put into each group it
      lists, one write per group, in the order the note lists them. */
  lemma CreateNotePlanWrites(newId: NoteId, note: Note)
    ensures var plan := CreateNotePlan(newId, note);
      |plan| == 1 + |note.groupIds| && plan[0] == NoteAdd(newId, note)
    ensures var plan := CreateNotePlan(newId, note);
      forall i :: 1 <= i < |plan| ==>
        && plan[i].GroupArrayUpdate? && plan[i].op == Union && plan[i].member == newId
        && plan[i].id == note.groupIds[i - 1]
  {
  }

  /** The note document is written first; every later write is a group
      write of that note's id, and it puts the note into the group exactly
      when the form selects the group, and only where that changes the
      membership the cached note records. */
  lemma SaveNotePlanWrites(form: NoteForm, alarm: Option<int>, cache: seq<Entry>, now: int, newId: NoteId)
    ensures var plan := SaveNotePlan(form, alarm, cache, now, newId);
      && |plan| >= 1
      && (form.editing.Some? ==> plan[0] == NoteUpdate(form.editing.value, SavedNote(form, alarm, now)))
      && (form.editing.None? ==> plan[0] == NoteAdd(newId, SavedNote(form, alarm, now)))
    ensures var plan := SaveNotePlan(form, alarm, cache, now, newId);
      var before := if form.editing.Some? then CachedGroupIds(cache, form.editing.value) else [];
      forall i :: 1 <= i < |plan| ==>
        && plan[i].GroupArrayUpdate?
        && plan[i].member == (if form.editing.Some? then form.editing.value else newId)
        && (plan[i].op == Union <==> plan[i].id in form.groups)
        && (plan[i].id in form.groups <==> plan[i].id !in before)
  {
  }

  /** The confirmed branch of `handleDeleteNote`: delete the note, then
      `arrayRemove` its id from every group the cached note lists. */
  function DeleteNotePlan(id: NoteId, cache: seq<Entry>): seq<Write> {
    [NoteDelete(id)] + GroupWrites(CachedGroupIds(cache, id), Remove, id)
  }

  /** The note is deleted first; then its id is taken out of each group the
      first cached note with that id lists, and out of no other group. A
      note that is not cached gets only the delete. */
  lemma DeleteNotePlanWrites(id: NoteId, cache: seq<Entry>)
    ensures var plan := DeleteNotePlan(id, cache);
      |plan| >= 1 && plan[0] == NoteDelete(id)
    ensures Find(cache, id).None? ==> |DeleteNotePlan(id, cache)| == 1
    ensures var plan := DeleteNotePlan(id, cache);
      forall i :: 1 <= i < |plan| ==>
        && plan[i].GroupArrayUpdate? && plan[i].op == Remove && plan[i].member == id
        && Find(cache, id).Some? && plan[i].id in Find(cache, id).value.groupIds
    ensures var plan := DeleteNotePlan(id, cache);
      Find(cache, id).Some? ==>
        forall g :: g in Find(cache, id).value.groupIds ==> exists i :: 1 <= i < |plan| && plan[i].id == g
  {
    var plan := DeleteNotePlan(id, cache);
    var ids := CachedGroupIds(cache, id);
    forall g | g in ids ensures exists i :: 1 <= i < |plan| && plan[i].id == g {
      var k :| 0 <= k < |ids| && ids[k] == g;
      assert plan[1 + k].id == g;
    }
  }

  /** `handleSaveGroup` after its check: rename the edited group (name and
      timestamp only), or add a new group with no notes. */
  function SaveGroupPlan(editing: Option<GroupId>, name: string, now: int, newId: GroupId): seq<Write> {
    match editing
    case Some(g) => [GroupRename(g, name, now)]
    case None => [GroupAdd(newId, Group(name, [], now))]
  }

  /** One write: a rename of the edited group, which sets its name and leaves
      its `noteIds` to the store, or the add of a group with that name and no
      notes under the generated id. */
  lemma SaveGroupPlanWrites(editing: Option<GroupId>, name: string, now: int, newId: GroupId)
    ensures |SaveGroupPlan(editing, name, now, newId)| == 1
    ensures var w := SaveGroupPlan(editing, name, now, newId)[0];
      editing.Some? ==> w.GroupRename? && w.id == editing.value && w.name == name && w.timestamp == now
    ensures var w := SaveGroupPlan(editing, name, now, newId)[0];
      editing.None? ==> w.GroupAdd? && w.id == newId && w.group.name == name && w.group.noteIds == []
  {
  }

  /** The confirmed branch of `handleDeleteGroup`: delete the group, then
      `arrayRemove` its id from every cached note that lists it. */
  function DeleteGroupPlan(g: GroupId, cache: seq<Entry>): seq<Write> {
    [GroupDelete(g)] + NoteWrites(NotesInGroup(cache, g), Remove, g)
  }

  /** The group document is deleted first; every later write takes `g` out
      of a cached note that lists it, and every cached note that lists `g`
      gets such a write. */
  lemma DeleteGroupPlanTargets(g: GroupId, cache: seq<Entry>)
    ensures var plan := DeleteGroupPlan(g, cache);
      |plan| >= 1 && plan[0] == GroupDelete(g)
    ensures var plan := DeleteGroupPlan(g, cache);
      forall i :: 1 <= i < |plan| ==>
        && plan[i].NoteArrayUpdate? && plan[i].op == Remove && plan[i].member == g
        && exists j :: 0 <= j < |cache| && cache[j].id == plan[i].id && g in cache[j].note.groupIds
    ensures var plan := DeleteGroupPlan(g, cache);
      forall j :: 0 <= j < |cache| && g in cache[j].note.groupIds ==>
        exists i :: 1 <= i < |plan| && plan[i].id == cache[j].id
  {
    var ids := NotesInGroup(cache, g);
    var plan := DeleteGroupPlan(g, cache);
    NoteWritesAfter(GroupDelete(g), ids, Remove, g);
    forall i | 1 <= i < |plan|
      ensures && plan[i].NoteArrayUpdate? && plan[i].op == Remove && plan[i].member == g
              && exists j :: 0 <= j < |cache| && cache[j].id == plan[i].id && g in cache[j].note.groupIds
    {
      assert plan[i] == NoteArrayUpdate(ids[i - 1], Remove, g);
      assert ids[i - 1] in ids;
      var j :| 0 <= j < |cache| && cache[j].id == ids[i - 1] && g in cache[j].note.groupIds;
    }
    forall j | 0 <= j < |cache| && g in cache[j].note.groupIds
      ensures exists i :: 1 <= i < |plan| && plan[i].id == cache[j].id
    {
      assert cache[j].id in ids;
      var k :| 0 <= k < |ids| && ids[k] == cache[j].id;
      assert plan[k + 1].id == cache[j].id;
    }
  }

  /** A write followed by a loop of note writes: the loop's writes follow
      the first write one for one, in list order. */
  lemma NoteWritesAfter(w: Write, ids: seq<NoteId>, op: ArrayOp, g: GroupId)
    ensures var plan := [w] + NoteWrites(ids, op, g);
      |plan| == 1 + |ids| && plan[0] == w
      && forall i :: 1 <= i < |plan| ==> plan[i] == NoteArrayUpdate(ids[i - 1], op, g)
  {
  }

  /** `handleSaveNotesToGroup` with a group selected: union the group id
      into each newly selected note, remove it from each deselected one (as
      the cached group lists them), then overwrite the group's `noteIds`
      with the selection. */
  function MembershipPlan(e: GroupEntry, selection: seq<NoteId>): seq<Write> {
    RegroupMemberWrites(e.id, e.group.noteIds, selection) + [GroupNoteIdsSet(e.id, selection)]
  }

  /** The two diff loops of the membership editor: union group `g` into
      each note of `after` not in `before`, then remove it from each note of
      `before` not in `after`. */
  function RegroupMemberWrites(g: GroupId, before: seq<NoteId>, after: seq<NoteId>): seq<Write> {
    NoteWrites(Without(after, before), Union, g) + NoteWrites(Without(before, after), Remove, g)
  }

  /** The group's `noteIds` is overwritten last; every earlier write is a
      note write of the group's id, and it puts the group into the note
      exactly when the selection holds the note, and only where that
      changes what the cached group records. */
  lemma MembershipPlanWrites(e: GroupEntry, selection: seq<NoteId>)
    ensures var plan := MembershipPlan(e, selection);
      |plan| >= 1 && plan[|plan| - 1] == GroupNoteIdsSet(e.id, selection)
    ensures var plan := MembershipPlan(e, selection);
      forall i :: 0 <= i < |plan| - 1 ==>
        && plan[i].NoteArrayUpdate? && plan[i].member == e.id
        && (plan[i].op == Union <==> plan[i].id in selection)
        && (plan[i].id in selection <==> plan[i].id !in e.group.noteIds)
  {
  }
}
