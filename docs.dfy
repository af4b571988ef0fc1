/** The two Firestore collections of the note app (`.../users/{uid}/notes`
    and `.../users/{uid}/groups`) as two maps, the remote writes the handlers
    await, and what a run of such writes does when one of them fails. */
module Docs {
  import opened Lists

  type NoteId = string
  type GroupId = string

  datatype Option<T> = None | Some(value: T)

  /** A note document. `timestamp` is the `Timestamp.now()` of the last
      create or update; `alarmTimestamp` is `null` (None) or an instant in
      milliseconds. */
  datatype Note = Note(
    title: string,
    content: string,
    timestamp: int,
    alarmTimestamp: Option<int>,
    groupIds: seq<GroupId>)

  /** A group document. */
  datatype Group = Group(name: string, noteIds: seq<NoteId>, timestamp: int)

  /** The contents of both collections. */
  datatype State = State(notes: map<NoteId, Note>, groups: map<GroupId, Group>)

  /** A note as the component lists it: its document id and its fields. */
  datatype Entry = Entry(id: NoteId, note: Note)

  /** The bidirectional membership invariant between existing documents:
      a note lists a group exactly when that group lists the note. */
  ghost predicate Consistent(st: State) {
    forall n, g :: n in st.notes && g in st.groups ==>
      (g in st.notes[n].groupIds <==> n in st.groups[g].noteIds)
  }

  /** The two `FieldValue` array transforms. */
  datatype ArrayOp = Union | Remove

  function ApplyOp(op: ArrayOp, s: seq<string>, x: string): (r: seq<string>)
    ensures forall y :: y != x ==> (y in r <==> y in s)
    ensures x in r <==> op == Union
  {
    match op
    case Union => ArrayUnion(s, x)
    case Remove => RemoveAll(s, x)
  }

  /** Applying the same transform twice is applying it once. */
  lemma ApplyOpIdempotent(op: ArrayOp, s: seq<string>, x: string)
    ensures ApplyOp(op, ApplyOp(op, s, x), x) == ApplyOp(op, s, x)
  {
  }

  /** One awaited remote write. */
  datatype Write =
    | NoteAdd(id: NoteId, note: Note)                       // collection(notes).add(...)
    | NoteUpdate(id: NoteId, note: Note)                    // doc(id).update(every note field)
    | NoteDelete(id: NoteId)                                // doc(id).delete()
    | NoteArrayUpdate(id: NoteId, op: ArrayOp, member: GroupId)  // doc(id).update({groupIds: ...})
    | GroupAdd(id: GroupId, group: Group)                   // collection(groups).add(...)
    | GroupRename(id: GroupId, name: string, timestamp: int)  // doc(id).update({name, timestamp})
    | GroupDelete(id: GroupId)                              // doc(id).delete()
    | GroupArrayUpdate(id: GroupId, op: ArrayOp, member: NoteId)  // doc(id).update({noteIds: ...})
    | GroupNoteIdsSet(id: GroupId, noteIds: seq<NoteId>)    // doc(id).update({noteIds: selection})

  /** The effect of one write that reaches the backend. `add` stores a
      document under its generated id and `delete` succeeds whether or not
      the document exists; every `update` fails (None) when the document does
      not exist. */
  function Step(st: State, w: Write): (r: Option<State>)
    ensures r.None? <==>
      || (w.NoteUpdate? && w.id !in st.notes)
      || (w.NoteArrayUpdate? && w.id !in st.notes)
      || (w.GroupRename? && w.id !in st.groups)
      || (w.GroupArrayUpdate? && w.id !in st.groups)
      || (w.GroupNoteIdsSet? && w.id !in st.groups)
  {
    match w
    case NoteAdd(id, n) => Some(st.(notes := st.notes[id := n]))
    case NoteUpdate(id, n) =>
      if id in st.notes then Some(st.(notes := st.notes[id := n])) else None
    case NoteDelete(id) => Some(st.(notes := st.notes - {id}))
    case NoteArrayUpdate(id, op, g) =>
      if id in st.notes then
        Some(st.(notes := st.notes[id := st.notes[id].(groupIds := ApplyOp(op, st.notes[id].groupIds, g))]))
      else None
    case GroupAdd(id, gr) => Some(st.(groups := st.groups[id := gr]))
    case GroupRename(id, name, ts) =>
      if id in st.groups then Some(st.(groups := st.groups[id := st.groups[id].(name := name, timestamp := ts)]))
      else None
    case GroupDelete(id) => Some(st.(groups := st.groups - {id}))
    case GroupArrayUpdate(id, op, n) =>
      if id in st.groups then
        Some(st.(groups := st.groups[id := st.groups[id].(noteIds := ApplyOp(op, st.groups[id].noteIds, n))]))
      else None
    case GroupNoteIdsSet(id, ids) =>
      if id in st.groups then Some(st.(groups := st.groups[id := st.groups[id].(noteIds := ids)]))
      else None
  }

  /** The state after every write of `ws` succeeded in order, or None if one
      of them fails. */
  function ApplyAll(st: State, ws: seq<Write>): Option<State>
    decreases |ws|
  {
    if ws == [] then Some(st)
    else match Step(st, ws[0])
      case None => None
      case Some(next) => ApplyAll(next, ws[1..])
  }

  /** The end of a handler's sequence of awaited writes: the state reached
      and how many writes were applied. */
  datatype Ran = Ran(state: State, applied: nat)

  /** The writes of one handler, awaited one after the other inside one
      `try`: a write fails when the connection is gone (`budget` writes are
      accepted) or when its document is missing; the first failure aborts the
      rest, and the writes applied before it stay applied. */
  function Run(st: State, ws: seq<Write>, budget: nat): (r: Ran)
    ensures r.applied <= |ws| && r.applied <= budget
    decreases |ws|
  {
    if ws == [] || budget == 0 then Ran(st, 0)
    else match Step(st, ws[0])
      case None => Ran(st, 0)
      case Some(next) =>
        var rest := Run(next, ws[1..], budget - 1);
        Ran(rest.state, rest.applied + 1)
  }

  /** `Run` applies the longest prefix of the plan that succeeds within the
      budget: every write of that prefix succeeds, and the write after it
      either exceeds the budget or fails. */
  lemma {:induction false} RunIsLongestPrefix(st: State, ws: seq<Write>, budget: nat)
    ensures var r := Run(st, ws, budget);
      && ApplyAll(st, ws[..r.applied]) == Some(r.state)
      && (r.applied < |ws| ==> r.applied == budget || ApplyAll(st, ws[..r.applied + 1]).None?)
    decreases |ws|
  {
    var r := Run(st, ws, budget);
    if ws == [] || budget == 0 {
      assert ws[..0] == [];
    } else if Step(st, ws[0]).None? {
      assert ws[..0] == [] && ws[..1] == [ws[0]];
    } else {
      var next := Step(st, ws[0]).value;
      var rest := Run(next, ws[1..], budget - 1);
      RunIsLongestPrefix(next, ws[1..], budget - 1);
      assert ws[..rest.applied + 1][1..] == ws[1..][..rest.applied];
      if rest.applied < |ws| - 1 {
        assert ws[..rest.applied + 2][1..] == ws[1..][..rest.applied + 1];
      }
    }
  }

  /** A run whose first write succeeds goes on with the rest of the plan
      from the state that write produced. */
  lemma RunFirst(st: State, ws: seq<Write>, budget: nat)
    requires ws != [] && budget > 0 && Step(st, ws[0]).Some?
    ensures var r := Run(Step(st, ws[0]).value, ws[1..], budget - 1);
      Run(st, ws, budget) == Ran(r.state, r.applied + 1)
  {
  }

  /** The run of a plan's suffix from index `i`, when write `i` goes
      through, is that write followed by the run from `i + 1`. */
  lemma RunAdvance(st: State, ws: seq<Write>, i: nat, budget: nat)
    requires i < |ws| && budget > 0 && Step(st, ws[i]).Some?
    ensures var r := Run(Step(st, ws[i]).value, ws[i + 1..], budget - 1);
      Run(st, ws[i..], budget) == Ran(r.state, r.applied + 1)
  {
    assert ws[i..][0] == ws[i] && ws[i..][1..] == ws[i + 1..];
    RunFirst(st, ws[i..], budget);
  }

  /** The run of a plan's suffix from index `i` applies nothing when the
      plan is over, the budget is spent or write `i` fails. */
  lemma RunHalts(st: State, ws: seq<Write>, i: nat, budget: nat)
    requires i <= |ws| && (i == |ws| || budget == 0 || Step(st, ws[i]).None?)
    ensures Run(st, ws[i..], budget) == Ran(st, 0)
  {
    if i < |ws| {
      assert ws[i..][0] == ws[i];
    }
  }

  /** Running two plans back to back: the second starts only if the first
      applied all of its writes, from the state the first reached and with
      what is left of the budget. */
  lemma {:induction false} RunAppend(st: State, p1: seq<Write>, p2: seq<Write>, budget: nat)
    ensures var r1 := Run(st, p1, budget);
      Run(st, p1 + p2, budget) ==
        if r1.applied < |p1| then r1
        else var r2 := Run(r1.state, p2, budget - |p1|); Ran(r2.state, r2.applied + |p1|)
    decreases |p1|
  {
    if p1 == [] {
      assert p1 + p2 == p2;
    } else if budget > 0 {
      assert (p1 + p2)[0] == p1[0] && (p1 + p2)[1..] == p1[1..] + p2;
      if Step(st, p1[0]).Some? {
        RunAppend(Step(st, p1[0]).value, p1[1..], p2, budget - 1);
      }
    }
  }

  /** A plan of one write applies it when the budget allows and it
      succeeds, and nothing otherwise. */
  lemma RunOne(st: State, w: Write, budget: nat)
    ensures Run(st, [w], budget) ==
      if budget > 0 && Step(st, w).Some? then Ran(Step(st, w).value, 1) else Ran(st, 0)
  {
    assert [w][1..] == [];
  }

  /** Two runs chained as a handler chains its loops: `r1` is the run of
      `p1`, and `r2`, when `p1` completed, the run of `p2` after it. */
  lemma RunChain(st: State, p1: seq<Write>, p2: seq<Write>, budget: nat, r1: Ran, r2: Ran)
    requires r1 == Run(st, p1, budget)
    requires r1.applied == |p1| ==> r2 == Run(r1.state, p2, budget - |p1|)
    ensures r1.applied < |p1| ==> Run(st, p1 + p2, budget) == r1
    ensures r1.applied == |p1| ==> Run(st, p1 + p2, budget) == Ran(r2.state, r2.applied + |p1|)
  {
    RunAppend(st, p1, p2, budget);
  }

  /** A run of two chained plans that applies every write applied all of
      the first plan and then all of the second. */
  lemma ChainCompleted(st: State, p1: seq<Write>, p2: seq<Write>, budget: nat)
    requires Run(st, p1 + p2, budget).applied == |p1| + |p2|
    ensures Run(st, p1, budget).applied == |p1|
    ensures var r2 := Run(Run(st, p1, budget).state, p2, budget - |p1|);
      r2.applied == |p2| && Run(st, p1 + p2, budget).state == r2.state
  {
    RunAppend(st, p1, p2, budget);
  }

  /** A plan that starts with one write and applies every write: that
      first write succeeded within the budget, and the rest ran to the end
      from the state it produced. */
  lemma HeadCompleted(st: State, w: Write, rest: seq<Write>, budget: nat)
    requires Run(st, [w] + rest, budget).applied == 1 + |rest|
    ensures budget > 0 && Step(st, w).Some?
    ensures var r := Run(Step(st, w).value, rest, budget - 1);
      r.applied == |rest| && Run(st, [w] + rest, budget).state == r.state
  {
    ChainCompleted(st, [w], rest, budget);
    RunOne(st, w, budget);
  }

  /** Whether a write addresses the group document `g`. */
  predicate WritesGroup(w: Write, g: GroupId) {
    (w.GroupAdd? || w.GroupRename? || w.GroupDelete? || w.GroupArrayUpdate? || w.GroupNoteIdsSet?) && w.id == g
  }

  /** Whether a write addresses the note document `n`. */
  predicate WritesNote(w: Write, n: NoteId) {
    (w.NoteAdd? || w.NoteUpdate? || w.NoteDelete? || w.NoteArrayUpdate?) && w.id == n
  }

  /** A group no write of the plan addresses is left exactly as it was,
      however far the plan gets. */
  lemma {:induction false} RunLeavesGroup(st: State, ws: seq<Write>, budget: nat, g: GroupId)
    requires forall i :: 0 <= i < |ws| ==> !WritesGroup(ws[i], g)
    ensures var after := Run(st, ws, budget).state;
      (g in after.groups <==> g in st.groups) && (g in st.groups ==> after.groups[g] == st.groups[g])
    decreases |ws|
  {
    if ws != [] && budget > 0 && Step(st, ws[0]).Some? {
      RunLeavesGroup(Step(st, ws[0]).value, ws[1..], budget - 1, g);
    }
  }

  /** A note no write of the plan addresses is left exactly as it was,
      however far the plan gets. */
  lemma {:induction false} RunLeavesNote(st: State, ws: seq<Write>, budget: nat, n: NoteId)
    requires forall i :: 0 <= i < |ws| ==> !WritesNote(ws[i], n)
    ensures var after := Run(st, ws, budget).state;
      (n in after.notes <==> n in st.notes) && (n in st.notes ==> after.notes[n] == st.notes[n])
    decreases |ws|
  {
    if ws != [] && budget > 0 && Step(st, ws[0]).Some? {
      RunLeavesNote(Step(st, ws[0]).value, ws[1..], budget - 1, n);
    }
  }

  /** One array transform per listed group, in list order. */
  function GroupWrites(ids: seq<GroupId>, op: ArrayOp, n: NoteId): (ws: seq<Write>)
    ensures |ws| == |ids|
    ensures forall i :: 0 <= i < |ids| ==> ws[i] == GroupArrayUpdate(ids[i], op, n)
  {
    seq(|ids|, i requires 0 <= i < |ids| => GroupArrayUpdate(ids[i], op, n))
  }

  /** One array transform per listed note, in list order. */
  function NoteWrites(ids: seq<NoteId>, op: ArrayOp, g: GroupId): (ws: seq<Write>)
    ensures |ws| == |ids|
    ensures forall i :: 0 <= i < |ids| ==> ws[i] == NoteArrayUpdate(ids[i], op, g)
  {
    seq(|ids|, i requires 0 <= i < |ids| => NoteArrayUpdate(ids[i], op, g))
  }

  /** A loop of group array writes either stops at once (no budget, or
      the first group is missing) or applies its first write and runs the
      rest from there. */
  lemma GroupWritesFirst(st: State, ids: seq<GroupId>, op: ArrayOp, n: NoteId, budget: nat)
    requires ids != []
    ensures var g := ids[0];
      && (budget == 0 || g !in st.groups ==> Run(st, GroupWrites(ids, op, n), budget) == Ran(st, 0))
      && (budget > 0 && g in st.groups ==>
            var next := st.(groups := st.groups[g := st.groups[g].(noteIds := ApplyOp(op, st.groups[g].noteIds, n))]);
            var r := Run(next, GroupWrites(ids[1..], op, n), budget - 1);
            Run(st, GroupWrites(ids, op, n), budget) == Ran(r.state, r.applied + 1))
  {
    var ws := GroupWrites(ids, op, n);
    assert ws[0] == GroupArrayUpdate(ids[0], op, n);
    assert ws[1..] == GroupWrites(ids[1..], op, n);
  }

  /** The same for a loop of note array writes. */
  lemma NoteWritesFirst(st: State, ids: seq<NoteId>, op: ArrayOp, g: GroupId, budget: nat)
    requires ids != []
    ensures var n := ids[0];
      && (budget == 0 || n !in st.notes ==> Run(st, NoteWrites(ids, op, g), budget) == Ran(st, 0))
      && (budget > 0 && n in st.notes ==>
            var next := st.(notes := st.notes[n := st.notes[n].(groupIds := ApplyOp(op, st.notes[n].groupIds, g))]);
            var r := Run(next, NoteWrites(ids[1..], op, g), budget - 1);
            Run(st, NoteWrites(ids, op, g), budget) == Ran(r.state, r.applied + 1))
  {
    var ws := NoteWrites(ids, op, g);
    assert ws[0] == NoteArrayUpdate(ids[0], op, g);
    assert ws[1..] == NoteWrites(ids[1..], op, g);
  }

  /** The groups after note `n` has been put into (or taken out of) each of
      `targets`. */
  function GroupsWithOp(groups: map<GroupId, Group>, targets: seq<GroupId>, op: ArrayOp, n: NoteId): map<GroupId, Group> {
    map g | g in groups :: if g in targets then groups[g].(noteIds := ApplyOp(op, groups[g].noteIds, n)) else groups[g]
  }

  /** The notes after group `g` has been put into (or taken out of) each of
      `targets`. */
  function NotesWithOp(notes: map<NoteId, Note>, targets: seq<NoteId>, op: ArrayOp, g: GroupId): map<NoteId, Note> {
    map n | n in notes :: if n in targets then notes[n].(groupIds := ApplyOp(op, notes[n].groupIds, g)) else notes[n]
  }

  /** Transforming the first listed group and then the rest is
      transforming all of them. */
  lemma GroupsWithOpCons(groups: map<GroupId, Group>, ids: seq<GroupId>, op: ArrayOp, n: NoteId)
    requires ids != [] && ids[0] in groups
    ensures var g := ids[0];
      GroupsWithOp(groups[g := groups[g].(noteIds := ApplyOp(op, groups[g].noteIds, n))], ids[1..], op, n)
        == GroupsWithOp(groups, ids, op, n)
  {
    var g := ids[0];
    var first := groups[g := groups[g].(noteIds := ApplyOp(op, groups[g].noteIds, n))];
    var lhs := GroupsWithOp(first, ids[1..], op, n);
    var rhs := GroupsWithOp(groups, ids, op, n);
    assert lhs.Keys == rhs.Keys;
    forall k | k in rhs ensures lhs[k] == rhs[k] {
      if k == g && g in ids[1..] {
        ApplyOpIdempotent(op, groups[g].noteIds, n);
      }
    }
  }

  /** Transforming the first listed note and then the rest is transforming
      all of them. */
  lemma NotesWithOpCons(notes: map<NoteId, Note>, ids: seq<NoteId>, op: ArrayOp, g: GroupId)
    requires ids != [] && ids[0] in notes
    ensures var n := ids[0];
      NotesWithOp(notes[n := notes[n].(groupIds := ApplyOp(op, notes[n].groupIds, g))], ids[1..], op, g)
        == NotesWithOp(notes, ids, op, g)
  {
    var n := ids[0];
    var first := notes[n := notes[n].(groupIds := ApplyOp(op, notes[n].groupIds, g))];
    var lhs := NotesWithOp(first, ids[1..], op, g);
    var rhs := NotesWithOp(notes, ids, op, g);
    assert lhs.Keys == rhs.Keys;
    forall k | k in rhs ensures lhs[k] == rhs[k] {
      if k == n && n in ids[1..] {
        ApplyOpIdempotent(op, notes[n].groupIds, g);
      }
    }
  }

  /** When every array transform of a group loop succeeds, the loop has
      transformed each listed group once (a repeated id changes nothing
      more) and touched nothing else; every listed group exists. */
  lemma GroupWritesCompleted(st: State, ids: seq<GroupId>, op: ArrayOp, n: NoteId, budget: nat)
    requires Run(st, GroupWrites(ids, op, n), budget).applied == |ids|
    ensures forall i :: 0 <= i < |ids| ==> ids[i] in st.groups
    ensures Run(st, GroupWrites(ids, op, n), budget).state ==
      st.(groups := GroupsWithOp(st.groups, ids, op, n))
  {
    GroupWritesReached(st, ids, op, n, budget);
    GroupWritesTargetsExist(st, ids, op, n, budget);
  }

  /** The state a completed group loop reaches. */
  lemma {:induction false} GroupWritesReached(st: State, ids: seq<GroupId>, op: ArrayOp, n: NoteId, budget: nat)
    requires Run(st, GroupWrites(ids, op, n), budget).applied == |ids|
    ensures Run(st, GroupWrites(ids, op, n), budget).state ==
      st.(groups := GroupsWithOp(st.groups, ids, op, n))
    decreases |ids|
  {
    if ids == [] {
      assert GroupsWithOp(st.groups, ids, op, n) == st.groups;
    } else {
      var k := ids[0];
      assert budget > 0 && k in st.groups by {
        GroupWritesFirst(st, ids, op, n, budget);
      }
      var first := st.groups[k := st.groups[k].(noteIds := ApplyOp(op, st.groups[k].noteIds, n))];
      var next := st.(groups := first);
      var r := Run(next, GroupWrites(ids[1..], op, n), budget - 1);
      assert Run(st, GroupWrites(ids, op, n), budget) == Ran(r.state, r.applied + 1) by {
        GroupWritesFirst(st, ids, op, n, budget);
      }
      GroupWritesReached(next, ids[1..], op, n, budget - 1);
      GroupsWithOpCons(st.groups, ids, op, n);
    }
  }

  /** Every group a completed group loop wrote exists. */
  lemma {:induction false} GroupWritesTargetsExist(st: State, ids: seq<GroupId>, op: ArrayOp, n: NoteId, budget: nat)
    requires Run(st, GroupWrites(ids, op, n), budget).applied == |ids|
    ensures forall i :: 0 <= i < |ids| ==> ids[i] in st.groups
    decreases |ids|
  {
    if ids != [] {
      var k := ids[0];
      assert budget > 0 && k in st.groups by {
        GroupWritesFirst(st, ids, op, n, budget);
      }
      var next := st.(groups := st.groups[k := st.groups[k].(noteIds := ApplyOp(op, st.groups[k].noteIds, n))]);
      assert Run(next, GroupWrites(ids[1..], op, n), budget - 1).applied == |ids[1..]| by {
        GroupWritesFirst(st, ids, op, n, budget);
      }
      GroupWritesTargetsExist(next, ids[1..], op, n, budget - 1);
      forall i | 0 < i < |ids| ensures ids[i] in st.groups {
        assert ids[1..][i - 1] == ids[i];
        assert ids[i] in next.groups;
      }
    }
  }

  /** When every array transform of a note loop succeeds, the loop has
      transformed each listed note once (a repeated id changes nothing
      more) and touched nothing else; every listed note exists. */
  lemma NoteWritesCompleted(st: State, ids: seq<NoteId>, op: ArrayOp, g: GroupId, budget: nat)
    requires Run(st, NoteWrites(ids, op, g), budget).applied == |ids|
    ensures forall i :: 0 <= i < |ids| ==> ids[i] in st.notes
    ensures Run(st, NoteWrites(ids, op, g), budget).state ==
      st.(notes := NotesWithOp(st.notes, ids, op, g))
  {
    NoteWritesReached(st, ids, op, g, budget);
    NoteWritesTargetsExist(st, ids, op, g, budget);
  }

  /** The state a completed note loop reaches. */
  lemma {:induction false} NoteWritesReached(st: State, ids: seq<NoteId>, op: ArrayOp, g: GroupId, budget: nat)
    requires Run(st, NoteWrites(ids, op, g), budget).applied == |ids|
    ensures Run(st, NoteWrites(ids, op, g), budget).state ==
      st.(notes := NotesWithOp(st.notes, ids, op, g))
    decreases |ids|
  {
    if ids == [] {
      assert NotesWithOp(st.notes, ids, op, g) == st.notes;
    } else {
      var k := ids[0];
      assert budget > 0 && k in st.notes by {
        NoteWritesFirst(st, ids, op, g, budget);
      }
      var first := st.notes[k := st.notes[k].(groupIds := ApplyOp(op, st.notes[k].groupIds, g))];
      var next := st.(notes := first);
      var r := Run(next, NoteWrites(ids[1..], op, g), budget - 1);
      assert Run(st, NoteWrites(ids, op, g), budget) == Ran(r.state, r.applied + 1) by {
        NoteWritesFirst(st, ids, op, g, budget);
      }
      NoteWritesReached(next, ids[1..], op, g, budget - 1);
      NotesWithOpCons(st.notes, ids, op, g);
    }
  }

  /** Every note a completed note loop wrote exists. */
  lemma {:induction false} NoteWritesTargetsExist(st: State, ids: seq<NoteId>, op: ArrayOp, g: GroupId, budget: nat)
    requires Run(st, NoteWrites(ids, op, g), budget).applied == |ids|
    ensures forall i :: 0 <= i < |ids| ==> ids[i] in st.notes
    decreases |ids|
  {
    if ids != [] {
      var k := ids[0];
      assert budget > 0 && k in st.notes by {
        NoteWritesFirst(st, ids, op, g, budget);
      }
      var next := st.(notes := st.notes[k := st.notes[k].(groupIds := ApplyOp(op, st.notes[k].groupIds, g))]);
      assert Run(next, NoteWrites(ids[1..], op, g), budget - 1).applied == |ids[1..]| by {
        NoteWritesFirst(st, ids, op, g, budget);
      }
      NoteWritesTargetsExist(next, ids[1..], op, g, budget - 1);
      forall i | 0 < i < |ids| ensures ids[i] in st.notes {
        assert ids[1..][i - 1] == ids[i];
        assert ids[i] in next.notes;
      }
    }
  }

  /** A note document as a snapshot delivers it: `groupIds` may be absent
      (None) in documents written without it. */
  datatype NoteData = NoteData(
    title: string,
    content: string,
    timestamp: int,
    alarmTimestamp: Option<int>,
    groupIds: Option<seq<GroupId>>)

  /** A group document as a snapshot delivers it. */
  datatype GroupData = GroupData(name: string, noteIds: Option<seq<NoteId>>, timestamp: int)

  /** The snapshot mapping `{ id, ...doc.data(), groupIds: doc.data().groupIds || [] }`:
      an absent array reads as empty, a present one is kept as stored, and
      every other field is copied. */
  function NoteFromData(d: NoteData): (n: Note)
    ensures d.groupIds.None? ==> n.groupIds == []
    ensures d.groupIds.Some? ==> n.groupIds == d.groupIds.value
    ensures n.title == d.title && n.content == d.content
    ensures n.timestamp == d.timestamp && n.alarmTimestamp == d.alarmTimestamp
  {
    Note(d.title, d.content, d.timestamp, d.alarmTimestamp,
         match d.groupIds case Some(ids) => ids case None => [])
  }

  /** The group snapshot mapping, `noteIds: doc.data().noteIds || []`. */
  function GroupFromData(d: GroupData): (g: Group)
    ensures d.noteIds.None? ==> g.noteIds == []
    ensures d.noteIds.Some? ==> g.noteIds == d.noteIds.value
    ensures g.name == d.name && g.timestamp == d.timestamp
  {
    Group(d.name, match d.noteIds case Some(ids) => ids case None => [], d.timestamp)
  }

  /** `snapshot.docs.map(...)` for the notes query: one entry per document,
      in snapshot order. */
  function NotesFromSnapshot(docs: seq<(NoteId, NoteData)>): (es: seq<Entry>)
    ensures |es| == |docs|
    ensures forall i :: 0 <= i < |docs| ==> es[i] == Entry(docs[i].0, NoteFromData(docs[i].1))
  {
    seq(|docs|, i requires 0 <= i < |docs| => Entry(docs[i].0, NoteFromData(docs[i].1)))
  }

  /** The document the save handlers write: every field present. */
  function NoteToData(n: Note): NoteData {
    NoteData(n.title, n.content, n.timestamp, n.alarmTimestamp, Some(n.groupIds))
  }

  /** Reading back what the save handlers wrote gives the same note, and a
      document that lacks `groupIds` reads as one with an empty array. */
  lemma NormalisationRoundTrip(n: Note, d: NoteData)
    ensures NoteFromData(NoteToData(n)) == n
    ensures d.groupIds.None? ==> NoteFromData(d) == NoteFromData(d.(groupIds := Some([])))
  {
  }
}
