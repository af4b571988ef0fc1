# Note app bookkeeping, modelled in Dafny

`apk.js` is a React Native note-taking screen backed by two Firestore
collections of one user. Notes carry the ids of the groups they belong to
(`groupIds`), and groups carry the ids of their notes (`noteIds`). The
event handlers keep the two sides in step with single awaited writes:
document updates, `arrayUnion` and `arrayRemove`. The screen also arms one
reminder timer per note whose alarm lies in the future.

This project models that bookkeeping:

- `Docs` (docs.dfy): the two collections as maps, the remote writes the
  handlers issue, and `Run`. `Run` applies a list of writes in order and
  stops at the first one that fails. A write fails when the connection is
  gone (a budget of accepted writes runs out) or when it updates a missing
  document. The module also holds the snapshot normalisation that defaults
  a missing `groupIds`/`noteIds` to `[]`.
- `Plans` (plans.dfy): the writes each handler awaits, in order, as a pure
  function of what the handler reads. That includes the cached note list
  and the cached `editingGroup`.
- `NoteStore` (store.dfy): a `Store` class with `notes`, `groups` and the
  remaining write budget as fields. It has one method per handler, and each
  handler's loops issue one write at a time. Every method is proved to
  leave the store exactly where `Run` of its plan leaves it.
- `Membership` (membership.dfy): what the plans do to the two-sided
  references. This covers consistency after complete runs and after runs
  cut short, what a completed run leaves, and what each handler leaves
  untouched.
- `Alarms` (alarms.dfy): an `AlarmRegistry` class for the note-id-to-timer
  map, the runtime's armed timers and a millisecond clock. It covers the
  snapshot callback's rebuild, a timer firing, cancelling on delete and
  teardown.
- `Forms` (forms.dfy): the checks the save handlers make before any write,
  and the edit form `handleEditClick` fills from a stored note.
- `DateTime` (datetime.dfy): the alarm text format check and the formatter
  that turns local calendar fields back into such a text.
- `Text`, `Lists` and `Views` (text.dfy, lists.dfy, views.dfy): trimming,
  ASCII lower-casing, `includes` and `truncateContent`; the array helpers,
  the diffs and the selection toggles; the search filter and the list of
  notes the membership editor offers.

The screen reads and writes `activeAlarms`/`setActiveAlarms` but never
declares that state among its hooks (apk.js:33-55 against apk.js:123,
apk.js:143 and apk.js:294). The model gives it the evidently intended
form: a map-valued field of `AlarmRegistry`.

## Model

| member | source | states |
|---|---|---|
| Lists.RemoveAll | apk.js:218-220 | `arrayRemove`: exactly the elements other than `x` remain; a list without `x` is unchanged |
| Lists.RemoveAllKeepsOthers | apk.js:218-220 | `arrayRemove` keeps every element other than `x` as often as it occurred, as a subsequence of the input, so in its order |
| Lists.ArrayUnion | apk.js:210-212 | `arrayUnion`: a list that holds `x` is unchanged, otherwise `x` is appended; the result holds the old elements plus `x` and keeps a duplicate-free list duplicate-free |
| Lists.Without | apk.js:207 | the diff holds exactly the ids of the first list that are missing from the second |
| Lists.DiffsDisjoint | apk.js:207-215 | the added and removed diffs share no id, and between them they hold exactly the ids on which old and new selection differ |
| Lists.Toggle | apk.js:448-456 | selection toggle: the id is selected afterwards iff it was not before, every other id keeps its state, and a duplicate-free selection stays duplicate-free |
| Lists.ToggleTwiceFromAbsent | apk.js:611-617 | toggling an unselected group twice gives back the selection as it was |
| Lists.FilterAppend | apk.js:498-501 | `filter` over a concatenation is the concatenation of the filters, so the order of kept elements is never changed |
| Lists.FilterIsSubsequence | apk.js:498-501 | what `filter` keeps is a subsequence of its input |
| Text.BlankIffAllWhitespace | apk.js:178 | `s.trim() === ''` iff every character of `s` is whitespace |
| Text.TrimStart | apk.js:178 | the leading part `trim()` drops is all whitespace, and what remains is the rest of the text, starting with a non-whitespace character |
| Text.TrimEnd | apk.js:178 | the trailing part `trim()` drops is all whitespace, and what remains is the start of the text, ending with a non-whitespace character |
| Text.Trim | apk.js:178 | `trim()` gives a prefix of what follows the leading whitespace, and everything after that prefix is whitespace; the result neither starts nor ends with whitespace |
| Text.ToLower | apk.js:499-500 | `toLowerCase()` keeps the length, maps each upper-case ASCII letter to its lower-case letter and keeps every other character |
| Text.Includes | apk.js:499-500 | `includes` holds iff the text occurs at some position |
| Text.IncludesFolded | apk.js:499-500 | lower-casing both sides keeps every occurrence |
| Text.TruncateContent | apk.js:324-329 | text within the limit is returned unchanged; longer text is cut to its first `limit` characters plus `...`, at most `limit + 3` long |
| DateTime.ValidFormatExactly | apk.js:63-67 | `IsValidDateTimeFormat` accepts exactly the 16-character strings with digits everywhere except `-` at 4 and 7, `T` at 10 and `:` at 13 |
| DateTime.NoRangeCheck | apk.js:63-67 | replacing any digit of an accepted text by any other digit keeps it accepted: month, day, hour and minute are not range-checked |
| DateTime.UnpaddedRejected | apk.js:63-67 | dropping any one character of an accepted text, such as the leading zero of a month, day, hour or minute, gives a text the check refuses |
| DateTime.Pad2 | apk.js:263-266 | `padStart(2, '0')` of a field below 100 is two digits whose decimal value is the field; a one-digit field gets a leading `0`, and a field of two or more digits is printed as it is |
| DateTime.DecimalRoundTrip | apk.js:262-266 | reading back the decimal text of a number gives the number |
| DateTime.FourDigitYears | apk.js:262 | a year prints as four digits iff it lies in 1000..9999 |
| DateTime.FormattedAlarmAccepted | apk.js:259-267 | with fields below 100, the text `FormatAlarmInput` builds passes the format check iff the year lies in 1000..9999 |
| Docs.ApplyOpIdempotent | apk.js:210-220 | applying the same `arrayUnion` or `arrayRemove` twice equals applying it once |
| Docs.Step | apk.js:196-239 | one write that reaches the backend: every `update` fails iff its document is missing; `add` and `delete` always succeed |
| Docs.Run | apk.js:193-252 | a run never applies more writes than its plan holds or the connection accepts |
| Docs.RunIsLongestPrefix | apk.js:193-252 | the awaited writes inside one `try`: the run applies the longest prefix in which every write succeeds and stops at the first failure |
| Docs.RunAppend | apk.js:193-252 | running two plans in sequence equals running their concatenation |
| Docs.RunChain | apk.js:207-221 | two loops in one `try`: if the first stops early the whole run stops there; otherwise the second runs from where the first left off |
| Docs.RunLeavesGroup | apk.js:193-252 | a group that no write of the plan targets keeps its document, whatever part of the plan runs |
| Docs.RunLeavesNote | apk.js:193-252 | a note that no write of the plan targets keeps its document, whatever part of the plan runs |
| Docs.GroupWritesCompleted | apk.js:234-239 | a completed loop of group array writes leaves every target group with the array op applied and every other document as it was |
| Docs.NoteWritesCompleted | apk.js:423-429 | a completed loop of note array writes leaves every target note with the array op applied and every other document as it was |
| Docs.NoteFromData | apk.js:115-119 | a note read from a snapshot has `groupIds` `[]` when the document lacks them, otherwise the stored array; the other fields are copied |
| Docs.GroupFromData | apk.js:153-157 | the same for a group's `noteIds` |
| Docs.NotesFromSnapshot | apk.js:115-119 | one entry per document, in snapshot order |
| Docs.NormalisationRoundTrip | apk.js:115-119 | reading back what the handlers write gives the same note; a missing `groupIds` reads as an empty one |
| Forms.CheckNote | apk.js:178-191 | a blank title or content is refused; with the alarm switch on and text given, malformed text is refused; otherwise the save goes on, with the parsed instant or `null` when the switch is off or the text empty |
| Forms.SpacesOnlyTitleRejected | apk.js:178 | a title of spaces only is refused |
| Forms.CheckGroupName | apk.js:369-372 | a group name is refused iff it is all whitespace |
| Forms.FormForEdit | apk.js:255-275 | the edit form carries the note's id, texts and groups; the alarm switch is on iff the note has an alarm; the text is the formatted local time of the alarm when it is on, and empty when it is off |
| Forms.ResaveKeepsAlarm | apk.js:255-275 | saving an opened note unchanged keeps a missing alarm missing; for a stored alarm whose local fields are below 100 and whose shown text parses back to the same instant (`toMillis(FormatAlarmInput(toLocal(t))) == t`, an assumption about the two conversions), the alarm is kept iff its year has four digits, and otherwise the form's own text is refused as malformed |
| Plans.Conclude | apk.js:249-252 | the handler reports success iff every write of its plan went through, and otherwise how many did |
| Plans.Find | apk.js:204 | `find` returns none iff no cached note has the id; otherwise it returns the note of the first cached entry with that id |
| Plans.CachedGroupIds | apk.js:204-205 | `oldNote ? oldNote.groupIds : []`: the groups of the first cached note with the id, none when it is not cached |
| Plans.FindMirrored | apk.js:204-205 | with the cache mirroring the store, `find` returns exactly the stored note |
| Plans.NotesInGroup | apk.js:423 | the ids of exactly the cached notes that list the group |
| Plans.NotesInGroupMirrored | apk.js:423 | with the cache mirroring the store, the filter yields exactly the stored notes that list the group |
| Plans.SaveNotePlanWrites | apk.js:194-239 | `SaveNotePlan`: the note document is written first; every later write is a group write of that note id, and it is a union iff the form selects the group, iff the cached note did not list it |
| Plans.EditNotePlanWrites | apk.js:196-221 | `EditNotePlan`: the note update comes first, then the unions, then the removals; each group write is a union iff the new note lists the group, only where that differs from the cached groups, and every changed group gets one |
| Plans.CreateNotePlanWrites | apk.js:224-239 | `CreateNotePlan`: the add comes first, then one union of the new id into each selected group, in selection order |
| Plans.DeleteNotePlanWrites | apk.js:291-311 | `DeleteNotePlan`: the delete comes first, then one `arrayRemove` of the id from each group the first cached note with that id lists, and from no other group |
| Plans.SaveGroupPlanWrites | apk.js:375-388 | `SaveGroupPlan`: one write, the rename of the edited group (name and timestamp) or the add of a group with that name and no notes |
| Plans.DeleteGroupPlanTargets | apk.js:416-429 | `DeleteGroupPlan`: the group document is deleted first; every later write removes the id from a cached note that lists it, and every such note gets one |
| Plans.MembershipPlanWrites | apk.js:466-486 | `MembershipPlan`: the group's `noteIds` is overwritten last; every earlier write is a note write of the group id, a union iff the note is selected, iff the cached group did not list it |
| NoteStore.Store.Perform | apk.js:196-202 | one awaited write succeeds iff the connection holds and its target exists; if it fails nothing changes |
| NoteStore.Store.UpdateGroups | apk.js:234-239 | the loop of group array writes leaves the store as `Run` of those writes, and reports how many went through |
| NoteStore.Store.UpdateNotes | apk.js:423-429 | the loop of note array writes leaves the store as `Run` of those writes, and reports how many went through |
| NoteStore.Store.SaveNote | apk.js:173-253 | a refused form changes nothing; otherwise the store is where `Run` of the save plan leaves it, and the outcome says how far it got |
| NoteStore.Store.EditNote | apk.js:194-223 | the edit branch: note update, then the two diff loops, as `Run` of the edit plan |
| NoteStore.Store.Regroup | apk.js:207-221 | the `addedGroups` loop, then the `removedGroups` loop, as `Run` of those writes; the second loop starts only when the first applied every write |
| NoteStore.Store.CreateNote | apk.js:224-240 | the create branch: add the note, then union its id into every selected group, as `Run` of the create plan |
| NoteStore.Store.DeleteNote | apk.js:277-322 | the store is where `Run` of the delete plan leaves it; once the note is deleted its alarm entry and timer are cancelled, and if the delete fails the alarms are untouched |
| NoteStore.Store.SaveGroup | apk.js:364-398 | a blank name changes nothing; otherwise the one rename or add write is attempted |
| NoteStore.Store.DeleteGroup | apk.js:406-440 | the store is where `Run` of the delete-group plan leaves it |
| NoteStore.Store.SaveNotesToGroup | apk.js:458-496 | with no group selected nothing changes; otherwise the store is where `Run` of the membership plan leaves it |
| NoteStore.Store.RegroupMembers | apk.js:466-482 | the `notesToAdd` loop, then the `notesToRemove` loop, as `Run` of those writes; the second loop starts only when the first applied every write |
| Membership.RegroupCompleted | apk.js:207-221 | after both diff loops complete, the groups are the old ones with the note id added to each newly selected group and removed from each deselected one; all those groups existed |
| Membership.RegroupedMembership | apk.js:207-221 | after the regroup, the note is listed by a changed group iff it is newly selected; other groups keep their documents |
| Membership.RegroupMembersCompleted | apk.js:466-482 | after both diff loops of the membership editor complete, the notes are the old ones with the group id added or removed as the selection changed |
| Membership.EditKeepsConsistent | apk.js:194-223 | a completed edit of a consistent store leaves it consistent, stores the new note, and the note is listed by exactly the groups it names |
| Membership.CreateRan | apk.js:224-240 | a completed create stored the note and put its id into every selected group, all of which existed |
| Membership.CreateKeepsConsistent | apk.js:224-240 | a completed create with a fresh id leaves the store consistent, and every selected group lists the new note |
| Membership.SaveNoteKeepsConsistent | apk.js:173-253 | with the cache mirroring the store, a completed save keeps the store consistent, in both branches |
| Membership.DeleteNoteKeepsConsistent | apk.js:291-311 | however far the delete gets, the store stays consistent; once the first write applied the note is gone |
| Membership.DeleteNoteRan | apk.js:291-311 | a completed delete removed the note and took its id out of every group the cached note listed, all of which existed |
| Membership.DeleteNoteCompleted | apk.js:291-311 | after a completed delete the note is gone and no group it listed still lists it |
| Membership.DeleteGroupKeepsConsistent | apk.js:416-429 | however far the group delete gets, the store stays consistent and no note is deleted |
| Membership.DeleteGroupRan | apk.js:416-429 | a completed group delete removed the group and took its id out of every cached note that lists it |
| Membership.DeleteGroupCompleted | apk.js:416-429 | after a completed group delete the group is gone, no note lists it, and notes that did not list it are unchanged |
| Membership.MembershipCompleted | apk.js:466-486 | after a completed membership save the notes changed as the selection did and the group's `noteIds` is the selection; the group existed |
| Membership.MembersRegroupedConsistent | apk.js:466-486 | regrouping the members of a consistent store to the selection keeps it consistent, and a note lists the group iff it is selected |
| Membership.MembershipKeepsConsistent | apk.js:466-486 | a completed membership save keeps the store consistent, sets `noteIds` to the selection, and a note lists the group iff it is selected |
| Membership.SaveGroupKeepsConsistent | apk.js:375-388 | a new group starts with no notes, a rename keeps `noteIds`, and the store stays consistent |
| Membership.SaveNoteTouchesOnlyChangedGroups | apk.js:207-239 | a group whose membership of the note does not change gets no write |
| Membership.DeleteNoteSparesOtherGroups | apk.js:303-311 | groups the note does not list are untouched by its deletion |
| Membership.DeleteGroupSparesOtherNotes | apk.js:420-429 | notes that do not list the group are untouched by its deletion |
| Membership.MembershipTouchesOnlyChangedNotes | apk.js:466-482 | notes whose selection does not change get no write |
| Membership.AbsentNoteWrites | apk.js:303-311 | after the note's delete, array writes of a note id that names no note keep the store consistent, whatever part runs |
| Membership.AbsentGroupWrites | apk.js:423-429 | array writes of a group id that names no group keep the store consistent, whatever part runs |
| Alarms.DueTimers | apk.js:125-141 | the rebuilt map has a key exactly for each note that `IsDue`, its alarm set and later than now, and that timer's due time is later than now |
| Alarms.DueTimerOf | apk.js:129-140 | with distinct ids, the timer armed for a due note carries its title and alarm instant |
| Alarms.AlarmRegistry.OneTimerPerNote | apk.js:140 | in a valid registry a note has at most one armed timer, the one its entry names |
| Alarms.AlarmRegistry.Reconcile | apk.js:122-143 | every timer the registry's current map names is cleared; the map's keys are exactly the due notes, each with one fresh timer of positive delay; past-due notes get none |
| Alarms.AlarmRegistry.ClearTimers | apk.js:123 | every timer the map names is cleared |
| Alarms.AlarmRegistry.ArmTimers | apk.js:124-141 | the `forEach` arms one fresh timer per due note and records its handle |
| Alarms.AlarmRegistry.Fire | apk.js:131-137 | a fired timer shows `Alarm! Not: "<title>"` and removes only its own note's entry |
| Alarms.AlarmRegistry.Cancel | apk.js:294-301 | deleting a note clears its timer and drops its entry, leaving the other entries as they were |
| Alarms.AlarmRegistry.Teardown | apk.js:165-169 | unmounting clears every timer the registry's current map names |
| Alarms.ReconcileTwice | apk.js:122-143 | with the registry's current map read each time, receiving the same snapshot twice leaves exactly one timer per due note and none for other notes |
| Views.FilteredNotes | apk.js:498-501 | `MatchesQuery`: a note is shown iff the lower-cased query occurs in its lower-cased title or content |
| Views.SearchKeepsOrder | apk.js:498-501 | the search keeps the notes in their cached order |
| Views.EmptyQueryShowsAll | apk.js:498-501 | an empty query shows every note |
| Views.LiteralMatchShown | apk.js:498-501 | a note whose title or content holds the query as typed is shown |
| Views.QueryCaseIgnored | apk.js:498-501 | lower-casing the query first gives the same list |
| Views.NotesForGroupAddition | apk.js:503-505 | with no group being edited the list is empty; otherwise it holds exactly the cached notes the group does not list |
| Views.AdditionKeepsOrder | apk.js:503-505 | the notes offered for the group keep their cached order |

## Left out

- Firebase initialisation, anonymous sign-in and the `firestore().app`/`userId` guard at the head of each handler: the model assumes a signed-in user with a live database.
- AsyncStorage loading and saving of the user name and theme: key-value I/O with no bearing on the notes.
- Rendering, modals, tabs and themes: presentation only.
- `Alert.alert` confirmations: only the confirmed branch of each delete is modelled.
- Messages shown after a handler ends, and resetting the form state: user feedback only. The handler's `Outcome` records which message would appear.
- Connection failures are modelled as a budget of writes the backend accepts. A failure in the middle of a write, or one tied to a particular document, is not modelled. A missing target document is modelled.
- Real `setTimeout`/`clearTimeout`: handles are natural numbers handed out in order, and `Date.now()` is the registry's `clock` field.
- `new Date(text)` with `Timestamp.fromDate`, and `toDate()` with the `Date` getters, depend on the time zone. They are the uninterpreted parameters `toMillis` and `toLocal`. `toMillis` is total, so a text that passes the format check but names no real date (month 13, say) becomes an ordinary alarm in the model. The Invalid Date that `new Date` gives such a text at apk.js:189-190, outside the `try` that starts at apk.js:193, is not modelled.
- `Timestamp.now()` and the ids Firestore's `add` generates are parameters of the handlers.
- `toLowerCase` is modelled for ASCII letters only; other characters are kept as they are. `Text.IncludesFolded` and `Views.LiteralMatchShown` hold for this ASCII lower-casing only: Unicode's `toLowerCase` is context-sensitive (a capital sigma at the end of a word becomes a final sigma), so a text holding the query can lose the match once both are lower-cased.
- Snapshot delivery order, races between sessions and stale React closures are not modelled (for the alarm registry see the `Alarms.AlarmRegistry.Reconcile` line below). Each handler runs alone against the current store, and the lemmas that need the cached note list to match the store say so (`Mirrors`).
- Alarms.AlarmRegistry.Reconcile: requires that a snapshot never holds two documents with the same id, which Firestore guarantees.
- Alarms.AlarmRegistry.Reconcile: the model reads the registry's current map. The component's snapshot callback (apk.js:123) reads the `activeAlarms` of the render in which the subscription effect ran, which with the intended `useState({})` is `{}` (the effect reruns only when `[userId, isAuthReady]` changes, apk.js:171). So in the component a later snapshot clears no earlier timer and arms one more timer per due note, and a deleted note's earlier timers still fire. The contracts describe the intended registry, not this.
- Alarms.AlarmRegistry.Teardown: for the same reason, the component's cleanup (apk.js:168) clears only the timers of that first map, not every armed timer.
- Alarms.ReconcileTwice: holds for the registry that reads its current map; in the component, two snapshots leave two timers per due note.
- Text.TruncateContent: lengths count code points, while `content.length` and `substring` count UTF-16 code units. Text outside the Basic Multilingual Plane is cut later than the app cuts it, and a cut inside a surrogate pair is not modelled.
- Forms.ResaveKeepsAlarm: assumes that reading the shown text back (`toMillis`) gives the stored instant and that the local fields are below 100. Both conversions depend on the time zone and are left uninterpreted, so the model does not derive this.
- Membership.SaveGroupKeepsConsistent: assumes that a new group's generated id names no group and that no note lists it. Firestore's fresh ids make this so in practice, but the model does not derive it.
- Membership.CreateKeepsConsistent: assumes the generated id names no note and no group lists it. Firestore's fresh ids make this so in practice, but the model does not derive it.
- Membership.EditKeepsConsistent: assumes the cached note matches the stored one. With a stale cache the diffs can miss a group.
- `editingNoteId`/`editingGroup` are modelled as options. An empty-string id, which JavaScript would treat as false, does not arise from Firestore.
- Array fields are sequences, with `arrayUnion` appending only when absent and `arrayRemove` removing every occurrence. Consistency is stated on membership, not on multiplicity.
