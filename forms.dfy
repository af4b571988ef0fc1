/** The checks the save handlers make on the form before any write: a note
    needs a non-blank title and content and, when its alarm switch is on and
    the alarm field is filled, a well-formed alarm text; a group needs a
    non-blank name. */
module Forms {
  import opened Docs
  import opened Text
  import opened DateTime

  /** What the note form holds when "save" is pressed: the note being edited
      (`editingNoteId`, None for a new note), the two text fields, the alarm
      switch (`showAlarmInput`) and field (`alarmDateTime`), and the selected
      groups (`selectedGroupsForNewNote`). */
  datatype NoteForm = NoteForm(
    editing: Option<NoteId>,
    title: string,
    content: string,
    alarmOn: bool,
    alarmText: string,
    groups: seq<GroupId>)

  /** Why a handler returned before writing anything. */
  datatype Rejection =
    | BlankTitleOrContent   // "Başlık ve içerik boş olamaz!"
    | MalformedAlarm        // "Geçersiz alarm tarihi veya saati formatı!"
    | BlankGroupName        // "Grup adı boş olamaz!"
    | NoGroupSelected       // `!editingGroup` in the membership editor

  /** The outcome of the checks of `handleSaveNote`: go on with this alarm
      instant (None is the `null` the note is saved with), or stop. */
  datatype Verdict = Pass(alarm: Option<int>) | Reject(why: Rejection)

  /** The checks of `handleSaveNote`, in their order. `toMillis` stands for
      `Timestamp.fromDate(new Date(text))`, local-time parsing the model
      leaves uninterpreted. */
  function CheckNote(form: NoteForm, toMillis: string -> int): (v: Verdict)
    ensures v == Reject(BlankTitleOrContent) <==> IsBlank(form.title) || IsBlank(form.content)
    ensures v == Reject(MalformedAlarm) <==>
      && !IsBlank(form.title) && !IsBlank(form.content)
      && form.alarmOn && form.alarmText != ""
      && !IsValidDateTimeFormat(form.alarmText)
    ensures v.Pass? || v == Reject(BlankTitleOrContent) || v == Reject(MalformedAlarm)
    ensures v.Pass? && (!form.alarmOn || form.alarmText == "") ==> v.alarm == None
    ensures v.Pass? && form.alarmOn && form.alarmText != "" ==>
      IsValidDateTimeFormat(form.alarmText) && v.alarm == Some(toMillis(form.alarmText))
  {
    if IsBlank(form.title) || IsBlank(form.content) then Reject(BlankTitleOrContent)
    else if form.alarmOn && form.alarmText != "" then
      if !IsValidDateTimeFormat(form.alarmText) then Reject(MalformedAlarm)
      else Pass(Some(toMillis(form.alarmText)))
    else Pass(None)
  }

  /** A title made only of spaces is refused, whatever the rest of the form
      says. */
  lemma SpacesOnlyTitleRejected(form: NoteForm, toMillis: string -> int)
    requires |form.title| > 0 && forall i :: 0 <= i < |form.title| ==> form.title[i] == ' '
    ensures CheckNote(form, toMillis) == Reject(BlankTitleOrContent)
  {
    BlankIffAllWhitespace(form.title);
  }

  /** The check of `handleSaveGroup`: the name may not be blank. */
  function CheckGroupName(name: string): (r: Option<Rejection>)
    ensures r.Some? <==> forall i :: 0 <= i < |name| ==> IsWhitespace(name[i])
    ensures r.Some? ==> r.value == BlankGroupName
  {
    BlankIffAllWhitespace(name);
    if IsBlank(name) then Some(BlankGroupName) else None
  }

  /** `handleEditClick`: the form refilled from a stored note. An alarm is
      shown as the text of its local calendar fields, which `toLocal`
      stands for (`toDate()` and the `Date` getters, left uninterpreted). */
  function FormForEdit(e: Entry, toLocal: int -> LocalDateTime): (f: NoteForm)
    ensures f.editing == Some(e.id)
    ensures f.title == e.note.title && f.content == e.note.content && f.groups == e.note.groupIds
    ensures f.alarmOn <==> e.note.alarmTimestamp.Some?
    ensures !f.alarmOn ==> f.alarmText == ""
    ensures f.alarmOn ==> f.alarmText == FormatAlarmInput(toLocal(e.note.alarmTimestamp.value))
  {
    match e.note.alarmTimestamp
    case Some(t) => NoteForm(Some(e.id), e.note.title, e.note.content, true, FormatAlarmInput(toLocal(t)), e.note.groupIds)
    case None => NoteForm(Some(e.id), e.note.title, e.note.content, false, "", e.note.groupIds)
  }

  /** Opening a stored note and saving it unchanged keeps its alarm, when
      reading the shown text back gives the same instant: a note without an
      alarm always passes, and one with an alarm passes with that same alarm
      if and only if its year has four digits; otherwise the form's own text
      is refused as malformed. */
  lemma ResaveKeepsAlarm(e: Entry, toLocal: int -> LocalDateTime, toMillis: string -> int)
    requires !IsBlank(e.note.title) && !IsBlank(e.note.content)
    requires e.note.alarmTimestamp.Some? ==>
      var d := toLocal(e.note.alarmTimestamp.value);
      && d.month < 100 && d.day < 100 && d.hours < 100 && d.minutes < 100
      && toMillis(FormatAlarmInput(d)) == e.note.alarmTimestamp.value
    ensures e.note.alarmTimestamp.None? ==> CheckNote(FormForEdit(e, toLocal), toMillis) == Pass(None)
    ensures e.note.alarmTimestamp.Some? ==>
      var y := toLocal(e.note.alarmTimestamp.value).year;
      && (CheckNote(FormForEdit(e, toLocal), toMillis) == Pass(e.note.alarmTimestamp) <==> 1000 <= y <= 9999)
      && (CheckNote(FormForEdit(e, toLocal), toMillis) == Reject(MalformedAlarm) <==> !(1000 <= y <= 9999))
  {
    if e.note.alarmTimestamp.Some? {
      var d := toLocal(e.note.alarmTimestamp.value);
      FormattedAlarmAccepted(d);
      assert |FormatAlarmInput(d)| > 0;
    }
  }
}
