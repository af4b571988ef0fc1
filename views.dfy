/** The two lists the screen derives from the cached notes on every render:
    the notes matching the search box, and the notes the membership editor
    offers for the group it is editing. */
module Views {
  import opened Lists
  import opened Text
  import opened Docs
  import opened Plans

  /** The search test: the folded query occurs in the folded title or in the
      folded content. */
  predicate MatchesQuery(e: Entry, query: string) {
    Includes(ToLower(e.note.title), ToLower(query)) || Includes(ToLower(e.note.content), ToLower(query))
  }

  /** `filteredNotes`: the cached notes the search box lets through. */
  function FilteredNotes(notes: seq<Entry>, query: string): (r: seq<Entry>)
    ensures forall e :: e in r <==> e in notes && MatchesQuery(e, query)
  {
    Filter(notes, e => MatchesQuery(e, query))
  }

  /** The search keeps the list's `timestamp desc` order: what it shows is
      the cached list with some notes left out. */
  lemma SearchKeepsOrder(notes: seq<Entry>, query: string)
    ensures Subsequence(FilteredNotes(notes, query), notes)
  {
    FilterIsSubsequence(notes, e => MatchesQuery(e, query));
  }

  /** An empty search box shows every note. */
  lemma EmptyQueryShowsAll(notes: seq<Entry>)
    ensures FilteredNotes(notes, "") == notes
  {
    forall i | 0 <= i < |notes| ensures MatchesQuery(notes[i], "") {
      IncludesEmpty(ToLower(notes[i].note.title));
    }
  }

  /** A note whose title or content holds the query as typed is shown. */
  lemma LiteralMatchShown(notes: seq<Entry>, query: string, e: Entry)
    requires e in notes
    requires Includes(e.note.title, query) || Includes(e.note.content, query)
    ensures e in FilteredNotes(notes, query)
  {
    if Includes(e.note.title, query) {
      IncludesFolded(e.note.title, query);
    } else {
      IncludesFolded(e.note.content, query);
    }
  }

  /** The search ignores the case of the query: folding it first shows the
      same list. */
  lemma QueryCaseIgnored(notes: seq<Entry>, query: string)
    ensures FilteredNotes(notes, ToLower(query)) == FilteredNotes(notes, query)
  {
    ToLowerIdempotent(query);
    FilterAgreeing(notes, e => MatchesQuery(e, ToLower(query)), e => MatchesQuery(e, query));
  }

  /** `notesForGroupAddition`: with no group being edited, nothing; else the
      cached notes the edited group does not list yet. */
  function NotesForGroupAddition(notes: seq<Entry>, editing: Option<GroupEntry>): (r: seq<Entry>)
    ensures editing.None? ==> r == []
    ensures editing.Some? ==> forall e :: e in r <==> e in notes && e.id !in editing.value.group.noteIds
  {
    var r := Filter(notes, (e: Entry) => editing.Some? && e.id !in editing.value.group.noteIds);
    assert r != [] ==> r[0] in r;
    r
  }

  /** The list of notes offered for the group keeps their cached order. */
  lemma AdditionKeepsOrder(notes: seq<Entry>, editing: Option<GroupEntry>)
    ensures Subsequence(NotesForGroupAddition(notes, editing), notes)
  {
    FilterIsSubsequence(notes, (e: Entry) => editing.Some? && e.id !in editing.value.group.noteIds);
  }
}
