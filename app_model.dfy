/** The state of NoteApp as a value, and what each operation does to it.
    The class App.NoteApp is proved to follow these functions. */
module AppModel {
  import opened NoteList
  import Text
  import Gate

  datatype Option<T> = None | Some(value: T)

  /** The component state (loggedIn, notes, input) and the content of the
      "notes" storage key (None when the key is absent). */
  datatype State = State(loggedIn: bool, notes: seq<Note>, input: string, stored: Option<seq<Note>>)

  /** The user actions that reach the state once the component is mounted. */
  datatype Event =
    | Login(email: string, password: string)
    | SetInput(text: string)
    | AddNote(now: int)
    | DeleteNote(id: int)

  /** The persisted list is the in-memory list. */
  predicate Synced(s: State) {
    s.stored == Some(s.notes)
  }

  /** A fresh NoteApp over a storage slot holding `slot`. */
  function Initial(slot: Option<seq<Note>>): State {
    State(false, [], "", slot)
  }

  /** The save effect: the whole list is written under the key. */
  function Save(s: State): (r: State)
    ensures Synced(r)
    ensures r.loggedIn == s.loggedIn && r.notes == s.notes && r.input == s.input
  {
    s.(stored := Some(s.notes))
  }

  /** The two mount effects taken together: when the key is present its
      list replaces the in-memory one (`if (saved) setNotes(...)`), and then
      the list is written back. */
  function Mount(s: State): (r: State)
    ensures Synced(r)
    ensures s.stored == None ==> r.notes == s.notes
    ensures s.stored.Some? ==> r.notes == s.stored.value && r.stored == s.stored
    ensures r.loggedIn == s.loggedIn && r.input == s.input
  {
    if s.stored.Some? then Save(s.(notes := s.stored.value)) else Save(s)
  }

  /** Mounting a fresh component: an absent key, or one holding the empty
      list, gives no notes; otherwise the stored list, in stored order. */
  lemma MountLoads(slot: Option<seq<Note>>)
    ensures Mount(Initial(slot)).notes == if slot.Some? then slot.value else []
    ensures slot == None || slot == Some([]) ==> Mount(Initial(slot)).notes == []
    ensures Mount(Initial(slot)).stored == Some(Mount(Initial(slot)).notes)
  {
  }

  /** One user action. */
  function Step(s: State, e: Event): (r: State)
    ensures s.loggedIn ==> r.loggedIn
    ensures Synced(s) ==> Synced(r)
  {
    match e
    case Login(email, password) =>
      if Gate.Accepts(email, password) then s.(loggedIn := true) else s
    case SetInput(text) => s.(input := text)
    case AddNote(now) =>
      if Text.Trim(s.input) != "" then Save(s.(notes := Append(s.notes, s.input, now), input := ""))
      else s
    case DeleteNote(id) => Save(s.(notes := Without(s.notes, id)))
  }

  /** A sequence of user actions, first to last. */
  function Run(s: State, events: seq<Event>): State
    decreases |events|
  {
    if events == [] then s else Run(Step(s, events[0]), events[1..])
  }

  /** The login callback fires iff both fields are non-empty; only loggedIn
      changes, and it never goes back to false. */
  lemma LoginStep(s: State, email: string, password: string)
    ensures Step(s, Login(email, password)).loggedIn == (s.loggedIn || (email != "" && password != ""))
    ensures Step(s, Login(email, password)).(loggedIn := s.loggedIn) == s
  {
  }

  /** A draft with some non-whitespace character becomes the last note, with
      its text untrimmed and the given timestamp as id; the old notes stay
      as a prefix, the draft is cleared and the list is saved. */
  lemma AddNoteAppends(s: State, now: int)
    requires Text.HasContent(s.input)
    ensures var r := Step(s, AddNote(now));
      && r.notes == s.notes + [Note(s.input, now)]
      && |r.notes| == |s.notes| + 1
      && r.notes[..|s.notes|] == s.notes
      && r.notes[|s.notes|].text == s.input
      && r.input == ""
      && r.loggedIn == s.loggedIn
      && Synced(r)
  {
  }

  /** An empty or all-whitespace draft changes nothing at all. */
  lemma AddNoteBlank(s: State, now: int)
    requires Text.AllWs(s.input)
    ensures Step(s, AddNote(now)) == s
  {
  }

  /** Deleting filters the list by id and saves it; nothing else changes. */
  lemma DeleteNoteFilters(s: State, id: int)
    ensures var r := Step(s, DeleteNote(id));
      && r.notes == Without(s.notes, id)
      && (forall k :: 0 <= k < |r.notes| ==> r.notes[k].id != id)
      && IsSubsequence(r.notes, s.notes)
      && |r.notes| == |s.notes| - CountId(s.notes, id)
      && r.loggedIn == s.loggedIn && r.input == s.input
      && Synced(r)
  {
    WithoutKeepsOrder(s.notes, id);
    WithoutLength(s.notes, id);
  }

  /** Deleting an id no note has leaves the list unchanged. */
  lemma DeleteAbsentId(s: State, id: int)
    requires forall k :: 0 <= k < |s.notes| ==> s.notes[k].id != id
    ensures Step(s, DeleteNote(id)).notes == s.notes
  {
    WithoutAbsent(s.notes, id);
  }

  /** Deleting the same id twice is deleting it once. */
  lemma DeleteIdempotent(s: State, id: int)
    ensures Run(s, [DeleteNote(id), DeleteNote(id)]) == Step(s, DeleteNote(id))
  {
    var once := Step(s, DeleteNote(id));
    WithoutIdempotent(s.notes, id);
    assert [DeleteNote(id), DeleteNote(id)][1..] == [DeleteNote(id)];
    assert Run(once, [DeleteNote(id)]) == Run(Step(once, DeleteNote(id)), []);
  }

  /** Whether an event is a login attempt the gate lets through. */
  predicate Accepted(e: Event) {
    e.Login? && Gate.Accepts(e.email, e.password)
  }

  /** After any sequence of actions the user is logged in exactly when they
      already were or some login attempt had both fields non-empty: loggedIn
      starts false and only ever becomes true. */
  lemma {:induction false} LoggedInIff(s: State, events: seq<Event>)
    ensures Run(s, events).loggedIn <==> s.loggedIn || exists i :: 0 <= i < |events| && Accepted(events[i])
    decreases |events|
  {
    if events != [] {
      var t := Step(s, events[0]);
      LoggedInIff(t, events[1..]);
      assert t.loggedIn == (s.loggedIn || Accepted(events[0]));
      if exists i :: 0 <= i < |events| && Accepted(events[i]) {
        var i :| 0 <= i < |events| && Accepted(events[i]);
        if i > 0 { assert Accepted(events[1..][i - 1]); }
      }
      if exists j :: 0 <= j < |events[1..]| && Accepted(events[1..][j]) {
        var j :| 0 <= j < |events[1..]| && Accepted(events[1..][j]);
        assert Accepted(events[j + 1]);
      }
    }
  }

  /** No action ever logs the user out. */
  lemma {:induction false} NeverLogsOut(s: State, events: seq<Event>)
    requires s.loggedIn
    ensures Run(s, events).loggedIn
  {
    LoggedInIff(s, events);
  }

  /** Once mounted, the key holds the list after every action. */
  lemma {:induction false} StaysSynced(s: State, events: seq<Event>)
    requires Synced(s)
    ensures Synced(Run(s, events))
    decreases |events|
  {
    if events != [] {
      StaysSynced(Step(s, events[0]), events[1..]);
    }
  }

  /** Save then load gives the list back: mounting a new component over the
      key, after any actions on a mounted one, shows the same notes. */
  lemma ReloadShowsSameNotes(slot: Option<seq<Note>>, events: seq<Event>)
    ensures var t := Run(Mount(Initial(slot)), events);
      Mount(Initial(t.stored)).notes == t.notes
  {
    StaysSynced(Mount(Initial(slot)), events);
  }
}
