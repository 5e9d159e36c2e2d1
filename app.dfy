/** The NoteApp component as an object whose fields its operations
    overwrite, the way setLoggedIn, setNotes, setInput and the save effect
    do. Every method is proved to follow AppModel.Step. */
module App {
  import opened NoteList
  import opened AppModel
  import Text
  import Gate

  class NoteApp {
    var loggedIn: bool
    var notes: seq<Note>
    var input: string
    /** The "notes" key of local storage, read on mount and written on
        every change of `notes`. */
    var stored: Option<seq<Note>>

    function Snapshot(): State
      reads this
    {
      State(loggedIn, notes, input, stored)
    }

    /** The component's initial state over a storage slot holding `slot`. */
    constructor (slot: Option<seq<Note>>)
      ensures Snapshot() == Initial(slot)
      ensures !loggedIn && notes == [] && input == "" && stored == slot
    {
      loggedIn, notes, input, stored := false, [], "", slot;
    }

    /** The load effect, then the save effect. */
    method Mount()
      modifies this
      ensures Snapshot() == AppModel.Mount(old(Snapshot()))
      ensures stored == Some(notes)
      ensures notes == (if old(stored).Some? then old(stored).value else old(notes))
      ensures loggedIn == old(loggedIn) && input == old(input)
    {
      var saved := stored;
      if saved.Some? {
        notes := saved.value;
      }
      stored := Some(notes);
    }

    /** handleLogin followed by the onLogin callback. */
    method Login(email: string, password: string) returns (fired: bool)
      modifies this
      ensures fired <==> email != "" && password != ""
      ensures Snapshot() == Step(old(Snapshot()), Event.Login(email, password))
      ensures loggedIn == (old(loggedIn) || fired)
      ensures notes == old(notes) && input == old(input) && stored == old(stored)
    {
      fired := Gate.Accepts(email, password);
      if fired {
        loggedIn := true;
      }
    }

    /** An edit of the draft text box. */
    method SetInput(s: string)
      modifies this
      ensures Snapshot() == Step(old(Snapshot()), Event.SetInput(s))
      ensures input == s
      ensures loggedIn == old(loggedIn) && notes == old(notes) && stored == old(stored)
    {
      input := s;
    }

    /** addNote with `now` standing for Date.now(), then the save effect
        when the list was replaced. */
    method AddNote(now: int)
      modifies this
      ensures Snapshot() == Step(old(Snapshot()), Event.AddNote(now))
      ensures Text.HasContent(old(input)) ==>
        && notes == old(notes) + [Note(old(input), now)]
        && input == ""
        && stored == Some(notes)
      ensures Text.AllWs(old(input)) ==> notes == old(notes) && input == old(input) && stored == old(stored)
      ensures loggedIn == old(loggedIn)
    {
      if Text.Trim(input) != "" {
        notes := Append(notes, input, now);
        input := "";
        stored := Some(notes);
      }
    }

    /** deleteNote, then the save effect. */
    method DeleteNote(id: int)
      modifies this
      ensures Snapshot() == Step(old(Snapshot()), Event.DeleteNote(id))
      ensures notes == Without(old(notes), id)
      ensures stored == Some(notes)
      ensures loggedIn == old(loggedIn) && input == old(input)
    {
      notes := Without(notes, id);
      stored := Some(notes);
    }
  }

  /** Fresh storage, log in, add "milk", mount a new component over the
      same storage: the note is still there. */
  method MilkScenario(t: int) returns (atLogin: seq<Note>, afterAdd: seq<Note>, afterReload: seq<Note>)
    ensures atLogin == []
    ensures afterAdd == [Note("milk", t)]
    ensures afterReload == afterAdd
  {
    var app := new NoteApp(None);
    app.Mount();
    var fired := app.Login("user@example.com", "secret");
    atLogin := app.notes;
    app.SetInput("milk");
    assert !Text.IsWs("milk"[0]);
    app.AddNote(t);
    afterAdd := app.notes;
    var again := new NoteApp(app.stored);
    again.Mount();
    afterReload := again.notes;
  }

  /** A stored list of two notes is shown in stored order; deleting id 1
      persists only the second. */
  method LoadThenDeleteScenario() returns (shown: seq<Note>, persisted: Option<seq<Note>>)
    ensures shown == [Note("a", 1), Note("b", 2)]
    ensures persisted == Some([Note("b", 2)])
  {
    var app := new NoteApp(Some([Note("a", 1), Note("b", 2)]));
    app.Mount();
    shown := app.notes;
    app.DeleteNote(1);
    assert Without([Note("a", 1), Note("b", 2)], 1) == [Note("b", 2)] by {
      assert [Note("a", 1), Note("b", 2)][1..] == [Note("b", 2)];
      assert [Note("b", 2)][1..] == [];
    }
    persisted := app.stored;
  }

  /** A draft of spaces adds nothing; a padded draft is stored as typed. */
  method DraftScenario(t: int) returns (blank: seq<Note>, padded: seq<Note>)
    ensures blank == []
    ensures padded == [Note("  hello  ", t)]
  {
    var app := new NoteApp(None);
    app.Mount();
    app.SetInput("   ");
    assert Text.AllWs("   ") by {
      assert forall i | 0 <= i < 3 :: "   "[i] == ' ';
    }
    app.AddNote(t);
    blank := app.notes;
    app.SetInput("  hello  ");
    assert !Text.IsWs("  hello  "[2]);
    app.AddNote(t);
    padded := app.notes;
  }
}
