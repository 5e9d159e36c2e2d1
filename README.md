# Note-taking app: a Dafny model of NoteApp

The application is a single React component, `NoteApp` in `src/App.js`. It
shows a mock login gate (the `Login` component). Once the gate accepts, it
shows a list of text notes that can be added and deleted. The list lives
under the local-storage key `"notes"`: it is read when the component mounts
and written back whenever it changes.

This project models that state and proves its properties:

- `text.dfy`, module `Text`: the whitespace set of JavaScript's
  `String.prototype.trim` (ECMAScript WhiteSpace and LineTerminator), and
  `Trim`. It is proved that `Trim(s)` is empty exactly when `s` is all
  whitespace, which is the test `input.trim() !== ""`.
- `notes.dfy`, module `NoteList`: the `Note` record and the two pure list
  builders. `Append` is the spread of `addNote`; `Without` is the
  `filter` of `deleteNote`. Lemmas cover the filter's order, its
  multiplicities, duplicate ids, an absent id, idempotence, commutation,
  and undoing an append.
- `gate.dfy`, module `Gate`: the condition `email && password` of
  `handleLogin`, using JavaScript string truthiness.
- `app_model.dfy`, module `AppModel`: the whole component state as a value
  (`State`: `loggedIn`, `notes`, `input`, and `stored` for the storage key),
  the user actions (`Event`), one `Step` function per action, the mount
  effects (`Mount`), and `Run` over a sequence of actions. Lemmas over
  arbitrary action sequences: `loggedIn` only ever becomes true, and exactly
  when some login attempt had both fields non-empty; once mounted, the
  storage key always holds the list; and mounting a new component over the
  key shows the same notes.
- `app.dfy`, module `App`: class `NoteApp`. Its fields are the component
  state plus the storage slot. The methods `Mount`, `Login`, `SetInput`,
  `AddNote` and `DeleteNote` overwrite the fields, and each is proved to
  follow `AppModel`'s functions. Three client methods play through usage
  scenarios: fresh storage and "milk", loading two notes and deleting one,
  and a blank draft versus a padded one.

Parameters stand in for what the component reads from outside. `AddNote`
takes `now` instead of calling `Date.now()`. `Login` takes the two field
values instead of reading the form's keystroke state. The storage key is the
field `stored`: `None` when the key is absent, and otherwise the list it
holds, not its JSON text.

The list is loaded when `NoteApp` mounts, which is before login, not when
the user first logs in: the load effect (src/App.js:47-50) runs whatever
`loggedIn` is. Also, `addNote` and
`deleteNote` do not check `loggedIn` themselves; only the rendering hides
their buttons. So the model's `AddNote` and `DeleteNote` have no
`loggedIn` precondition.

## Model

| member | source | states |
|---|---|---|
| Text.Trim | src/App.js:57 | trimming gives "" exactly when every character is JavaScript whitespace; a non-empty result starts and ends with a non-whitespace character |
| NoteList.Append | src/App.js:58 | the new list is one longer, has the old notes as an unchanged prefix, and ends with a note holding the given text and id |
| NoteList.Without | src/App.js:64 | the filtered list is no longer than the old one and no survivor has the deleted id |
| NoteList.WithoutMembers | src/App.js:64 | a note survives if and only if it was in the list and has another id |
| NoteList.WithoutKeepsOrder | src/App.js:64 | the survivors are a subsequence of the old list, in their original relative order |
| NoteList.WithoutMultiplicity | src/App.js:64 | each note with another id is kept as many times as it occurred; every copy with the deleted id goes |
| NoteList.WithoutLength | src/App.js:64 | the list shrinks by exactly the number of notes sharing the id, so duplicated ids are all removed |
| NoteList.WithoutAbsent | src/App.js:64 | the list is unchanged if and only if no note has the id |
| NoteList.WithoutConcat | src/App.js:64 | filtering a concatenation is concatenating the filtered parts |
| NoteList.WithoutIdempotent | src/App.js:64 | deleting an id twice equals deleting it once |
| NoteList.WithoutCommutes | src/App.js:64 | deletions of two ids commute |
| NoteList.WithoutUndoesAppend | src/App.js:58-64 | deleting a just-added note's id gives back the old list minus that id, which is the old list itself when no older note had the id |
| NoteList.WithoutKeepsAppended | src/App.js:58-64 | deleting another id keeps the just-added note last |
| Gate.AcceptsIffNonEmpty | src/App.js:9-11 | the gate passes if and only if both strings are non-empty |
| Gate.BlankCredentialsAccepted | src/App.js:10 | whitespace-only credentials pass, since nothing is trimmed |
| AppModel.Save | src/App.js:52-54 | after the save effect the key holds exactly the in-memory list; component state is untouched |
| AppModel.Mount | src/App.js:47-54 | after mounting the key holds the list; a present key's list replaces the in-memory one; an absent key leaves it; loggedIn and the draft are untouched |
| AppModel.MountLoads | src/App.js:44-50 | a fresh component over an absent key, or a key holding the empty list, shows no notes; otherwise it shows the stored list |
| AppModel.Step | src/App.js:56-67 | no action logs the user out, and no action breaks the agreement between the key and the list |
| AppModel.LoginStep | src/App.js:9-11 | a login attempt sets loggedIn if and only if both fields are non-empty, and changes nothing else |
| AppModel.AddNoteAppends | src/App.js:56-61 | with a non-whitespace draft, the untrimmed draft and the timestamp become the last note, the old notes are a prefix, the length grows by one, the draft becomes "" and the list is saved |
| AppModel.AddNoteBlank | src/App.js:57 | an empty or all-whitespace draft leaves the whole state unchanged |
| AppModel.DeleteNoteFilters | src/App.js:63-65 | deleting removes every note with the id and keeps the rest in order, shrinks the list by the number of matches, saves it, and changes nothing else |
| AppModel.DeleteAbsentId | src/App.js:64 | deleting an id no note has leaves the list unchanged |
| AppModel.DeleteIdempotent | src/App.js:63-65 | two deletions of one id give the same state as one |
| AppModel.LoggedInIff | src/App.js:43-67 | after any action sequence, loggedIn holds exactly when it held at the start or some login attempt in the sequence had both fields non-empty |
| AppModel.NeverLogsOut | src/App.js:67 | once logged in, no sequence of actions logs the user out |
| AppModel.StaysSynced | src/App.js:52-65 | once the key holds the list, it holds it after every later action |
| AppModel.ReloadShowsSameNotes | src/App.js:47-54 | after mounting and any actions, a new component mounted over the same key shows the same notes |
| App.NoteApp.constructor | src/App.js:43-45 | a new component is logged out with no notes and an empty draft, over the given storage slot |
| App.NoteApp.Mount | src/App.js:47-54 | the object follows AppModel.Mount: the key's list, if present, becomes the notes, and the key then holds the notes |
| App.NoteApp.Login | src/App.js:9-11 | fires if and only if both fields are non-empty; loggedIn becomes true when it fires, and otherwise stays as it was |
| App.NoteApp.SetInput | src/App.js:45 | only the draft changes, to the given text |
| App.NoteApp.AddNote | src/App.js:56-61 | follows AppModel.Step: a non-whitespace draft is appended untrimmed with the timestamp, cleared and saved; a blank draft changes nothing |
| App.NoteApp.DeleteNote | src/App.js:63-65 | follows AppModel.Step: the notes become the filtered list and are saved |
| App.MilkScenario | src/App.js:47-61 | fresh storage shows no notes; adding "milk" shows exactly that note; a new component over the same storage shows it again |
| App.LoadThenDeleteScenario | src/App.js:47-65 | a stored pair of notes is shown in stored order; deleting id 1 persists only the second |
| App.DraftScenario | src/App.js:56-61 | a draft of spaces adds nothing; a padded draft is stored as typed |

## Left out

- Rendering, CSS classes and the `onChange` wiring of the text boxes (src/App.js:13-39, 69-105). These are presentation only. Keystrokes become `SetInput`, and the login fields become `Login`'s parameters.
- The `Login` component's own `email`/`password` state (src/App.js:6-7). It holds only what its text boxes last received, so it is passed in as parameters.
- React's scheduling of effects. On mount the save effect first writes `[]`, and the loaded list is written again after the re-render. The model takes the two mount effects as one atomic `Mount` whose net effect is the same. StrictMode's double run of effects is also left out, as is the render-time guard `if (!loggedIn)` in its role of hiding the note screen.
- `localStorage` and `JSON.parse`/`JSON.stringify`. The key holds a `seq<Note>` directly. Not modelled: malformed stored text and the exception it raises, quota errors on write, and a stored empty string (falsy, so skipped); `JSON.stringify` never produces the empty string.
- `Date.now()`. The timestamp is the `now` parameter of `AddNote`, and ids are not assumed unique.
- JavaScript's other value types. `e.target.value` is always a string, so `email`, `password` and the draft are strings, and ids are integers.
