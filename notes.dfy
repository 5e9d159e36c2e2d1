/** The note list and the two pure list builders of NoteApp: the spread
    `[...notes, { text, id }]` of addNote and the `notes.filter(...)` of
    deleteNote. */
module NoteList {

  /** A note: the text as typed and its id (the creation timestamp in
      milliseconds). Nothing makes ids unique. */
  datatype Note = Note(text: string, id: int)

  /** addNote's new list: the old notes, in order, followed by one new note. */
  function Append(notes: seq<Note>, text: string, id: int): (r: seq<Note>)
    ensures |r| == |notes| + 1
    ensures r[..|notes|] == notes
    ensures r[|notes|].text == text && r[|notes|].id == id
  {
    notes + [Note(text, id)]
  }

  /** deleteNote's new list: `notes.filter(n => n.id !== id)`. It is no
      longer than the old list and no note with that id survives. */
  function Without(notes: seq<Note>, id: int): (r: seq<Note>)
    ensures |r| <= |notes|
    ensures forall k :: 0 <= k < |r| ==> r[k].id != id
  {
    if notes == [] then []
    else if notes[0].id == id then Without(notes[1..], id)
    else [notes[0]] + Without(notes[1..], id)
  }

  /** `r` can be obtained from `s` by dropping elements, keeping the order
      of the rest. */
  ghost predicate IsSubsequence(r: seq<Note>, s: seq<Note>)
    decreases |s|
  {
    if s == [] then r == []
    else (r != [] && r[0] == s[0] && IsSubsequence(r[1..], s[1..])) || IsSubsequence(r, s[1..])
  }

  /** Number of notes in `s` whose id is `id`. */
  function CountId(s: seq<Note>, id: int): nat {
    if s == [] then 0 else (if s[0].id == id then 1 else 0) + CountId(s[1..], id)
  }

  /** A note survives if and only if it was there and has another id. */
  lemma {:induction false} WithoutMembers(s: seq<Note>, id: int, n: Note)
    ensures n in Without(s, id) <==> n in s && n.id != id
  {
    if s != [] {
      WithoutMembers(s[1..], id, n);
      assert n in s <==> n == s[0] || n in s[1..];
    }
  }

  /** The survivors keep their original relative order. */
  lemma {:induction false} WithoutKeepsOrder(s: seq<Note>, id: int)
    ensures IsSubsequence(Without(s, id), s)
  {
    if s != [] {
      WithoutKeepsOrder(s[1..], id);
      if s[0].id != id {
        assert Without(s, id)[1..] == Without(s[1..], id);
      }
    }
  }

  /** Each note is kept as often as it occurred, unless its id is the one
      deleted, in which case every copy goes; together with
      WithoutKeepsOrder this pins the result down completely. */
  lemma {:induction false} WithoutMultiplicity(s: seq<Note>, id: int, n: Note)
    ensures multiset(Without(s, id))[n] == if n.id == id then 0 else multiset(s)[n]
  {
    if s != [] {
      WithoutMultiplicity(s[1..], id, n);
      assert s == [s[0]] + s[1..];
    }
  }

  /** Exactly the notes with that id are removed, duplicates included. */
  lemma {:induction false} WithoutLength(s: seq<Note>, id: int)
    ensures |Without(s, id)| == |s| - CountId(s, id)
  {
    if s != [] { WithoutLength(s[1..], id); }
  }

  /** Deleting an id that no note has leaves the list as it was, and only
      then. */
  lemma {:induction false} WithoutAbsent(s: seq<Note>, id: int)
    ensures Without(s, id) == s <==> forall k :: 0 <= k < |s| ==> s[k].id != id
  {
    if s != [] {
      WithoutAbsent(s[1..], id);
      if s[0].id == id {
        assert |Without(s, id)| <= |s[1..]|;
      } else {
        assert forall k :: 0 < k < |s| ==> s[k] == s[1..][k - 1];
      }
    }
  }

  /** Filtering distributes over concatenation. */
  lemma {:induction false} WithoutConcat(a: seq<Note>, b: seq<Note>, id: int)
    ensures Without(a + b, id) == Without(a, id) + Without(b, id)
  {
    if a == [] {
      assert a + b == b;
    } else {
      var ab := a + b;
      assert ab[0] == a[0] && ab[1..] == a[1..] + b;
      WithoutConcat(a[1..], b, id);
      if a[0].id != id {
        calc {
          Without(ab, id);
          [a[0]] + Without(a[1..] + b, id);
          [a[0]] + (Without(a[1..], id) + Without(b, id));
          ([a[0]] + Without(a[1..], id)) + Without(b, id);
        }
      }
    }
  }

  /** Deleting the same id twice is the same as deleting it once. */
  lemma {:induction false} WithoutIdempotent(s: seq<Note>, id: int)
    ensures Without(Without(s, id), id) == Without(s, id)
  {
    WithoutAbsent(Without(s, id), id);
  }

  /** Deletions of two ids may be done in either order. */
  lemma {:induction false} WithoutCommutes(s: seq<Note>, a: int, b: int)
    ensures Without(Without(s, a), b) == Without(Without(s, b), a)
  {
    if s != [] {
      WithoutCommutes(s[1..], a, b);
    }
  }

  /** Deleting a freshly added note's id undoes the addition when no older
      note shares that id; otherwise those older notes go too. */
  lemma WithoutUndoesAppend(s: seq<Note>, text: string, id: int)
    ensures Without(Append(s, text, id), id) == Without(s, id)
    ensures (forall k :: 0 <= k < |s| ==> s[k].id != id) ==> Without(Append(s, text, id), id) == s
  {
    WithoutConcat(s, [Note(text, id)], id);
    WithoutAbsent(s, id);
  }

  /** Deleting another id leaves the freshly added note last. */
  lemma WithoutKeepsAppended(s: seq<Note>, text: string, id: int, other: int)
    requires other != id
    ensures Without(Append(s, text, id), other) == Append(Without(s, other), text, id)
  {
    WithoutConcat(s, [Note(text, id)], other);
  }
}
