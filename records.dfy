/** Entities of the gym tracker and the pure edits the component applies to
    their sequences: append by spread, remove-at-index by `filter`, flip one
    task's flag, overwrite one field of one set, and the `trim()` test that
    guards adding a task. */
module Records {

  /** A calendar day in `YYYY-MM-DD` form; treated as an opaque string. */
  type DateKey = string

  /** One set of an exercise; both fields are the raw text the user typed. */
  datatype ExerciseSet = ExerciseSet(reps: string, weight: string)

  /** The two editable fields of a set (`'reps'` and `'weight'`). */
  datatype SetField = Reps | Weight

  datatype Exercise = Exercise(name: string, sets: seq<ExerciseSet>)

  datatype Task = Task(text: string, completed: bool)

  /** The set `addSet` appends: `{reps: '', weight: ''}`. */
  const BlankSet := ExerciseSet("", "")

  /** The draft exercise before anything is typed, and after a save. */
  const EmptyDraft := Exercise("", [])

  /** `[...s, x]`. */
  function Append<E>(s: seq<E>, x: E): (r: seq<E>)
    ensures |r| == |s| + 1
    ensures r[..|s|] == s && r[|s|] == x
  {
    s + [x]
  }

  /** `s.filter((_, k) => k !== i)`: every element is visited once and only
      the one whose index equals `i` is dropped. */
  function RemoveAt<E>(s: seq<E>, i: int): (r: seq<E>)
    ensures 0 <= i < |s| ==> r == s[..i] + s[i + 1..]
    ensures !(0 <= i < |s|) ==> r == s
    decreases |s|
  {
    if s == [] then []
    else
      var rest := RemoveAt(s[1..], i - 1);
      if i == 0 then rest
      else
        assert 0 < i < |s| ==> s[1..][..i - 1] == s[1..i] && s[1..][i..] == s[i + 1..];
        assert 0 < i < |s| ==> s[..i] == [s[0]] + s[1..i];
        [s[0]] + rest
  }

  /** Removing the entry that was just appended gives the sequence back. */
  lemma RemoveAtUndoesAppend<E>(s: seq<E>, x: E)
    ensures RemoveAt(Append(s, x), |s|) == s
  {
  }

  /** The result of a removal is empty exactly when the input was empty, or
      held one entry and that entry was the one removed. */
  lemma RemoveAtEmpty<E>(s: seq<E>, i: int)
    ensures RemoveAt(s, i) == [] <==> s == [] || (|s| == 1 && i == 0)
  {
  }

  /** `tasks[i].completed = !tasks[i].completed`, as a value. */
  function ToggleAt(tasks: seq<Task>, i: int): (r: seq<Task>)
    requires 0 <= i < |tasks|
    ensures |r| == |tasks|
    ensures r[i].text == tasks[i].text && r[i].completed == !tasks[i].completed
    ensures forall k :: 0 <= k < |r| && k != i ==> r[k] == tasks[k]
  {
    tasks[i := tasks[i].(completed := !tasks[i].completed)]
  }

  /** Toggling the same task twice restores the list. */
  lemma ToggleTwiceRestores(tasks: seq<Task>, i: int)
    requires 0 <= i < |tasks|
    ensures ToggleAt(ToggleAt(tasks, i), i) == tasks
  {
  }

  /** `sets[i][f] = v`, as a value. */
  function UpdateSetAt(sets: seq<ExerciseSet>, i: int, f: SetField, v: string): (r: seq<ExerciseSet>)
    requires 0 <= i < |sets|
    ensures |r| == |sets|
    ensures forall k :: 0 <= k < |r| && k != i ==> r[k] == sets[k]
    ensures f == Reps ==> r[i] == ExerciseSet(v, sets[i].weight)
    ensures f == Weight ==> r[i] == ExerciseSet(sets[i].reps, v)
  {
    var s := sets[i];
    sets[i := match f case Reps => s.(reps := v) case Weight => s.(weight := v)]
  }

  /** Of two writes to the same field of the same set, the later one wins. */
  lemma UpdateSetLastWins(sets: seq<ExerciseSet>, i: int, f: SetField, v: string, w: string)
    requires 0 <= i < |sets|
    ensures UpdateSetAt(UpdateSetAt(sets, i, f, v), i, f, w) == UpdateSetAt(sets, i, f, w)
  {
  }

  /** ECMAScript white space and line terminators: the characters that
      `String.prototype.trim` strips. */
  predicate IsWhitespace(c: char)
  {
    || c == '\t' || c == '\n' || c == '\U{B}' || c == '\U{C}' || c == '\r' || c == ' '
    || c == '\U{A0}' || c == '\U{1680}' || ('\U{2000}' <= c <= '\U{200A}')
    || c == '\U{2028}' || c == '\U{2029}' || c == '\U{202F}' || c == '\U{205F}'
    || c == '\U{3000}' || c == '\U{FEFF}'
  }

  /** A string that holds nothing but white space (the empty string included). */
  predicate IsBlank(s: string)
  {
    forall k :: 0 <= k < |s| ==> IsWhitespace(s[k])
  }

  function TrimStart(s: string): string
  {
    if s != [] && IsWhitespace(s[0]) then TrimStart(s[1..]) else s
  }

  function TrimEnd(s: string): string
  {
    if s != [] && IsWhitespace(s[|s| - 1]) then TrimEnd(s[..|s| - 1]) else s
  }

  /** `s.trim()`. */
  function Trim(s: string): string
  {
    TrimEnd(TrimStart(s))
  }

  lemma {:induction false} TrimStartBlank(s: string)
    ensures TrimStart(s) == [] <==> IsBlank(s)
    ensures TrimStart(s) != [] ==> !IsWhitespace(TrimStart(s)[0])
    decreases |s|
  {
    if s != [] && IsWhitespace(s[0]) {
      TrimStartBlank(s[1..]);
      assert IsBlank(s) <==> IsBlank(s[1..]) by {
        if IsBlank(s[1..]) {
          forall k | 0 <= k < |s| ensures IsWhitespace(s[k]) {
            if k > 0 { assert s[k] == s[1..][k - 1]; }
          }
        }
        if IsBlank(s) {
          forall k | 0 <= k < |s[1..]| ensures IsWhitespace(s[1..][k]) {
            assert s[1..][k] == s[k + 1];
          }
        }
      }
    } else if s != [] {
      assert !IsWhitespace(s[0]);
    }
  }

  /** Trimming the end never removes a first character that is not white space. */
  lemma {:induction false} TrimEndKeepsHead(s: string)
    requires s != [] && !IsWhitespace(s[0])
    ensures TrimEnd(s) != [] && TrimEnd(s)[0] == s[0]
    decreases |s|
  {
    if IsWhitespace(s[|s| - 1]) {
      assert |s| > 1;
      var t := s[..|s| - 1];
      assert t[0] == s[0];
      TrimEndKeepsHead(t);
    }
  }

  /** `newTask.trim()` is falsy exactly when the text is empty or all white space. */
  lemma TrimEmptyIffBlank(s: string)
    ensures Trim(s) == [] <==> IsBlank(s)
  {
    TrimStartBlank(s);
    var t := TrimStart(s);
    if t != [] {
      TrimEndKeepsHead(t);
    }
  }
}
