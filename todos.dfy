// The to-do list as a value, and the three list transformations the handlers
// of the to-do component apply to it: the `filter` of the delete handler and
// the two `map`s with a conditional record update of the save-edit and the
// toggle handlers. Appending a new to-do is sequence concatenation.

module Todos {

  /** One to-do record. */
  datatype Todo = Todo(id: int, text: string, completed: bool)

  /** Some to-do in `todos` carries `id`. */
  predicate HasId(todos: seq<Todo>, id: int) {
    exists i :: 0 <= i < |todos| && todos[i].id == id
  }

  /** No two to-dos share an id. */
  predicate UniqueIds(todos: seq<Todo>) {
    forall i, j :: 0 <= i < j < |todos| ==> todos[i].id != todos[j].id
  }

  /** `xs` is `ys` with some elements dropped, the rest kept in order. */
  predicate IsSubsequence(xs: seq<Todo>, ys: seq<Todo>)
    decreases |ys|
  {
    xs == [] ||
    (ys != [] &&
     ((xs[0] == ys[0] && IsSubsequence(xs[1..], ys[1..])) || IsSubsequence(xs, ys[1..])))
  }

  /** The delete handler's `todos.filter(todo => todo.id !== id)`. */
  function RemoveId(todos: seq<Todo>, id: int): (r: seq<Todo>)
    ensures |r| <= |todos|
    ensures !HasId(r, id)
    ensures forall t :: t in r <==> t in todos && t.id != id
  {
    if todos == [] then []
    else if todos[0].id == id then RemoveId(todos[1..], id)
    else [todos[0]] + RemoveId(todos[1..], id)
  }

  /** The save-edit handler's `map`: `text` replaces the text of every to-do
      whose id is `id`; ids, completion flags, length and order are kept. */
  function ReplaceText(todos: seq<Todo>, id: int, text: string): (r: seq<Todo>)
    ensures |r| == |todos|
    ensures forall i :: 0 <= i < |todos| ==>
              r[i].id == todos[i].id &&
              r[i].completed == todos[i].completed &&
              r[i].text == (if todos[i].id == id then text else todos[i].text)
  {
    if todos == [] then []
    else
      var t := todos[0];
      var t' := if t.id == id then t.(text := text) else t;
      [t'] + ReplaceText(todos[1..], id, text)
  }

  /** The toggle handler's `map`: the completion flag flips on every to-do
      whose id is `id`; ids, texts, length and order are kept. */
  function ToggleCompleted(todos: seq<Todo>, id: int): (r: seq<Todo>)
    ensures |r| == |todos|
    ensures forall i :: 0 <= i < |todos| ==>
              r[i].id == todos[i].id &&
              r[i].text == todos[i].text &&
              r[i].completed == (if todos[i].id == id then !todos[i].completed else todos[i].completed)
  {
    if todos == [] then []
    else
      var t := todos[0];
      var t' := if t.id == id then t.(completed := !t.completed) else t;
      [t'] + ToggleCompleted(todos[1..], id)
  }

  // ---- Delete ----

  /** Deleting an id no to-do carries leaves the list as it was. */
  lemma {:induction false} RemoveIdAbsent(todos: seq<Todo>, id: int)
    requires !HasId(todos, id)
    ensures RemoveId(todos, id) == todos
  {
    if todos != [] {
      assert todos[0].id != id;
      assert !HasId(todos[1..], id) by {
        forall i | 0 <= i < |todos[1..]| ensures todos[1..][i].id != id {
          assert todos[1..][i] == todos[i + 1];
        }
      }
      RemoveIdAbsent(todos[1..], id);
    }
  }

  /** Deleting keeps the surviving to-dos in their original relative order. */
  lemma {:induction false} RemoveIdSubsequence(todos: seq<Todo>, id: int)
    ensures IsSubsequence(RemoveId(todos, id), todos)
  {
    if todos != [] {
      RemoveIdSubsequence(todos[1..], id);
      var rest := RemoveId(todos[1..], id);
      if todos[0].id != id {
        assert RemoveId(todos, id) == [todos[0]] + rest;
        assert ([todos[0]] + rest)[1..] == rest;
      }
    }
  }

  /** Deleting works element by element: it distributes over concatenation. */
  lemma {:induction false} RemoveIdConcat(a: seq<Todo>, b: seq<Todo>, id: int)
    ensures RemoveId(a + b, id) == RemoveId(a, id) + RemoveId(b, id)
  {
    if a == [] {
      assert a + b == b;
    } else {
      assert (a + b)[0] == a[0];
      assert (a + b)[1..] == a[1..] + b;
      RemoveIdConcat(a[1..], b, id);
    }
  }

  /** A subsequence of a list with distinct ids has distinct ids. */
  lemma {:induction false} SubsequenceUniqueIds(xs: seq<Todo>, ys: seq<Todo>)
    requires IsSubsequence(xs, ys) && UniqueIds(ys)
    ensures UniqueIds(xs)
    ensures forall t :: t in xs ==> t in ys
    decreases |ys|
  {
    if xs != [] {
      assert UniqueIds(ys[1..]) by {
        forall i, j | 0 <= i < j < |ys[1..]| ensures ys[1..][i].id != ys[1..][j].id {
          assert ys[1..][i] == ys[i + 1] && ys[1..][j] == ys[j + 1];
        }
      }
      if xs[0] == ys[0] && IsSubsequence(xs[1..], ys[1..]) {
        SubsequenceUniqueIds(xs[1..], ys[1..]);
        forall i, j | 0 <= i < j < |xs| ensures xs[i].id != xs[j].id {
          if i == 0 {
            assert xs[j] == xs[1..][j - 1];
            assert xs[j] in ys[1..];
            var k :| 0 <= k < |ys[1..]| && ys[1..][k] == xs[j];
            assert ys[k + 1] == xs[j];
          } else {
            assert xs[i] == xs[1..][i - 1] && xs[j] == xs[1..][j - 1];
          }
        }
        forall t | t in xs ensures t in ys {
          if t != xs[0] {
            assert t in xs[1..];
          }
        }
      } else {
        SubsequenceUniqueIds(xs, ys[1..]);
      }
    }
  }

  /** Deleting keeps the ids distinct. */
  lemma {:induction false} RemoveIdUniqueIds(todos: seq<Todo>, id: int)
    requires UniqueIds(todos)
    ensures UniqueIds(RemoveId(todos, id))
  {
    RemoveIdSubsequence(todos, id);
    SubsequenceUniqueIds(RemoveId(todos, id), todos);
  }

  /** With distinct ids, deleting an id that is present removes exactly one to-do. */
  lemma {:induction false} RemoveIdPresent(todos: seq<Todo>, id: int)
    requires UniqueIds(todos) && HasId(todos, id)
    ensures |RemoveId(todos, id)| == |todos| - 1
  {
    var rest := todos[1..];
    assert UniqueIds(rest) by {
      forall i, j | 0 <= i < j < |rest| ensures rest[i].id != rest[j].id {
        assert rest[i] == todos[i + 1] && rest[j] == todos[j + 1];
      }
    }
    if todos[0].id == id {
      assert !HasId(rest, id) by {
        forall i | 0 <= i < |rest| ensures rest[i].id != id {
          assert rest[i] == todos[i + 1];
        }
      }
      RemoveIdAbsent(rest, id);
    } else {
      var k :| 0 <= k < |todos| && todos[k].id == id;
      assert rest[k - 1] == todos[k];
      RemoveIdPresent(rest, id);
    }
  }

  // ---- Toggle ----

  /** Toggling the same id twice restores the list. */
  lemma ToggleTwice(todos: seq<Todo>, id: int)
    ensures ToggleCompleted(ToggleCompleted(todos, id), id) == todos
  {
  }

  /** Toggling an id no to-do carries leaves the list as it was. */
  lemma ToggleAbsent(todos: seq<Todo>, id: int)
    requires !HasId(todos, id)
    ensures ToggleCompleted(todos, id) == todos
  {
  }

  // ---- Save edit ----

  /** Saving an edit for an id no to-do carries leaves the list as it was. */
  lemma ReplaceTextAbsent(todos: seq<Todo>, id: int, text: string)
    requires !HasId(todos, id)
    ensures ReplaceText(todos, id, text) == todos
  {
  }

  /** Saving the text a to-do already has changes nothing. */
  lemma {:induction false} ReplaceTextSame(todos: seq<Todo>, i: nat)
    requires i < |todos| && UniqueIds(todos)
    ensures ReplaceText(todos, todos[i].id, todos[i].text) == todos
  {
    var r := ReplaceText(todos, todos[i].id, todos[i].text);
    forall k | 0 <= k < |todos| ensures r[k] == todos[k] {
      var t := todos[k];
      if t.id == todos[i].id {
        assert k == i;
      }
      assert r[k] == Todo(t.id, t.text, t.completed);
    }
  }

  // ---- Add ----

  /** Appending a to-do whose id is fresh keeps the ids distinct. */
  lemma AppendFreshUniqueIds(todos: seq<Todo>, t: Todo)
    requires UniqueIds(todos) && !HasId(todos, t.id)
    ensures UniqueIds(todos + [t])
  {
  }
}
