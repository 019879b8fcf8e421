// Short event sequences on the to-do component, each checked against the
// behaviour the application promises for it.

module Scenarios {
  import opened Text
  import opened Todos
  import opened App

  /** Submitting a blank input on an empty list adds nothing. */
  method BlankSubmitAddsNothing(newId: int) {
    var c := new TodoList([]);
    c.HandleChange("   ");
    c.HandleSubmit(newId);
    assert c.todos == [];
    assert c.inputValue == "   ";
  }

  /** A non-blank input is stored with its surrounding spaces. */
  method SubmitKeepsSpaces(newId: int) {
    var c := new TodoList([]);
    c.HandleChange("  milk  ");
    assert !IsWs("  milk  "[2]);
    c.HandleSubmit(newId);
    assert c.todos == [Todo(newId, "  milk  ", false)];
    assert c.inputValue == [];
  }

  /** Deleting an id that is not in the list leaves the list as it was. */
  method DeleteMissingId() {
    var c := new TodoList([Todo(1, "a", false)]);
    c.HandleDelete(999);
    assert c.todos == [Todo(1, "a", false)];
  }

  /** Edit, type a new draft, save: the text is replaced and edit mode ends. */
  method EditFlow() {
    var c := new TodoList([Todo(1, "buy milk", false)]);
    c.HandleEdit(c.todos[0]);
    c.HandleEditChange("buy bread");
    assert !IsWs("buy bread"[0]);
    c.HandleSaveEdit(1);
    assert ReplaceText([Todo(1, "buy milk", false)], 1, "buy bread")[0] == Todo(1, "buy bread", false);
    assert c.todos == [Todo(1, "buy bread", false)];
    assert c.editingId == None;
  }

  /** Cancelling an edit discards the draft and leaves the to-do untouched. */
  method CancelDiscardsDraft() {
    var c := new TodoList([Todo(1, "x", false)]);
    c.HandleEdit(c.todos[0]);
    c.HandleEditChange("y");
    c.HandleCancelEdit();
    assert c.todos == [Todo(1, "x", false)];
    assert c.editingId == None && c.editingText == [];
  }

  /** Starting a second edit takes edit mode away from the first to-do. */
  method OneEditAtATime() {
    var c := new TodoList([Todo(1, "a", false), Todo(2, "b", false)]);
    c.HandleEdit(c.todos[0]);
    c.HandleEdit(c.todos[1]);
    assert c.editingId == Some(2) && c.editingText == "b";
  }

  /** Toggling the same to-do twice restores the list. */
  method ToggleTwiceRestores(todos: seq<Todo>, id: int) {
    var c := new TodoList(todos);
    c.HandleToggleComplete(id);
    c.HandleToggleComplete(id);
    ToggleTwice(todos, id);
    assert c.todos == todos;
  }
}
