// The to-do list component: its four state cells and one method per event
// handler. Each handler is one atomic transition from the state it reads;
// the list computations are the functions of module Todos.

module App {
  import opened Text
  import opened Todos

  /** A nullable value: the component's `editingId` is `null` or an id. */
  datatype Option<T> = None | Some(value: T)

  class TodoList {
    /** The persisted list of to-dos, in display order. */
    var todos: seq<Todo>
    /** The text typed in the "add a new task" field. */
    var inputValue: string
    /** The id of the to-do in edit mode, if any. */
    var editingId: Option<int>
    /** The draft text of the to-do in edit mode. */
    var editingText: string

    /** The ids of the to-dos are pairwise distinct. */
    ghost predicate IdsDistinct()
      reads this
    {
      UniqueIds(todos)
    }

    /** The component's initial state; `stored` is the list read back from storage
        (the empty list when nothing was stored). */
    constructor (stored: seq<Todo>)
      ensures todos == stored
      ensures inputValue == [] && editingId == None && editingText == []
    {
      todos := stored;
      inputValue := [];
      editingId := None;
      editingText := [];
    }

    /** `handleChange`: store what was typed in the add field. */
    method HandleChange(value: string)
      modifies this
      ensures inputValue == value
      ensures todos == old(todos) && editingId == old(editingId) && editingText == old(editingText)
    {
      inputValue := value;
    }

    /** `handleSubmit`: a non-blank input is appended, untrimmed, as a new
        uncompleted to-do with id `newId` (the clock reading), and the input is
        cleared; a blank input changes nothing. */
    method HandleSubmit(newId: int)
      modifies this
      ensures NonBlank(old(inputValue)) ==>
                todos == old(todos) + [Todo(newId, old(inputValue), false)] && inputValue == []
      ensures !NonBlank(old(inputValue)) ==>
                todos == old(todos) && inputValue == old(inputValue)
      ensures editingId == old(editingId) && editingText == old(editingText)
      ensures old(IdsDistinct()) && !HasId(old(todos), newId) ==> IdsDistinct()
    {
      TrimEmptyIff(inputValue);
      if Trim(inputValue) != [] {
        var newTodo := Todo(newId, inputValue, false);
        if UniqueIds(todos) && !HasId(todos, newId) {
          AppendFreshUniqueIds(todos, newTodo);
        }
        todos := todos + [newTodo];
        inputValue := [];
      }
    }

    /** `handleDelete`: drop every to-do whose id is `id`, keeping the order of
        the others. */
    method HandleDelete(id: int)
      modifies this
      ensures todos == RemoveId(old(todos), id)
      ensures IsSubsequence(todos, old(todos)) && !HasId(todos, id)
      ensures !HasId(old(todos), id) ==> todos == old(todos)
      ensures old(IdsDistinct()) ==> IdsDistinct()
      ensures inputValue == old(inputValue) && editingId == old(editingId) && editingText == old(editingText)
    {
      RemoveIdSubsequence(todos, id);
      if !HasId(todos, id) {
        RemoveIdAbsent(todos, id);
      }
      if UniqueIds(todos) {
        RemoveIdUniqueIds(todos, id);
      }
      var updatedTodos := RemoveId(todos, id);
      todos := updatedTodos;
    }

    /** `handleEdit`: put `todo` in edit mode, seeding the draft with its text;
        any edit in progress is replaced. */
    method HandleEdit(todo: Todo)
      modifies this
      ensures editingId == Some(todo.id) && editingText == todo.text
      ensures todos == old(todos) && inputValue == old(inputValue)
    {
      editingId := Some(todo.id);
      editingText := todo.text;
    }

    /** The edit field's `onChange`: store the draft text. */
    method HandleEditChange(value: string)
      modifies this
      ensures editingText == value
      ensures todos == old(todos) && inputValue == old(inputValue) && editingId == old(editingId)
    {
      editingText := value;
    }

    /** `handleSaveEdit`: with a non-blank draft, the draft (untrimmed) becomes
        the text of every to-do whose id is `id`, and edit mode ends; with a
        blank draft nothing changes and edit mode stays open. */
    method HandleSaveEdit(id: int)
      modifies this
      ensures NonBlank(old(editingText)) ==>
                todos == ReplaceText(old(todos), id, old(editingText)) &&
                editingId == None && editingText == []
      ensures !NonBlank(old(editingText)) ==>
                todos == old(todos) && editingId == old(editingId) && editingText == old(editingText)
      ensures inputValue == old(inputValue)
      ensures old(IdsDistinct()) ==> IdsDistinct()
    {
      TrimEmptyIff(editingText);
      if Trim(editingText) != [] {
        var updatedTodos := ReplaceText(todos, id, editingText);
        todos := updatedTodos;
        editingId := None;
        editingText := [];
      }
    }

    /** `handleCancelEdit`: leave edit mode and discard the draft. */
    method HandleCancelEdit()
      modifies this
      ensures editingId == None && editingText == []
      ensures todos == old(todos) && inputValue == old(inputValue)
    {
      editingId := None;
      editingText := [];
    }

    /** `handleToggleComplete`: flip the completion flag of every to-do whose
        id is `id`. */
    method HandleToggleComplete(id: int)
      modifies this
      ensures todos == ToggleCompleted(old(todos), id)
      ensures !HasId(old(todos), id) ==> todos == old(todos)
      ensures old(IdsDistinct()) ==> IdsDistinct()
      ensures inputValue == old(inputValue) && editingId == old(editingId) && editingText == old(editingText)
    {
      if !HasId(todos, id) {
        ToggleAbsent(todos, id);
      }
      var updatedTodos := ToggleCompleted(todos, id);
      todos := updatedTodos;
    }
  }
}
