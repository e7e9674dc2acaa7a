/**
 * The `Todos` class of public/javascripts/todos.js: the list of items, the section the
 * view shows, and the collections derived from them, recomputed after every change.
 */
module TodosManager {
  import opened Wrappers
  import opened Sequences
  import opened DueDates
  import opened TodoItem
  import opened Collections

  /** `current_section`: the group and title the view shows, and the size of the selection. */
  datatype Section = Section(group: string, title: string, data: nat)

  /**
   * How the API handler's promise settles: the parsed body of a success response, an
   * `{ error }` object carrying the server's message, or a rejection (network failure).
   */
  datatype Outcome<T> = Ok(value: T) | AppError(message: string) | NetworkError

  /**
   * How an operation ends: its changes applied, an alert shown with nothing changed, or
   * the promise rejected, either because the request failed or because the callback threw.
   */
  datatype Completion = Applied | Alerted(message: string) | Rejected

  /** `if (result.error)`: an error object with an empty message is falsy and taken for success. */
  predicate Proceeds<T>(o: Outcome<T>) {
    o.Ok? || o == AppError("")
  }

  /** The keys an update response carries; an `{ error: "" }` object carries none of the item's. */
  function ResponsePatch(o: Outcome<TodoPatch>): TodoPatch {
    if o.Ok? then o.value else EmptyPatch
  }

  /**
   * The sections whose selection reads a derived collection: a label under all items reads
   * `todos_by_date`, and the completed group reads `done` or `done_todos_by_date`. Only
   * (`all_items`, "All Todos") reads the items alone.
   */
  predicate ReadsDerived(group: string, title: string) {
    (group == AllItems && title != AllTodosTitle) || group == CompletedItems
  }

  class Todos {
    var todos: seq<Todo>
    var currentSection: Section
    /** `None` until the first `updateCollections`: the constructor leaves these `undefined`. */
    var done: Option<seq<Todo>>
    var todosByDate: Option<map<string, seq<Todo>>>
    var doneTodosByDate: Option<map<string, seq<Todo>>>
    /** `None` until the first selection: `this.selected` is `undefined` after construction. */
    var selected: Option<seq<Todo>>

    /** Every item carries the label its month and year give. */
    ghost predicate Valid()
      reads this
    {
      forall t :: t in todos ==> Labelled(t)
    }

    /** No collection has been derived yet, as after construction. */
    ghost predicate Fresh()
      reads this
    {
      done.None? && todosByDate.None? && doneTodosByDate.None?
    }

    /** The derived collections agree with the items, as `updateCollections` leaves them. */
    ghost predicate Computed()
      reads this
    {
      done == Some(DoneItems(todos)) &&
      todosByDate.Some? && IsGrouping(todosByDate.value, todos) &&
      doneTodosByDate.Some? && IsGrouping(doneTodosByDate.value, done.value)
    }

    /** The items are labelled and date-sorted, and the collections are either not yet derived or current. */
    ghost predicate Derived()
      reads this
    {
      Valid() && SortedByDate(todos) && (Fresh() || Computed())
    }

    /**
     * The selection as `updateSelected`, `sortByCompleted` and the count leave it: completed
     * items last, its size recorded, and for a known group the section's items.
     */
    ghost predicate SelectionCurrent()
      reads this
    {
      selected.Some? && DoneLast(selected.value) && currentSection.data == |selected.value| &&
      (KnownGroup(currentSection.group) ==>
         selected.value == OpenThenDone(Selection(currentSection.group, currentSection.title, todos).value))
    }

    /** `new Todos()`: no items, an empty section object, nothing derived and nothing selected. */
    constructor ()
      ensures todos == [] && currentSection == Section("", "", 0) && selected == None
      ensures Fresh() && Derived()
    {
      todos := [];
      currentSection := Section("", "", 0);
      done := None;
      todosByDate := None;
      doneTodosByDate := None;
      selected := None;
    }

    /** `sortByDates(this.todos)`: the items, stably sorted by label. */
    method SortTodosByDates()
      modifies this`todos
      requires Valid()
      ensures Valid() && AllLabelled(todos)
      ensures StableDateSortOf(todos, old(todos)) && multiset(todos) == multiset(old(todos))
    {
      forall i | 0 <= i < |todos| ensures IsLabel(todos[i].dueDate) {
        assert todos[i] in todos;
      }
      todos := SortByDates(todos);
      forall t | t in todos ensures Labelled(t) {
        assert t in multiset(old(todos));
      }
    }

    /** `updateDoneTodos`: the completed items, in order. */
    method UpdateDoneTodos()
      modifies this`done
      ensures done == Some(DoneItems(todos))
    {
      done := Some(DoneItems(todos));
    }

    /** `updateTodosByDate`: the items grouped by label. */
    method UpdateTodosByDate()
      modifies this`todosByDate
      ensures todosByDate.Some? && IsGrouping(todosByDate.value, todos)
    {
      var grouped := GroupByDate(todos);
      todosByDate := Some(grouped);
    }

    /** `updateDoneTodosByDate`: the completed items grouped by label. */
    method UpdateDoneTodosByDate()
      modifies this`doneTodosByDate
      requires done.Some?
      ensures doneTodosByDate.Some? && IsGrouping(doneTodosByDate.value, done.value)
    {
      var grouped := GroupByDate(done.value);
      doneTodosByDate := Some(grouped);
    }

    /**
     * `updateSelected`: a copy of all items, of the completed ones, or of one label's bucket
     * (empty when the label has none); for any other group the selection stays as it was.
     * Before the first `updateCollections` every section but all items reads an `undefined`
     * collection (`Array.from(undefined)` or `undefined[title]`) and throws.
     */
    method UpdateSelected() returns (c: Completion)
      modifies this`selected
      requires Fresh() || Computed()
      ensures c == Applied || c == Rejected
      ensures c == Rejected <==> Fresh() && ReadsDerived(currentSection.group, currentSection.title)
      ensures c == Rejected ==> selected == old(selected)
      ensures c == Applied && KnownGroup(currentSection.group) ==>
                selected == Selection(currentSection.group, currentSection.title, todos)
      ensures !KnownGroup(currentSection.group) ==> selected == old(selected)
    {
      var group, title := currentSection.group, currentSection.title;
      c := Applied;
      if group == AllItems {
        if title == AllTodosTitle {
          selected := Some(todos);
        } else if todosByDate.None? {
          c := Rejected;
        } else {
          LookupIsFilter(todosByDate.value, todos, title);
          selected := Some(Lookup(todosByDate.value, title));
        }
      } else if group == CompletedItems {
        if done.None? {
          c := Rejected;
        } else if title == CompletedTitle {
          selected := Some(done.value);
        } else if doneTodosByDate.None? {
          c := Rejected;
        } else {
          LookupIsFilter(doneTodosByDate.value, done.value, title);
          selected := Some(Lookup(doneTodosByDate.value, title));
        }
      }
    }

    /**
     * `sortByCompleted(this.selected)` followed by `current_section.data = selected.length`;
     * sorting an undefined selection throws, before the count is written.
     */
    method SortSelection() returns (c: Completion)
      modifies this`selected, this`currentSection
      ensures old(selected).None? ==> c == Rejected && selected == None && currentSection == old(currentSection)
      ensures old(selected).Some? ==>
                c == Applied && selected == Some(OpenThenDone(old(selected).value)) &&
                |selected.value| == |old(selected).value| &&
                currentSection == old(currentSection).(data := |selected.value|)
    {
      if selected.None? {
        return Rejected;
      }
      var sorted := SortByCompleted(selected.value);
      OpenThenDonePermutes(selected.value);
      assert |sorted| == |multiset(sorted)| == |multiset(selected.value)| == |selected.value|;
      selected := Some(sorted);
      currentSection := currentSection.(data := |sorted|);
      c := Applied;
    }

    /**
     * `updateCollections`: sort the items by label, then recompute the completed items, both
     * groupings, the selection and its count.
     */
    method UpdateCollections() returns (c: Completion)
      modifies this
      requires Valid()
      ensures StableDateSortOf(todos, old(todos)) && multiset(todos) == multiset(old(todos))
      ensures Derived() && Computed()
      ensures currentSection.group == old(currentSection.group) && currentSection.title == old(currentSection.title)
      ensures c == Applied || c == Rejected
      ensures c == Rejected <==> !KnownGroup(currentSection.group) && old(selected).None?
      ensures c == Rejected ==> selected == None && currentSection == old(currentSection)
      ensures c == Applied ==> SelectionCurrent()
      ensures c == Applied && !KnownGroup(currentSection.group) ==> selected == Some(OpenThenDone(old(selected).value))
    {
      SortTodosByDates();
      UpdateDoneTodos();
      UpdateTodosByDate();
      UpdateDoneTodosByDate();
      var picked := UpdateSelected();
      assert picked == Applied;
      ghost var chosen := selected;
      c := SortSelection();
      if c == Applied {
        OpenThenDoneIsDoneLast(chosen.value);
      }
    }

    /**
     * `setCurrentSection(group, title)`: only the section and the selection change; the
     * items and the derived collections stay as they are. It throws, leaving the selection
     * as it was and the count unwritten, when the selection reads a collection not yet
     * derived, or when there is no selection to sort.
     */
    method SetCurrentSection(group: string, title: string) returns (c: Completion)
      modifies this
      requires Derived()
      ensures todos == old(todos) && done == old(done)
      ensures todosByDate == old(todosByDate) && doneTodosByDate == old(doneTodosByDate)
      ensures Derived()
      ensures currentSection.group == group && currentSection.title == title
      ensures c == Applied || c == Rejected
      ensures c == Rejected <==>
                (old(Fresh()) && ReadsDerived(group, title)) || (!KnownGroup(group) && old(selected).None?)
      ensures c == Rejected ==> selected == old(selected) && currentSection == old(currentSection).(group := group, title := title)
      ensures c == Applied ==> SelectionCurrent()
      ensures c == Applied && !KnownGroup(group) ==> selected == Some(OpenThenDone(old(selected).value))
    {
      currentSection := currentSection.(group := group, title := title);
      c := UpdateSelected();
      if c == Rejected {
        return;
      }
      ghost var chosen := selected;
      c := SortSelection();
      if c == Applied {
        OpenThenDoneIsDoneLast(chosen.value);
      }
    }

    /**
     * `formatTodos(todos)`: every item gets the label of its month and year.
     */
    method FormatTodos(s: seq<Todo>) returns (r: seq<Todo>)
      ensures r == LabelAll(s)
      ensures (forall t :: t in s ==> FieldsWellFormed(t)) ==> forall t :: t in r ==> Labelled(t)
    {
      r := [];
      for i := 0 to |s|
        invariant r == LabelAll(s[..i])
      {
        LabelAllAppend(s[..i], s[i]);
        assert s[..i + 1] == s[..i] + [s[i]];
        r := r + [UpdateDueDate(s[i])];
      }
      assert s[..|s|] == s;
      if forall t :: t in s ==> FieldsWellFormed(t) {
        LabelAllLabels(s);
      }
    }

    /**
     * `init()`: the server's list, each item labelled, replaces the items; the section becomes
     * all items. A body that is not a list makes `map` throw.
     */
    method Init(outcome: Outcome<seq<Todo>>) returns (c: Completion)
      modifies this
      requires Derived()
      requires outcome.Ok? ==> forall t :: t in outcome.value ==> FieldsWellFormed(t)
      ensures Derived()
      ensures outcome.Ok? ==> Computed()
      ensures !outcome.Ok? ==> c == Rejected && unchanged(this)
      ensures outcome.Ok? ==>
                c == Applied && SelectionCurrent() &&
                currentSection.group == AllItems && currentSection.title == AllTodosTitle &&
                |todos| == |outcome.value| &&
                StableDateSortOf(todos, LabelAll(outcome.value))
    {
      if !outcome.Ok? {
        return Rejected;
      }
      var formatted := FormatTodos(outcome.value);
      todos := formatted;
      currentSection := Section(AllItems, AllTodosTitle, 0);
      c := UpdateCollections();
      assert |todos| == |multiset(todos)| == |multiset(formatted)| == |formatted|;
    }
  
    /** Every item is labelled, as a sequence property. */
    lemma ValidLabelled()
      requires Valid()
      ensures AllLabelled(todos)
    {
      forall i | 0 <= i < |todos| ensures IsLabel(todos[i].dueDate) {
        assert todos[i] in todos;
      }
    }

    /**
     * `addTodo`: on success the server's item, labelled, joins the items and the section
     * becomes all items; on an error nothing changes.
     */
    method AddTodo(outcome: Outcome<Todo>) returns (c: Completion)
      modifies this
      requires Derived()
      requires outcome.Ok? ==> FieldsWellFormed(outcome.value)
      ensures Derived()
      ensures outcome.Ok? ==> Computed()
      ensures outcome.NetworkError? ==> c == Rejected && unchanged(this)
      ensures outcome.AppError? ==>
                c == (if outcome.message == "" then Rejected else Alerted(outcome.message)) && unchanged(this)
      ensures outcome.Ok? ==>
                c == Applied && SelectionCurrent() &&
                currentSection.group == AllItems && currentSection.title == AllTodosTitle &&
                multiset(todos) == multiset(old(todos)) + multiset{UpdateDueDate(outcome.value)} &&
                StableDateSortOf(todos, old(todos) + [UpdateDueDate(outcome.value)])
    {
      match outcome
      case NetworkError =>
        c := Rejected;
      case AppError(message) =>
        // An empty message is falsy: the callback goes on to `todo.year.slice`, which throws.
        c := if message == "" then Rejected else Alerted(message);
      case Ok(todo) =>
        var item := UpdateDueDate(todo);
        todos := todos + [item];
        currentSection := Section(AllItems, AllTodosTitle, 0);
        c := UpdateCollections();
    }

    /**
     * `deleteTodo(id)`: on success every item with that identifier goes and the rest keep
     * their order; on an error nothing changes.
     */
    method DeleteTodo(id: string, outcome: Outcome<()>) returns (c: Completion)
      modifies this
      requires Derived()
      ensures Derived()
      ensures Proceeds(outcome) ==> Computed()
      ensures outcome.NetworkError? ==> c == Rejected && unchanged(this)
      ensures outcome.AppError? && outcome.message != "" ==> c == Alerted(outcome.message) && unchanged(this)
      ensures Proceeds(outcome) ==>
                todos == Filter(old(todos), IdIsNot(id)) &&
                currentSection.group == old(currentSection.group) &&
                currentSection.title == old(currentSection.title) &&
                (c == Rejected <==> !KnownGroup(currentSection.group) && old(selected).None?) &&
                (c != Rejected ==> c == Applied && SelectionCurrent())
      ensures Proceeds(outcome) && c == Rejected ==> selected == None && currentSection == old(currentSection)
      ensures c == Applied && !KnownGroup(currentSection.group) ==> selected == Some(OpenThenDone(old(selected).value))
    {
      if outcome.NetworkError? {
        return Rejected;
      }
      if outcome.AppError? && outcome.message != "" {
        return Alerted(outcome.message);
      }
      ValidLabelled();
      FilterKeepsDateOrder(todos, IdIsNot(id));
      var kept := Filter(todos, IdIsNot(id));
      forall t | t in kept ensures Labelled(t) {
        FilterMember(todos, IdIsNot(id), t);
      }
      todos := kept;
      c := UpdateCollections();
      ValidLabelled();
      SortedStaysPut(todos, kept);
    }

    /**
     * `updateTodo(id)`: on success the first item with that identifier takes the keys the
     * server returned and is relabelled, and no other item changes; when no item has the
     * identifier the callback throws; on an error nothing changes.
     */
    method UpdateTodo(id: string, outcome: Outcome<TodoPatch>) returns (c: Completion)
      modifies this
      requires Derived()
      requires outcome.Ok? ==> PatchWellFormed(outcome.value)
      ensures Derived()
      ensures Proceeds(outcome) && IndexOfId(old(todos), id).Some? ==> Computed()
      ensures outcome.NetworkError? ==> c == Rejected && unchanged(this)
      ensures outcome.AppError? && outcome.message != "" ==> c == Alerted(outcome.message) && unchanged(this)
      ensures Proceeds(outcome) && IndexOfId(old(todos), id).None? ==> c == Rejected && unchanged(this)
      ensures Proceeds(outcome) && IndexOfId(old(todos), id).Some? ==>
                var k := IndexOfId(old(todos), id).value;
                var updated := old(todos)[k := UpdateDueDate(Merged(old(todos)[k], ResponsePatch(outcome)))];
                StableDateSortOf(todos, updated) && multiset(todos) == multiset(updated) &&
                currentSection.group == old(currentSection.group) &&
                currentSection.title == old(currentSection.title) &&
                (c == Rejected <==> !KnownGroup(currentSection.group) && old(selected).None?) &&
                (c != Rejected ==> c == Applied && SelectionCurrent())
      ensures Proceeds(outcome) && IndexOfId(old(todos), id).Some? && c == Rejected ==>
                selected == None && currentSection == old(currentSection)
      ensures c == Applied && !KnownGroup(currentSection.group) ==> selected == Some(OpenThenDone(old(selected).value))
    {
      if outcome.NetworkError? {
        return Rejected;
      }
      if outcome.AppError? && outcome.message != "" {
        return Alerted(outcome.message);
      }
      var patch := ResponsePatch(outcome);
      var found := IndexOfId(todos, id);
      if found.None? {
        // `getTodo` gives `undefined`, and writing to or reading from it throws.
        return Rejected;
      }
      var k := found.value;
      GetTodoIsFirstMatch(todos, id);
      var oldTodo := todos[k];
      var merged := CopyProperties(oldTodo, patch);
      assert oldTodo in todos;
      MergedWellFormed(oldTodo, patch);
      var item := UpdateDueDate(merged);
      todos := todos[k := item];
      forall t | t in todos ensures Labelled(t) {
        if t != item {
          assert t in old(todos);
        }
      }
      c := UpdateCollections();
    }
  }
}
