/**
 * One todo item and the per-item helpers of the `Todos` class in
 * public/javascripts/todos.js: `updateDueDate`, `copyProperties` and `getTodo`.
 */
module TodoItem {
  import opened Wrappers
  import opened Sequences
  import opened DueDates

  /**
   * A todo item as the client holds it: the server's fields plus the derived `due_date`
   * label. Identifiers are compared as strings everywhere (`String(todo.id)`), so they
   * are strings here.
   */
  datatype Todo = Todo(
    id: string,
    title: string,
    day: string,
    month: string,
    year: string,
    completed: bool,
    dueDate: string)

  /** The keys of an item's wire shape; `due_date` is never one of them. */
  datatype Key = IdKey | TitleKey | DayKey | MonthKey | YearKey | CompletedKey

  datatype Value = Text(text: string) | Flag(flag: bool)

  /** `todo[key]`. */
  function Get(t: Todo, k: Key): Value {
    match k
    case IdKey => Text(t.id)
    case TitleKey => Text(t.title)
    case DayKey => Text(t.day)
    case MonthKey => Text(t.month)
    case YearKey => Text(t.year)
    case CompletedKey => Flag(t.completed)
  }

  /** An item is determined by its keys and its label. */
  lemma SameFieldsSameTodo(a: Todo, b: Todo)
    requires forall k :: Get(a, k) == Get(b, k)
    requires a.dueDate == b.dueDate
    ensures a == b
  {
    assert Get(a, IdKey) == Get(b, IdKey) && Get(a, TitleKey) == Get(b, TitleKey);
    assert Get(a, DayKey) == Get(b, DayKey) && Get(a, MonthKey) == Get(b, MonthKey);
    assert Get(a, YearKey) == Get(b, YearKey) && Get(a, CompletedKey) == Get(b, CompletedKey);
  }

  /** The body of a successful update response: every key is either present or absent. */
  datatype TodoPatch = TodoPatch(
    id: Option<string>,
    title: Option<string>,
    day: Option<string>,
    month: Option<string>,
    year: Option<string>,
    completed: Option<bool>)

  /** A response object that carries none of the item's keys. */
  const EmptyPatch: TodoPatch := TodoPatch(None, None, None, None, None, None)

  /** `key` is among `Object.keys(patch)`. */
  predicate Has(p: TodoPatch, k: Key) {
    match k
    case IdKey => p.id.Some?
    case TitleKey => p.title.Some?
    case DayKey => p.day.Some?
    case MonthKey => p.month.Some?
    case YearKey => p.year.Some?
    case CompletedKey => p.completed.Some?
  }

  /** `patch[key]` for a key the patch has. */
  function PatchValue(p: TodoPatch, k: Key): Value
    requires Has(p, k)
  {
    match k
    case IdKey => Text(p.id.value)
    case TitleKey => Text(p.title.value)
    case DayKey => Text(p.day.value)
    case MonthKey => Text(p.month.value)
    case YearKey => Text(p.year.value)
    case CompletedKey => Flag(p.completed.value)
  }

  /** `Object.keys(patch)`: each present key once, in the wire shape's order. */
  function Keys(p: TodoPatch): (ks: seq<Key>)
    ensures forall k :: k in ks <==> Has(p, k)
  {
    (if p.id.Some? then [IdKey] else []) +
    (if p.title.Some? then [TitleKey] else []) +
    (if p.day.Some? then [DayKey] else []) +
    (if p.month.Some? then [MonthKey] else []) +
    (if p.year.Some? then [YearKey] else []) +
    (if p.completed.Some? then [CompletedKey] else [])
  }

  /** `target[key] = patch[key]`: that one key takes the patch's value. */
  function Assign(t: Todo, p: TodoPatch, k: Key): (r: Todo)
    requires Has(p, k)
    ensures Get(r, k) == PatchValue(p, k)
    ensures forall k' :: k' != k ==> Get(r, k') == Get(t, k')
    ensures r.dueDate == t.dueDate
  {
    match k
    case IdKey => t.(id := p.id.value)
    case TitleKey => t.(title := p.title.value)
    case DayKey => t.(day := p.day.value)
    case MonthKey => t.(month := p.month.value)
    case YearKey => t.(year := p.year.value)
    case CompletedKey => t.(completed := p.completed.value)
  }

  /**
   * The item after the response's keys are written onto it: present keys carry the
   * response's values, absent keys and the label the item's.
   */
  function Merged(t: Todo, p: TodoPatch): (r: Todo)
    ensures forall k :: Get(r, k) == if Has(p, k) then PatchValue(p, k) else Get(t, k)
    ensures r.dueDate == t.dueDate
  {
    t.(id := p.id.GetOr(t.id), title := p.title.GetOr(t.title), day := p.day.GetOr(t.day),
       month := p.month.GetOr(t.month), year := p.year.GetOr(t.year),
       completed := p.completed.GetOr(t.completed))
  }

  /**
   * `copyProperties(target, collection)`: every key present in the response overwrites
   * the item's value; every absent key, and the label, keep the item's value.
   */
  method CopyProperties(target: Todo, collection: TodoPatch) returns (r: Todo)
    ensures forall k :: Get(r, k) == if Has(collection, k) then PatchValue(collection, k) else Get(target, k)
    ensures r.dueDate == target.dueDate
    ensures r == Merged(target, collection)
  {
    var keys := Keys(collection);
    r := target;
    for i := 0 to |keys|
      invariant CopiedUpTo(r, target, collection, keys[..i])
    {
      assert keys[i] in keys;
      AssignExtends(r, target, collection, keys, i);
      r := Assign(r, collection, keys[i]);
    }
    CopiedAll(r, target, collection, keys);
  }

  /** `r` is `target` with the keys of `copied` that the response has written onto it. */
  ghost predicate CopiedUpTo(r: Todo, target: Todo, p: TodoPatch, copied: seq<Key>) {
    r.dueDate == target.dueDate &&
    forall k :: Get(r, k) == if Has(p, k) && k in copied then PatchValue(p, k) else Get(target, k)
  }

  /** One step of `copyProperties`: writing the next key extends the keys already copied. */
  lemma AssignExtends(r: Todo, target: Todo, p: TodoPatch, keys: seq<Key>, i: nat)
    requires i < |keys| && Has(p, keys[i])
    requires CopiedUpTo(r, target, p, keys[..i])
    ensures CopiedUpTo(Assign(r, p, keys[i]), target, p, keys[..i + 1])
  {
    assert keys[..i + 1] == keys[..i] + [keys[i]];
  }

  /** Once every key of the response is copied, the result is the merge. */
  lemma CopiedAll(r: Todo, target: Todo, p: TodoPatch, keys: seq<Key>)
    requires keys == Keys(p)
    requires CopiedUpTo(r, target, p, keys[..|keys|])
    ensures forall k :: Get(r, k) == if Has(p, k) then PatchValue(p, k) else Get(target, k)
    ensures r.dueDate == target.dueDate
    ensures r == Merged(target, p)
  {
    assert keys[..|keys|] == keys;
    SameFieldsSameTodo(r, Merged(target, p));
  }

  /** Merging the same response twice changes nothing more than merging it once. */
  lemma MergedIdempotent(t: Todo, p: TodoPatch)
    ensures Merged(Merged(t, p), p) == Merged(t, p)
  {
  }

  /** A response without keys leaves the item as it was. */
  lemma MergedEmpty(t: Todo)
    ensures Merged(t, EmptyPatch) == t
  {
  }

  /** The month and year fields are "00"/"0000" or two/four digits. */
  predicate FieldsWellFormed(t: Todo) {
    IsMonthField(t.month) && IsYearField(t.year)
  }

  /** The item's label is the one `updateDueDate` computes from its fields. */
  predicate Labelled(t: Todo) {
    FieldsWellFormed(t) && t.dueDate == DueDateLabel(t.month, t.year)
  }

  /** A response whose month and year, when present, are well formed. */
  predicate PatchWellFormed(p: TodoPatch) {
    (p.month.Some? ==> IsMonthField(p.month.value)) && (p.year.Some? ==> IsYearField(p.year.value))
  }

  /** Merging a well-formed response keeps the fields well formed. */
  lemma MergedWellFormed(t: Todo, p: TodoPatch)
    requires FieldsWellFormed(t) && PatchWellFormed(p)
    ensures FieldsWellFormed(Merged(t, p))
  {
  }

  /**
   * `updateDueDate(todo)`: only the label changes; it is "No Due Date" exactly when the
   * month or the year is unset, and well-formed fields give a well-formed label.
   */
  function UpdateDueDate(t: Todo): (r: Todo)
    ensures forall k :: Get(r, k) == Get(t, k)
    ensures r.dueDate == NoDueDate <==> t.month == UnsetMonth || t.year == UnsetYear
    ensures FieldsWellFormed(t) ==> Labelled(r) && IsLabel(r.dueDate)
  {
    t.(dueDate := DueDateLabel(t.month, t.year))
  }

  /** A labelled item is left as it is by `updateDueDate`. */
  lemma UpdateDueDateFixesLabelled(t: Todo)
    requires Labelled(t)
    ensures UpdateDueDate(t) == t
  {
  }

  /** Every item of `s` relabelled by `updateDueDate`, in order: what `formatTodos` maps to. */
  function LabelAll(s: seq<Todo>): (r: seq<Todo>)
    ensures |r| == |s|
    ensures forall i :: 0 <= i < |s| ==> r[i] == UpdateDueDate(s[i])
    ensures forall i :: 0 <= i < |s| ==> Get(r[i], IdKey) == Get(s[i], IdKey)
  {
    if s == [] then [] else [UpdateDueDate(s[0])] + LabelAll(s[1..])
  }

  /** Relabelling one more item appends its relabelled form. */
  lemma {:induction false} LabelAllAppend(s: seq<Todo>, t: Todo)
    ensures LabelAll(s + [t]) == LabelAll(s) + [UpdateDueDate(t)]
  {
    if s != [] {
      assert (s + [t])[1..] == s[1..] + [t];
      LabelAllAppend(s[1..], t);
    } else {
      assert (s + [t])[1..] == [];
    }
  }

  /** Items with well-formed fields are all labelled after relabelling. */
  lemma {:induction false} LabelAllLabels(s: seq<Todo>)
    requires forall t :: t in s ==> FieldsWellFormed(t)
    ensures forall t :: t in LabelAll(s) ==> Labelled(t)
  {
    if s != [] {
      assert s[0] in s;
      assert forall t :: t in s[1..] ==> t in s;
      LabelAllLabels(s[1..]);
    }
  }

  /** The test `String(todo.id) === id`. */
  function IdIs(id: string): Todo -> bool {
    (t: Todo) => t.id == id
  }

  /** The test `String(todo.id) !== id`. */
  function IdIsNot(id: string): Todo -> bool {
    (t: Todo) => t.id != id
  }

  /**
   * `getTodo(id)`: the head of `todos.filter(...)`, `undefined` when nothing matches.
   */
  function GetTodo(s: seq<Todo>, id: string): (r: Option<Todo>)
    ensures r.None? <==> forall k :: 0 <= k < |s| ==> s[k].id != id
    ensures r.Some? ==> r.value in s && r.value.id == id
  {
    var matches := Filter(s, IdIs(id));
    FilterEmpty(s, IdIs(id));
    if matches == [] then None
    else
      FilterMember(s, IdIs(id), matches[0]);
      Some(matches[0])
  }

  /** The position of the first item with the given identifier. */
  function IndexOfId(s: seq<Todo>, id: string): (r: Option<nat>)
    ensures r.Some? ==> r.value < |s| && s[r.value].id == id
    ensures r.Some? ==> forall j :: 0 <= j < r.value ==> s[j].id != id
    ensures r.None? ==> forall j :: 0 <= j < |s| ==> s[j].id != id
  {
    if s == [] then None
    else if s[0].id == id then Some(0)
    else match IndexOfId(s[1..], id)
      case None => None
      case Some(k) => Some(k + 1)
  }

  /** `getTodo` returns the item at the first position whose identifier matches. */
  lemma {:induction false} GetTodoIsFirstMatch(s: seq<Todo>, id: string)
    ensures GetTodo(s, id) == match IndexOfId(s, id) case None => None case Some(k) => Some(s[k])
  {
    if s != [] && s[0].id != id {
      GetTodoIsFirstMatch(s[1..], id);
    }
  }
}
