# Todos collection manager, modelled in Dafny

This project models the `Todos` class of a browser todo-list client
(`public/javascripts/todos.js`). The class owns the list of todo items and the
section the view shows (`current_section`: a group, a title and a count). After
every successful add, delete, update or initial load it recomputes the derived
data in a fixed order:

1. It sorts the items by due-date label, stably, with `compareDates`.
2. It takes the completed items (`done`).
3. It groups the items, and the completed items, by label (`todos_by_date`, `done_todos_by_date`).
4. It picks the selection for the current section (`updateSelected`).
5. It sorts the selection stably, with completed items last.
6. It records the selection's size in `current_section.data`.

The model is organised in these files:

- `due_dates.dfy` (module `DueDates`): the `due_date` label.
  - `updateDueDate` builds it as "MM/YY" or "No Due Date".
  - `compareDates`, `year` and `month` order labels.
  - `DateRank` is an independent numeric reading of a label, and `compareDates` is proved to agree with it.
- `todo_item.dfy` (module `TodoItem`): one item and the helpers that work on a single item.
  - A todo item is a datatype.
  - An update response is a record of optional fields, so that "an absent key leaves the field as it was" can be stated.
  - `copyProperties` is a loop over the response's keys.
  - `getTodo` is the head of a filter.
- `sequences.dfy` (module `Sequences`): generic sequence facts.
  - `Filter` is the order-preserving `Array.prototype.filter`, with its properties as lemmas.
  - `SortedBy` is ordering by an integer key.
- `collections.dfy` (module `Collections`): the derived data.
  - The two stable sorts, written as insertion sorts. Two lemmas show that every stable sort with the same comparator gives the same result.
  - The grouping loop, and the lookup `by_date[title] || []`.
  - The four-way selection rule. `Selection` computes it as the source does; its contract states it as one filter.
- `todos.dfy` (module `TodosManager`): the class `Todos`.
  - Its fields are `todos`, `currentSection`, `done`, `todosByDate`, `doneTodosByDate` and `selected`. Its methods update these fields.
  - `done`, `todosByDate` and `doneTodosByDate` are `None` until the first `updateCollections`, because the constructor leaves them `undefined` (`Fresh()`).
  - `Derived()` says the items are labelled and date-sorted, and that the derived collections are either not yet computed or agree with the items (`Computed()`). The constructor establishes it and every operation keeps it.
  - `SelectionCurrent()` says the selection is the section's items with completed items last, and that its size is recorded.

An API call's result is an input to the method that handles it, of type `Outcome`:

- `Ok(value)`: the parsed success body.
- `AppError(message)`: the `{ error }` object for 400/404 and other statuses.
- `NetworkError`: the rejected promise.

Each operation returns a `Completion`:

- `Applied`: the operation's changes are made.
- `Alerted(message)`: the `alert` is shown and nothing changes.
- `Rejected`: the promise rejects. Either the request failed, or the callback threw a `TypeError`.

### Error objects with an empty message

The callbacks test `if (result.error)` (`Proceeds`). An error object whose message is the empty string is falsy, so the callback goes on as for a success body:

- `AddTodo`: the callback then reads `todo.year.slice` on an object without a year, which throws. The result is `Rejected` with no change.
- `DeleteTodo`: the item is deleted.
- `UpdateTodo`: none of the six item keys is merged (`ResponsePatch` gives the empty patch), the item is relabelled, and the collections are recomputed. The source also copies the `error` key onto the item; response keys outside the six item fields are listed under "Left out".

The code can also throw after part of the state has changed:

- A new object has no selection and no derived collections. `setCurrentSection` on it throws for every section except (`all_items`, "All Todos"). For the two known groups, `updateSelected` reads an `undefined` collection, through `Array.from(undefined)` or `undefined[title]`. For any other group, `updateSelected` reads nothing and keeps the missing selection, and `sortByCompleted` throws on it (`public/javascripts/todos.js:135`); this holds as long as no selection has been made. The selection and the count are then left as they were. `SetCurrentSection` states this for its `Rejected` result.
- A new object's missing selection also matters to `updateCollections`. With a section group other than the two known ones, `updateCollections` keeps that missing selection, and `sortByCompleted` then throws on it. The sorted items, `done` and the groupings are already updated at that point. `UpdateCollections` states this partial state for its `Rejected` result.
- `updateTodo` throws when no item has the identifier. The model returns `Rejected` with no change, and does not require the item to exist.

## Model

| member | source | states |
|---|---|---|
| `DueDates.DueDateLabel` | public/javascripts/todos.js:64-70 | The label is "No Due Date" exactly when the month is "00" or the year is "0000". Well-formed fields always give a well-formed label. The day is not an argument. |
| `DueDates.LabelFields` | public/javascripts/todos.js:64-70 | Read back with `month`/`year`, a dated label gives the month field's value and the year field's value modulo 100. |
| `DueDates.LastTwoDigits` | public/javascripts/todos.js:66 | `year.slice(2)` of a four-digit year is its value modulo 100. |
| `DueDates.CompareDates` | public/javascripts/todos.js:151-163 | The sign of `compareDates` is the sign of the difference of the independent ranks, in both directions. It is 0 exactly for equal labels. |
| `DueDates.Year` | public/javascripts/todos.js:165-167 | `year` of a dated label is the decimal value of its two digits after "/", below 100. |
| `DueDates.Month` | public/javascripts/todos.js:169-171 | `month` of a dated label is the decimal value of its two digits before "/", below 100. |
| `DueDates.Number` | public/javascripts/todos.js:165-171 | `Number` of a digit string is a value with at most as many decimal digits as the string has characters. |
| `DueDates.NoDueDateFirst` | public/javascripts/todos.js:154-157 | "No Due Date" sorts before every dated label. |
| `DueDates.CompareDatesAntisymmetric` | public/javascripts/todos.js:151-163 | Swapping the arguments flips the sign, and keeps 0 at 0. |
| `DueDates.LabelLeqTotalOrder` | public/javascripts/todos.js:151-163 | "Sorts no later than" is total, antisymmetric and transitive on labels. |
| `DueDates.DatedOrder` | public/javascripts/todos.js:158-171 | Dated labels compare by year and then by month. |
| `DueDates.DateRankInjective` | public/javascripts/todos.js:151-171 | Distinct labels have distinct ranks. |
| `DueDates.TwoDigits` | public/javascripts/todos.js:165-171 | `Number` of a two-digit string is 10 times the first digit plus the second, below 100. |
| `DueDates.TwoDigitsInjective` | public/javascripts/todos.js:165-171 | Two-digit strings with the same `Number` are equal. |
| `DueDates.DatedParts` | public/javascripts/todos.js:165-171 | A dated label is its month slice, "/" and its year slice, each two digits with a value below 100. |
| `TodoItem.UpdateDueDate` | public/javascripts/todos.js:64-70 | Only `due_date` changes. It is "No Due Date" exactly when month or year is unset. Well-formed fields give a labelled item. |
| `TodoItem.UpdateDueDateFixesLabelled` | public/javascripts/todos.js:64-70 | Relabelling an item that already carries its label changes nothing. |
| `TodoItem.LabelAll` | public/javascripts/todos.js:72-77 | `todos.map(updateDueDate)` has the same length, and its item at each position is the input's item there, relabelled. Identifiers are kept. |
| `TodoItem.LabelAllAppend` | public/javascripts/todos.js:72-77 | Mapping one more item appends that item, relabelled. |
| `TodoItem.LabelAllLabels` | public/javascripts/todos.js:72-77 | Items with well-formed fields are all labelled after mapping. |
| `TodoItem.Keys` | public/javascripts/todos.js:146 | `Object.keys(response)` holds exactly the keys the response has. |
| `TodoItem.Assign` | public/javascripts/todos.js:147 | `target[key] = collection[key]` changes that key alone and keeps the label. |
| `TodoItem.CopyProperties` | public/javascripts/todos.js:145-149 | Every key present in the response takes the response's value. Every absent key, and the label, keep the target's value. The result is `Merged`. |
| `TodoItem.AssignExtends` | public/javascripts/todos.js:146-148 | One iteration of the key loop extends the keys already copied by one. |
| `TodoItem.CopiedAll` | public/javascripts/todos.js:145-149 | Once every key of the response is copied, the item is the merge. |
| `TodoItem.Merged` | public/javascripts/todos.js:145-149 | In the merge, present keys have the response's values and absent keys the item's. The label is kept. |
| `TodoItem.SameFieldsSameTodo` | public/javascripts/todos.js:145-149 | An item is determined by its six keys and its label. |
| `TodoItem.MergedIdempotent` | public/javascripts/todos.js:145-149 | Copying the same response twice gives what copying it once gives. |
| `TodoItem.MergedEmpty` | public/javascripts/todos.js:145-149 | A response without keys leaves the item as it was. |
| `TodoItem.MergedWellFormed` | public/javascripts/todos.js:41-52 | A response with well-formed month and year keeps the item's fields well formed. |
| `TodoItem.GetTodo` | public/javascripts/todos.js:10-12 | The result is `undefined` exactly when no item has the identifier. Otherwise it is an item of the list with that identifier. |
| `TodoItem.IndexOfId` | public/javascripts/todos.js:10-12 | The first position whose identifier matches: every earlier item differs, and there is none when nothing matches. |
| `TodoItem.GetTodoIsFirstMatch` | public/javascripts/todos.js:10-12 | `getTodo` returns the item at the first matching position. |
| `Sequences.FilterCount` | public/javascripts/todos.js:80 | `filter` keeps every copy of each passing element and no copy of the others. |
| `Sequences.FilterIsSubsequence` | public/javascripts/todos.js:80 | `filter` keeps the order of the elements it keeps. |
| `Sequences.FilterConcat` | public/javascripts/todos.js:80 | Filtering a concatenation is concatenating the filtered parts. |
| `Sequences.FilterIn` | public/javascripts/todos.js:35 | An element survives `filter` exactly when it is in the list and passes. |
| `Sequences.FilterEmpty` | public/javascripts/todos.js:11 | `filter` gives the empty list exactly when no element passes. |
| `Sequences.FilterSortedBy` | public/javascripts/todos.js:35 | Filtering a sorted list leaves it sorted. |
| `Sequences.FilterFilter` | public/javascripts/todos.js:112-114 | Filtering twice is filtering once by the conjunction. |
| `Sequences.InsertSortedBy` | public/javascripts/todos.js:139-143 | Inserting an element after the keys not above its own, and before the rest, keeps a list sorted. |
| `Collections.CompareCompleted` | public/javascripts/todos.js:120-128 | The comparator is the difference of the completion ranks: open before completed, ties equal. |
| `Collections.SortedByDateIsByKey` | public/javascripts/todos.js:139-143 | For labelled items, being sorted under `compareDates` is being sorted by rank. |
| `Collections.InsertByDate` | public/javascripts/todos.js:139-143 | One insertion step keeps the items labelled, sorted, a permutation of the prefix, and in the prefix's order within each label. |
| `Collections.InsertByDateOrder` | public/javascripts/todos.js:139-143 | Inserting an item before items of other labels puts it last among its own label. |
| `Collections.SortByDates` | public/javascripts/todos.js:139-143 | The result is sorted under `compareDates`. It is a permutation of the input, and items sharing a label keep their order (stable). |
| `Collections.StableSortUnique` | public/javascripts/todos.js:139-143 | Two sorted lists with the same order within each label are equal, so every stable sort by `compareDates` gives the same result. |
| `Collections.SameFirstItem` | public/javascripts/todos.js:139-143 | Two stable date sorts of the same items start with the same item. |
| `Collections.SameLabelOrderTails` | public/javascripts/todos.js:139-143 | Removing a common first item keeps the order within each label. |
| `Collections.SameLabelOrderMultiset` | public/javascripts/todos.js:139-143 | Lists with the same order within each label hold the same items. |
| `Collections.SortedStaysPut` | public/javascripts/todos.js:139-143 | A stable date sort of an already sorted list leaves it as it is. |
| `Collections.FilterKeepsDateOrder` | public/javascripts/todos.js:35 | Removing items from the sorted list keeps it labelled and sorted. |
| `Collections.OpenThenDoneIsDoneLast` | public/javascripts/todos.js:119-129 | The completed-last arrangement puts every open item before every completed one. |
| `Collections.OpenThenDonePermutes` | public/javascripts/todos.js:119-129 | The completed-last arrangement is a permutation. |
| `Collections.OpenThenDoneIsStable` | public/javascripts/todos.js:119-129 | The open items keep their order, and so do the completed ones. |
| `Collections.DoneLastIsOpenThenDone` | public/javascripts/todos.js:119-129 | A list with its completed items last is its own completed-last sort. |
| `Collections.StableCompletedSortUnique` | public/javascripts/todos.js:119-129 | Every stable sort by the completion comparator gives the completed-last arrangement. |
| `Collections.InsertByCompleted` | public/javascripts/todos.js:119-129 | One insertion step extends the completed-last arrangement by the next item. |
| `Collections.AppendCompleted` | public/javascripts/todos.js:119-129 | A completed item goes after everything. |
| `Collections.AppendOpen` | public/javascripts/todos.js:119-129 | An open item goes after the open items and before the completed ones. |
| `Collections.InsertOpenAt` | public/javascripts/todos.js:121-126 | The insertion point the comparator finds for an open item is the boundary between open and completed items. |
| `Collections.SortByCompleted` | public/javascripts/todos.js:119-129 | The result is the open items followed by the completed items, each in input order. |
| `Collections.GroupStep` | public/javascripts/todos.js:85-88 | Pushing the next item onto its label's list, created if missing, keeps the grouping exact. |
| `Collections.GroupByDate` | public/javascripts/todos.js:83-98 | The keys are exactly the labels that occur. Each bucket is the items with that label, in list order. |
| `Collections.GroupingPartition` | public/javascripts/todos.js:83-98 | Every item is in its own label's bucket. A bucket holds only items of its label, is non-empty, and follows the list's order. |
| `Collections.LookupIsFilter` | public/javascripts/todos.js:108-114 | Looking a title up in a grouping, with the empty list for a missing key, gives the items with that label. |
| `Collections.Selection` | public/javascripts/todos.js:100-117 | A selection exists exactly for the two known groups. It is the items filtered by one predicate: completed for the completed group, and the label for a title other than the group's fixed title. |
| `Collections.SelectionMembers` | public/javascripts/todos.js:100-117 | An item is selected exactly when it is in the list, is completed if the group is the completed one, and has the title as label unless the title is the fixed one. |
| `TodosManager.Todos.constructor` | public/javascripts/todos.js:4-8 | No items, an empty section, no selection, and no derived collection yet. |
| `TodosManager.Todos.SortTodosByDates` | public/javascripts/todos.js:55 | The items become their stable date sort, a permutation that stays labelled. |
| `TodosManager.Todos.UpdateDoneTodos` | public/javascripts/todos.js:79-81 | `done` is the completed items in list order. |
| `TodosManager.Todos.UpdateTodosByDate` | public/javascripts/todos.js:83-89 | `todos_by_date` is the grouping of the items by label. |
| `TodosManager.Todos.UpdateDoneTodosByDate` | public/javascripts/todos.js:91-98 | `done_todos_by_date` is the grouping of `done` by label. |
| `TodosManager.Todos.UpdateSelected` | public/javascripts/todos.js:100-117 | For a known group, the selection is the section's items. For any other group it stays as it was. It throws, leaving the selection as it was, exactly when no collection has been derived yet and the section is one that reads one: a label under all items, or the completed group. |
| `TodosManager.Todos.SortSelection` | public/javascripts/todos.js:60-61 | A missing selection throws and nothing changes. Otherwise the selection becomes completed-last, keeps its size, and the count records that size. |
| `TodosManager.Todos.UpdateCollections` | public/javascripts/todos.js:54-62 | The items become their stable date sort, and the derived collections agree with them. On success the selection is current. The only failure is a missing selection under an unknown group, and it leaves the section unchanged. |
| `TodosManager.Todos.SetCurrentSection` | public/javascripts/todos.js:131-137 | Only the section and the selection change; the items and the derived collections stay. It throws exactly when the section reads a collection not yet derived, or when there is no selection to keep under an unknown group. Then the selection is as it was, and the section has the new group and title with its old count. Otherwise the selection is current. |
| `TodosManager.Todos.FormatTodos` | public/javascripts/todos.js:72-77 | Every item is relabelled, in order. Well-formed items all come out labelled. |
| `TodosManager.Todos.Init` | public/javascripts/todos.js:173-182 | A list body replaces the items with their relabelled, date-sorted forms and selects all items. Any other outcome rejects and changes nothing. After the recomputation, whether or not the selection step throws, `done` and both groupings are computed from the items. |
| `TodosManager.Todos.ValidLabelled` | public/javascripts/todos.js:55 | Every item's label is one `compareDates` accepts. |
| `TodosManager.Todos.AddTodo` | public/javascripts/todos.js:14-28 | On success the items gain exactly the relabelled new item, stably date-sorted, and the section becomes all items with the selection current. On an error nothing changes, and the message is alerted when it is non-empty. After the recomputation, whether or not the selection step throws, `done` and both groupings are computed from the items. |
| `TodosManager.Todos.DeleteTodo` | public/javascripts/todos.js:30-39 | On success the items are exactly the old items without that identifier, in their old order. On an error with a message, nothing changes and the message is alerted. If the recomputation throws, the selection stays missing and the section is as it was. Under an unknown group the kept selection is re-sorted completed-last. After the recomputation, whether or not the selection step throws, `done` and both groupings are computed from the items. |
| `TodosManager.Todos.UpdateTodo` | public/javascripts/todos.js:41-52 | On success the first item with the identifier takes the returned keys and is relabelled, no other item changes, and the result is date-sorted. A missing identifier rejects with no change. An error with a message alerts with no change. If the recomputation throws, the selection stays missing and the section is as it was. Under an unknown group the kept selection is re-sorted completed-last. After the recomputation, whether or not the selection step throws, `done` and both groupings are computed from the items. |

## Left out

- `public/javascripts/api_handler.js` (HTTP and JSON) is not part of this model. Its settled result is the `Outcome` input.
  - Unlisted statuses make `postTodo` and `deleteTodo` resolve to `undefined`; this is not modelled.
- `public/javascripts/view.js` (DOM, templates, events and form rules) is not part of this model.
  - Its date rule is assumed of the server's data: a month is "00" or two digits, and a year is "0000" or four digits.
  - `AddTodo`, `UpdateTodo` and `Init` require this of `Ok` outcomes. `compareDates` on other strings, where `Number` can give `NaN`, is not modelled.
- `alert` is the `Alerted` completion, not I/O.
- Promise scheduling and racing requests are not modelled: each outcome has already settled when its method runs.
- The constructor's `this.api` field is not modelled.
- Aliasing: items are values.
  - In the source, `done`, the groupings and a kept selection share item objects with `todos`. Every derived collection is rebuilt after a change, so this matters only for a selection kept under an unknown group.
  - That kept selection would see an in-place update in the source. It does not in the model.
- Response keys other than the six item fields (such as the `error` key itself) are not modelled.
- Identifiers are strings. The `String(todo.id)` conversion of a numeric identifier is not modelled.
- `current_section = {}`: its undefined group and title are empty strings, and its undefined count is 0. Both behave the same in every comparison the class makes.
- The buckets are a `map`. Lookups of a title that names an inherited property of a plain JavaScript object are not modelled.
- The groupings do not record their key order. In the source they are plain objects whose keys enumerate in insertion order: the order of first occurrence in the items, which is date order because the items are sorted first. The sidebar templates list the labels in that order.
- `Array.prototype.sort` is modelled as an insertion sort. `StableSortUnique` and `StableCompletedSortUnique` show that every stable sort with the same comparator gives the same result.
- Labels keep only the last two digits of the year, so items are ordered by year modulo 100 (see `LabelFields`). The model keeps this behaviour as written.
