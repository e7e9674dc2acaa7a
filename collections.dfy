/**
 * The derived data `updateCollections` recomputes in public/javascripts/todos.js: the
 * date sort of all items, the completed subset, the groupings by label, the selection for
 * the current section, and its completed-last sort.
 */
module Collections {
  import opened Wrappers
  import opened Sequences
  import opened DueDates
  import opened TodoItem

  /** Section groups and fixed titles. */
  const AllItems: string := "all_items"
  const AllTodosTitle: string := "All Todos"
  const CompletedItems: string := "completed_items"
  const CompletedTitle: string := "Completed"

  /** The two groups `updateSelected` knows. */
  predicate KnownGroup(group: string) {
    group == AllItems || group == CompletedItems
  }

  predicate IsDone(t: Todo) { t.completed }

  predicate IsOpen(t: Todo) { !t.completed }

  /** The test `todo.due_date === date`. */
  function HasLabel(date: string): Todo -> bool {
    (t: Todo) => t.dueDate == date
  }

  /** `updateDoneTodos`: `todos.filter(todo => todo.completed)`. */
  function DoneItems(s: seq<Todo>): seq<Todo> {
    Filter(s, IsDone)
  }

  // ---------------------------------------------------------------------------------------
  // sortByDates

  ghost predicate AllLabelled(s: seq<Todo>) {
    forall i :: 0 <= i < |s| ==> IsLabel(s[i].dueDate)
  }

  /** Non-decreasing under `compareDates`. */
  ghost predicate SortedByDate(s: seq<Todo>) {
    forall i, j :: 0 <= i < j < |s| ==> LabelLeq(s[i].dueDate, s[j].dueDate)
  }

  /** Items that share a label appear in the same relative order in `r` and in `s`. */
  ghost predicate SameLabelOrder(r: seq<Todo>, s: seq<Todo>) {
    forall d :: Filter(r, HasLabel(d)) == Filter(s, HasLabel(d))
  }

  /** `r` is `s` stably sorted by `compareDates`. */
  ghost predicate StableDateSortOf(r: seq<Todo>, s: seq<Todo>) {
    SortedByDate(r) && SameLabelOrder(r, s)
  }

  /** The rank of an item's label, used as an integer sort key. */
  function DateKey(t: Todo): int {
    if IsLabel(t.dueDate) then DateRank(t.dueDate) else -1
  }

  /** For labelled items, being sorted by `compareDates` is being sorted by rank. */
  lemma SortedByDateIsByKey(s: seq<Todo>)
    requires AllLabelled(s)
    ensures SortedByDate(s) <==> SortedBy(s, DateKey)
  {
  }

  /** Inserting `x` before items whose labels all differ from its own keeps every label's items in order, with `x` last among its label. */
  lemma InsertByDateOrder(r: seq<Todo>, x: Todo, j: nat, d: string)
    requires j <= |r|
    requires forall k :: j <= k < |r| ==> r[k].dueDate != x.dueDate
    ensures Filter(r[..j] + [x] + r[j..], HasLabel(d)) == Filter(r, HasLabel(d)) + Filter([x], HasLabel(d))
  {
    var p := HasLabel(d);
    var front, back := r[..j], r[j..];
    assert Filter(back, p) == [] || Filter([x], p) == [] by {
      FilterSingleton(x, p);
      if d == x.dueDate {
        FilterEmpty(back, p);
      }
    }
    FilterInsert(front, x, back, p);
    assert front + back == r;
  }

  /** One insertion step of the date sort keeps every loop invariant of `SortByDates`. */
  lemma InsertByDate(r: seq<Todo>, prefix: seq<Todo>, x: Todo, j: nat)
    requires AllLabelled(r) && IsLabel(x.dueDate) && j <= |r|
    requires SortedBy(r, DateKey) && multiset(r) == multiset(prefix) && SameLabelOrder(r, prefix)
    requires j > 0 ==> DateKey(r[j - 1]) <= DateKey(x)
    requires forall k :: j <= k < |r| ==> DateKey(x) < DateKey(r[k])
    ensures AllLabelled(r[..j] + [x] + r[j..])
    ensures SortedBy(r[..j] + [x] + r[j..], DateKey)
    ensures multiset(r[..j] + [x] + r[j..]) == multiset(prefix + [x])
    ensures SameLabelOrder(r[..j] + [x] + r[j..], prefix + [x])
  {
    InsertSortedBy(r, x, j, DateKey);
    InsertedAt(r, x, j);
    forall d ensures Filter(r[..j] + [x] + r[j..], HasLabel(d)) == Filter(prefix + [x], HasLabel(d)) {
      InsertByDateOrder(r, x, j, d);
      FilterConcat(prefix, [x], HasLabel(d));
    }
  }

  /**
   * `sortByDates(collection)`: `Array.prototype.sort` with `compareDates`, which is a stable
   * sort; written here as an insertion sort.
   */
  method SortByDates(s: seq<Todo>) returns (r: seq<Todo>)
    requires AllLabelled(s)
    ensures StableDateSortOf(r, s)
    ensures multiset(r) == multiset(s)
  {
    r := [];
    for i := 0 to |s|
      invariant AllLabelled(r)
      invariant SortedBy(r, DateKey)
      invariant multiset(r) == multiset(s[..i])
      invariant SameLabelOrder(r, s[..i])
    {
      var x := s[i];
      var j := |r|;
      while j > 0 && CompareDates(r[j - 1].dueDate, x.dueDate) > 0
        invariant 0 <= j <= |r|
        invariant forall k :: j <= k < |r| ==> DateKey(x) < DateKey(r[k])
      {
        j := j - 1;
      }
      InsertByDate(r, s[..i], x, j);
      assert s[..i + 1] == s[..i] + [x];
      r := r[..j] + [x] + r[j..];
    }
    assert s[..|s|] == s;
    SortedByDateIsByKey(r);
  }

  /**
   * Any two stable date sorts of the same items agree: sorted sequences whose items of
   * each label come in the same order are equal. So the insertion sort above computes what
   * any stable `Array.prototype.sort` with `compareDates` computes.
   */
  lemma {:induction false} StableSortUnique(a: seq<Todo>, b: seq<Todo>)
    requires AllLabelled(a) && AllLabelled(b)
    requires SortedBy(a, DateKey) && SortedBy(b, DateKey)
    requires SameLabelOrder(a, b)
    ensures a == b
    decreases |a|
  {
    SameLabelOrderMultiset(a, b);
    if a != [] {
      assert |b| == |multiset(b)| == |multiset(a)| == |a|;
      SameFirstItem(a, b);
      SameLabelOrderTails(a, b);
      SortedByTail(a, DateKey);
      SortedByTail(b, DateKey);
      StableSortUnique(a[1..], b[1..]);
      assert a == [a[0]] + a[1..] && b == [b[0]] + b[1..];
    }
  }

  /** Two non-empty date-sorted permutations of each other, with the same order within each label, start with the same item. */
  lemma SameFirstItem(a: seq<Todo>, b: seq<Todo>)
    requires a != [] && b != []
    requires AllLabelled(a) && AllLabelled(b)
    requires SortedBy(a, DateKey) && SortedBy(b, DateKey)
    requires multiset(a) == multiset(b) && SameLabelOrder(a, b)
    ensures a[0] == b[0]
  {
    assert b[0] in multiset(a) && a[0] in multiset(b);
    assert DateKey(a[0]) == DateKey(b[0]);
    DateRankInjective(a[0].dueDate, b[0].dueDate);
    var p := HasLabel(a[0].dueDate);
    assert Filter(a, p)[0] == a[0];
    assert Filter(b, p)[0] == b[0] by {
      assert b == [b[0]] + b[1..];
    }
  }

  /** Removing a common first item keeps the order within each label. */
  lemma SameLabelOrderTails(a: seq<Todo>, b: seq<Todo>)
    requires a != [] && b != [] && a[0] == b[0]
    requires SameLabelOrder(a, b)
    ensures SameLabelOrder(a[1..], b[1..])
  {
    forall d ensures Filter(a[1..], HasLabel(d)) == Filter(b[1..], HasLabel(d)) {
      var q := HasLabel(d);
      assert Filter(a, q) == Filter(b, q);
      if q(a[0]) {
        assert Filter(a[1..], q) == Filter(a, q)[1..];
        assert Filter(b[1..], q) == Filter(b, q)[1..];
      }
    }
  }

  /** A sequence already sorted by date is left as it is by a stable date sort. */
  lemma SortedStaysPut(r: seq<Todo>, s: seq<Todo>)
    requires AllLabelled(r) && AllLabelled(s) && SortedByDate(s)
    requires StableDateSortOf(r, s)
    ensures r == s
  {
    SortedByDateIsByKey(r);
    SortedByDateIsByKey(s);
    StableSortUnique(r, s);
  }

  /** Leaving items out of a date-sorted sequence keeps it labelled and sorted. */
  lemma FilterKeepsDateOrder(s: seq<Todo>, p: Todo -> bool)
    requires AllLabelled(s) && SortedByDate(s)
    ensures AllLabelled(Filter(s, p)) && SortedByDate(Filter(s, p))
  {
    var f := Filter(s, p);
    forall i | 0 <= i < |f| ensures IsLabel(f[i].dueDate) {
      FilterMember(s, p, f[i]);
    }
    SortedByDateIsByKey(s);
    FilterSortedBy(s, p, DateKey);
    SortedByDateIsByKey(f);
  }

  /** Sequences whose items of each label agree hold the same items. */
  lemma SameLabelOrderMultiset(a: seq<Todo>, b: seq<Todo>)
    requires SameLabelOrder(a, b)
    ensures multiset(a) == multiset(b)
  {
    forall x ensures multiset(a)[x] == multiset(b)[x] {
      var p := HasLabel(x.dueDate);
      FilterCount(a, p);
      FilterCount(b, p);
      assert multiset(Filter(a, p))[x] == multiset(a)[x];
      assert multiset(Filter(b, p))[x] == multiset(b)[x];
    }
  }

  // ---------------------------------------------------------------------------------------
  // sortByCompleted

  /** 1 for a completed item, 0 for an open one. */
  function CompletionRank(t: Todo): int {
    if t.completed then 1 else 0
  }

  /** The comparator of `sortByCompleted`: open items before completed ones, ties kept. */
  function CompareCompleted(a: Todo, b: Todo): (c: int)
    ensures c == CompletionRank(a) - CompletionRank(b)
  {
    if a.completed && !b.completed then 1
    else if !a.completed && b.completed then -1
    else 0
  }

  /** Every open item comes before every completed one. */
  ghost predicate DoneLast(s: seq<Todo>) {
    forall i, j :: 0 <= i < j < |s| && s[i].completed ==> s[j].completed
  }

  /** The open items and then the completed ones, each in their order in `s`. */
  function OpenThenDone(s: seq<Todo>): seq<Todo> {
    Filter(s, IsOpen) + Filter(s, IsDone)
  }

  /** `OpenThenDone` puts the completed items last. */
  lemma OpenThenDoneIsDoneLast(s: seq<Todo>)
    ensures DoneLast(OpenThenDone(s))
  {
    FilterSatisfies(s, IsOpen);
    FilterSatisfies(s, IsDone);
  }

  /** `OpenThenDone` is a permutation. */
  lemma OpenThenDonePermutes(s: seq<Todo>)
    ensures multiset(OpenThenDone(s)) == multiset(s)
  {
    FilterCount(s, IsOpen);
    FilterCount(s, IsDone);
    var r := OpenThenDone(s);
    forall x ensures multiset(r)[x] == multiset(s)[x] {
    }
  }

  /** `OpenThenDone` keeps the order of the open items and that of the completed ones: it is stable. */
  lemma OpenThenDoneIsStable(s: seq<Todo>)
    ensures Filter(OpenThenDone(s), IsOpen) == Filter(s, IsOpen)
    ensures Filter(OpenThenDone(s), IsDone) == Filter(s, IsDone)
  {
    var open, done := Filter(s, IsOpen), Filter(s, IsDone);
    FilterSatisfies(s, IsOpen);
    FilterSatisfies(s, IsDone);
    FilterConcat(open, done, IsOpen);
    FilterConcat(open, done, IsDone);
    FilterAll(open, IsOpen);
    FilterAll(done, IsDone);
    FilterEmpty(open, IsDone);
    FilterEmpty(done, IsOpen);
  }

  /** A sequence with its completed items last is its own completed-last sort. */
  lemma {:induction false} DoneLastIsOpenThenDone(r: seq<Todo>)
    requires DoneLast(r)
    ensures r == OpenThenDone(r)
  {
    if r != [] {
      if r[0].completed {
        FilterEmpty(r, IsOpen);
        FilterAll(r, IsDone);
      } else {
        DoneLastIsOpenThenDone(r[1..]);
        assert r == [r[0]] + r[1..];
      }
    }
  }

  /**
   * Any stable sort by `CompareCompleted` gives `OpenThenDone`: a completed-last sequence
   * whose open items and whose completed items come in their order in `s` is `OpenThenDone(s)`.
   */
  lemma StableCompletedSortUnique(r: seq<Todo>, s: seq<Todo>)
    requires DoneLast(r)
    requires Filter(r, IsOpen) == Filter(s, IsOpen) && Filter(r, IsDone) == Filter(s, IsDone)
    ensures r == OpenThenDone(s)
  {
    DoneLastIsOpenThenDone(r);
  }

  /** One insertion step of the completed-last sort extends `OpenThenDone` by the next item. */
  lemma InsertByCompleted(r: seq<Todo>, prefix: seq<Todo>, x: Todo, j: nat)
    requires r == OpenThenDone(prefix) && j <= |r|
    requires |Filter(prefix, IsOpen)| <= j
    requires x.completed ==> j == |r|
    requires !x.completed && j > 0 ==> !r[j - 1].completed
    ensures r[..j] + [x] + r[j..] == OpenThenDone(prefix + [x])
  {
    if x.completed {
      assert r[..j] + [x] + r[j..] == r + [x];
      AppendCompleted(prefix, x);
    } else {
      InsertOpenAt(prefix, j);
      AppendOpen(prefix, x);
    }
  }

  /** A completed item goes after everything. */
  lemma AppendCompleted(prefix: seq<Todo>, x: Todo)
    requires x.completed
    ensures OpenThenDone(prefix + [x]) == OpenThenDone(prefix) + [x]
  {
    FilterConcat(prefix, [x], IsOpen);
    FilterConcat(prefix, [x], IsDone);
    FilterSingleton(x, IsOpen);
    FilterSingleton(x, IsDone);
  }

  /** An open item goes after the open items and before the completed ones. */
  lemma AppendOpen(prefix: seq<Todo>, x: Todo)
    requires !x.completed
    ensures OpenThenDone(prefix + [x]) == Filter(prefix, IsOpen) + [x] + Filter(prefix, IsDone)
  {
    FilterConcat(prefix, [x], IsOpen);
    FilterConcat(prefix, [x], IsDone);
    FilterSingleton(x, IsOpen);
    FilterSingleton(x, IsDone);
  }

  /** The only place after the open items and before no completed item is the boundary between the two. */
  lemma InsertOpenAt(prefix: seq<Todo>, j: nat)
    requires |Filter(prefix, IsOpen)| <= j <= |OpenThenDone(prefix)|
    requires j > 0 ==> !OpenThenDone(prefix)[j - 1].completed
    ensures OpenThenDone(prefix)[..j] == Filter(prefix, IsOpen)
    ensures OpenThenDone(prefix)[j..] == Filter(prefix, IsDone)
  {
    var open, done := Filter(prefix, IsOpen), Filter(prefix, IsDone);
    if j > |open| {
      FilterSatisfies(prefix, IsDone);
      assert false;
    }
  }

  /**
   * `sortByCompleted(collection)`: `Array.prototype.sort` with `CompareCompleted`, a stable
   * sort; written here as an insertion sort.
   */
  method SortByCompleted(s: seq<Todo>) returns (r: seq<Todo>)
    ensures r == OpenThenDone(s)
  {
    r := [];
    for i := 0 to |s|
      invariant r == OpenThenDone(s[..i])
    {
      var x := s[i];
      var j := |r|;
      FilterSatisfies(s[..i], IsOpen);
      while j > 0 && CompareCompleted(r[j - 1], x) > 0
        invariant |Filter(s[..i], IsOpen)| <= j <= |r|
        invariant x.completed ==> j == |r|
      {
        j := j - 1;
      }
      InsertByCompleted(r, s[..i], x, j);
      assert s[..i + 1] == s[..i] + [x];
      r := r[..j] + [x] + r[j..];
    }
    assert s[..|s|] == s;
  }

  // ---------------------------------------------------------------------------------------
  // updateTodosByDate / updateDoneTodosByDate

  /**
   * The labels that occur in `s`. The `ensures` restates membership by position so that the
   * grouping proofs can reason about the labels through a sequence index.
   */
  function Labels(s: seq<Todo>): (labels: set<string>)
    ensures forall d :: d in labels <==> exists k :: 0 <= k < |s| && s[k].dueDate == d
  {
    set t | t in s :: t.dueDate
  }

  /** `m` maps each label of `s`, and nothing else, to the items of `s` with that label, in order. */
  ghost predicate IsGrouping(m: map<string, seq<Todo>>, s: seq<Todo>) {
    m.Keys == Labels(s) && forall d :: d in m ==> m[d] == Filter(s, HasLabel(d))
  }

  /** `by_date[title] || []`: the bucket of a label, empty when there is none. */
  function Lookup(m: map<string, seq<Todo>>, d: string): seq<Todo> {
    if d in m then m[d] else []
  }

  /** Looking a label up in a grouping yields exactly that label's items, in order. */
  lemma LookupIsFilter(m: map<string, seq<Todo>>, s: seq<Todo>, d: string)
    requires IsGrouping(m, s)
    ensures Lookup(m, d) == Filter(s, HasLabel(d))
  {
    if d !in m {
      FilterEmpty(s, HasLabel(d));
    }
  }

  /**
   * A grouping partitions the items: each item is in the bucket of its own label, every
   * bucket holds only items of its label, and a bucket keeps the items' order.
   */
  lemma GroupingPartition(m: map<string, seq<Todo>>, s: seq<Todo>)
    requires IsGrouping(m, s)
    ensures forall k :: 0 <= k < |s| ==> s[k].dueDate in m && s[k] in m[s[k].dueDate]
    ensures forall d, t :: d in m && t in m[d] ==> t in s && t.dueDate == d
    ensures forall d :: d in m ==> m[d] != [] && SubsequenceOf(m[d], s)
  {
    forall k | 0 <= k < |s| ensures s[k] in m[s[k].dueDate] {
      FilterKeeps(s, HasLabel(s[k].dueDate), k);
    }
    forall d | d in m ensures m[d] != [] {
      FilterEmpty(s, HasLabel(d));
    }
    forall d, t | d in m && t in m[d] ensures t in s && t.dueDate == d {
      FilterMember(s, HasLabel(d), t);
    }
    forall d | d in m ensures SubsequenceOf(m[d], s) {
      FilterIsSubsequence(s, HasLabel(d));
    }
  }

  /** Adding the next item to its bucket, creating the bucket if it is missing. */
  lemma GroupStep(m: map<string, seq<Todo>>, prefix: seq<Todo>, t: Todo)
    requires IsGrouping(m, prefix)
    ensures IsGrouping(m[t.dueDate := Lookup(m, t.dueDate) + [t]], prefix + [t])
  {
    var m' := m[t.dueDate := Lookup(m, t.dueDate) + [t]];
    assert Labels(prefix + [t]) == Labels(prefix) + {t.dueDate} by {
      assert forall k :: 0 <= k < |prefix| ==> (prefix + [t])[k] == prefix[k];
      assert (prefix + [t])[|prefix|] == t;
    }
    forall d | d in m' ensures m'[d] == Filter(prefix + [t], HasLabel(d)) {
      FilterConcat(prefix, [t], HasLabel(d));
      FilterSingleton(t, HasLabel(d));
      LookupIsFilter(m, prefix, d);
    }
  }

  /**
   * The `forEach` of `updateTodosByDate` and `updateDoneTodosByDate`: start from an empty
   * dictionary, and push each item onto the list of its label.
   */
  method GroupByDate(s: seq<Todo>) returns (m: map<string, seq<Todo>>)
    ensures IsGrouping(m, s)
  {
    m := map[];
    for i := 0 to |s|
      invariant IsGrouping(m, s[..i])
    {
      var t := s[i];
      var bucket := if t.dueDate in m then m[t.dueDate] else [];
      GroupStep(m, s[..i], t);
      assert s[..i + 1] == s[..i] + [t];
      m := m[t.dueDate := bucket + [t]];
    }
    assert s[..|s|] == s;
  }

  // ---------------------------------------------------------------------------------------
  // updateSelected

  /** Whether `updateSelected` picks `t` for the section (`group`, `title`). */
  function Chosen(group: string, title: string): Todo -> bool {
    (t: Todo) =>
      (group == CompletedItems ==> t.completed) &&
      (title == (if group == CompletedItems then CompletedTitle else AllTodosTitle) || t.dueDate == title)
  }

  /**
   * What `updateSelected` selects from the items, before the completed-last sort: all items
   * or the completed ones for the two fixed titles, the items of the label `title` among them
   * otherwise. For any other group there is no new selection.
   */
  function Selection(group: string, title: string, todos: seq<Todo>): (r: Option<seq<Todo>>)
    ensures r.Some? <==> KnownGroup(group)
    ensures r.Some? ==> r.value == Filter(todos, Chosen(group, title))
  {
    if group == AllItems then
      if title == AllTodosTitle then
        FilterAll(todos, Chosen(group, title));
        Some(todos)
      else
        FilterSame(todos, HasLabel(title), Chosen(group, title));
        Some(Filter(todos, HasLabel(title)))
    else if group == CompletedItems then
      if title == CompletedTitle then
        FilterSame(todos, IsDone, Chosen(group, title));
        Some(DoneItems(todos))
      else
        FilterFilter(todos, IsDone, HasLabel(title), Chosen(group, title));
        Some(Filter(DoneItems(todos), HasLabel(title)))
    else
      None
  }

  /** The items a section selects are exactly those of its group and, for a label title, of that label. */
  lemma SelectionMembers(group: string, title: string, todos: seq<Todo>, t: Todo)
    requires KnownGroup(group)
    ensures t in Selection(group, title, todos).value <==>
              t in todos && (group == CompletedItems ==> t.completed) &&
              (title != (if group == AllItems then AllTodosTitle else CompletedTitle) ==> t.dueDate == title)
  {
    FilterIn(todos, Chosen(group, title));
  }
}
