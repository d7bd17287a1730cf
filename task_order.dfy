/** How frontend/src/App.js presents tasks: ordenarTareas sorts an array of
    tasks in place by importance, duration and periodicity (all descending,
    missing values counting as 0) and then by name, and the task list is split
    into the pending ones and the up-to-date ones before each part is sorted. */
module TaskOrder {
  import opened Wrappers

  /** A task as the front end receives it from the service. */
  datatype Task = Task(
    id: int,
    name: string,
    duration: Option<int>,
    periodicity: Option<int>,
    importance: Option<int>,
    status: string)

  /** The status text of a task done within its period. */
  const UpToDate: string := "up-to-date"

  /** `value || 0` for a numeric field that may be missing. */
  function OrZero(v: Option<int>): int {
    match v
    case None => 0
    case Some(x) => x
  }

  /** localeCompare on names, taken as comparison by code point: negative,
      zero or positive as a sorts before, with or after b. */
  function NameCompare(a: string, b: string): (c: int)
    ensures -1 <= c <= 1
  {
    if a == [] then (if b == [] then 0 else -1)
    else if b == [] then 1
    else if a[0] < b[0] then -1
    else if a[0] > b[0] then 1
    else NameCompare(a[1..], b[1..])
  }

  /** Swapping the names negates the comparison. */
  lemma {:induction false} NameCompareAntisymmetric(a: string, b: string)
    ensures NameCompare(a, b) == -NameCompare(b, a)
  {
    if a != [] && b != [] && a[0] == b[0] {
      NameCompareAntisymmetric(a[1..], b[1..]);
    }
  }

  /** Names compare equal exactly when they are the same string. */
  lemma {:induction false} NameCompareZero(a: string, b: string)
    ensures NameCompare(a, b) == 0 <==> a == b
  {
    if a != [] && b != [] && a[0] == b[0] {
      NameCompareZero(a[1..], b[1..]);
      if a[1..] == b[1..] {
        assert a == [a[0]] + a[1..] && b == [b[0]] + b[1..];
      }
    }
  }

  /** The name order is transitive. */
  lemma {:induction false} NameCompareTransitive(a: string, b: string, c: string)
    requires NameCompare(a, b) <= 0 && NameCompare(b, c) <= 0
    ensures NameCompare(a, c) <= 0
  {
    if a != [] && b != [] && c != [] && a[0] == b[0] == c[0] {
      NameCompareTransitive(a[1..], b[1..], c[1..]);
    }
  }

  /** The comparator ordenarTareas passes to Array.prototype.sort: negative
      when a goes first. Zero exactly for tasks that agree on all four keys;
      the more important task always goes first. */
  function Compare(a: Task, b: Task): (c: int)
    ensures c == 0 <==> && OrZero(a.importance) == OrZero(b.importance)
                        && OrZero(a.duration) == OrZero(b.duration)
                        && OrZero(a.periodicity) == OrZero(b.periodicity)
                        && a.name == b.name
    ensures OrZero(a.importance) > OrZero(b.importance) ==> c < 0
  {
    NameCompareZero(a.name, b.name);
    if OrZero(b.importance) != OrZero(a.importance) then
      OrZero(b.importance) - OrZero(a.importance)
    else if OrZero(b.duration) != OrZero(a.duration) then
      OrZero(b.duration) - OrZero(a.duration)
    else if OrZero(b.periodicity) != OrZero(a.periodicity) then
      OrZero(b.periodicity) - OrZero(a.periodicity)
    else
      NameCompare(a.name, b.name)
  }

  /** a may stand before b in the sorted array. */
  predicate Precedes(a: Task, b: Task) {
    Compare(a, b) <= 0
  }

  /** The comparator is consistent: swapping its arguments negates it. */
  lemma CompareAntisymmetric(a: Task, b: Task)
    ensures Compare(a, b) == -Compare(b, a)
  {
    NameCompareAntisymmetric(a.name, b.name);
  }

  /** Any two tasks are ordered one way or the other. */
  lemma PrecedesTotal(a: Task, b: Task)
    ensures Precedes(a, b) || Precedes(b, a)
  {
    CompareAntisymmetric(a, b);
  }

  /** The comparator's order is transitive. */
  lemma PrecedesTransitive(a: Task, b: Task, c: Task)
    requires Precedes(a, b) && Precedes(b, c)
    ensures Precedes(a, c)
  {
    if OrZero(a.importance) == OrZero(b.importance) == OrZero(c.importance)
      && OrZero(a.duration) == OrZero(b.duration) == OrZero(c.duration)
      && OrZero(a.periodicity) == OrZero(b.periodicity) == OrZero(c.periodicity)
    {
      NameCompareTransitive(a.name, b.name, c.name);
    }
  }

  /** Every task precedes every later one. */
  predicate Sorted(s: seq<Task>) {
    forall i, j :: 0 <= i < j < |s| ==> Precedes(s[i], s[j])
  }

  /** Every task precedes the next one. */
  predicate Chained(s: seq<Task>) {
    forall i :: 0 < i < |s| ==> Precedes(s[i - 1], s[i])
  }

  /** By transitivity, ordering neighbours orders the whole sequence. */
  lemma {:induction false} ChainedIsSorted(s: seq<Task>)
    requires Chained(s)
    ensures Sorted(s)
  {
    if |s| > 1 {
      var init := s[..|s| - 1];
      assert Chained(init);
      ChainedIsSorted(init);
      forall i | 0 <= i < |s| - 1
        ensures Precedes(s[i], s[|s| - 1])
      {
        if i < |s| - 2 {
          assert Precedes(init[i], init[|s| - 2]);
          PrecedesTransitive(s[i], s[|s| - 2], s[|s| - 1]);
        }
      }
    }
  }

  /** What a sorted array shows: importance descending; among equal
      importance, duration descending; then periodicity descending; then names
      in ascending order. */
  lemma SortedKeys(s: seq<Task>, i: int, j: int)
    requires Sorted(s) && 0 <= i < j < |s|
    ensures OrZero(s[i].importance) >= OrZero(s[j].importance)
    ensures OrZero(s[i].importance) == OrZero(s[j].importance)
      ==> OrZero(s[i].duration) >= OrZero(s[j].duration)
    ensures OrZero(s[i].importance) == OrZero(s[j].importance)
      && OrZero(s[i].duration) == OrZero(s[j].duration)
      ==> OrZero(s[i].periodicity) >= OrZero(s[j].periodicity)
    ensures OrZero(s[i].importance) == OrZero(s[j].importance)
      && OrZero(s[i].duration) == OrZero(s[j].duration)
      && OrZero(s[i].periodicity) == OrZero(s[j].periodicity)
      ==> NameCompare(s[i].name, s[j].name) <= 0
  {
    assert Precedes(s[i], s[j]);
  }

  /** ordenarTareas: sorts the array in place with the comparator and
      returns the same array. */
  method SortTasks(tareas: array<Task>) returns (sorted: array<Task>)
    modifies tareas
    ensures sorted == tareas
    ensures Sorted(tareas[..])
    ensures multiset(tareas[..]) == multiset(old(tareas[..]))
  {
    var i := 0;
    while i < tareas.Length
      invariant 0 <= i <= tareas.Length
      invariant forall k :: 0 < k < i ==> Precedes(tareas[k - 1], tareas[k])
      invariant multiset(tareas[..]) == multiset(old(tareas[..]))
    {
      InsertAt(tareas, i);
      i := i + 1;
    }
    ChainedIsSorted(tareas[..]);
    sorted := tareas;
  }

  /** One step of the insertion sort: moves tareas[i] down past the tasks
      it must precede, so that the first i + 1 tasks are in order. */
  method InsertAt(tareas: array<Task>, i: int)
    requires 0 <= i < tareas.Length
    requires forall k :: 0 < k < i ==> Precedes(tareas[k - 1], tareas[k])
    modifies tareas
    ensures forall k :: 0 < k <= i ==> Precedes(tareas[k - 1], tareas[k])
    ensures multiset(tareas[..]) == multiset(old(tareas[..]))
  {
    var j := i;
    while 0 < j && !Precedes(tareas[j - 1], tareas[j])
      invariant 0 <= j <= i
      invariant forall k :: 0 < k <= i && k != j ==> Precedes(tareas[k - 1], tareas[k])
      invariant 0 < j < i ==> Precedes(tareas[j - 1], tareas[j + 1])
      invariant multiset(tareas[..]) == multiset(old(tareas[..]))
    {
      PrecedesTotal(tareas[j - 1], tareas[j]);
      Swap(tareas, j - 1, j);
      j := j - 1;
    }
  }

  /** Exchanges two tasks of the array. */
  method Swap(tareas: array<Task>, i: int, j: int)
    requires 0 <= i < j < tareas.Length
    modifies tareas
    ensures tareas[i] == old(tareas[j]) && tareas[j] == old(tareas[i])
    ensures forall k :: 0 <= k < tareas.Length && k != i && k != j ==> tareas[k] == old(tareas[k])
    ensures multiset(tareas[..]) == multiset(old(tareas[..]))
  {
    tareas[i], tareas[j] := tareas[j], tareas[i];
  }

  /** `tareas.filter(t => t.status !== "up-to-date")`. */
  function PendingTasks(ts: seq<Task>): (r: seq<Task>)
    ensures forall t :: t in r ==> t in ts && t.status != UpToDate
  {
    if ts == [] then []
    else (if ts[0].status != UpToDate then [ts[0]] else []) + PendingTasks(ts[1..])
  }

  /** `tareas.filter(t => t.status === "up-to-date")`. */
  function UpToDateTasks(ts: seq<Task>): (r: seq<Task>)
    ensures forall t :: t in r ==> t in ts && t.status == UpToDate
  {
    if ts == [] then []
    else (if ts[0].status == UpToDate then [ts[0]] else []) + UpToDateTasks(ts[1..])
  }

  /** Every task lands in exactly one of the two lists: together they hold
      each task as often as the whole list does. */
  lemma {:induction false} PartitionExact(ts: seq<Task>)
    ensures multiset(PendingTasks(ts)) + multiset(UpToDateTasks(ts)) == multiset(ts)
    ensures |PendingTasks(ts)| + |UpToDateTasks(ts)| == |ts|
  {
    if ts != [] {
      PartitionExact(ts[1..]);
      assert ts == [ts[0]] + ts[1..];
    }
  }

  /** The two lists of the page: each part filtered out of the task list
      into a new array and sorted. */
  method SplitTasks(tareas: seq<Task>) returns (pendientes: array<Task>, aldia: array<Task>)
    ensures fresh(pendientes) && fresh(aldia)
    ensures Sorted(pendientes[..]) && multiset(pendientes[..]) == multiset(PendingTasks(tareas))
    ensures Sorted(aldia[..]) && multiset(aldia[..]) == multiset(UpToDateTasks(tareas))
  {
    var p := PendingTasks(tareas);
    var u := UpToDateTasks(tareas);
    var pa := new Task[|p|](i requires 0 <= i < |p| => p[i]);
    var ua := new Task[|u|](i requires 0 <= i < |u| => u[i]);
    assert pa[..] == p && ua[..] == u;
    pendientes := SortTasks(pa);
    aldia := SortTasks(ua);
  }
}
