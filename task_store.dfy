/** The task table behind the routes of backend/index.js: rows keyed by an
    auto-incremented id, created pending, edited in their descriptive fields,
    marked up to date with the current time, and swept back to pending once
    their periodicity (in hours) has elapsed since they were last completed.
    The current time is a parameter (milliseconds, as Date.now() gives). */
module TaskStore {
  import opened Wrappers

  /** The two values of the status column. */
  datatype Status = Pending | UpToDate

  /** One row of the tasks table, without its id. */
  datatype Row = Row(
    name: string,
    duration: Option<int>,
    periodicity: Option<int>,
    importance: Option<int>,
    status: Status,
    lastCompleted: Option<int>)

  /** Why a request changes nothing: create without a name answers 400;
      an edit that would write a missing name into an existing row breaks the
      NOT NULL constraint of the name column. */
  datatype Error = NameRequired | NameNotNull

  const MillisPerHour: int := 60 * 60 * 1000

  /** JavaScript truthiness of a numeric column: present and nonzero. */
  predicate Truthy(v: Option<int>) {
    v.Some? && v.value != 0
  }

  /** The check-status sweep's test: an up-to-date row with a periodicity and
      a completion time, at least periodicity hours after that time. Only an
      up-to-date row that was completed can expire, and with a positive
      periodicity at least an hour must have passed. */
  function Expired(r: Row, now: int): (b: bool)
    ensures b ==> && r.status == UpToDate && r.periodicity.Some? && r.lastCompleted.Some?
                  && (r.periodicity.value > 0 ==> now - r.lastCompleted.value >= MillisPerHour)
  {
    && r.status == UpToDate
    && Truthy(r.periodicity)
    && Truthy(r.lastCompleted)
    && now - r.lastCompleted.value >= r.periodicity.value * MillisPerHour
  }

  /** The row an INSERT creates: status takes its default, lastCompleted none. */
  function NewRow(name: string, duration: Option<int>, periodicity: Option<int>,
                  importance: Option<int>): Row
  {
    Row(name, duration, periodicity, importance, Pending, None)
  }

  /** UPDATE of name, duration, periodicity and importance for one id. */
  function Edited(m: map<int, Row>, id: int, name: string, duration: Option<int>,
                  periodicity: Option<int>, importance: Option<int>): (m': map<int, Row>)
    ensures m'.Keys == m.Keys
    ensures forall k :: k in m && k != id ==> m'[k] == m[k]
    ensures id in m ==> && m'[id].status == m[id].status
                        && m'[id].lastCompleted == m[id].lastCompleted
                        && m'[id] == NewRow(name, duration, periodicity, importance)
                                       .(status := m[id].status, lastCompleted := m[id].lastCompleted)
  {
    if id in m then
      m[id := m[id].(name := name, duration := duration, periodicity := periodicity, importance := importance)]
    else m
  }

  /** UPDATE of status to up-to-date and lastCompleted to now for one id. */
  function Marked(m: map<int, Row>, id: int, now: int): (m': map<int, Row>)
    ensures m'.Keys == m.Keys
    ensures forall k :: k in m && k != id ==> m'[k] == m[k]
    ensures id in m ==> m'[id] == m[id].(status := UpToDate, lastCompleted := Some(now))
  {
    if id in m then m[id := m[id].(status := UpToDate, lastCompleted := Some(now))] else m
  }

  /** One row after the sweep. */
  function Expire(r: Row, now: int): Row {
    if Expired(r, now) then r.(status := Pending) else r
  }

  /** The table after the check-status sweep at time now: a row is pending
      afterwards iff it was pending or it had expired; nothing but the status
      ever changes, so lastCompleted is kept. */
  function Swept(m: map<int, Row>, now: int): (m': map<int, Row>)
    ensures m'.Keys == m.Keys
    ensures forall id :: id in m ==> m'[id] == m[id].(status := m'[id].status)
    ensures forall id :: id in m ==>
      (m'[id].status == Pending <==> m[id].status == Pending || Expired(m[id], now))
  {
    map id | id in m :: Expire(m[id], now)
  }

  /** Sweeping twice at the same time is sweeping once. */
  lemma SweepIdempotent(m: map<int, Row>, now: int)
    ensures Swept(Swept(m, now), now) == Swept(m, now)
  {
    var once := Swept(m, now);
    var twice := Swept(once, now);
    forall id | id in m
      ensures twice[id] == once[id]
    {
      assert !Expired(once[id], now);
    }
  }

  /** A row marked up to date at time t (t nonzero) with a nonzero
      periodicity of p hours is swept back to pending at time now exactly when
      now - t >= p hours; no day alignment is applied. */
  lemma MarkedExpiresAfterPeriod(m: map<int, Row>, id: int, t: int, now: int)
    requires id in m && Truthy(m[id].periodicity) && t != 0
    ensures Swept(Marked(m, id, t), now)[id].status == Pending
      <==> now - t >= m[id].periodicity.value * MillisPerHour
  {
    assert Marked(m, id, t)[id].status == UpToDate;
  }

  /** Once the sweep finds a row expired, it finds it expired at every later
      time too. */
  lemma ExpiryIsMonotone(m: map<int, Row>, id: int, now: int, later: int)
    requires id in m && now <= later
    requires Swept(m, now)[id].status == Pending
    ensures Swept(m, later)[id].status == Pending
  {
  }

  /** Marking again refreshes the completion time: only the last mark counts. */
  lemma RemarkRefreshes(m: map<int, Row>, id: int, t1: int, t2: int)
    ensures Marked(Marked(m, id, t1), id, t2) == Marked(m, id, t2)
  {
  }

  /** Editing leaves the lifecycle alone: editing before or after marking
      gives the same table. */
  lemma EditCommutesWithMark(m: map<int, Row>, id: int, t: int, name: string,
                             duration: Option<int>, periodicity: Option<int>, importance: Option<int>)
    ensures Edited(Marked(m, id, t), id, name, duration, periodicity, importance)
         == Marked(Edited(m, id, name, duration, periodicity, importance), id, t)
  {
  }

  /** The tasks table and the AUTOINCREMENT counter that hands out ids. */
  class TaskTable {
    var tasks: map<int, Row>
    var nextId: int

    /** Every id in use was handed out before, starting from 1. */
    ghost predicate Valid()
      reads this
    {
      nextId >= 1 && forall id :: id in tasks ==> 1 <= id < nextId
    }

    constructor ()
      ensures Valid() && tasks == map[] && nextId == 1
    {
      tasks := map[];
      nextId := 1;
    }

    /** POST /tasks: a missing or empty name is refused and nothing is
        inserted; otherwise a new row under a fresh id, pending, with no
        completion time. */
    method Create(name: Option<string>, duration: Option<int>, periodicity: Option<int>,
                  importance: Option<int>) returns (r: Result<int, Error>)
      requires Valid()
      modifies this
      ensures Valid()
      ensures r.Failure? <==> name.None? || name.value == []
      ensures r.Failure? ==> r.error == NameRequired && tasks == old(tasks) && nextId == old(nextId)
      ensures r.Success? ==>
        && r.value == old(nextId) && r.value !in old(tasks)
        && tasks == old(tasks)[r.value := NewRow(name.value, duration, periodicity, importance)]
        && nextId == old(nextId) + 1
    {
      if name.None? || name.value == [] {
        return Failure(NameRequired);
      }
      var id := nextId;
      tasks := tasks[id := NewRow(name.value, duration, periodicity, importance)];
      nextId := nextId + 1;
      r := Success(id);
    }

    /** PUT /tasks/:id: replaces the descriptive fields of the row with that
        id. A missing name breaks the NOT NULL constraint only when a row with
        that id exists to be rewritten; an UPDATE that matches no row checks
        nothing and succeeds. Either way a failure changes nothing. */
    method Edit(id: int, name: Option<string>, duration: Option<int>, periodicity: Option<int>,
                importance: Option<int>) returns (r: Result<(), Error>)
      requires Valid()
      modifies this
      ensures Valid() && nextId == old(nextId)
      ensures r.Failure? <==> name.None? && id in old(tasks)
      ensures r.Failure? ==> r.error == NameNotNull
      ensures r.Failure? || id !in old(tasks) ==> tasks == old(tasks)
      ensures r.Success? && id in old(tasks) ==>
        name.Some? && tasks == Edited(old(tasks), id, name.value, duration, periodicity, importance)
    {
      if id in tasks {
        if name.None? {
          return Failure(NameNotNull);
        }
        var row := tasks[id];
        tasks := tasks[id := row.(name := name.value, duration := duration,
                                  periodicity := periodicity, importance := importance)];
      }
      r := Success(());
    }

    /** POST /tasks/:id/up-to-date: status up-to-date and lastCompleted now,
        whatever the status was. */
    method MarkUpToDate(id: int, now: int)
      requires Valid()
      modifies this
      ensures Valid() && nextId == old(nextId)
      ensures tasks == Marked(old(tasks), id, now)
    {
      if id in tasks {
        tasks := tasks[id := tasks[id].(status := UpToDate, lastCompleted := Some(now))];
      }
    }

    /** POST /tasks/check-status: reads the up-to-date rows, then sets each
        one whose period has elapsed back to pending, one row at a time in
        the order of their ids. */
    method CheckStatus(now: int)
      requires Valid()
      modifies this
      ensures Valid() && nextId == old(nextId)
      ensures tasks == Swept(old(tasks), now)
    {
      var rows := map id | id in tasks && tasks[id].status == UpToDate :: tasks[id];
      var id := 1;
      while id < nextId
        invariant 1 <= id <= nextId == old(nextId)
        invariant tasks.Keys == old(tasks).Keys && Valid()
        invariant forall k :: k in tasks ==>
          tasks[k] == if k < id then Expire(old(tasks)[k], now) else old(tasks)[k]
      {
        if id in rows {
          var task := rows[id];
          if Truthy(task.periodicity) && Truthy(task.lastCompleted) {
            if now - task.lastCompleted.value >= task.periodicity.value * MillisPerHour {
              tasks := tasks[id := tasks[id].(status := Pending)];
            }
          }
        }
        id := id + 1;
      }
      ghost var swept := Swept(old(tasks), now);
      forall k | k in tasks
        ensures tasks[k] == swept[k]
      {
      }
      assert tasks.Keys == swept.Keys;
    }
  }
}
