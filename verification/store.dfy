/** A map-backed stand-in for the `prisma.task` client the server actions
    call. It states, as a definition, the behaviour the actions rely on:
    the store assigns fresh ids, `update` and `delete` on a missing id fail,
    a partial update touches only the supplied fields, `findMany` returns the
    rows ordered by `startDate`, and every call fails while the database is
    unreachable. */
module TaskStore {
  import opened Options
  import opened Tasks

  datatype StoreError = NotFound | Unavailable

  datatype Result<T> = Ok(value: T) | Err(error: StoreError)

  /** The `data` argument of `create`/`createMany`: a row without its id.
      An omitted `completed` takes the column default `false`. */
  datatype NewRow = NewRow(
    name: string,
    startDate: int,
    endDate: int,
    status: TaskStatus,
    completed: Option<bool>,
    details: Option<string>,
    responsible: Option<string>)

  /** The table, the next id the store will hand out, and whether the
      database can be reached. */
  datatype Store = Store(rows: map<nat, Task>, next: nat, up: bool)

  /** Every row sits under its own id. */
  ghost predicate KeyedById(rows: map<nat, Task>) {
    forall id :: id in rows ==> rows[id].id == id
  }

  /** The store invariant: rows keyed by id, every id already handed out. */
  ghost predicate Valid(st: Store) {
    && KeyedById(st.rows)
    && forall id :: id in st.rows ==> id < st.next
  }

  /** The row `create` writes for `row` under `id`. */
  function Materialize(id: nat, row: NewRow): (t: Task)
    ensures t.id == id && t.name == row.name && t.status == row.status
    ensures t.startDate == row.startDate && t.endDate == row.endDate
    ensures t.completed <==> row.completed == Some(true)
    ensures t.details == row.details && t.responsible == row.responsible
  {
    Task(id, row.name, row.startDate, row.endDate, row.status,
         row.completed.GetOr(false), row.details, row.responsible)
  }

  /** `count()`. */
  function Count(st: Store): (r: Result<nat>)
    ensures r.Ok? <==> st.up
    ensures r.Ok? ==> r.value == |st.rows|
  {
    if st.up then Ok(|st.rows|) else Err(Unavailable)
  }

  /** `create({data})`: a new row under a fresh id. */
  function Create(st: Store, row: NewRow): (r: Result<(Store, Task)>)
    requires Valid(st)
    ensures r.Ok? <==> st.up
    ensures r.Ok? ==> var (st', t) := r.value;
      && Valid(st') && st'.up == st.up
      && t.id !in st.rows
      && t.id == st.next && st'.next == st.next + 1
      && t == Materialize(t.id, row)
      && st'.rows.Keys == st.rows.Keys + {t.id}
      && st'.rows[t.id] == t
      && (forall id :: id in st.rows ==> st'.rows[id] == st.rows[id])
  {
    if !st.up then Err(Unavailable)
    else
      var t := Materialize(st.next, row);
      Ok((Store(st.rows[st.next := t], st.next + 1, st.up), t))
  }

  /** `st'` is `st` with the rows of `batch` added, in order, under the next
      `|batch|` ids, and nothing else changed. */
  ghost predicate Appended(st: Store, st': Store, batch: seq<NewRow>) {
    && st'.next == st.next + |batch|
    && (forall id :: id in st'.rows <==> id in st.rows || st.next <= id < st'.next)
    && (forall id :: id in st.rows ==> st'.rows[id] == st.rows[id])
    && (forall i :: 0 <= i < |batch| ==> st'.rows[st.next + i] == Materialize(st.next + i, batch[i]))
  }

  /** One created row followed by the rest of the batch is the whole batch
      appended. */
  lemma AppendedStep(st: Store, st1: Store, st2: Store, batch: seq<NewRow>)
    requires |batch| > 0
    requires st.next !in st.rows && st1.next == st.next + 1
    requires st1.rows == st.rows[st.next := Materialize(st.next, batch[0])]
    requires Appended(st1, st2, batch[1..])
    ensures Appended(st, st2, batch)
  {
  }

  /** `createMany({data})`: the rows inserted in order under fresh ids; the
      count of inserted rows is returned. */
  function CreateMany(st: Store, batch: seq<NewRow>): (r: Result<(Store, nat)>)
    requires Valid(st)
    ensures r.Ok? <==> st.up
    ensures r.Ok? ==> var (st', n) := r.value;
      && Valid(st') && st'.up == st.up
      && n == |batch|
      && Appended(st, st', batch)
      && |st'.rows| == |st.rows| + |batch|
    decreases |batch|
  {
    if !st.up then Err(Unavailable)
    else if |batch| == 0 then Ok((st, 0))
    else
      var (st1, t) := Create(st, batch[0]).value;
      assert |st1.rows| == |st.rows| + 1 by {
        assert st1.rows.Keys == st.rows.Keys + {t.id};
      }
      var (st2, n) := CreateMany(st1, batch[1..]).value;
      AppendedStep(st, st1, st2, batch);
      Ok((st2, n + 1))
  }

  /** A patch applied to a row: supplied fields replace, absent ones stay. */
  function ApplyPatch(t: Task, p: TaskPatch): (r: Task)
    ensures r.id == t.id
    ensures p.name.None? ==> r.name == t.name
    ensures p.name.Some? ==> r.name == p.name.value
    ensures p.startDate.None? ==> r.startDate == t.startDate
    ensures p.startDate.Some? ==> r.startDate == p.startDate.value
    ensures p.endDate.None? ==> r.endDate == t.endDate
    ensures p.endDate.Some? ==> r.endDate == p.endDate.value
    ensures p.status.None? ==> r.status == t.status
    ensures p.status.Some? ==> r.status == p.status.value
    ensures p.completed.None? ==> r.completed == t.completed
    ensures p.completed.Some? ==> r.completed == p.completed.value
    ensures p.details.None? ==> r.details == t.details
    ensures p.details.Some? ==> r.details == p.details
    ensures p.responsible.None? ==> r.responsible == t.responsible
    ensures p.responsible.Some? ==> r.responsible == p.responsible
  {
    t.(name := p.name.GetOr(t.name),
       startDate := p.startDate.GetOr(t.startDate),
       endDate := p.endDate.GetOr(t.endDate),
       status := p.status.GetOr(t.status),
       completed := p.completed.GetOr(t.completed),
       details := if p.details.Some? then p.details else t.details,
       responsible := if p.responsible.Some? then p.responsible else t.responsible)
  }

  /** `update({where: {id}, data})`. */
  function Update(st: Store, id: nat, p: TaskPatch): (r: Result<(Store, Task)>)
    requires Valid(st)
    ensures !st.up ==> r == Err(Unavailable)
    ensures st.up && id !in st.rows ==> r == Err(NotFound)
    ensures st.up && id in st.rows ==> r.Ok?
    ensures r.Ok? ==> var (st', t) := r.value;
      && Valid(st') && st'.next == st.next && st'.up == st.up
      && t == ApplyPatch(st.rows[id], p)
      && st'.rows.Keys == st.rows.Keys
      && st'.rows[id] == t
      && (forall k :: k in st.rows && k != id ==> st'.rows[k] == st.rows[k])
  {
    if !st.up then Err(Unavailable)
    else if id !in st.rows then Err(NotFound)
    else
      var t := ApplyPatch(st.rows[id], p);
      Ok((st.(rows := st.rows[id := t]), t))
  }

  /** `delete({where: {id}})`: removes the row and returns it. */
  function Delete(st: Store, id: nat): (r: Result<(Store, Task)>)
    requires Valid(st)
    ensures !st.up ==> r == Err(Unavailable)
    ensures st.up && id !in st.rows ==> r == Err(NotFound)
    ensures st.up && id in st.rows ==> r.Ok?
    ensures r.Ok? ==> var (st', t) := r.value;
      && Valid(st') && st'.next == st.next && st'.up == st.up
      && t == st.rows[id]
      && st'.rows.Keys == st.rows.Keys - {id}
      && (forall k :: k in st'.rows ==> st'.rows[k] == st.rows[k])
  {
    if !st.up then Err(Unavailable)
    else if id !in st.rows then Err(NotFound)
    else Ok((st.(rows := st.rows - {id}), st.rows[id]))
  }

  /** No later row starts before an earlier one. */
  ghost predicate SortedByStart(s: seq<Task>) {
    forall i, j :: 0 <= i < j < |s| ==> s[i].startDate <= s[j].startDate
  }

  /** No id appears twice. */
  ghost predicate DistinctIds(s: seq<Task>) {
    forall i, j :: 0 <= i < j < |s| ==> s[i].id != s[j].id
  }

  /** No row of `s` carries `id`. */
  ghost predicate IdFree(s: seq<Task>, id: nat) {
    forall i :: 0 <= i < |s| ==> s[i].id != id
  }

  /** Every element of `s` is the row stored under its id. */
  ghost predicate RowsOf(s: seq<Task>, rows: map<nat, Task>) {
    forall i :: 0 <= i < |s| ==> s[i].id in rows && rows[s[i].id] == s[i]
  }

  /** Every stored row appears in `s`. */
  ghost predicate Covers(s: seq<Task>, rows: map<nat, Task>) {
    forall id :: id in rows ==> rows[id] in s
  }

  /** Ids strictly increase along `s`. */
  ghost predicate AscendingIds(s: seq<Task>) {
    forall i, j :: 0 <= i < j < |s| ==> s[i].id < s[j].id
  }

  /** The rows with ids in `[lo, hi)`, in id order. */
  function RowsBetween(rows: map<nat, Task>, lo: nat, hi: nat): (r: seq<Task>)
    requires KeyedById(rows)
    ensures RowsOf(r, rows) && AscendingIds(r)
    ensures forall i :: 0 <= i < |r| ==> lo <= r[i].id < hi
    ensures forall id :: id in rows && lo <= id < hi ==> rows[id] in r
    decreases hi - lo
  {
    if hi <= lo then []
    else
      var rest := RowsBetween(rows, lo + 1, hi);
      if lo in rows then [rows[lo]] + rest else rest
  }

  /** Inserts `t` before the first row that does not start earlier. */
  function InsertByStart(t: Task, s: seq<Task>): (r: seq<Task>)
    ensures multiset(r) == multiset(s) + multiset{t}
  {
    if |s| == 0 then [t]
    else if t.startDate <= s[0].startDate then [t] + s
    else
      assert s == [s[0]] + s[1..];
      [s[0]] + InsertByStart(t, s[1..])
  }

  /** Insertion keeps a sorted sequence sorted, and the head of the result is
      the earlier of `t` and the old head. */
  lemma {:induction false} InsertKeepsSorted(t: Task, s: seq<Task>)
    requires SortedByStart(s)
    ensures SortedByStart(InsertByStart(t, s))
    ensures |s| > 0 ==> InsertByStart(t, s)[0].startDate == if t.startDate <= s[0].startDate then t.startDate else s[0].startDate
  {
    if |s| > 0 && t.startDate > s[0].startDate {
      var rest := InsertByStart(t, s[1..]);
      InsertKeepsSorted(t, s[1..]);
      var r := [s[0]] + rest;
      assert forall i :: 1 <= i < |r| ==> r[i] == rest[i - 1];
      if |s| > 1 {
        assert rest[0].startDate >= s[0].startDate;
      }
    }
  }

  /** Inserting a row whose id is new keeps ids distinct. */
  lemma {:induction false} InsertKeepsIdsDistinct(t: Task, s: seq<Task>)
    requires DistinctIds(s) && IdFree(s, t.id)
    ensures DistinctIds(InsertByStart(t, s))
  {
    if |s| == 0 {
    } else if t.startDate <= s[0].startDate {
      var r := [t] + s;
      assert forall i :: 1 <= i < |r| ==> r[i] == s[i - 1];
    } else {
      var rest := InsertByStart(t, s[1..]);
      InsertKeepsIdsDistinct(t, s[1..]);
      forall j | 0 <= j < |rest|
        ensures rest[j].id != s[0].id
      {
        assert rest[j] in multiset(rest);
        if rest[j] != t {
          assert rest[j] in multiset(s[1..]);
          var k :| 0 <= k < |s[1..]| && s[1..][k] == rest[j];
          assert s[k + 1] == rest[j];
        }
      }
      var r := [s[0]] + rest;
      assert forall i :: 1 <= i < |r| ==> r[i] == rest[i - 1];
    }
  }

  /** Insertion sort by `startDate`: a permutation of its input. */
  function SortByStart(s: seq<Task>): (r: seq<Task>)
    ensures multiset(r) == multiset(s)
  {
    if |s| == 0 then []
    else
      assert s == [s[0]] + s[1..];
      InsertByStart(s[0], SortByStart(s[1..]))
  }

  /** The sort's result is ordered by start date. */
  lemma {:induction false} SortIsSorted(s: seq<Task>)
    ensures SortedByStart(SortByStart(s))
  {
    if |s| > 0 {
      SortIsSorted(s[1..]);
      InsertKeepsSorted(s[0], SortByStart(s[1..]));
    }
  }

  /** Rearranging a sequence keeps every id it lacks absent. */
  lemma PermutationKeepsIdFree(a: seq<Task>, b: seq<Task>, id: nat)
    requires multiset(a) == multiset(b)
    requires IdFree(a, id)
    ensures IdFree(b, id)
  {
    forall i | 0 <= i < |b|
      ensures b[i].id != id
    {
      assert b[i] in multiset(a);
    }
  }

  /** The sort keeps ids distinct. */
  lemma {:induction false} SortKeepsIdsDistinct(s: seq<Task>)
    requires DistinctIds(s)
    ensures DistinctIds(SortByStart(s))
  {
    if |s| > 0 {
      var tail := s[1..];
      assert DistinctIds(tail);
      SortKeepsIdsDistinct(tail);
      assert IdFree(tail, s[0].id);
      PermutationKeepsIdFree(tail, SortByStart(tail), s[0].id);
      InsertKeepsIdsDistinct(s[0], SortByStart(tail));
    }
  }

  /** Rearranging a sequence keeps it a listing of exactly the stored rows. */
  lemma PermutationKeepsRows(a: seq<Task>, b: seq<Task>, rows: map<nat, Task>)
    requires multiset(a) == multiset(b)
    requires RowsOf(a, rows) && Covers(a, rows)
    ensures RowsOf(b, rows) && Covers(b, rows)
  {
    forall i | 0 <= i < |b|
      ensures b[i].id in rows && rows[b[i].id] == b[i]
    {
      assert b[i] in multiset(a);
    }
    forall id | id in rows
      ensures rows[id] in b
    {
      assert rows[id] in multiset(a);
    }
  }

  /** `findMany({orderBy: {startDate: "asc"}})`: every row exactly once,
      ordered by start date. */
  function FindMany(st: Store): (r: Result<seq<Task>>)
    requires Valid(st)
    ensures r.Ok? <==> st.up
    ensures r.Ok? ==>
      && SortedByStart(r.value)
      && DistinctIds(r.value)
      && RowsOf(r.value, st.rows)
      && Covers(r.value, st.rows)
  {
    if !st.up then Err(Unavailable)
    else
      var byId := RowsBetween(st.rows, 0, st.next);
      var sorted := SortByStart(byId);
      SortIsSorted(byId);
      SortKeepsIdsDistinct(byId);
      PermutationKeepsRows(byId, sorted, st.rows);
      Ok(sorted)
  }
}
