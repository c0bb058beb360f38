# Gantt task service and tooltip, modelled in Dafny

This project models the two pieces of logic of a small Gantt-chart web
application that can be stated precisely:

- **The task service** (`app/actions/task-actions.ts`): six server actions
  — `getTasks`, `createTask`, `updateTask`, `deleteTask`,
  `toggleTaskCompletion`, `seedDatabase` — over a table of tasks. Each
  action is one atomic step from a store to a new store plus a reply
  envelope (`{success, data | error | message}`). Any store failure is
  caught and reported as one fixed Spanish message per action.
- **The task tooltip** (`components/task-tooltip.tsx`): how the hover card
  picks the first `bg-` and `text-` token of a status style string, how
  the status colour and status name fall back when the lookup tables have
  no usable entry, which optional lines appear, and the completion badge
  text (`"Completada"` / `"En progreso"`).

The ORM client the actions call is replaced by `TaskStore`, a map-backed
store. It spells out the behaviour the actions rely on:

- the store assigns fresh ids;
- `update` and `delete` on a missing id fail;
- a partial update touches only the supplied fields;
- `findMany` returns every row once, ordered by `startDate`;
- every call fails while the database is unreachable (`Store.up` is false).

Files and modules:

| file | module | contents |
|---|---|---|
| `options.dfy` | `Options` | `Option`, for `T \| undefined` and nullable columns |
| `strings.dfy` | `Strings` | JavaScript `split` with a one-character separator, `startsWith`, `join` |
| `tooltip.dfy` | `TaskTooltip` | style-token extraction, status lookups, completion label, the card as data |
| `tasks.dfy` | `Tasks` | the status enumeration, the `Task` row, `TaskInput`, `Partial<TaskInput>` |
| `store.dfy` | `TaskStore` | the map-backed store: create, createMany, update, delete, count, findMany |
| `actions.dfy` | `TaskActions` | the six actions, their reply envelope and the actions as one state machine |

Modelling choices:

- Ids are natural numbers handed out by a counter in the store. In the
  source they are opaque strings generated by the database.
- Dates are integers that keep the order of the dates they stand for. The
  seed samples use yyyymmdd numbers.
  The source's `new Date(2025, 3, 15)` counts months from zero, so it
  becomes `20250415`.
- Every action requires `TaskStore.Valid`: rows are keyed by their own id,
  and all ids are below the counter. This is an invariant of the model's
  store, not a demand the source makes of its callers. `TaskActions.Step`
  proves that every action preserves it.
- The source's `createTask` turns an empty `details` or `responsible` string
  into null (`data.details || null`). It does not only default absent
  fields. `updateTask` passes its patch through unchanged, so there an empty
  string is stored as given. The model follows the code in both places.

## Model

| member | source | states |
|---|---|---|
| `Strings.Split` | components/task-tooltip.tsx:28 | `split(" ")` yields at least one piece, no piece contains the separator, and there is one more piece than separators |
| `Strings.JoinSplit` | components/task-tooltip.tsx:28 | joining the pieces of a split with the separator gives back the original class string |
| `Strings.SplitJoin` | components/task-tooltip.tsx:28 | splitting a join of separator-free tokens gives back exactly those tokens |
| `Strings.SplitWord` | components/task-tooltip.tsx:28 | a class string without a space is a single token |
| `TaskTooltip.Lookup` | components/task-tooltip.tsx:38-39 | a table read gives the own entry when there is one, else an inherited `Object.prototype` member for the twelve names a plain object inherits, else `undefined` |
| `TaskTooltip.FindToken` | components/task-tooltip.tsx:28 | `split(" ").find(...)` finds nothing exactly when no token has the prefix; otherwise it yields the first such token |
| `TaskTooltip.FindIndex` | components/task-tooltip.tsx:28 | `find` stops at the first token with the prefix, no earlier token has it, and it finds nothing exactly when no token has it |
| `TaskTooltip.BgColorClass` | components/task-tooltip.tsx:27-30 | the result always starts with `bg-`; it is the first `bg-` token when there is one and `"bg-gray-100"` when there is none; it is an input token or the default |
| `TaskTooltip.TextColorClass` | components/task-tooltip.tsx:33-36 | the result is empty or starts with `text-`; it is the first `text-` token when there is one and `""` when there is none; it is an input token or the default |
| `TaskTooltip.StatusColor` | components/task-tooltip.tsx:38 | the colour entry for the status when present and non-empty; the inherited member when the status is not an own key but names one (`"constructor"`, `"toString"`, ...); otherwise `"bg-gray-100"` |
| `TaskTooltip.StatusName` | components/task-tooltip.tsx:39 | the name entry for the status when present and non-empty; the inherited member when the status is not an own key but names one; otherwise the raw status text |
| `TaskTooltip.CompletionLabel` | components/task-tooltip.tsx:80 | `"Completada"` exactly when `completed` is true; absent or false gives `"En progreso"` |
| `TaskTooltip.Shown` | components/task-tooltip.tsx:56-68 | the responsible and details lines appear exactly when the value is present and non-empty |
| `TaskTooltip.Render` | components/task-tooltip.tsx:25-81 | the render throws exactly when the colour lookup yields an inherited member; otherwise the card shows the task's name and dates, the responsible and details lines only for truthy values, a badge captioned with the status name and styled with the first `bg-` and `text-` tokens of the status colour, and `"Completada"` exactly for a completed task |
| `TaskTooltip.DefaultsWithoutMatches` | components/task-tooltip.tsx:28-35 | a class string with no `bg-` and no `text-` token yields `"bg-gray-100"` and `""` |
| `TaskTooltip.EmptyClassesGiveDefaults` | components/task-tooltip.tsx:28-35 | the empty class string yields `"bg-gray-100"` and `""` |
| `TaskTooltip.LeadingColourTokens` | components/task-tooltip.tsx:27-36 | a class string that starts with a `bg-` token followed by a `text-` token resolves to exactly those two tokens |
| `TaskTooltip.MixedClassesExample` | components/task-tooltip.tsx:27-36 | `"bg-red-200 text-red-800 font-bold"` resolves to `"bg-red-200"` and `"text-red-800"` |
| `TaskTooltip.SingleBgWord` | components/task-tooltip.tsx:27-36 | a single `bg-` word is its own background class and gives no text class |
| `TaskTooltip.UnknownStatusBadge` | components/task-tooltip.tsx:38-76 | for a status with no entries, the badge is styled `"bg-gray-100"` with no text class and captioned with the raw status, unless the status names an inherited member, in which case the render throws |
| `TaskTooltip.DefaultTables` | components/task-tooltip.tsx:25-39 | with the default empty tables, every badge uses those fallbacks, except that a status naming an inherited member makes the render throw |
| `TaskTooltip.ConstructorStatusThrows` | components/task-tooltip.tsx:25-38 | the status `"constructor"` with the default tables makes the render throw instead of falling back |
| `TaskTooltip.StatusTextNotInherited` | app/actions/task-actions.ts:6-15 | no status text of the enumeration is an inherited member name |
| `TaskTooltip.EnumStatusFallsBack` | components/task-tooltip.tsx:38-76 | a task whose status is one of the enumeration's texts always renders, and falls back to the defaults when the tables have no entry for it |
| `Tasks.ParseStatus` | app/actions/task-actions.ts:6-15 | reading persisted status text back gives a status whose text is that input |
| `Tasks.ParseStatusText` | app/actions/task-actions.ts:6-15 | every status survives being persisted as text and read back |
| `Tasks.StatusTextInjective` | app/actions/task-actions.ts:6-15 | distinct statuses are persisted as distinct text |
| `TaskStore.Materialize` | app/actions/task-actions.ts:46-56 | a created row carries the given fields under its id; an omitted `completed` is stored as false |
| `TaskStore.Count` | app/actions/task-actions.ts:117 | `count()` succeeds exactly when the store is reachable, and then returns the number of rows |
| `TaskStore.Create` | app/actions/task-actions.ts:46-56 | `create` adds one row under the next fresh id and leaves every existing row unchanged |
| `TaskStore.CreateMany` | app/actions/task-actions.ts:145-147 | `createMany` keeps every existing row and adds exactly the batch entries, in order, under the next fresh ids, and nothing else |
| `TaskStore.ApplyPatch` | app/actions/task-actions.ts:69-72 | a partial update replaces the supplied fields and keeps every absent one and the id |
| `TaskStore.Update` | app/actions/task-actions.ts:69-72 | `update` fails with not-found on a missing id; otherwise only that row changes, to the patched row |
| `TaskStore.Delete` | app/actions/task-actions.ts:85-87 | `delete` fails with not-found on a missing id; otherwise it removes exactly that row |
| `TaskStore.InsertByStart` | app/actions/task-actions.ts:30-34 | insertion adds exactly the one row (as a multiset) |
| `TaskStore.InsertKeepsSorted` | app/actions/task-actions.ts:30-34 | inserting into a start-date-ordered list keeps it ordered |
| `TaskStore.InsertKeepsIdsDistinct` | app/actions/task-actions.ts:30-34 | inserting a row with a new id keeps the ids distinct |
| `TaskStore.SortByStart` | app/actions/task-actions.ts:30-34 | the ordering is a permutation of the rows |
| `TaskStore.SortIsSorted` | app/actions/task-actions.ts:30-34 | the ordering is non-decreasing in `startDate` |
| `TaskStore.SortKeepsIdsDistinct` | app/actions/task-actions.ts:30-34 | ordering never duplicates a row |
| `TaskStore.RowsBetween` | app/actions/task-actions.ts:30-34 | the table scan lists stored rows only, each with ascending id, and every stored row in range |
| `TaskStore.FindMany` | app/actions/task-actions.ts:30-34 | `findMany` returns every stored row exactly once, ordered by `startDate` |
| `TaskActions.CreateData` | app/actions/task-actions.ts:47-55 | the row handed to the store carries the input's fields, `completed` true only for an explicit true, and null for an absent or empty `details`/`responsible` |
| `TaskActions.CompletedOrFalse` | app/actions/task-actions.ts:52 | `completed \|\| false` is true exactly when the input says true |
| `TaskActions.TextOrNull` | app/actions/task-actions.ts:53-54 | `text \|\| null` is null exactly for an absent or empty string and otherwise the given string |
| `TaskActions.GetTasks` | app/actions/task-actions.ts:28-41 | the store is unchanged; on success every task is listed exactly once in start-date order; otherwise the reply is `"Error al obtener tareas"` |
| `TaskActions.CreateTask` | app/actions/task-actions.ts:44-64 | on success exactly one new row with the defaults applied and existing rows unchanged; otherwise the store is untouched and the reply is `"Error al crear tarea"` |
| `TaskActions.UpdateTask` | app/actions/task-actions.ts:67-80 | succeeds exactly on an existing id and then writes only the patched row; otherwise the store is untouched and the reply is `"Error al actualizar tarea"` |
| `TaskActions.DeleteTask` | app/actions/task-actions.ts:83-95 | succeeds exactly on an existing id and then removes only it; otherwise the store is untouched and the reply is `"Error al eliminar tarea"` |
| `TaskActions.ToggleTaskCompletion` | app/actions/task-actions.ts:98-111 | succeeds exactly on an existing id and then writes only `completed`; otherwise the store is untouched and the reply is `"Error al actualizar estado de tarea"` |
| `TaskActions.SampleTasks` | app/actions/task-actions.ts:123-142 | the sample dataset holds two tasks |
| `TaskActions.SeedDatabase` | app/actions/task-actions.ts:114-155 | a non-empty table is left alone with `success: true`; an empty one ends up holding exactly the two sample tasks under the next two ids; an unreachable store gives `"Error al inicializar la base de datos"` |
| `TaskActions.Step` | app/actions/task-actions.ts:28-155 | every action preserves the store invariant and the reachability of the store |
| `TaskActions.FailureIsFixedMessage` | app/actions/task-actions.ts:28-155 | every failing action leaves the store untouched and reports its own fixed message |
| `TaskActions.SuccessCondition` | app/actions/task-actions.ts:28-155 | an action fails exactly when the store is unreachable or the id it addresses is missing |
| `TaskActions.GetTasksReadsOnly` | app/actions/task-actions.ts:28-41 | `getTasks` never changes the store |
| `TaskActions.MissingIdFails` | app/actions/task-actions.ts:67-111 | update, delete and toggle on a missing id return their fixed error and change nothing |
| `TaskActions.CreateDefaults` | app/actions/task-actions.ts:46-55 | creating with every optional field omitted stores `completed = false` and null details and responsible |
| `TaskActions.CreateAddsOneRow` | app/actions/task-actions.ts:46-59 | a successful create grows the table by exactly one row |
| `TaskActions.CreateThenGet` | app/actions/task-actions.ts:44-64 | a created task is listed by the next `getTasks` |
| `TaskActions.ToggleChangesOnlyCompleted` | app/actions/task-actions.ts:100-106 | toggling sets `completed` and leaves every other field and every other task unchanged |
| `TaskActions.ToggleRoundTrip` | app/actions/task-actions.ts:98-111 | toggling on then off restores a task that started uncompleted, and the whole store with it |
| `TaskActions.UpdateStatusOnly` | app/actions/task-actions.ts:67-80 | updating only the status changes the status and nothing else |
| `TaskActions.DeleteThenGet` | app/actions/task-actions.ts:83-95 | after a successful delete, `getTasks` never lists the id, stays in start-date order, and lists every other task |
| `TaskActions.SeedNonEmptyIsNoOp` | app/actions/task-actions.ts:117-120 | seeding a non-empty table is a successful no-op |
| `TaskActions.SeedIdempotent` | app/actions/task-actions.ts:114-150 | a second seed changes nothing |
| `TaskActions.SeedTwiceFromEmpty` | app/actions/task-actions.ts:114-150 | seeding an empty table twice leaves exactly two rows |

## Left out

- The ORM client (`prisma.task.*`) is foreign code and is not part of this model. `TaskStore` states the behaviour the actions rely on as definitions; it is not a verified account of the ORM.
- `revalidatePath("/")` and `console.error` are cache and log side effects and are not modelled. Both are assumed not to throw.
- TaskActions.FailureIsFixedMessage: "a failure leaves the store untouched" assumes `revalidatePath` never throws. It runs inside the `try` after the write, so a throw there would return the fixed error with the write already made.
- JSX layout, the Card/Badge/icon components, the `cn` class joiner and `line-clamp` are presentation only.
- `date-fns` `format` with the Spanish locale is not modelled. It depends on locale and time zone. The card keeps the two raw dates.
- `app/page.tsx` is a static page shell with no logic.
- Async execution and concurrent last-writer-wins behaviour are not modelled. Each action is one atomic sequential step.
- TaskTooltip.Lookup: the tables are taken to be plain objects whose own keys are exactly the map's keys. A non-computed `__proto__:` entry in a literal sets the prototype instead of adding an own key, so that table's map has no `"__proto__"` key. A computed `["__proto__"]` key is an own key, and `Lookup` reads it as one. A table built without a prototype inherits nothing and is not modelled.
- TaskTooltip.Render: when only the name lookup yields an inherited member, the badge caption is that non-string value. How React renders it is not modelled.
- The chart component that passes tasks and lookup tables to the tooltip is not part of this model. So the stored `Task` and the tooltip's `Task`, whose status is free text, are separate types, as in the source.
- TaskStore.FindMany: rows with equal `startDate` are returned in insertion-sort order. The ORM leaves the order of ties unspecified, so the model fixes one.
- TaskStore.CreateMany: the batch is all-or-nothing. A store that fails halfway through a batch is not modelled.
- Store failures other than a missing id are reduced to one flag, `Store.up`. Constraint violations and other kinds of error are not distinguished, which matches the source: the actions never see the kind of error.
- No action validates `startDate <= endDate`, a non-empty name, or that a status belongs to the enumeration, and the model adds no such check. The status type itself is the enumeration, as the TypeScript type declares.
