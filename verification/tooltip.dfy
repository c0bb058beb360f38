/** The hover card of one Gantt bar (`components/task-tooltip.tsx`), with the
    JSX layout reduced to the data it shows: which style tokens the status badge
    gets, which labels it reads, and which optional lines appear. */
module TaskTooltip {
  import opened Options
  import opened Strings
  import Tasks

  /** The task as the tooltip receives it: the status is free text here, and
      the optional fields may be absent. Dates are integers that keep
      their order. */
  datatype Task = Task(
    id: string,
    name: string,
    startDate: int,
    endDate: int,
    status: string,
    completed: Option<bool>,
    details: Option<string>,
    responsible: Option<string>)

  const DefaultBg: string := "bg-gray-100"
  const DefaultText: string := ""
  const BgPrefix: string := "bg-"
  const TextPrefix: string := "text-"
  const CompletedLabel: string := "Completada"
  const InProgressLabel: string := "En progreso"

  /** What a property read `table[key]` on a plain object can give: one of
      its own string entries, `undefined`, or a member inherited from
      `Object.prototype`. An inherited member is a function, or the prototype
      object itself for `__proto__`: truthy, and not a string. */
  datatype Value = Str(s: string) | Undefined | Inherited

  /** The property names every plain object inherits from `Object.prototype`. */
  const InheritedNames: set<string> := {
    "constructor", "__proto__", "toString", "toLocaleString", "valueOf",
    "hasOwnProperty", "isPrototypeOf", "propertyIsEnumerable",
    "__defineGetter__", "__defineSetter__", "__lookupGetter__", "__lookupSetter__"
  }

  /** JavaScript truthiness: a non-empty string or any inherited member. */
  predicate Truthy(v: Value) {
    v.Inherited? || (v.Str? && v.s != "")
  }

  /** A `string | undefined` field as a JavaScript value. */
  function OfOption(v: Option<string>): Value {
    match v
    case Some(s) => Str(s)
    case None => Undefined
  }

  /** `v || fallback`. */
  function Or(v: Value, fallback: Value): Value {
    if Truthy(v) then v else fallback
  }

  /** `table[key]` on a lookup table built as an object literal: an own entry,
      else an inherited member, else `undefined`. */
  function Lookup(table: map<string, string>, key: string): (v: Value)
    ensures v.Str? <==> key in table
    ensures v.Str? ==> v.s == table[key]
    ensures v.Inherited? <==> key !in table && key in InheritedNames
  {
    if key in table then Str(table[key])
    else if key in InheritedNames then Inherited
    else Undefined
  }

  /** Token `i` is the first of `tokens` that starts with `prefix`. */
  ghost predicate IsFirstMatch(tokens: seq<string>, prefix: string, i: int) {
    && 0 <= i < |tokens|
    && StartsWith(prefix, tokens[i])
    && forall j :: 0 <= j < i ==> !StartsWith(prefix, tokens[j])
  }

  /** No token starts with `prefix`. */
  ghost predicate NoMatch(tokens: seq<string>, prefix: string) {
    forall j :: 0 <= j < |tokens| ==> !StartsWith(prefix, tokens[j])
  }

  /** The index `Array.prototype.find` stops at, searching for the first token
      that starts with `prefix`. */
  function FindIndex(tokens: seq<string>, prefix: string): (r: Option<nat>)
    ensures r.None? <==> NoMatch(tokens, prefix)
    ensures r.Some? ==> IsFirstMatch(tokens, prefix, r.value)
  {
    if |tokens| == 0 then None
    else if StartsWith(prefix, tokens[0]) then Some(0)
    else match FindIndex(tokens[1..], prefix)
      case None => None
      case Some(k) => Some(k + 1)
  }

  /** `classes.split(" ").find(cls => cls.startsWith(prefix))`. */
  function FindToken(classes: string, prefix: string): (r: Option<string>)
    ensures r.None? <==> NoMatch(Split(classes, ' '), prefix)
    ensures r.Some? ==> r.value in Split(classes, ' ') && StartsWith(prefix, r.value)
    ensures forall i :: IsFirstMatch(Split(classes, ' '), prefix, i) ==> r == Some(Split(classes, ' ')[i])
  {
    var tokens := Split(classes, ' ');
    match FindIndex(tokens, prefix)
    case None => None
    case Some(i) => Some(tokens[i])
  }

  /** `getBgColorClass`: the first background-colour token, else the neutral
      default. */
  function BgColorClass(classes: string): (r: string)
    ensures StartsWith(BgPrefix, r)
    ensures r in Split(classes, ' ') || r == DefaultBg
    ensures NoMatch(Split(classes, ' '), BgPrefix) ==> r == DefaultBg
    ensures forall i :: IsFirstMatch(Split(classes, ' '), BgPrefix, i) ==> r == Split(classes, ' ')[i]
  {
    match Or(OfOption(FindToken(classes, BgPrefix)), Str(DefaultBg))
    case Str(c) => c
    case _ => assert false; DefaultBg
  }

  /** `getTextColorClass`: the first text-colour token, else the empty
      string. */
  function TextColorClass(classes: string): (r: string)
    ensures r != DefaultText ==> StartsWith(TextPrefix, r)
    ensures r in Split(classes, ' ') || r == DefaultText
    ensures NoMatch(Split(classes, ' '), TextPrefix) ==> r == DefaultText
    ensures forall i :: IsFirstMatch(Split(classes, ' '), TextPrefix, i) ==> r == Split(classes, ' ')[i]
  {
    match Or(OfOption(FindToken(classes, TextPrefix)), Str(DefaultText))
    case Str(c) => c
    case _ => assert false; DefaultText
  }

  /** `statusColors[task.status] || "bg-gray-100"`. */
  function StatusColor(statusColors: map<string, string>, status: string): (v: Value)
    ensures status in statusColors && statusColors[status] != "" ==> v == Str(statusColors[status])
    ensures status in statusColors && statusColors[status] == "" ==> v == Str(DefaultBg)
    ensures status !in statusColors && status !in InheritedNames ==> v == Str(DefaultBg)
    ensures status !in statusColors && status in InheritedNames ==> v == Inherited
  {
    Or(Lookup(statusColors, status), Str(DefaultBg))
  }

  /** `statusNames[task.status] || task.status`. */
  function StatusName(statusNames: map<string, string>, status: string): (v: Value)
    ensures status in statusNames && statusNames[status] != "" ==> v == Str(statusNames[status])
    ensures status in statusNames && statusNames[status] == "" ==> v == Str(status)
    ensures status !in statusNames && status !in InheritedNames ==> v == Str(status)
    ensures status !in statusNames && status in InheritedNames ==> v == Inherited
  {
    Or(Lookup(statusNames, status), Str(status))
  }

  /** The completion badge: `task.completed ? "Completada" : "En progreso"`. */
  function CompletionLabel(completed: Option<bool>): (r: string)
    ensures r == CompletedLabel <==> completed == Some(true)
    ensures r == InProgressLabel <==> completed != Some(true)
  {
    if completed.Some? && completed.value then CompletedLabel else InProgressLabel
  }

  /** The status badge: its caption and the two colour tokens it is styled
      with. The caption is whatever the name lookup gave. */
  datatype Badge = Badge(caption: Value, bgClass: string, textClass: string)

  /** What the card shows. The date range is kept as the two dates. */
  datatype View = View(
    title: string,
    startDate: int,
    endDate: int,
    responsibleLine: Option<string>,
    detailsLine: Option<string>,
    statusBadge: Badge,
    completionBadge: string)

  /** `{v && <line/>}`: the line appears only for a truthy value. */
  function Shown(v: Option<string>): (r: Option<string>)
    ensures r.Some? <==> Truthy(OfOption(v))
    ensures r.Some? ==> r == v
  {
    if Truthy(OfOption(v)) then v else None
  }

  /** The whole card for `task`; the two lookup tables default to `{}`.
      `None` is a render that throws: when the colour lookup yields an
      inherited member, `getBgColorClass` calls `split` on a value that is
      not a string. */
  function Render(task: Task, statusColors: map<string, string>, statusNames: map<string, string>): (r: Option<View>)
    ensures r.None? <==> task.status !in statusColors && task.status in InheritedNames
    ensures r.Some? ==>
      && var v := r.value;
      && var color := StatusColor(statusColors, task.status);
      && v.title == task.name
      && v.startDate == task.startDate && v.endDate == task.endDate
      && v.responsibleLine == Shown(task.responsible)
      && v.detailsLine == Shown(task.details)
      && v.statusBadge.caption == StatusName(statusNames, task.status)
      && color.Str?
      && v.statusBadge.bgClass == BgColorClass(color.s)
      && v.statusBadge.textClass == TextColorClass(color.s)
      && StartsWith(BgPrefix, v.statusBadge.bgClass)
      && (v.statusBadge.textClass == DefaultText || StartsWith(TextPrefix, v.statusBadge.textClass))
      && v.completionBadge == CompletionLabel(task.completed)
      && (v.completionBadge == CompletedLabel <==> task.completed == Some(true))
  {
    match StatusColor(statusColors, task.status)
    case Str(color) =>
      Some(View(
        task.name,
        task.startDate,
        task.endDate,
        Shown(task.responsible),
        Shown(task.details),
        Badge(StatusName(statusNames, task.status), BgColorClass(color), TextColorClass(color)),
        CompletionLabel(task.completed)))
    case _ => None
  }

  /** A string with no matching token, the empty string among them, yields
      both defaults. */
  lemma DefaultsWithoutMatches(classes: string)
    requires NoMatch(Split(classes, ' '), BgPrefix)
    requires NoMatch(Split(classes, ' '), TextPrefix)
    ensures BgColorClass(classes) == DefaultBg
    ensures TextColorClass(classes) == DefaultText
  {
  }

  /** The empty class string has a single empty token, which matches neither
      prefix. */
  lemma EmptyClassesGiveDefaults()
    ensures BgColorClass("") == DefaultBg
    ensures TextColorClass("") == DefaultText
  {
  }

  /** A class string whose first token is a background colour and whose
      second is a text colour resolves to exactly those two tokens. */
  lemma {:induction false} LeadingColourTokens(bg: string, text: string, others: string)
    requires ' ' !in bg && ' ' !in text
    requires StartsWith(BgPrefix, bg) && !StartsWith(TextPrefix, bg)
    requires StartsWith(TextPrefix, text)
    ensures BgColorClass(bg + " " + text + " " + others) == bg
    ensures TextColorClass(bg + " " + text + " " + others) == text
  {
    var rest := Split(others, ' ');
    var classes := bg + " " + text + " " + others;
    assert classes == bg + ([' '] + (text + ([' '] + others)));
    SplitAfterWord(bg, [' '] + (text + ([' '] + others)), ' ');
    SplitAfterWord(text, [' '] + others, ' ');
    var tokens := Split(classes, ' ');
    assert tokens[0] == bg && tokens[1] == text;
    assert IsFirstMatch(tokens, BgPrefix, 0);
    assert IsFirstMatch(tokens, TextPrefix, 1);
  }

  /** The worked example: `"bg-red-200 text-red-800 font-bold"` gives
      `"bg-red-200"` and `"text-red-800"`. The class string is a parameter
      bound by the precondition, so the verifier reasons about it through
      `LeadingColourTokens` instead of unfolding `Split` over the literal. */
  lemma MixedClassesExample(classes: string)
    requires classes == "bg-red-200 text-red-800 font-bold"
    ensures BgColorClass(classes) == "bg-red-200"
    ensures TextColorClass(classes) == "text-red-800"
  {
    var bg, text, others := "bg-red-200", "text-red-800", "font-bold";
    // Its first letter keeps "bg-red-200" from starting with "text-".
    assert bg[..5][0] == 'b';
    assert StartsWith(BgPrefix, bg);
    assert StartsWith(TextPrefix, text);
    assert bg + " " + text + " " + others == classes;
    LeadingColourTokens(bg, text, others);
  }

  /** A single background-colour word: its own background class, no text
      class. */
  lemma {:induction false} SingleBgWord(w: string)
    requires ' ' !in w
    requires StartsWith(BgPrefix, w) && !StartsWith(TextPrefix, w)
    ensures BgColorClass(w) == w
    ensures TextColorClass(w) == DefaultText
  {
    SplitWord(w, ' ');
    assert IsFirstMatch([w], BgPrefix, 0);
    assert NoMatch([w], TextPrefix);
  }

  /** With no entry for the status in either table, the card falls back to
      the neutral background, no text colour and the raw status as caption,
      unless the status names an inherited member, in which case the render
      throws. */
  lemma UnknownStatusBadge(task: Task, statusColors: map<string, string>, statusNames: map<string, string>)
    requires task.status !in statusColors
    requires task.status !in statusNames
    ensures task.status in InheritedNames ==> Render(task, statusColors, statusNames).None?
    ensures task.status !in InheritedNames ==>
      && Render(task, statusColors, statusNames).Some?
      && Render(task, statusColors, statusNames).value.statusBadge == Badge(Str(task.status), DefaultBg, DefaultText)
  {
    // Its first letter keeps "bg-gray-100" from starting with "text-".
    assert DefaultBg[..5][0] == 'b';
    assert StartsWith(BgPrefix, DefaultBg);
    SingleBgWord(DefaultBg);
  }

  /** The tables default to `{}`: every card then uses the fallbacks, or
      throws for an inherited member name. */
  lemma DefaultTables(task: Task)
    ensures task.status in InheritedNames ==> Render(task, map[], map[]).None?
    ensures task.status !in InheritedNames ==>
      Render(task, map[], map[]).Some? &&
      Render(task, map[], map[]).value.statusBadge == Badge(Str(task.status), DefaultBg, DefaultText)
  {
    UnknownStatusBadge(task, map[], map[]);
  }

  /** The status `"constructor"` with the default tables: `statusColors
      ["constructor"]` is the inherited `Object` function, and the card
      throws instead of falling back. */
  lemma ConstructorStatusThrows(task: Task)
    requires task.status == "constructor"
    ensures Render(task, map[], map[]) == None
  {
  }

  /** No status of the enumeration names an inherited member. */
  lemma StatusTextNotInherited(s: Tasks.TaskStatus)
    ensures Tasks.StatusText(s) !in InheritedNames
  {
  }

  /** A task whose status is one of the enumeration's texts always renders,
      and falls back when the tables have no entry for it. */
  lemma EnumStatusFallsBack(task: Task, s: Tasks.TaskStatus, statusColors: map<string, string>, statusNames: map<string, string>)
    requires task.status == Tasks.StatusText(s)
    requires task.status !in statusColors
    requires task.status !in statusNames
    ensures Render(task, statusColors, statusNames).Some?
    ensures Render(task, statusColors, statusNames).value.statusBadge == Badge(Str(task.status), DefaultBg, DefaultText)
  {
    StatusTextNotInherited(s);
    UnknownStatusBadge(task, statusColors, statusNames);
  }
}
