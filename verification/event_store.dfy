/** The event editing store: the event as loaded, a working copy the form
    edits field by field, and the diff between the two that an edit submits. */
module EventStore {
  import opened Js

  /** An event whose every field may be absent. `start` and `end` are
      milliseconds since the epoch. */
  datatype Event = Event(title: Option<string>, description: Option<string>,
                         start: Option<int>, end: Option<int>,
                         location: Option<string>, cover: Option<string>,
                         categories: Option<seq<string>>)

  /** The event with no field set, `{}`. */
  const Blank: Event := Event(None, None, None, None, None, None, None)

  datatype EventStore = EventStore(original: Option<Event>, edited: Event)

  /** A freshly constructed store. */
  const Empty: EventStore := EventStore(None, Blank)

  /** `setEvent`: the event becomes the original and a copy of it the working copy. */
  function SetEvent(st: EventStore, e: Event): (r: EventStore)
    ensures r.original == Some(e) && r.edited == e
  {
    EventStore(Some(e), e)
  }

  datatype Field = Title | Description | Start | End | Location | Cover | Categories

  /** The value of one field, whatever its type. */
  datatype FieldValue = Text(text: Option<string>) | Millis(ms: Option<int>) | Tags(tags: Option<seq<string>>)

  function Read(e: Event, f: Field): FieldValue
  {
    match f
    case Title => Text(e.title)
    case Description => Text(e.description)
    case Start => Millis(e.start)
    case End => Millis(e.end)
    case Location => Text(e.location)
    case Cover => Text(e.cover)
    case Categories => Tags(e.categories)
  }

  /** An `updateField(field, value)` call, the value typed by its field. */
  datatype Update =
    | SetTitle(title: Option<string>)
    | SetDescription(description: Option<string>)
    | SetStart(start: Option<int>)
    | SetEnd(end: Option<int>)
    | SetLocation(location: Option<string>)
    | SetCover(cover: Option<string>)
    | SetCategories(categories: Option<seq<string>>)

  function FieldOf(u: Update): Field
  {
    match u
    case SetTitle(_) => Title
    case SetDescription(_) => Description
    case SetStart(_) => Start
    case SetEnd(_) => End
    case SetLocation(_) => Location
    case SetCover(_) => Cover
    case SetCategories(_) => Categories
  }

  function ValueOf(u: Update): FieldValue
  {
    match u
    case SetTitle(v) => Text(v)
    case SetDescription(v) => Text(v)
    case SetStart(v) => Millis(v)
    case SetEnd(v) => Millis(v)
    case SetLocation(v) => Text(v)
    case SetCover(v) => Text(v)
    case SetCategories(v) => Tags(v)
  }

  /** `updateField`: writes one field of the working copy. */
  function UpdateField(st: EventStore, u: Update): (r: EventStore)
    ensures r.original == st.original
    ensures Read(r.edited, FieldOf(u)) == ValueOf(u)
    ensures forall f :: f != FieldOf(u) ==> Read(r.edited, f) == Read(st.edited, f)
  {
    var e := st.edited;
    var edited := match u
      case SetTitle(v) => e.(title := v)
      case SetDescription(v) => e.(description := v)
      case SetStart(v) => e.(start := v)
      case SetEnd(v) => e.(end := v)
      case SetLocation(v) => e.(location := v)
      case SetCover(v) => e.(cover := v)
      case SetCategories(v) => e.(categories := v);
    EventStore(st.original, edited)
  }

  /** A field of the diff: left out, or present with a value (which may
      itself be `undefined`). */
  datatype Entry<T> = Unchanged | Changed(value: T)

  /** The diff object; `start` and `end` are reported in whole seconds. */
  datatype Changes = Changes(title: Entry<Option<string>>, description: Entry<Option<string>>,
                             start: Entry<int>, end: Entry<int>,
                             location: Entry<Option<string>>, cover: Entry<Option<string>>,
                             categories: Entry<Option<seq<string>>>)

  const NoChanges: Changes := Changes(Unchanged, Unchanged, Unchanged, Unchanged, Unchanged, Unchanged, Unchanged)

  /** `Math.floor((ms ?? 0) / 1000)`. Dafny's `/` by a positive divisor
      rounds towards negative infinity, as `Math.floor` does. */
  function Seconds(ms: Option<int>): (s: int)
    ensures var t := if ms.Some? then ms.value else 0;
            s * 1000 <= t < s * 1000 + 1000
  {
    (if ms.Some? then ms.value else 0) / 1000
  }

  function DiffEntry<T(==)>(original: T, edited: T): (d: Entry<T>)
    ensures d.Unchanged? <==> original == edited
    ensures d.Changed? ==> d.value == edited
  {
    if edited != original then Changed(edited) else Unchanged
  }

  /** The `changedFields` getter. Categories are compared through
      `JSON.stringify`, which on string arrays is whole-sequence equality. */
  function ChangedFields(st: EventStore): (c: Changes)
    ensures st.original.None? ==> c == NoChanges
  {
    match st.original
    case None => NoChanges
    case Some(o) =>
      var e := st.edited;
      Changes(DiffEntry(o.title, e.title),
              DiffEntry(o.description, e.description),
              DiffEntry(Seconds(o.start), Seconds(e.start)),
              DiffEntry(Seconds(o.end), Seconds(e.end)),
              DiffEntry(o.location, e.location),
              DiffEntry(o.cover, e.cover),
              DiffEntry(o.categories, e.categories))
  }

  /** Right after `setEvent` nothing has changed. */
  lemma SetEventHasNoChanges(st: EventStore, e: Event)
    ensures ChangedFields(SetEvent(st, e)) == NoChanges
  {
  }

  /** A text field is in the diff exactly when its edited value differs, and
      then it carries the edited value. */
  lemma TextFieldDiff(st: EventStore)
    requires st.original.Some?
    ensures var o, e, c := st.original.value, st.edited, ChangedFields(st);
            && (c.title.Changed? <==> e.title != o.title) && (c.title.Changed? ==> c.title.value == e.title)
            && (c.description.Changed? <==> e.description != o.description) && (c.description.Changed? ==> c.description.value == e.description)
            && (c.location.Changed? <==> e.location != o.location) && (c.location.Changed? ==> c.location.value == e.location)
            && (c.cover.Changed? <==> e.cover != o.cover) && (c.cover.Changed? ==> c.cover.value == e.cover)
  {
  }

  /** `start` and `end` are in the diff exactly when their whole seconds
      differ, absent counting as 0, and they carry the edited seconds. */
  lemma TimeFieldDiff(st: EventStore)
    requires st.original.Some?
    ensures var o, e, c := st.original.value, st.edited, ChangedFields(st);
            && (c.start.Changed? <==> Seconds(e.start) != Seconds(o.start)) && (c.start.Changed? ==> c.start.value == Seconds(e.start))
            && (c.end.Changed? <==> Seconds(e.end) != Seconds(o.end)) && (c.end.Changed? ==> c.end.value == Seconds(e.end))
  {
  }

  /** An edit within the same second is not reported. */
  lemma SubSecondEditNotReported(st: EventStore, ms: int, delta: int)
    requires st.original.Some? && st.original.value.start == Some(ms)
    requires 0 <= ms % 1000 + delta < 1000
    ensures ChangedFields(UpdateField(st, SetStart(Some(ms + delta)))).start.Unchanged?
  {
  }

  /** An absent start and a start within the first second after the epoch
      compare equal, so setting such a start is not reported. */
  lemma AbsentStartCountsAsZero(e: Event)
    requires e.start.None?
    ensures ChangedFields(UpdateField(SetEvent(Empty, e), SetStart(Some(999)))).start.Unchanged?
  {
  }

  /** `categories` is in the diff exactly when the edited list differs as a
      whole sequence: reordering counts as a change. */
  lemma CategoriesDiff(st: EventStore)
    requires st.original.Some?
    ensures var c := ChangedFields(st);
            (c.categories.Changed? <==> st.edited.categories != st.original.value.categories)
            && (c.categories.Changed? ==> c.categories.value == st.edited.categories)
  {
  }

  /** Applies a diff to an event the way a partial update does: every
      reported field is overwritten, times converted back from seconds. */
  function Apply(e: Event, c: Changes): Event
  {
    Event(if c.title.Changed? then c.title.value else e.title,
          if c.description.Changed? then c.description.value else e.description,
          if c.start.Changed? then Some(c.start.value * 1000) else e.start,
          if c.end.Changed? then Some(c.end.value * 1000) else e.end,
          if c.location.Changed? then c.location.value else e.location,
          if c.cover.Changed? then c.cover.value else e.cover,
          if c.categories.Changed? then c.categories.value else e.categories)
  }

  /** Applying the diff to the original reproduces the working copy: every
      field but the times exactly, the times to the second. */
  lemma ApplyDiffReproducesEdit(st: EventStore)
    requires st.original.Some?
    ensures var r := Apply(st.original.value, ChangedFields(st));
            && r.title == st.edited.title && r.description == st.edited.description
            && r.location == st.edited.location && r.cover == st.edited.cover
            && r.categories == st.edited.categories
            && Seconds(r.start) == Seconds(st.edited.start) && Seconds(r.end) == Seconds(st.edited.end)
  {
  }

  /** The diff is empty exactly when the working copy matches the original,
      times compared to the second. */
  lemma NoChangesIff(st: EventStore)
    requires st.original.Some?
    ensures var o, e := st.original.value, st.edited;
            ChangedFields(st) == NoChanges <==>
              && e.title == o.title && e.description == o.description
              && Seconds(e.start) == Seconds(o.start) && Seconds(e.end) == Seconds(o.end)
              && e.location == o.location && e.cover == o.cover && e.categories == o.categories
  {
  }
}
