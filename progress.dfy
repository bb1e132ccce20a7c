/** Per-card scheduling state of the flashcard tool: the progress map kept
    in memory, the single storage slot it is saved to, the three review
    outcomes with their day offsets, the update a review makes, and the
    due cell (date, overdue mark or "Unseen") shown for a card.

    Dates are day numbers (days since 1970-01-01); the textual form
    "YYYY-MM-DD" in which the source stores them is an injective encoding
    of the day and is not modelled. */
module Progress {

  datatype Option<T> = None | Some(value: T)

  datatype Result<T, E> = Ok(value: T) | Err(error: E)

  /** A card identifier as it is used as a key of the progress object: the
      dataset's `ID` column, converted to a property key. */
  type CardId = string

  /** A calendar day, counted in days since 1970-01-01. */
  type Day = int

  /** One record of the dataset. Only `id` matters to scheduling; the
      other columns are display data. */
  datatype Card = Card(id: CardId, idiom: string, details: map<string, string>)

  /** The progress entry of one card: its due day, when it has one, and any
      other fields a stored entry carries, which are kept as they are. */
  datatype Entry = Entry(dueDate: Option<Day>, extra: map<string, string>)

  type ProgressMap = map<CardId, Entry>

  /** `progressData[id]?.dueDate`: the due day stored for a card, or None
      when the card has no entry or its entry has no due date. */
  function StoredDue(p: ProgressMap, id: CardId): (due: Option<Day>)
    ensures id !in p ==> due == None
    ensures id in p ==> due == p[id].dueDate
  {
    if id in p then p[id].dueDate else None
  }

  // ---------------------------------------------------------------------
  // Persistence: the one storage slot "flashcardProgress"
  // ---------------------------------------------------------------------

  /** The storage slot: nothing (or an empty string) stored, a serialized
      progress map, or text that is not a valid serialization. */
  datatype Slot = Empty | Snapshot(saved: ProgressMap) | Unparsable

  datatype LoadError = CorruptStorage

  /** `loadProgress`: an empty slot gives the empty map; a corrupt slot makes
      the parse throw, which nothing catches. */
  function LoadProgress(slot: Slot): (r: Result<ProgressMap, LoadError>)
    ensures slot.Empty? ==> r == Ok(map[])
    ensures slot.Snapshot? ==> r == Ok(slot.saved)
    ensures r.Err? <==> slot.Unparsable?
  {
    match slot
    case Empty => Ok(map[])
    case Snapshot(m) => Ok(m)
    case Unparsable => Err(CorruptStorage)
  }

  /** `saveProgress`: overwrite the slot with the whole map. */
  function SaveProgress(p: ProgressMap): (slot: Slot)
    ensures LoadProgress(slot) == Ok(p)
  {
    Snapshot(p)
  }

  // ---------------------------------------------------------------------
  // Review outcomes
  // ---------------------------------------------------------------------

  datatype Outcome = Again | Good | Easy

  /** The `dayOffset` table: days until the card is due again. */
  function DayOffset(o: Outcome): (days: nat)
    ensures days >= 1
  {
    match o
    case Again => 1
    case Good => 3
    case Easy => 7
  }

  /** A better outcome never schedules a card sooner. */
  lemma DayOffsetOrdered()
    ensures DayOffset(Again) == 1 && DayOffset(Good) == 3 && DayOffset(Easy) == 7
    ensures DayOffset(Again) < DayOffset(Good) < DayOffset(Easy)
  {
  }

  /** The due day a review on `today` with outcome `o` sets: strictly after
      today, by exactly the outcome's offset. (The source builds a Date for
      it; index.js:240 calls an undefined `newIDate`, modelled here as the
      evidently intended `new Date`.) */
  function NextDueDate(o: Outcome, today: Day): (due: Day)
    ensures due > today
    ensures due - today == DayOffset(o)
  {
    today + DayOffset(o)
  }

  /** `(progressData[id] ??= {}).dueDate = ...`: the entry of `id` is created
      when absent; its due date is set and its other fields are kept; no
      other entry changes. (index.js:241 keys the map by `card.id`; the
      model uses the one identifier `ID` the rest of the source uses.) */
  function RecordReview(p: ProgressMap, id: CardId, o: Outcome, today: Day): (r: ProgressMap)
    ensures r.Keys == p.Keys + {id}
    ensures r[id].dueDate == Some(today + DayOffset(o))
    ensures id in p ==> r[id].extra == p[id].extra
    ensures id !in p ==> r[id].extra == map[]
    ensures forall k :: k in p && k != id ==> r[k] == p[k]
  {
    var entry := if id in p then p[id] else Entry(None, map[]);
    p[id := entry.(dueDate := Some(NextDueDate(o, today)))]
  }

  /** After a review the card's stored due day is the new due date and every
      other card's stored due day is what it was. */
  lemma ReviewSetsOnlyThisDue(p: ProgressMap, id: CardId, o: Outcome, today: Day, other: CardId)
    ensures StoredDue(RecordReview(p, id, o, today), id) == Some(NextDueDate(o, today))
    ensures other != id ==> StoredDue(RecordReview(p, id, o, today), other) == StoredDue(p, other)
  {
  }

  // ---------------------------------------------------------------------
  // The due cell of a row: date and overdue mark, or "Unseen"
  // ---------------------------------------------------------------------

  datatype DueCell = Unseen | Due(day: Day, overdue: bool)

  /** What `updateEntries` shows for a card on `today`: without a due date
      the cell reads "Unseen" and carries no overdue mark; with one, the cell
      shows it and is marked overdue when the due day is strictly before
      today, both taken at day granularity. */
  function ShowDue(due: Option<Day>, today: Day): (c: DueCell)
    ensures c.Unseen? <==> due.None?
    ensures c.Due? ==> Some(c.day) == due && (c.overdue <==> c.day < today)
  {
    match due
    case None => Unseen
    case Some(d) => Due(d, d < today)
  }

  predicate Overdue(c: DueCell)
  {
    c.Due? && c.overdue
  }

  /** Due yesterday is overdue; due today or tomorrow is not; no due date
      shows "Unseen" and is never overdue. */
  lemma OverdueBoundary(today: Day)
    ensures ShowDue(Some(today - 1), today) == Due(today - 1, true)
    ensures ShowDue(Some(today), today) == Due(today, false)
    ensures ShowDue(Some(today + 1), today) == Due(today + 1, false)
    ensures ShowDue(None, today) == Unseen && !Overdue(ShowDue(None, today))
  {
  }

  /** The overdue mark, as a function of the day the list is shown: a card
      is overdue on exactly the days after its due day, so once overdue it
      stays overdue. */
  lemma OverdueExactlyAfterDue(due: Day, t1: Day, t2: Day)
    ensures Overdue(ShowDue(Some(due), t1)) <==> due < t1
    ensures t1 <= t2 && Overdue(ShowDue(Some(due), t1)) ==> Overdue(ShowDue(Some(due), t2))
  {
  }

  /** A card just reviewed shows its new due date; it is not overdue on any
      day up to and including that date (so neither on the day of the review
      nor the day after), and is overdue on every later day. */
  lemma ReviewedCardNotOverdueUntilDue(p: ProgressMap, id: CardId, o: Outcome, today: Day, t: Day)
    ensures ShowDue(StoredDue(RecordReview(p, id, o, today), id), t)
         == Due(today + DayOffset(o), today + DayOffset(o) < t)
    ensures !Overdue(ShowDue(StoredDue(RecordReview(p, id, o, today), id), t)) <==> t <= NextDueDate(o, today)
  {
  }

  // ---------------------------------------------------------------------
  // The review update as the source is written
  // ---------------------------------------------------------------------

  datatype ReviewError = ReferenceError

  /** index.js:240 as written: `newIDate` is not defined, so evaluating the
      due date throws before the map is touched or saved. */
  function UpdateDueDateAsWritten(p: ProgressMap, id: CardId, o: Outcome, today: Day): (r: Result<ProgressMap, ReviewError>)
    ensures r == Err(ReferenceError)
  {
    Err(ReferenceError)
  }

  /** As written, no review outcome ever records anything: the as-written
      update never yields the intended map, the one in which the card is
      due on the next due date. */
  lemma AsWrittenReviewNeverRecords(p: ProgressMap, id: CardId, o: Outcome, today: Day)
    ensures UpdateDueDateAsWritten(p, id, o, today) != Ok(RecordReview(p, id, o, today))
    ensures StoredDue(RecordReview(p, id, o, today), id) == Some(NextDueDate(o, today))
  {
  }

  /** The property key `card.id` evaluates to on a dataset record: records
      have an `ID` column and no `id`, and an undefined key is the string
      "undefined". */
  const UndefinedKey: CardId := "undefined"

  /** index.js:241 with line 240 fixed: the entry updated is the one under
      "undefined", whatever the current card is. As written, line 240 throws
      first, so this latent defect is hidden until that line is fixed. */
  function RecordReviewUnderLowercaseId(p: ProgressMap, o: Outcome, today: Day): (r: ProgressMap)
    ensures r.Keys == p.Keys + {UndefinedKey}
    ensures r[UndefinedKey].dueDate == Some(NextDueDate(o, today))
    ensures forall k :: k in p && k != UndefinedKey ==> r[k] == p[k]
  {
    RecordReview(p, UndefinedKey, o, today)
  }

  /** With line 240 fixed, reviewing a card leaves that card's own due date as it was:
      a card never reviewed before stays "Unseen" after its review. */
  lemma LowercaseIdReviewMissesCard(p: ProgressMap, c: Card, o: Outcome, today: Day)
    requires c.id != UndefinedKey
    ensures StoredDue(RecordReviewUnderLowercaseId(p, o, today), c.id) == StoredDue(p, c.id)
    ensures c.id !in p ==> ShowDue(StoredDue(RecordReviewUnderLowercaseId(p, o, today), c.id), today) == Unseen
  {
  }
}
