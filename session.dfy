/** The running study session: the deck fixed at startup, the index of the
    card shown, the progress map with its storage slot, and the side of the
    card facing the user, with the actions the page binds to its buttons,
    list rows and card. */
module Session {
  import opened Progress
  import opened Ordering

  // ---------------------------------------------------------------------
  // Index arithmetic
  // ---------------------------------------------------------------------

  /** `(currentIndex + 1) % cards.length`: one card on, the last card
      wrapping to the first. */
  function NextIndex(i: nat, n: nat): (r: nat)
    requires i < n
    ensures r < n
    ensures r == if i == n - 1 then 0 else i + 1
  {
    (i + 1) % n
  }

  /** `(currentIndex - 1 + cards.length) % cards.length`: one card back, the
      first card wrapping to the last. The dividend is never negative, so
      JavaScript's `%` and Dafny's agree on it. */
  function PrevIndex(i: nat, n: nat): (r: nat)
    requires i < n
    ensures r < n
    ensures r == if i == 0 then n - 1 else i - 1
  {
    (i - 1 + n) % n
  }

  /** Previous undoes next and next undoes previous; on a one-card deck both
      stay at index 0. */
  lemma NavigationInverse(i: nat, n: nat)
    requires i < n
    ensures PrevIndex(NextIndex(i, n), n) == i
    ensures NextIndex(PrevIndex(i, n), n) == i
    ensures n == 1 ==> NextIndex(i, n) == 0 && PrevIndex(i, n) == 0
  {
  }

  /** The index after pressing "next" k times. */
  function NextTimes(i: nat, n: nat, k: nat): (r: nat)
    requires i < n
    ensures r < n
  {
    if k == 0 then i else NextIndex(NextTimes(i, n, k - 1), n)
  }

  /** Pressing "next" k times, up to a full round, moves k cards on,
      wrapping past the end once at most. */
  lemma {:induction false} NextTimesMoves(i: nat, n: nat, k: nat)
    requires i < n && k <= n
    ensures NextTimes(i, n, k) == if i + k < n then i + k else i + k - n
  {
    if k > 0 {
      NextTimesMoves(i, n, k - 1);
    }
  }

  /** From any card, "next" reaches every card of the deck within one round,
      and n presses come back to the start. */
  lemma FullCircle(i: nat, n: nat, j: nat)
    requires i < n && j < n
    ensures NextTimes(i, n, n) == i
    ensures NextTimes(i, n, if i <= j then j - i else j + n - i) == j
  {
    NextTimesMoves(i, n, n);
    NextTimesMoves(i, n, if i <= j then j - i else j + n - i);
  }

  // ---------------------------------------------------------------------
  // The card's side
  // ---------------------------------------------------------------------

  datatype Side = Front | Back

  /** `side === "front" ? "back" : "front"` */
  function Flipped(s: Side): (r: Side)
    ensures r != s
  {
    if s == Front then Back else Front
  }

  /** Two flips return to the starting side. */
  lemma FlipTwice(s: Side)
    ensures Flipped(Flipped(s)) == s
  {
  }

  // ---------------------------------------------------------------------
  // The list of entries
  // ---------------------------------------------------------------------

  /** The state of one list row: highlighted or not, and its due cell. */
  datatype Row = Row(highlighted: bool, due: DueCell)

  /** `updateEntries`: for each card of the deck, its row is highlighted
      exactly when it is the current card, and its due cell shows the stored
      due date with the overdue mark for `today`, or "Unseen". */
  method UpdateEntries(cards: seq<Card>, p: ProgressMap, current: nat, today: Day) returns (rows: seq<Row>)
    ensures |rows| == |cards|
    ensures forall i :: 0 <= i < |rows| ==> (rows[i].highlighted <==> i == current)
    ensures forall i :: 0 <= i < |rows| ==> rows[i].due == ShowDue(StoredDue(p, cards[i].id), today)
  {
    rows := [];
    var index := 0;
    while index < |cards|
      invariant 0 <= index <= |cards|
      invariant |rows| == index
      invariant forall i :: 0 <= i < index ==> (rows[i].highlighted <==> i == current)
      invariant forall i :: 0 <= i < index ==> rows[i].due == ShowDue(StoredDue(p, cards[i].id), today)
    {
      var due := StoredDue(p, cards[index].id);
      var cell := if due.Some? then Due(due.value, due.value < today) else Unseen;
      rows := rows + [Row(index == current, cell)];
      index := index + 1;
    }
  }

  // ---------------------------------------------------------------------
  // The session
  // ---------------------------------------------------------------------

  class FlashcardSession {
    /** The deck, sorted once at startup and never re-sorted. */
    const deck: seq<Card>
    var currentIndex: nat
    var progress: ProgressMap
    /** The storage slot "flashcardProgress". */
    var store: Slot
    var side: Side

    /** The index is in range, and the slot always loads back to the map in
        memory: every change to the map is saved at once. */
    ghost predicate Valid()
      reads this
    {
      currentIndex < |deck| && LoadProgress(store) == Ok(progress)
    }

    /** Startup: load the progress from the slot, sort the dataset by it and
        show the first card, front side up. A corrupt slot makes the parse
        throw, so nothing starts; an empty dataset leaves no card to show. */
    constructor (dataset: seq<Card>, slot: Slot)
      requires |dataset| > 0
      requires LoadProgress(slot).Ok?
      ensures Valid()
      ensures deck == SortDeck(dataset, LoadProgress(slot).value)
      ensures progress == LoadProgress(slot).value && store == slot
      ensures currentIndex == 0 && side == Front
    {
      var loaded := LoadProgress(slot).value;
      deck := SortDeck(dataset, loaded);
      progress := loaded;
      store := slot;
      currentIndex := 0;
      side := Front;
    }

    /** `cards[currentIndex]` */
    function CurrentCard(): Card
      reads this
      requires Valid()
    {
      deck[currentIndex]
    }

    method PreviousCard()
      requires Valid()
      modifies this`currentIndex
      ensures Valid()
      ensures currentIndex == PrevIndex(old(currentIndex), |deck|)
    {
      currentIndex := (currentIndex - 1 + |deck|) % |deck|;
    }

    method NextCard()
      requires Valid()
      modifies this`currentIndex
      ensures Valid()
      ensures currentIndex == NextIndex(old(currentIndex), |deck|)
    {
      currentIndex := (currentIndex + 1) % |deck|;
    }

    /** `renderCard`: reset the card to its front, show the current card and
        refresh the list. */
    method RenderCard(today: Day) returns (shown: Card, rows: seq<Row>)
      requires Valid()
      modifies this`side
      ensures Valid() && side == Front
      ensures shown == CurrentCard()
      ensures |rows| == |deck|
      ensures forall i :: 0 <= i < |rows| ==> (rows[i].highlighted <==> i == currentIndex)
      ensures forall i :: 0 <= i < |rows| ==> rows[i].due == ShowDue(StoredDue(progress, deck[i].id), today)
    {
      side := Front;
      shown := deck[currentIndex];
      rows := UpdateEntries(deck, progress, currentIndex, today);
    }

    /** A click on the card: only a click on a card face flips it. */
    method ClickCard(onCardFace: bool)
      requires Valid()
      modifies this`side
      ensures Valid()
      ensures side == if onCardFace then Flipped(old(side)) else old(side)
    {
      if onCardFace {
        side := if side == Front then Back else Front;
      }
    }

    /** A click on list row `index` (rows exist only for deck positions):
        jump to that card and render it. */
    method ClickRow(index: nat, today: Day) returns (shown: Card, rows: seq<Row>)
      requires Valid() && index < |deck|
      modifies this`currentIndex, this`side
      ensures Valid() && currentIndex == index && side == Front
      ensures shown == CurrentCard() && |rows| == |deck|
      ensures forall i :: 0 <= i < |rows| ==> (rows[i].highlighted <==> i == currentIndex)
      ensures forall i :: 0 <= i < |rows| ==> rows[i].due == ShowDue(StoredDue(progress, deck[i].id), today)
      ensures unchanged(this`progress) && unchanged(this`store)
    {
      currentIndex := index;
      shown, rows := RenderCard(today);
    }

    /** The "back" button. */
    method BackButton(today: Day) returns (shown: Card, rows: seq<Row>)
      requires Valid()
      modifies this`currentIndex, this`side
      ensures Valid() && side == Front
      ensures currentIndex == PrevIndex(old(currentIndex), |deck|)
      ensures shown == CurrentCard() && |rows| == |deck|
      ensures forall i :: 0 <= i < |rows| ==> (rows[i].highlighted <==> i == currentIndex)
      ensures forall i :: 0 <= i < |rows| ==> rows[i].due == ShowDue(StoredDue(progress, deck[i].id), today)
    {
      PreviousCard();
      shown, rows := RenderCard(today);
    }

    /** The "skip" button. */
    method SkipButton(today: Day) returns (shown: Card, rows: seq<Row>)
      requires Valid()
      modifies this`currentIndex, this`side
      ensures Valid() && side == Front
      ensures currentIndex == NextIndex(old(currentIndex), |deck|)
      ensures shown == CurrentCard() && |rows| == |deck|
      ensures forall i :: 0 <= i < |rows| ==> (rows[i].highlighted <==> i == currentIndex)
      ensures forall i :: 0 <= i < |rows| ==> rows[i].due == ShowDue(StoredDue(progress, deck[i].id), today)
    {
      NextCard();
      shown, rows := RenderCard(today);
    }

    /** `updateDueDate`: record the review of the current card in the map,
        save the whole map, refresh the list. (The due date is computed as
        index.js:240 evidently intends, with `new Date`; the entry is keyed by
        the card's `ID`, as everywhere else in the source.) */
    method UpdateDueDate(outcome: Outcome, today: Day) returns (rows: seq<Row>)
      requires Valid()
      modifies this`progress, this`store
      ensures Valid()
      ensures progress == RecordReview(old(progress), deck[currentIndex].id, outcome, today)
      ensures store == SaveProgress(progress)
      ensures |rows| == |deck|
      ensures forall i :: 0 <= i < |rows| ==> (rows[i].highlighted <==> i == currentIndex)
      ensures forall i :: 0 <= i < |rows| ==> rows[i].due == ShowDue(StoredDue(progress, deck[i].id), today)
      ensures rows[currentIndex].due == Due(NextDueDate(outcome, today), false)
    {
      var card := deck[currentIndex];
      var dueDate := today + DayOffset(outcome);
      var entry := if card.id in progress then progress[card.id] else Entry(None, map[]);
      progress := progress[card.id := entry.(dueDate := Some(dueDate))];
      store := SaveProgress(progress);
      rows := UpdateEntries(deck, progress, currentIndex, today);
    }

    /** The "again", "good" and "easy" buttons: record the review, move one
        card on, render. */
    method Review(outcome: Outcome, today: Day) returns (shown: Card, rows: seq<Row>)
      requires Valid()
      modifies this`progress, this`store, this`currentIndex, this`side
      ensures Valid() && side == Front
      ensures progress == RecordReview(old(progress), deck[old(currentIndex)].id, outcome, today)
      ensures store == SaveProgress(progress)
      ensures currentIndex == NextIndex(old(currentIndex), |deck|)
      ensures shown == CurrentCard() && |rows| == |deck|
      ensures forall i :: 0 <= i < |rows| ==> (rows[i].highlighted <==> i == currentIndex)
      ensures forall i :: 0 <= i < |rows| ==> rows[i].due == ShowDue(StoredDue(progress, deck[i].id), today)
    {
      var _ := UpdateDueDate(outcome, today);
      NextCard();
      shown, rows := RenderCard(today);
    }

    /** The "again", "good" and "easy" buttons as index.js:240 is written:
        `updateDueDate` throws ReferenceError at the undefined `newIDate`,
        and the exception leaves the handler before the map is written or
        saved and before `nextCard` and `renderCard` run. The method has no
        modifies clause: the index, the map, the slot and the side all stay
        as they were, and no card is shown. */
    method ReviewAsWritten(outcome: Outcome, today: Day) returns (r: Result<(), ReviewError>)
      requires Valid()
      ensures r == Err(ReferenceError)
    {
      var update := UpdateDueDateAsWritten(progress, CurrentCard().id, outcome, today);
      r := if update.Err? then Err(update.error) else Ok(());
    }
  }
}
