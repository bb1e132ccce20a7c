/** Worked examples: a three-card dataset in which only card "2" has a due
    date, sorted at startup, reviewed once and navigated. Day 19723 is
    2024-01-01. */
module Scenarios {
  import opened Progress
  import opened Ordering
  import opened Session

  const Card1: Card := Card("1", "break the ice", map[])
  const Card2: Card := Card("2", "call it a day", map[])
  const Card3: Card := Card("3", "hit the sack", map[])

  const Jan1: Day := 19723
  const Jan2: Day := 19724
  const Jan5: Day := 19727

  /** Card "2", due on 2024-01-01, comes first; the two undated cards follow
      in dataset order. On 2024-01-02 card "2" is overdue and the others
      read "Unseen". */
  lemma InitialOrderExample()
    ensures SortDeck([Card1, Card2, Card3], map["2" := Entry(Some(Jan1), map[])]) == [Card2, Card1, Card3]
    ensures ShowDue(StoredDue(map["2" := Entry(Some(Jan1), map[])], "2"), Jan2) == Due(Jan1, true)
    ensures ShowDue(StoredDue(map["2" := Entry(Some(Jan1), map[])], "1"), Jan2) == Unseen
  {
    var p := map["2" := Entry(Some(Jan1), map[])];
    assert KeyOf(Card1, p) == Infinity && KeyOf(Card3, p) == Infinity;
    assert KeyOf(Card2, p) == DueOn(Jan1);
    assert [Card2, Card3][1..] == [Card3];
    assert [Card1, Card2, Card3][1..] == [Card2, Card3];
    assert SortDeck([Card3], p) == [Card3];
    assert Insert(Card2, [Card3], p) == [Card2, Card3];
    assert SortDeck([Card2, Card3], p) == [Card2, Card3];
    assert Insert(Card1, [Card3], p) == [Card1, Card3];
    assert Insert(Card1, [Card2, Card3], p) == [Card2] + [Card1, Card3];
  }

  /** Reviewing card "2" with "good" on 2024-01-02 moves its due date to
      2024-01-05. */
  lemma ReviewGoodExample()
    ensures RecordReview(map["2" := Entry(Some(Jan1), map[])], "2", Good, Jan2)
         == map["2" := Entry(Some(Jan5), map[])]
  {
  }

  /** Starting a session on that data and pressing "good" on 2024-01-02:
      card "2" becomes due on 2024-01-05, the slot holds the new map, and
      the session shows card "1"; pressing "back" returns to card "2". */
  method ReviewExample() returns (stored: Option<Day>, saved: Slot, shown: Card, back: Card)
    ensures stored == Some(Jan5)
    ensures LoadProgress(saved) == Ok(map["2" := Entry(Some(Jan5), map[])])
    ensures shown == Card1 && back == Card2
  {
    InitialOrderExample();
    ReviewGoodExample();
    var session := new FlashcardSession([Card1, Card2, Card3], Snapshot(map["2" := Entry(Some(Jan1), map[])]));
    assert session.deck == [Card2, Card1, Card3] && session.currentIndex == 0;
    var rows;
    shown, rows := session.Review(Good, Jan2);
    assert session.currentIndex == 1;
    stored := StoredDue(session.progress, "2");
    saved := session.store;
    assert session.progress == map["2" := Entry(Some(Jan5), map[])];
    back, rows := session.BackButton(Jan2);
  }
}
