/** The deck of models/game/deck.go: a card sequence and an integer counter. */
module CountedDeck {
  import opened Seqs
  import opened Cards
  import Shuffle

  datatype Deck = Deck(cards: seq<Card>, counter: int)

  /** What `RemoveCard` returns: the updated deck and the removed card. */
  datatype Removal = Removal(deck: Deck, card: Card)

  /** The counter agrees with the number of cards. */
  predicate Consistent(d: Deck) {
    d.counter == NumberOfCards(d)
  }

  function NumberOfCards(d: Deck): nat {
    |d.cards|
  }

  /** A fresh deck: no cards and a consistent counter. */
  function NewDeck(): (d: Deck)
    ensures NumberOfCards(d) == 0 && Consistent(d)
  {
    Deck([], 0)
  }

  /** Appends `card` at the bottom; earlier cards stay where they were and the counter grows by one. */
  function AddCard(d: Deck, card: Card): (r: Deck)
    ensures NumberOfCards(r) == NumberOfCards(d) + 1
    ensures r.cards[..NumberOfCards(d)] == d.cards && r.cards[NumberOfCards(d)] == card
    ensures r.counter == d.counter + 1
    ensures Consistent(d) ==> Consistent(r)
  {
    Deck(d.cards + [card], d.counter + 1)
  }

  /**
   * Takes out the card at `index`, closing the gap; an index outside the
   * deck returns the zero card and changes nothing.
   */
  function RemoveCard(d: Deck, index: int): (r: Removal)
    ensures 0 <= index < |d.cards| ==>
      && r.card == d.cards[index]
      && NumberOfCards(r.deck) == NumberOfCards(d) - 1
      && (forall j | 0 <= j < index :: r.deck.cards[j] == d.cards[j])
      && (forall j | index <= j < |r.deck.cards| :: r.deck.cards[j] == d.cards[j + 1])
      && multiset(r.deck.cards) + multiset{r.card} == multiset(d.cards)
      && r.deck.counter == d.counter - 1
    ensures !(0 <= index < |d.cards|) ==> r.card == ZeroCard && r.deck == d
    ensures Consistent(d) ==> Consistent(r.deck)
  {
    if index < 0 || index >= |d.cards| then Removal(d, ZeroCard)
    else Removal(Deck(RemoveAt(d.cards, index), d.counter - 1), d.cards[index])
  }

  /** Removing the card just added at the bottom gives back that card and the deck as it was. */
  lemma AddThenRemoveRestores(d: Deck, card: Card)
    ensures RemoveCard(AddCard(d, card), NumberOfCards(d)) == Removal(d, card)
  {
  }

  /** Puts the cards in an order chosen by the random draws; the counter is untouched. */
  method ShuffleDeck(d: Deck, draw: nat -> nat) returns (r: Deck)
    ensures multiset(r.cards) == multiset(d.cards)
    ensures NumberOfCards(r) == NumberOfCards(d) && r.counter == d.counter
    ensures Consistent(d) ==> Consistent(r)
  {
    var cards := Shuffle.Shuffle(d.cards, draw);
    r := Deck(cards, d.counter);
  }

  /** `AddCard` for each card in order, as the player's `AddCards` loop does (the last card is added after all the others). */
  function AddCards(d: Deck, cards: seq<Card>): (r: Deck)
    ensures r.cards == d.cards + cards
    ensures r.counter == d.counter + |cards|
    decreases |cards|
  {
    if cards == [] then d
    else
      var last := |cards| - 1;
      assert d.cards + cards == d.cards + cards[..last] + [cards[last]];
      AddCard(AddCards(d, cards[..last]), cards[last])
  }

  /** One call on a deck. */
  datatype DeckOp = AddOp(card: Card) | RemoveOp(index: int)

  function Step(d: Deck, op: DeckOp): Deck {
    match op
    case AddOp(card) => AddCard(d, card)
    case RemoveOp(index) => RemoveCard(d, index).deck
  }

  function ApplyOps(d: Deck, ops: seq<DeckOp>): Deck
    decreases |ops|
  {
    if ops == [] then d else ApplyOps(Step(d, ops[0]), ops[1..])
  }

  /** Any run of additions and removals keeps a consistent deck consistent. */
  lemma {:induction false} ApplyOpsConsistent(d: Deck, ops: seq<DeckOp>)
    requires Consistent(d)
    ensures Consistent(ApplyOps(d, ops))
    decreases |ops|
  {
    if ops != [] {
      ApplyOpsConsistent(Step(d, ops[0]), ops[1..]);
    }
  }

  /** Starting from a fresh deck, the counter always equals the number of cards. */
  lemma CounterTracksCards(ops: seq<DeckOp>)
    ensures ApplyOps(NewDeck(), ops).counter == NumberOfCards(ApplyOps(NewDeck(), ops))
  {
    ApplyOpsConsistent(NewDeck(), ops);
  }
}
