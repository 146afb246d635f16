/** The deck of models/deck.go: a card sequence and a count per card type. */
module TypedDeck {
  import opened Seqs
  import opened Cards
  import Shuffle

  datatype Deck = Deck(cards: seq<Card>, counter: map<string, int>)

  /** What `RemoveCard` returns: the updated deck and the removed card. */
  datatype Removal = Removal(deck: Deck, card: Card)

  /** Reading a Go map: a missing key reads as zero. */
  function Get(m: map<string, int>, key: string): int {
    if key in m then m[key] else 0
  }

  /** One for a card of type `t`, zero otherwise. */
  function Weight(c: Card, t: string): nat {
    if Type(c) == t then 1 else 0
  }

  /** The number of cards of type `t`. */
  function CountType(cards: seq<Card>, t: string): nat
    decreases |cards|
  {
    if cards == [] then 0
    else CountType(cards[..|cards| - 1], t) + Weight(cards[|cards| - 1], t)
  }

  lemma CountTypeSnoc(cards: seq<Card>, c: Card, t: string)
    ensures CountType(cards + [c], t) == CountType(cards, t) + Weight(c, t)
  {
  }

  lemma {:induction false} CountTypeConcat(a: seq<Card>, b: seq<Card>, t: string)
    ensures CountType(a + b, t) == CountType(a, t) + CountType(b, t)
    decreases |b|
  {
    if b == [] {
      assert a + b == a;
    } else {
      var b' := b[..|b| - 1];
      var x := b[|b| - 1];
      assert b == b' + [x];
      assert a + b == (a + b') + [x];
      CountTypeConcat(a, b', t);
      CountTypeSnoc(a + b', x, t);
      CountTypeSnoc(b', x, t);
    }
  }

  /** Taking out the card at `i` lowers the count of its type by one and leaves the others. */
  lemma CountTypeRemoveAt(cards: seq<Card>, i: nat, t: string)
    requires i < |cards|
    ensures CountType(cards, t) == CountType(RemoveAt(cards, i), t) + Weight(cards[i], t)
  {
    assert cards == cards[..i] + [cards[i]] + cards[i + 1..];
    CountTypeConcat(cards[..i] + [cards[i]], cards[i + 1..], t);
    CountTypeConcat(cards[..i], [cards[i]], t);
    CountTypeConcat(cards[..i], cards[i + 1..], t);
    CountTypeSnoc([], cards[i], t);
    assert [] + [cards[i]] == [cards[i]];
  }

  /** The per-type counts depend on the multiset of cards only, not on their order. */
  lemma {:induction false} CountTypePermutation(a: seq<Card>, b: seq<Card>, t: string)
    requires multiset(a) == multiset(b)
    ensures CountType(a, t) == CountType(b, t)
    decreases |a|
  {
    if a == [] {
      assert |multiset(b)| == 0;
    } else {
      var x := a[|a| - 1];
      var a' := a[..|a| - 1];
      assert a == a' + [x];
      assert multiset(a) == multiset(a') + multiset{x};
      assert x in multiset(b);
      var k :| 0 <= k < |b| && b[k] == x;
      var b' := RemoveAt(b, k);
      assert multiset(a') == multiset(a) - multiset{x};
      assert multiset(b') == multiset(b) - multiset{x};
      CountTypePermutation(a', b', t);
      CountTypeRemoveAt(b, k, t);
    }
  }

  /** The counter holds, for every type, the number of cards of that type. */
  ghost predicate Consistent(d: Deck) {
    forall t :: Get(d.counter, t) == CountType(d.cards, t)
  }

  /** A fresh deck: no cards and an empty counter map, which is consistent. */
  function NewDeck(): (d: Deck)
    ensures |d.cards| == 0 && |d.counter| == 0
    ensures Consistent(d)
  {
    Deck([], map[])
  }

  /** Appends `card` and bumps the count of its type only. */
  function AddCard(d: Deck, card: Card): (r: Deck)
    ensures |r.cards| == |d.cards| + 1
    ensures r.cards[..|d.cards|] == d.cards && r.cards[|d.cards|] == card
    ensures Get(r.counter, Type(card)) == Get(d.counter, Type(card)) + 1
    ensures forall t | t != Type(card) :: Get(r.counter, t) == Get(d.counter, t)
    ensures forall t :: Get(r.counter, t) == Get(d.counter, t) + Weight(card, t)
    ensures Consistent(d) ==> Consistent(r)
  {
    var r := Deck(d.cards + [card], d.counter[Type(card) := Get(d.counter, Type(card)) + 1]);
    forall t ensures CountType(r.cards, t) == CountType(d.cards, t) + Weight(card, t) {
      CountTypeSnoc(d.cards, card, t);
    }
    r
  }

  /**
   * Takes out the card at `index`, closing the gap and lowering the count of
   * its type only; an index outside the deck returns the zero card and
   * changes nothing.
   */
  function RemoveCard(d: Deck, index: int): (r: Removal)
    ensures 0 <= index < |d.cards| ==>
      && r.card == d.cards[index]
      && |r.deck.cards| == |d.cards| - 1
      && (forall j | 0 <= j < index :: r.deck.cards[j] == d.cards[j])
      && (forall j | index <= j < |r.deck.cards| :: r.deck.cards[j] == d.cards[j + 1])
      && multiset(r.deck.cards) + multiset{r.card} == multiset(d.cards)
      && Get(r.deck.counter, Type(r.card)) == Get(d.counter, Type(r.card)) - 1
      && (forall t | t != Type(r.card) :: Get(r.deck.counter, t) == Get(d.counter, t))
    ensures !(0 <= index < |d.cards|) ==> r.card == ZeroCard && r.deck == d
    ensures Consistent(d) ==> Consistent(r.deck)
  {
    if index < 0 || index >= |d.cards| then Removal(d, ZeroCard)
    else
      var card := d.cards[index];
      var r := Removal(Deck(RemoveAt(d.cards, index), d.counter[Type(card) := Get(d.counter, Type(card)) - 1]), card);
      forall t ensures CountType(d.cards, t) == CountType(RemoveAt(d.cards, index), t) + Weight(card, t) {
        CountTypeRemoveAt(d.cards, index, t);
      }
      r
  }

  /**
   * Removing the card just added at the bottom gives back that card, the
   * cards as they were and the same count for every type (the map may now
   * hold the card's type with a zero count).
   */
  lemma AddThenRemoveRestores(d: Deck, card: Card)
    ensures RemoveCard(AddCard(d, card), |d.cards|).card == card
    ensures RemoveCard(AddCard(d, card), |d.cards|).deck.cards == d.cards
    ensures forall t :: Get(RemoveCard(AddCard(d, card), |d.cards|).deck.counter, t) == Get(d.counter, t)
  {
  }

  /** Puts the cards in an order chosen by the random draws; the counter is untouched and stays right. */
  method ShuffleDeck(d: Deck, draw: nat -> nat) returns (r: Deck)
    ensures multiset(r.cards) == multiset(d.cards) && |r.cards| == |d.cards|
    ensures r.counter == d.counter
    ensures Consistent(d) ==> Consistent(r)
  {
    var cards := Shuffle.Shuffle(d.cards, draw);
    r := Deck(cards, d.counter);
    forall t ensures CountType(d.cards, t) == CountType(cards, t) {
      CountTypePermutation(d.cards, cards, t);
    }
  }

  /** `AddCard` for each card in order (the last card is added after all the others): the cards land at the bottom and each type's count grows by its share. */
  function AddCards(d: Deck, cards: seq<Card>): (r: Deck)
    ensures r.cards == d.cards + cards
    ensures forall t :: Get(r.counter, t) == Get(d.counter, t) + CountType(cards, t)
    decreases |cards|
  {
    if cards == [] then d
    else
      var last := |cards| - 1;
      assert d.cards + cards == d.cards + cards[..last] + [cards[last]];
      AddCard(AddCards(d, cards[..last]), cards[last])
  }

  /** Adding a batch of cards keeps the counter right. */
  lemma AddCardsConsistent(d: Deck, cards: seq<Card>)
    requires Consistent(d)
    ensures Consistent(AddCards(d, cards))
  {
  }

  /** One call on a deck. */
  datatype DeckOp = AddOp(card: Card) | RemoveOp(index: int)

  function Step(d: Deck, op: DeckOp): Deck {
    match op
    case AddOp(card) => AddCard(d, card)
    case RemoveOp(index) => RemoveCard(d, index).deck
  }

  function ApplyOps(d: Deck, ops: seq<DeckOp>): Deck
    decreases |ops|
  {
    if ops == [] then d else ApplyOps(Step(d, ops[0]), ops[1..])
  }

  /** Any run of additions and removals keeps a consistent deck consistent. */
  lemma {:induction false} ApplyOpsConsistent(d: Deck, ops: seq<DeckOp>)
    requires Consistent(d)
    ensures Consistent(ApplyOps(d, ops))
    decreases |ops|
  {
    if ops != [] {
      ApplyOpsConsistent(Step(d, ops[0]), ops[1..]);
    }
  }

  /** Starting from a fresh deck, each type's count is always the number of cards of that type. */
  lemma CounterTracksTypes(ops: seq<DeckOp>, t: string)
    ensures Get(ApplyOps(NewDeck(), ops).counter, t) == CountType(ApplyOps(NewDeck(), ops).cards, t)
  {
    ApplyOpsConsistent(NewDeck(), ops);
  }
}
