/** The player of models/player.go: a name and a hand kept as a typed deck. */
module HandPlayer {
  import opened Cards
  import opened TypedDeck

  datatype Player = Player(name: string, hand: Deck)

  /** A new player: the given name, no cards, an empty counter map. */
  function NewPlayer(name: string): (p: Player)
    ensures p.name == name && |p.hand.cards| == 0 && |p.hand.counter| == 0
    ensures Consistent(p.hand)
  {
    Player(name, NewDeck())
  }

  /**
   * Adds the cards to the hand one by one: they land at the end in order,
   * each type's count grows by the number of added cards of that type, and
   * the name is kept.
   */
  function AddCards(p: Player, cards: seq<Card>): (r: Player)
    ensures r.name == p.name
    ensures r.hand.cards == p.hand.cards + cards
    ensures forall t :: Get(r.hand.counter, t) == Get(p.hand.counter, t) + CountType(cards, t)
    ensures cards == [] ==> r == p
  {
    Player(p.name, TypedDeck.AddCards(p.hand, cards))
  }

  /** Adding cards keeps a right counter right. */
  lemma AddCardsKeepsConsistent(p: Player, cards: seq<Card>)
    requires Consistent(p.hand)
    ensures Consistent(AddCards(p, cards).hand)
  {
    AddCardsConsistent(p.hand, cards);
  }
}
