/**
 * The card value of models/card.go and models/game/card.go. The two Go
 * structs have the same fields and the same `Type` and `LogCard` bodies, so
 * one datatype models both; `IsSameColor`/`IsSameRank` come from the game
 * package and `ValidCard` from the models package.
 */
module Cards {
  import opened Rank
  import opened Strings

  datatype Card = Card(rank: string, color: string)

  /** Go's zero value `Card{}`, returned by an out-of-range removal. */
  const ZeroCard: Card := Card("", "")

  const NUMBER_CARD: string := "number-card"
  const ACTION_CARD: string := "action-card"
  const ACTION_CARD_NO_COLOR: string := "action-card-no-color"

  /**
   * The card's bucket, decided from the rank alone: ranks in the Go string
   * range ["0", "9"] are number cards, wild and draw_4 are colourless
   * actions, anything else is a coloured action.
   */
  function Type(c: Card): (t: string)
    ensures t == NUMBER_CARD || t == ACTION_CARD || t == ACTION_CARD_NO_COLOR
  {
    if LexLessOrEqual(ZERO, c.rank) && LexLessOrEqual(c.rank, NINE) then NUMBER_CARD
    else if c.rank == WILD || c.rank == DRAW_4 then ACTION_CARD_NO_COLOR
    else ACTION_CARD
  }

  /** A colourless action card: wild or draw_4. */
  predicate IsColorless(c: Card) {
    Type(c) == ACTION_CARD_NO_COLOR
  }

  /** A card is a number card exactly when its rank starts with a digit below '9' or is "9". */
  lemma TypeNumberCard(c: Card)
    ensures Type(c) == NUMBER_CARD <==> |c.rank| > 0 && ('0' <= c.rank[0] < '9' || c.rank == "9")
  {
    DigitRange(c.rank);
  }

  /** Every rank of the number table makes a number card, whatever its colour. */
  lemma TypeOfNumberRanks(r: string, color: string)
    requires r in NumberCards
    ensures Type(Card(r, color)) == NUMBER_CARD
  {
  }

  /** Only wild and draw_4 are colourless action cards, over all ranks. */
  lemma TypeColorlessIff(c: Card)
    ensures Type(c) == ACTION_CARD_NO_COLOR <==> c.rank in ActionCardsNoColor
  {
  }

  /** Among the fifteen rank constants, the coloured action cards are exactly skip, reverse and draw_2. */
  lemma TypeActionCardIff(c: Card)
    requires c.rank in AllRanks
    ensures Type(c) == ACTION_CARD <==> c.rank in ActionCards
  {
  }

  /** The bucket depends on the rank only. */
  lemma TypeIgnoresColor(r: string, a: string, b: string)
    ensures Type(Card(r, a)) == Type(Card(r, b))
  {
  }

  /** The log line: rank, one space, colour. */
  function LogCard(c: Card): (s: string)
    ensures |s| == |c.rank| + 1 + |c.color|
    ensures s[..|c.rank|] == c.rank && s[|c.rank|] == ' ' && s[|c.rank| + 1..] == c.color
  {
    c.rank + " " + c.color
  }

  /** For ranks without a space (all fifteen constants) the log line determines the card. */
  lemma LogCardInjective(a: Card, b: Card)
    requires ' ' !in a.rank && ' ' !in b.rank
    requires LogCard(a) == LogCard(b)
    ensures a == b
  {
  }

  /** Together with a rank match, a colour match singles out one card. */
  function IsSameColor(card: Card, otherCard: Card): (r: bool)
    ensures r && IsSameRank(card, otherCard) <==> card == otherCard
  {
    card.color == otherCard.color
  }

  /** Cards of the same rank have the same type bucket. */
  function IsSameRank(card: Card, otherCard: Card): (r: bool)
    ensures r ==> Type(card) == Type(otherCard)
  {
    card.rank == otherCard.rank
  }

  /** Same colour and same rank together are card equality; each is an equivalence. */
  lemma SameColorAndRankIsEquality(a: Card, b: Card, c: Card)
    ensures IsSameColor(a, b) && IsSameRank(a, b) <==> a == b
    ensures IsSameColor(a, a) && IsSameRank(a, a)
    ensures IsSameColor(a, b) == IsSameColor(b, a) && IsSameRank(a, b) == IsSameRank(b, a)
    ensures IsSameColor(a, b) && IsSameColor(b, c) ==> IsSameColor(a, c)
    ensures IsSameRank(a, b) && IsSameRank(b, c) ==> IsSameRank(a, c)
  {
  }

  /** The type name `ValidCard` tests for; `Type` never returns it. */
  const BOTTOM_NO_COLOR: string := "action-bottomCard-no-color"

  /**
   * `ValidCard` as written: its unconditional branch compares `Type` with a
   * name `Type` never returns, so only colour or rank equality makes a card
   * valid.
   */
  function ValidCard(bottomCard: Card, topCard: Card): (r: bool)
    ensures r <==> IsSameColor(bottomCard, topCard) || IsSameRank(bottomCard, topCard)
  {
    if Type(bottomCard) == BOTTOM_NO_COLOR then true
    else bottomCard.color == topCard.color || bottomCard.rank == topCard.rank
  }

  /** `ValidCard` is exactly "same colour or same rank", so it is reflexive and symmetric. */
  lemma ValidCardIsColorOrRank(b: Card, t: Card)
    ensures Type(b) != BOTTOM_NO_COLOR
    ensures ValidCard(b, t) <==> IsSameColor(b, t) || IsSameRank(b, t)
    ensures ValidCard(b, b)
    ensures ValidCard(b, t) == ValidCard(t, b)
  {
  }

  /** A wild card on a red five is not valid: the colourless branch never fires. */
  lemma ValidCardRejectsWild()
    ensures IsColorless(Card(WILD, ""))
    ensures !ValidCard(Card(WILD, ""), Card(FIVE, "red"))
    ensures !ValidCard(Card(DRAW_4, ""), Card(SKIP, "blue"))
  {
  }

  /** `ValidCard` with the type name it evidently meant: a colourless action card is always valid. */
  predicate ValidCardIntended(bottomCard: Card, topCard: Card) {
    if Type(bottomCard) == ACTION_CARD_NO_COLOR then true
    else bottomCard.color == topCard.color || bottomCard.rank == topCard.rank
  }

  /** The corrected check accepts every wild and draw_4, and agrees with `ValidCard` on every other card. */
  lemma ValidCardIntendedAcceptsColorless(b: Card, t: Card)
    ensures b.rank in ActionCardsNoColor ==> ValidCardIntended(b, t)
    ensures b.rank !in ActionCardsNoColor ==> (ValidCardIntended(b, t) <==> ValidCard(b, t))
  {
  }
}
