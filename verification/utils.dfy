/** The pure helpers of internal/utils.go. */
module Utils {
  import opened Wrappers
  import opened Cards
  import opened HandPlayer

  /**
   * The messages that are not broadcast. The list holds ONE string with a
   * comma inside it, so only that exact text is private.
   */
  const PrivateCommands: seq<string> := ["showcards,playcard"]

  /** `ShouldBroadcast` as written: a message is kept private only if it equals a list entry. */
  function ShouldBroadcast(msg: string): (r: bool)
    ensures !r <==> msg == "showcards,playcard"
  {
    msg !in PrivateCommands
  }

  /** Each of the two command names alone is broadcast. */
  lemma ShouldBroadcastLetsCommandsThrough()
    ensures ShouldBroadcast("playcard")
    ensures ShouldBroadcast("showcards")
    ensures !ShouldBroadcast("showcards,playcard")
  {
  }

  /** The private-command list with the two names as separate entries. */
  const IntendedPrivateCommands: seq<string> := ["showcards", "playcard"]

  /** `ShouldBroadcast` over the intended list: both command names stay private. */
  function ShouldBroadcastIntended(msg: string): (r: bool)
    ensures !r <==> msg == "showcards" || msg == "playcard"
  {
    msg !in IntendedPrivateCommands
  }

  /** The corrected check differs from the written one exactly on the two names and on the joined string. */
  lemma ShouldBroadcastIntendedDiffers(msg: string)
    ensures ShouldBroadcastIntended(msg) != ShouldBroadcast(msg)
      <==> msg == "showcards" || msg == "playcard" || msg == "showcards,playcard"
  {
  }

  /** `slices.IndexFunc` with the name test: the first index whose player has `name`, or -1. */
  function IndexOfName(players: seq<Player>, name: string): (idx: int)
    ensures -1 <= idx < |players|
    ensures idx == -1 <==> forall j | 0 <= j < |players| :: players[j].name != name
    ensures 0 <= idx ==> players[idx].name == name && forall j | 0 <= j < idx :: players[j].name != name
    decreases |players|
  {
    if players == [] then -1
    else if players[0].name == name then 0
    else
      var k := IndexOfName(players[1..], name);
      if k == -1 then -1 else k + 1
  }

  /** `findPlayer`: the first player named `name`, or none (Go's nil) when no player has that name. */
  function FindPlayer(players: seq<Player>, name: string): (r: Option<Player>)
    ensures r.None? <==> forall j | 0 <= j < |players| :: players[j].name != name
    ensures r.Some? ==> exists i | 0 <= i < |players| ::
      players[i] == r.value && r.value.name == name && forall j | 0 <= j < i :: players[j].name != name
  {
    var idx := IndexOfName(players, name);
    if idx == -1 then None else Some(players[idx])
  }

  /** The turn direction as a step: forward is +1, reversed is -1. */
  function ConvertDirectionToInteger(direction: bool): (r: int)
    ensures r == 1 || r == -1
    ensures (r > 0) == direction
  {
    if direction then 1 else -1
  }

  /** Flipping the direction negates the step, so two flips restore it. */
  lemma DirectionFlipNegates(direction: bool)
    ensures ConvertDirectionToInteger(!direction) == -ConvertDirectionToInteger(direction)
  {
  }

  /**
   * `removeCardFromHand`: takes out the first card equal to `card`, keeping
   * the others in order; a hand without that card comes back unchanged.
   */
  method RemoveCardFromHand(hand: seq<Card>, card: Card) returns (r: seq<Card>)
    ensures card !in hand ==> r == hand
    ensures card in hand ==> exists i | 0 <= i < |hand| ::
      hand[i] == card && card !in hand[..i] && r == hand[..i] + hand[i + 1..]
    ensures |r| == |hand| - 1 <==> card in hand
    ensures card in hand ==> multiset(r) + multiset{card} == multiset(hand)
  {
    var i := 0;
    while i < |hand|
      invariant 0 <= i <= |hand|
      invariant card !in hand[..i]
    {
      if hand[i] == card {
        assert hand == hand[..i] + [hand[i]] + hand[i + 1..];
        return hand[..i] + hand[i + 1..];
      }
      assert hand[..i + 1] == hand[..i] + [hand[i]];
      i := i + 1;
    }
    assert hand[..i] == hand;
    return hand;
  }
}
