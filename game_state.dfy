/** The game state shared by every player and the admin: one object whose
    methods update its fields in place. */
module GameState {
  import PlayerRegistry
  import opened RoundRules

  class SharedGameState {
    /** The roster: names in insertion order and their connected flags. */
    var order: seq<string>
    var connected: map<string, bool>
    var gameActive: bool
    var buzzedPlayer: Option<string>
    var buzzedTime: Option<int>
    var startTime: Option<int>

    /** The roster as a value. */
    function Players(): PlayerRegistry.Players
      reads this
    {
      PlayerRegistry.Players(order, connected)
    }

    /** The round as a value. */
    function RoundState(): Round
      reads this
    {
      Round(gameActive, buzzedPlayer, buzzedTime, startTime)
    }

    ghost predicate Valid()
      reads this
    {
      PlayerRegistry.Valid(Players()) && Inv(RoundState())
    }

    /** A new game state: no players, no round. */
    constructor ()
      ensures Valid()
      ensures Players() == PlayerRegistry.Empty && RoundState() == Initial
    {
      order := [];
      connected := map[];
      gameActive := false;
      buzzedPlayer := None;
      buzzedTime := None;
      startTime := None;
    }

    /** Adds `name` at the end of the roster, not connected, unless it is empty
        or already there. */
    method AddPlayer(name: string)
      requires Valid()
      modifies this
      ensures Valid()
      ensures Players() == PlayerRegistry.AddPlayer(old(Players()), name)
      ensures RoundState() == old(RoundState())
    {
      if name != "" && name !in connected {
        connected := connected[name := false];
        order := order + [name];
      }
    }

    /** Marks a known player as connected; an unknown name is ignored. */
    method ConnectPlayer(name: string)
      requires Valid()
      modifies this
      ensures Valid()
      ensures Players() == PlayerRegistry.ConnectPlayer(old(Players()), name)
      ensures RoundState() == old(RoundState())
    {
      if name in connected {
        connected := connected[name := true];
      }
    }

    /** Opens a fresh round started at clock reading `now`. */
    method StartRound(now: int)
      requires Valid()
      modifies this
      ensures Valid()
      ensures gameActive && buzzedPlayer == None && buzzedTime == None && startTime == Some(now)
      ensures RoundState() == RoundRules.StartRound(old(RoundState()), now)
      ensures Players() == old(Players())
    {
      gameActive := true;
      buzzedPlayer := None;
      buzzedTime := None;
      startTime := Some(now);
    }

    /** `playerName` buzzes at clock reading `now`. The buzz wins, and closes
        the round, exactly when the round is active and nobody has buzzed;
        otherwise nothing changes. */
    method Buzz(playerName: string, now: int) returns (ok: bool)
      requires Valid()
      modifies this
      ensures Valid()
      ensures ok <==> old(gameActive) && old(buzzedPlayer) == None
      ensures ok ==> !gameActive && buzzedPlayer == Some(playerName) &&
                     old(startTime).Some? && buzzedTime == Some(now - old(startTime).value) &&
                     startTime == old(startTime)
      ensures !ok ==> RoundState() == old(RoundState())
      ensures (RoundState(), ok) == RoundRules.Buzz(old(RoundState()), playerName, now)
      ensures Players() == old(Players())
    {
      if gameActive && buzzedPlayer == None {
        buzzedPlayer := Some(playerName);
        buzzedTime := Some(now - startTime.value);
        gameActive := false;
        ok := true;
      } else {
        ok := false;
      }
    }

    /** Closes the round and forgets the winner and the time; the roster and
        the start time stay. */
    method ResetGame()
      requires Valid()
      modifies this
      ensures Valid()
      ensures !gameActive && buzzedPlayer == None && buzzedTime == None
      ensures startTime == old(startTime)
      ensures RoundState() == RoundRules.ResetGame(old(RoundState()))
      ensures Players() == old(Players())
    {
      gameActive := false;
      buzzedPlayer := None;
      buzzedTime := None;
    }

    /** The admin's total reset: empties the roster, then resets the round. */
    method ResetTotal()
      requires Valid()
      modifies this
      ensures Valid()
      ensures Players() == PlayerRegistry.Empty
      ensures RoundState() == RoundRules.ResetGame(old(RoundState()))
    {
      order := [];
      connected := map[];
      ResetGame();
    }

    /** The "who are you" list: the roster's names, in insertion order, that
        are not connected yet. */
    method AvailableNames() returns (names: seq<string>)
      requires Valid()
      ensures names == PlayerRegistry.Available(order, connected)
      ensures forall n :: n in names <==> n in connected && !connected[n]
    {
      names := [];
      var i := 0;
      while i < |order|
        invariant 0 <= i <= |order|
        invariant PlayerRegistry.Covers(order[..i], connected)
        invariant names == PlayerRegistry.Available(order[..i], connected)
      {
        assert order[..i + 1] == order[..i] + [order[i]];
        PlayerRegistry.AvailableAppend(order[..i], order[i], connected);
        if !connected[order[i]] {
          names := names + [order[i]];
        }
        i := i + 1;
      }
      assert order[..i] == order;
    }
  }
}
