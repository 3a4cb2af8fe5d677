# Team Buzzer: the shared game state

The Team Buzzer application runs a "first to buzz" contest for a team of
players. An admin builds the roster, starts a round, and resets it. Each player
says who they are, then races to press the buzzer. All of its logic lives in
one object, `SharedGameState`, that every browser session shares. This project
models that object and proves what it promises:

- the roster keeps insertion order, ignores empty and duplicate names, and can
  only connect players it already knows;
- a buzz wins exactly when the round is active and nobody has buzzed yet, and
  a winning buzz closes the round, so at most one player wins per round when
  calls are processed one at a time;
- every operation keeps two invariants. A winner and a buzz time are recorded
  together. An active round has no winner and has a start time;
- the "who are you" list holds exactly the unconnected names, in roster order.

Files:

- `registry.dfy`, module `PlayerRegistry`: the roster as a value
  (`Players`: an order `seq<string>` and a `map<string, bool>` of connected
  flags). It holds the add and connect operations, the available-names filter,
  and lemmas that relate them.
- `round.dfy`, module `RoundRules`: the round as a value (`Round`: `active`,
  `buzzed`, `buzzedTime`, `startTime`). It holds the invariant `Inv`, the
  start, buzz and reset rules, `BuzzAll` for a sequence of buzz calls, and the
  at-most-one-winner lemma.
- `game_state.dfy`, module `GameState`: the class `SharedGameState`. Its fields
  mirror the Python object, and its methods update them in place. Each method
  states its new state outright and ties it to the rule in `PlayerRegistry` or
  `RoundRules`. `Valid()` (both invariants) is kept by every method.

The wall clock (`datetime.now()`) becomes an integer parameter `now` of
`StartRound` and `Buzz`. The buzz time is `now - startTime` in integer ticks.
It is non-negative whenever the clock has not gone backwards since the round
started.

Notes on the code's behaviour that the model keeps:

- The code rejects only the empty name (`if name`), not whitespace-only names.
- The code has no resume operation and no accumulated time. A round is only
  started afresh (`start_round`) or cleared (`reset_game`).
- `reset_game` keeps `start_time`. It does not clear it.
- Nothing in the code stops a name that is not on the roster from buzzing.

## Model

| member | source | states |
|---|---|---|
| `PlayerRegistry.AddPlayer` | app.py:57-59 | An empty name or a name already present leaves the roster unchanged. Any other name is appended to the order, not connected. No existing flag changes, and a valid roster stays valid (names unique, order and flags agree). |
| `PlayerRegistry.AddPlayerIdempotent` | app.py:58 | Adding the same name twice gives the same roster as adding it once. |
| `PlayerRegistry.ConnectPlayer` | app.py:61-63 | A known name becomes connected. Every other flag is unchanged. The order and the set of names never change. An unknown name is a no-op. Validity is kept. |
| `PlayerRegistry.Available` | app.py:140 | The result holds a name iff that name is in the roster and not connected. It is a subsequence of the roster order. It has no duplicates when the roster has none. |
| `PlayerRegistry.AvailableCharacterised` | app.py:140 | Any sequence that keeps the roster's order and holds exactly the unconnected names is `Available`. So the filter is determined by that description. |
| `PlayerRegistry.AvailableAfterAdd` | app.py:57-59 | After a successful add, the new name appears at the end of the "who are you" list. A rejected add leaves the list as it was. |
| `PlayerRegistry.AvailableAfterConnect` | app.py:61-63 | After a connect, the name is gone from the list. Every other name keeps its membership, and the new list is a subsequence of the old one. |
| `RoundRules.StartRound` | app.py:65-69 | Whatever the prior round, the new round is active and open to buzzes, with no winner and no time, and started at `now`. The invariant holds. |
| `RoundRules.Buzz` | app.py:71-80 | A buzz wins iff the round was active with nobody buzzed. A win records the caller and `now - startTime`, closes the round and keeps the start time. A loss changes nothing. Afterwards the round is closed either way and the invariant holds. The time is non-negative when the clock did not go back. |
| `RoundRules.ResetGame` | app.py:82-85 | The round is inactive, with no winner and no time, and the start time is kept. The invariant holds. |
| `RoundRules.BuzzAll` | app.py:71-80 | Running any sequence of buzz calls keeps the invariant and gives one answer per call. After at least one call the round is closed. |
| `RoundRules.ClosedRoundRefusesAll` | app.py:73-80 | Once the round is closed, every further buzz is refused and the round is left unchanged. |
| `RoundRules.OnlyFirstBuzzCanWin` | app.py:73-78 | Of any sequence of buzz calls, only the first can win, and it wins iff the round was open. The round then records that caller and its elapsed ticks. If the round was closed, nothing changes. |
| `GameState.SharedGameState.constructor` | app.py:50-55 | The new game state has an empty roster and an inactive round with no winner, no time and no start time. |
| `GameState.SharedGameState.AddPlayer` | app.py:57-59 | The roster becomes `PlayerRegistry.AddPlayer` of the old one. The round is unchanged and both invariants are kept. |
| `GameState.SharedGameState.ConnectPlayer` | app.py:61-63 | The roster becomes `PlayerRegistry.ConnectPlayer` of the old one. The round is unchanged and both invariants are kept. |
| `GameState.SharedGameState.StartRound` | app.py:65-69 | The object is active, with no winner and no time, and `startTime == now`. The roster is unchanged and the invariants are kept. |
| `GameState.SharedGameState.Buzz` | app.py:71-80 | Returns true iff, before the call, the object was active with no winner. On success the winner is the caller, the time is `now - startTime` and the object is inactive. On failure every field is unchanged. The roster is never touched and the invariants are kept. |
| `GameState.SharedGameState.ResetGame` | app.py:82-85 | The object is inactive, with no winner and no time. The start time and the roster are unchanged. |
| `GameState.SharedGameState.ResetTotal` | app.py:124-126 | The roster is empty, the round is reset as by `ResetGame`, and the invariants are kept. |
| `GameState.SharedGameState.AvailableNames` | app.py:140 | Returns `PlayerRegistry.Available` of the roster: exactly the unconnected names, in insertion order. |

## Left out

- Page configuration, CSS, sidebar, popover, columns, titles and balloons (app.py:7-44, 101-203): presentation only.
- The admin password check (app.py:103-104): access control, not game-state logic.
- `play_buzzer_sound` (app.py:91-98): it embeds an audio element from an external URL.
- The per-session login bookkeeping, the auto-refresh fragment and the live elapsed caption (app.py:132-203): polling and display. The caption reads the wall clock only to show it.
- Sharing through `@st.cache_resource` (app.py:48) and concurrent access. The code takes no lock, so each operation is modelled as one sequential, atomic call. `BuzzAll` stands for the order in which calls happen to be processed. Because `buzz` checks its guard (app.py:73) and then updates the fields (app.py:74-78) without a lock, two sessions can both pass the guard before either updates, and then both calls return True: this double win is not captured, and `OnlyFirstBuzzCanWin` holds only for calls processed one at a time.
- `datetime.now()` and float `total_seconds()` (app.py:69, 75-77): replaced by an integer clock reading `now`. Floating-point seconds and their rounding are not modelled.
- A crash when `buzz` runs with `start_time` unset cannot happen while the invariant holds, so `Buzz` requires the invariant instead of modelling that error.
