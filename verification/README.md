# Bingo game model

A Dafny model of a small bingo simulation built on the Observer pattern.

`BingoGame` is the subject. It keeps:
- an ordered list of attached players;
- the number drawn last;
- a `gameState` flag that stays true while no player has won.

`StartGame` starts from the pool of numbers 1 to 99. While the flag is on, it:
- draws a number still in the pool and takes it out;
- makes it the current number;
- tells every attached player about it, in list order.

`BingoPlayer` is the observer. It has a name and a ticket of five distinct numbers from the same range. Players are made by configuring a prototype (`Initialize`) and deep-copying it (`Clone`). When a player is told a number, `Update` crosses that number off its ticket. When the ticket becomes empty, the player switches the game's flag off, which is the only way a game ends.

Layout:
- `lists.dfy` (module `Lists`) states Python's `list.remove` and `list.index` on sequences.
- `bingo_player.dfy` holds the player class and the functions on tickets.
- `bingo_game.dfy` holds the game class and its loop bookkeeping.

The two classes refer to each other: a player's `Update` writes the game's flag. So both sit in the default module.

How the source maps to the model:
- Randomness becomes nondeterministic choice (`:|`). `random.sample` deals any ticket of five distinct in-range numbers. `random.choice` draws any member of the pool.
- The exceptions the source lets escape become an `Outcome` result:
  - `detach` of a player that is not attached raises `ValueError` in `list.remove`; here it is `Failure(NotAttached)`;
  - a draw from an empty pool raises `IndexError` in `random.choice`; here it is `Failure(PoolExhausted)`.
- The ghost result `drawn` of `StartGame` lists the numbers drawn, in order. Each contract of the game loop is stated against it.

A ticket after a run of draws is `Unmatched(t, drawn)`: the entries of the ticket that were not drawn. `UnmatchedStep` proves that this is what the repeated `Update` calls build, one `TicketAfter` per draw.

`StartGame` proves these properties of one game:
- the draws are distinct numbers of the range;
- each player ends with the ticket it started with, minus the draws;
- the game stops with `Success` exactly when the flag is off;
- it stops with `Success` whenever some attached player started with a non-empty ticket of in-range numbers;
- a stopped game has a player whose ticket the last draw emptied, and none was emptied before the last draw;
- it draws at most 99 numbers;
- with no players and the flag on at the start, it draws all 99 numbers and fails with `PoolExhausted`.

## Model

| member | source | states |
|---|---|---|
| Lists.FirstIndex | kazdream_task1/bingo_game.py:70 | the index `list.remove` acts on holds `x`, and no earlier entry does |
| Lists.RemoveFirst | kazdream_task1/bingo_player.py:86 | `list.remove` on a list holding `x` shortens it by exactly one |
| Lists.RemoveFirstCount | kazdream_task1/bingo_player.py:86 | the removal takes away exactly one copy of `x` and keeps every other element's count |
| Lists.RemoveFirstAt | kazdream_task1/bingo_game.py:70 | the removal cuts out the first occurrence; the entries before and after it keep their order |
| Lists.RemoveFirstDistinct | kazdream_task1/bingo_game.py:104 | removing from a list without repeats leaves a list without repeats, holding exactly the other values |
| TicketAfterShrinks | kazdream_task1/bingo_player.py:84-86 | a ticket never grows and gains no copy of any value; it loses exactly one entry if and only if the number is on it; an empty ticket stays empty and does not win again |
| TicketAfterDistinct | kazdream_task1/bingo_player.py:84-86 | on a ticket without repeats, the update keeps it free of repeats, and afterwards it holds exactly the old entries other than the number |
| TicketAfter | kazdream_task1/bingo_player.py:84-86 | a ticket holding the number loses exactly one copy of it, and no other entry; a ticket without it is unchanged |
| CompletesOn | kazdream_task1/bingo_player.py:84-92 | an update ends the game exactly when the number told is the only one left on the ticket |
| TicketAfterTwice | kazdream_task1/bingo_player.py:84-88 | being told the same number a second time changes nothing and cannot win |
| UnmatchedMembers | kazdream_task1/bingo_player.py:84-86 | after a run of draws, a ticket holds exactly its original numbers that were not drawn |
| UnmatchedNothingDrawn | kazdream_task1/bingo_game.py:96 | before any draw every ticket is as dealt |
| UnmatchedDistinct | kazdream_task1/bingo_player.py:84-86 | a ticket without repeats keeps none through any run of draws |
| UnmatchedAllDrawn | kazdream_task1/bingo_game.py:100-107 | once every number of a ticket has been drawn, the ticket is empty |
| UnmatchedPrefix | kazdream_task1/bingo_game.py:100-107 | a ticket with numbers left after some draws had numbers left after every earlier prefix of them |
| UnmatchedStep | kazdream_task1/bingo_game.py:102-107 | telling a player one more draw is exactly crossing that draw off what the earlier draws left |
| BingoPlayer.constructor | kazdream_task1/bingo_player.py:25-31 | a new player is not yet initialized and holds no name and no ticket |
| BingoPlayer.Initialize | kazdream_task1/bingo_player.py:53-63 | the player gets the given name and a ticket of five distinct numbers from the range |
| BingoPlayer.Clone | kazdream_task1/bingo_player.py:65-72 | the copy is a fresh object, so it is not aliased with the original, and it has the same name, ticket and initialization |
| BingoPlayer.Update | kazdream_task1/bingo_player.py:74-92 | the ticket loses the current number if it holds it; the game's flag turns off exactly when this removal empties the ticket, and is otherwise left alone; nothing else is written |
| NumberRange | kazdream_task1/bingo_game.py:96 | the starting pool holds every number of the range once each, and nothing else: 99 entries |
| StartKeepsPool | kazdream_task1/bingo_game.py:96 | the full pool with nothing drawn satisfies the loop's bookkeeping |
| DrawKeepsPool | kazdream_task1/bingo_game.py:102-104 | drawing a pool member and removing it shrinks the pool by exactly one; the pool keeps exactly the undrawn numbers of the range, and the draws stay distinct and in range |
| BingoGame.constructor | kazdream_task1/bingo_game.py:23-33 | a new game keeps the prototype, has no players, number 0 and the flag on |
| BingoGame.SetGameState | kazdream_task1/bingo_game.py:55-63 | the flag takes the given value and nothing else changes |
| BingoGame.Attach | kazdream_task1/bingo_game.py:66-67 | the player is appended at the end; the earlier players keep their order |
| BingoGame.Detach | kazdream_task1/bingo_game.py:69-70 | an attached player's first occurrence is removed; detaching a player that is not attached fails with `NotAttached` and changes nothing |
| BingoGame.Notify | kazdream_task1/bingo_game.py:72-74 | every attached player is told once per occurrence in the list, so each ticket loses the current number; the flag goes off exactly when some player's ticket is completed by this number, and never comes back on |
| BingoGame.InitializePlayers | kazdream_task1/bingo_game.py:76-89 | one new, distinct, freshly allocated player is appended per name, in order, each with that name and a valid ticket; the players already attached are kept; with no names the prototype is untouched, otherwise it ends up configured with the last name and holds the same ticket as the last player |
| BingoGame.PlayRound | kazdream_task1/bingo_game.py:102-107 | after one draw, the number is the current one and every ticket has it crossed off; the flag stays on only if no ticket was emptied, and goes off only if some ticket was emptied |
| BingoGame.StartGame | kazdream_task1/bingo_game.py:91-107 | the draws are distinct and in range, so there are at most 99 of them; the tickets end as dealt minus the draws; the result is `Success` exactly when the flag is off; some ticket that can be completed means `Success`; stopping means the last draw emptied a ticket and no earlier draw did; no players, with the flag on at the start, means 99 draws and then `PoolExhausted` |

## Left out

- Console output is not modelled: the welcome line, the per-draw line and the upper-cased winner line in `kazdream_task1/bingo_game.py` and `kazdream_task1/bingo_player.py` are presentation only.
- `random.choice` and `random.sample` are not modelled as random number generators. They are nondeterministic choices over the values they may return, so no distribution is modelled.
- `deepcopy` is a new object with the field values copied. Tickets are sequence values, so the copy shares no list with the original.
- The `__main__` block with the list of names is not modelled; it is entry-point glue.
- `kazdream_task1/utils.py` is not part of this model. It only declares the abstract `Subject` and `Observer` interfaces. `Update` takes a `BingoGame`, the only subject there is.
- The `number` and `game_state` getters and the `name`/`ticket` getters are plain field reads of `number`, `gameState`, `name` and `ticket`.
- BingoPlayer.Update: requires an initialized player. In the source, an uninitialized player's ticket is `None`, and the membership test raises `TypeError`. The crash is not modelled as an outcome. Notify, PlayRound and StartGame carry this requirement for every attached player through `ObserversReady`. `ObserversReady` also asks that every attached ticket be free of repeats. The source meets that: tickets are only dealt by `random.sample`, which returns distinct values, and only lose entries through `list.remove`, which `TicketAfterDistinct` shows keeps them free of repeats.
- BingoGame.Notify: the contract states the state after the whole round, not the order of the `Update` calls. The loop visits the players in list order, but no trace of the calls is proved. Since each `Update` writes only its own ticket and can only switch the flag off, the final state does not depend on that order.
- BingoGame.StartGame: the players notified in each round are not recorded; each round is one `Notify`.
- `clone` works on a prototype that was never initialized, because `deepcopy` does not check. Its docstring asks for an initialized prototype; the model follows the code, and the copy is uninitialized too.
- `detach` of a player that is not attached raises `ValueError` from `list.remove`; the model returns the `NotAttached` failure and leaves the list unchanged.
- A player attached twice is notified twice per draw. The second notification finds the number already gone and changes nothing. The model allows this, and `TicketAfterTwice` proves it harmless.
