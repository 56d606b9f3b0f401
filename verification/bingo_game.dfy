// The bingo game: the subject that draws numbers without replacement and tells every
// attached player about each one, until some player's ticket is empty.

/** The exceptions the source's operations can raise; neither is caught there. */
datatype BingoError =
  | NotAttached    // detaching a player that is not attached (`list.remove` raises ValueError)
  | PoolExhausted  // drawing from an empty pool (`random.choice` raises IndexError)

datatype Outcome = Success | Failure(error: BingoError)

/** The pool a game starts from: every number of the range, once each. */
function NumberRange(): (pool: seq<int>)
  ensures |pool| == RangeEnd - RangeBegin
  ensures Distinct(pool)
  ensures forall x :: x in pool <==> InRange(x)
{
  var pool := seq(RangeEnd - RangeBegin, i => RangeBegin + i);
  assert forall x :: InRange(x) ==> pool[x - RangeBegin] == x;
  pool
}

/** A ticket that can still be completed by draws from a full pool. */
predicate CanWin(t: seq<int>)
{
  t != [] && forall x :: x in t ==> InRange(x)
}

/** Every ticket in `t0` is free of repeats. */
ghost predicate AllDistinct(t0: map<BingoPlayer, seq<int>>)
{
  forall p :: p in t0 ==> Distinct(t0[p])
}

/**
 * The game loop's bookkeeping: `pool` holds, once each, exactly the numbers of the
 * range not yet `drawn`, and the draws so far are distinct numbers of the range.
 */
ghost predicate PoolInvariant(pool: seq<int>, drawn: seq<int>)
{
  && Distinct(pool)
  && Distinct(drawn)
  && (forall x :: x in pool <==> InRange(x) && x !in drawn)
  && (forall i :: 0 <= i < |drawn| ==> InRange(drawn[i]))
  && |pool| + |drawn| == RangeEnd - RangeBegin
}

/** The full range, with nothing drawn, satisfies the bookkeeping. */
lemma StartKeepsPool()
  ensures PoolInvariant(NumberRange(), [])
{
}

/** Drawing a pool member and taking it out keeps the bookkeeping; the pool loses exactly one. */
lemma DrawKeepsPool(pool: seq<int>, drawn: seq<int>, n: int)
  requires PoolInvariant(pool, drawn) && n in pool
  ensures PoolInvariant(RemoveFirst(pool, n), drawn + [n])
  ensures |RemoveFirst(pool, n)| == |pool| - 1
{
  RemoveFirstDistinct(pool, n);
  DistinctAppend(drawn, n);
}

class BingoGame {
  const prototype: BingoPlayer
  var observers: seq<BingoPlayer>
  /** The number drawn last; 0 before the first draw. */
  var number: int
  /** True until some player's ticket is empty. */
  var gameState: bool

  constructor (prototype: BingoPlayer)
    ensures this.prototype == prototype
    ensures observers == [] && number == 0 && gameState
  {
    this.prototype := prototype;
    observers, number, gameState := [], 0, true;
  }

  ghost function ObserverSet(): set<BingoPlayer>
    reads this
  {
    set p | p in observers
  }

  /** Every attached player has been initialized and holds a ticket without repeats. */
  ghost predicate ObserversReady()
    reads this, ObserverSet()
  {
    forall p :: p in observers ==> p.initialized && Distinct(p.ticket)
  }

  /** The `game_state` setter, through which a winning player stops the game. */
  method SetGameState(state: bool)
    modifies this`gameState
    ensures gameState == state
  {
    gameState := state;
  }

  method Attach(observer: BingoPlayer)
    modifies this`observers
    ensures observers == old(observers) + [observer]
  {
    observers := observers + [observer];
  }

  /** Removes the first occurrence of `observer`; fails when it is not attached. */
  method Detach(observer: BingoPlayer) returns (outcome: Outcome)
    modifies this`observers
    ensures observer in old(observers) ==> outcome == Success && observers == RemoveFirst(old(observers), observer)
    ensures observer !in old(observers) ==> outcome == Failure(NotAttached) && observers == old(observers)
  {
    if observer in observers {
      observers := RemoveFirst(observers, observer);
      outcome := Success;
    } else {
      outcome := Failure(NotAttached);
    }
  }

  /**
   * Tells every attached player, in list order, about the current number. A player
   * attached twice is told twice, and the second time changes nothing.
   */
  method Notify()
    requires ObserversReady()
    modifies this`gameState, ObserverSet()`ticket
    ensures ObserversReady()
    ensures forall p :: p in observers ==> p.ticket == TicketAfter(old(p.ticket), number)
    ensures gameState == (old(gameState) && !exists p :: p in observers && CompletesOn(old(p.ticket), number))
  {
    var i := 0;
    while i < |observers|
      invariant 0 <= i <= |observers|
      invariant forall p :: p in observers ==>
        p.ticket == if p in observers[..i] then TicketAfter(old(p.ticket), number) else old(p.ticket)
      invariant gameState == (old(gameState) && !exists p :: p in observers[..i] && CompletesOn(old(p.ticket), number))
    {
      var p := observers[i];
      assert observers[..i + 1] == observers[..i] + [p];
      TicketAfterTwice(old(p.ticket), number);
      p.Update(this);
      i := i + 1;
    }
    assert observers[..i] == observers;
    forall p | p in observers
      ensures Distinct(p.ticket)
    {
      TicketAfterDistinct(old(p.ticket), number);
    }
  }

  /**
   * Attaches one new player per name, in order: the prototype is given the name and a
   * fresh ticket, then cloned, and the clone is attached.
   */
  method InitializePlayers(playerNames: seq<string>)
    modifies this`observers, prototype
    ensures |observers| == |old(observers)| + |playerNames|
    ensures observers[..|old(observers)|] == old(observers)
    ensures forall i :: |old(observers)| <= i < |observers| ==> fresh(observers[i])
    ensures forall i :: 0 <= i < |playerNames| ==> observers[|old(observers)| + i].Dealt(playerNames[i])
    ensures forall i, j :: |old(observers)| <= i < j < |observers| ==> observers[i] != observers[j]
    ensures playerNames == [] ==> unchanged(prototype)
    ensures playerNames != [] ==>
      prototype.Dealt(playerNames[|playerNames| - 1]) && prototype.ticket == observers[|observers| - 1].ticket
    ensures old(ObserversReady()) ==> ObserversReady()
  {
    var k := 0;
    while k < |playerNames|
      invariant 0 <= k <= |playerNames|
      invariant |observers| == |old(observers)| + k
      invariant observers[..|old(observers)|] == old(observers)
      invariant forall i :: |old(observers)| <= i < |observers| ==> fresh(observers[i])
      invariant forall i :: 0 <= i < k ==> observers[|old(observers)| + i].Dealt(playerNames[i])
      invariant forall i, j :: |old(observers)| <= i < j < |observers| ==> observers[i] != observers[j]
      invariant k == 0 ==> unchanged(prototype)
      invariant k > 0 ==> prototype.Dealt(playerNames[k - 1]) && prototype.ticket == observers[|observers| - 1].ticket
      invariant old(ObserversReady()) ==> ObserversReady()
    {
      ghost var before := observers;
      prototype.Initialize(playerNames[k]);
      var player := prototype.Clone();
      Attach(player);
      assert observers == before + [player];
      assert observers[|old(observers)| + k] == player;
      k := k + 1;
    }
  }

  /** Each attached player's ticket as it is now. */
  ghost function Snapshot(): map<BingoPlayer, seq<int>>
    reads this, ObserverSet()
  {
    map p | p in observers :: p.ticket
  }

  /** Every player holds its ticket from `t0` with the numbers of `drawn` crossed off. */
  ghost predicate CrossedOff(t0: map<BingoPlayer, seq<int>>, drawn: seq<int>)
    reads this, ObserverSet()
  {
    forall p :: p in observers ==> p in t0 && p.ticket == Unmatched(t0[p], drawn)
  }

  /** No player that had numbers on its ticket in `t0` has an empty ticket now. */
  ghost predicate NoneEmptied(t0: map<BingoPlayer, seq<int>>)
    reads this, ObserverSet()
  {
    forall p :: p in observers && p in t0 && t0[p] != [] ==> p.ticket != []
  }

  /** Some player that had numbers on its ticket in `t0` has an empty ticket now. */
  ghost predicate SomeEmptied(t0: map<BingoPlayer, seq<int>>)
    reads this, ObserverSet()
  {
    exists p :: p in observers && p in t0 && t0[p] != [] && p.ticket == []
  }

  /** The draws `d` leave a number on every ticket of `t0` that had one. */
  ghost predicate NoneEmptiedBy(t0: map<BingoPlayer, seq<int>>, d: seq<int>)
    reads this
  {
    forall p :: p in observers && p in t0 && t0[p] != [] ==> Unmatched(t0[p], d) != []
  }

  /** Some player holds a ticket in `t0` that draws from the range can complete. */
  ghost predicate SomeCanWin(t0: map<BingoPlayer, seq<int>>)
    reads this
  {
    exists p :: p in observers && p in t0 && CanWin(t0[p])
  }

  /**
   * One pass of the game loop once `n` has been drawn: `n` becomes the current number
   * and every player is told. `t0` holds each player's ticket from before the game
   * and `drawn` the numbers drawn in earlier rounds.
   */
  method PlayRound(n: int, ghost t0: map<BingoPlayer, seq<int>>, ghost drawn: seq<int>)
    requires ObserversReady() && AllDistinct(t0) && CrossedOff(t0, drawn)
    requires gameState && NoneEmptied(t0)
    modifies this`number, this`gameState, ObserverSet()`ticket
    ensures number == n && ObserversReady()
    ensures CrossedOff(t0, drawn + [n])
    ensures gameState ==> NoneEmptied(t0)
    ensures !gameState ==> SomeEmptied(t0)
  {
    forall p | p in observers
      ensures TicketAfter(Unmatched(t0[p], drawn), n) == Unmatched(t0[p], drawn + [n])
    {
      UnmatchedStep(t0[p], drawn, n);
    }
    number := n;
    Notify();
  }

  /**
   * Plays one game: starting from the full pool, while the game is on, draw a number
   * still in the pool, take it out, make it the current number and tell every player.
   * `drawn` lists the numbers drawn, in order. The source's `random.choice` fails on
   * an empty pool; that is the `PoolExhausted` outcome.
   */
  method StartGame() returns (outcome: Outcome, ghost drawn: seq<int>)
    requires ObserversReady()
    modifies this`number, this`gameState, ObserverSet()`ticket
    ensures ObserversReady()
    ensures Distinct(drawn) && forall i :: 0 <= i < |drawn| ==> InRange(drawn[i])
    ensures |drawn| <= RangeEnd - RangeBegin
    ensures drawn != [] ==> number == drawn[|drawn| - 1]
    ensures drawn == [] ==> number == old(number)
    ensures !old(gameState) ==> drawn == [] && !gameState
    ensures CrossedOff(old(Snapshot()), drawn)
    ensures outcome == Success <==> !gameState
    ensures outcome.Failure? ==> outcome.error == PoolExhausted && |drawn| == RangeEnd - RangeBegin
    ensures SomeCanWin(old(Snapshot())) ==> outcome == Success
    ensures old(gameState) && !gameState ==> SomeEmptied(old(Snapshot()))
    ensures old(gameState) && observers == [] ==> outcome == Failure(PoolExhausted) && |drawn| == RangeEnd - RangeBegin
    ensures drawn != [] ==> NoneEmptiedBy(old(Snapshot()), drawn[..|drawn| - 1])
  {
    ghost var t0 := Snapshot();
    var numbers := NumberRange();
    drawn := [];
    StartKeepsPool();
    outcome := Success;
    forall p | p in observers
      ensures Unmatched(t0[p], []) == p.ticket
    {
      UnmatchedNothingDrawn(p.ticket);
    }
    while gameState
      invariant ObserversReady() && AllDistinct(t0)
      invariant PoolInvariant(numbers, drawn)
      invariant drawn != [] ==> number == drawn[|drawn| - 1]
      invariant drawn == [] ==> number == old(number) && gameState == old(gameState)
      invariant old(gameState) || drawn == []
      invariant CrossedOff(t0, drawn)
      invariant gameState ==> NoneEmptied(t0)
      invariant old(gameState) && !gameState ==> SomeEmptied(t0)
      invariant drawn != [] ==> NoneEmptiedBy(t0, drawn[..|drawn| - 1])
      decreases |numbers|
    {
      if numbers == [] {
        assert !SomeCanWin(t0) by {
          forall p | p in observers && p in t0
            ensures !CanWin(t0[p])
          {
            ghost var t := t0[p];
            if CanWin(t) {
              forall i | 0 <= i < |t|
                ensures t[i] in drawn
              {
                ghost var x := t[i];
                assert x in t;
              }
              UnmatchedAllDrawn(t, drawn);
            }
          }
        }
        outcome := Failure(PoolExhausted);
        return;
      }
      ghost var first := numbers[0];
      assert first in numbers;
      var n :| n in numbers;
      DrawKeepsPool(numbers, drawn, n);
      numbers := RemoveFirst(numbers, n);
      assert NoneEmptiedBy(t0, drawn);
      PlayRound(n, t0, drawn);
      ghost var before := drawn;
      drawn := drawn + [n];
      assert drawn[..|drawn| - 1] == before;
    }
  }
}
