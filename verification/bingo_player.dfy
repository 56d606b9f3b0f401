// The bingo player: a name and a ticket of numbers, told about each draw.

import opened Lists

/** Numbers on tickets and in draws lie in [RangeBegin, RangeEnd). */
const RangeBegin: int := 1
const RangeEnd: int := 100
/** How many numbers a fresh ticket holds. */
const DigitsNumber: nat := 5

predicate InRange(x: int)
{
  RangeBegin <= x < RangeEnd
}

/** What `random.sample(range(RangeBegin, RangeEnd), DigitsNumber)` may return. */
predicate ValidTicket(t: seq<int>)
{
  |t| == DigitsNumber && Distinct(t) && forall i :: 0 <= i < |t| ==> InRange(t[i])
}

/**
 * The ticket `t` after its holder has been told that `n` was drawn: one copy of `n`
 * is crossed off when the ticket holds it, and nothing changes otherwise.
 */
function TicketAfter(t: seq<int>, n: int): (r: seq<int>)
  ensures n !in t ==> r == t
  ensures n in t ==> |r| == |t| - 1 && multiset(r) + multiset{n} == multiset(t)
{
  if n in t then
    RemoveFirstCount(t, n);
    RemoveFirst(t, n)
  else t
}

/**
 * Being told `n` crosses off the last number of `t`: its holder calls bingo. That
 * happens exactly when `n` is the only number left on the ticket.
 */
predicate CompletesOn(t: seq<int>, n: int): (b: bool)
  ensures b <==> t == [n]
{
  n in t && RemoveFirst(t, n) == []
}

/**
 * A ticket never grows; it loses exactly one entry when the number is on it and
 * none otherwise, and an empty (won) ticket stays empty.
 */
lemma TicketAfterShrinks(t: seq<int>, n: int)
  ensures |TicketAfter(t, n)| <= |t|
  ensures n in t <==> |TicketAfter(t, n)| == |t| - 1
  ensures multiset(TicketAfter(t, n)) <= multiset(t)
  ensures t == [] ==> TicketAfter(t, n) == [] && !CompletesOn(t, n)
{
}

/** On a ticket without repeats the drawn number is gone afterwards, and no repeat appears. */
lemma TicketAfterDistinct(t: seq<int>, n: int)
  requires Distinct(t)
  ensures Distinct(TicketAfter(t, n))
  ensures forall y :: y in TicketAfter(t, n) <==> y in t && y != n
{
  if n in t {
    RemoveFirstDistinct(t, n);
  }
}

/** Being told a number a second time changes nothing, on a ticket without repeats. */
lemma TicketAfterTwice(t: seq<int>, n: int)
  requires Distinct(t)
  ensures TicketAfter(TicketAfter(t, n), n) == TicketAfter(t, n)
  ensures !CompletesOn(TicketAfter(t, n), n)
{
  TicketAfterDistinct(t, n);
}

/** The entries of `t` that are not among the draws `d`, in ticket order. */
function Unmatched(t: seq<int>, d: seq<int>): (r: seq<int>)
  ensures |r| <= |t|
{
  if t == [] then []
  else if t[0] in d then Unmatched(t[1..], d)
  else [t[0]] + Unmatched(t[1..], d)
}

/** After the draws `d`, a ticket holds exactly its numbers that were not drawn. */
lemma {:induction false} UnmatchedMembers(t: seq<int>, d: seq<int>)
  ensures forall x :: x in Unmatched(t, d) <==> x in t && x !in d
{
  if t != [] {
    UnmatchedMembers(t[1..], d);
    assert t == [t[0]] + t[1..];
  }
}

/** Before any draw a ticket is as dealt. */
lemma {:induction false} UnmatchedNothingDrawn(t: seq<int>)
  ensures Unmatched(t, []) == t
{
  if t != [] {
    UnmatchedNothingDrawn(t[1..]);
    assert t == [t[0]] + t[1..];
  }
}

/** Crossing off draws never introduces a repeat. */
lemma {:induction false} UnmatchedDistinct(t: seq<int>, d: seq<int>)
  requires Distinct(t)
  ensures Distinct(Unmatched(t, d))
{
  if t != [] {
    assert Distinct(t[1..]) by {
      forall i, j | 0 <= i < j < |t[1..]| ensures t[1..][i] != t[1..][j] {
        assert t[1..][i] == t[i + 1] && t[1..][j] == t[j + 1];
      }
    }
    UnmatchedDistinct(t[1..], d);
    UnmatchedMembers(t[1..], d);
    assert t[0] !in t[1..];
  }
}

/** When a ticket's untouched numbers are all drawn, nothing is left on it. */
lemma {:induction false} UnmatchedAllDrawn(t: seq<int>, d: seq<int>)
  requires forall i :: 0 <= i < |t| ==> t[i] in d
  ensures Unmatched(t, d) == []
{
  if t != [] {
    UnmatchedAllDrawn(t[1..], d);
  }
}

/** A ticket with a number left after the draws `d + e` already had one left after `d`. */
lemma UnmatchedPrefix(t: seq<int>, d: seq<int>, e: seq<int>)
  requires Unmatched(t, d + e) != []
  ensures Unmatched(t, d) != []
{
}

/**
 * Telling a player the draws one by one leaves on its ticket exactly the numbers
 * not yet drawn: one more draw is one more `TicketAfter`.
 */
lemma {:induction false} UnmatchedStep(t: seq<int>, d: seq<int>, n: int)
  requires Distinct(t)
  ensures TicketAfter(Unmatched(t, d), n) == Unmatched(t, d + [n])
{
  if t != [] {
    var rest := t[1..];
    assert Distinct(rest) by {
      forall i, j | 0 <= i < j < |rest| ensures rest[i] != rest[j] {
        assert rest[i] == t[i + 1] && rest[j] == t[j + 1];
      }
    }
    assert t[0] !in rest;
    UnmatchedStep(rest, d, n);
    UnmatchedMembers(rest, d);
    UnmatchedMembers(rest, d + [n]);
    if t[0] in d {
      assert t[0] in d + [n];
    } else if t[0] == n {
      assert Unmatched(t, d) == [n] + Unmatched(rest, d);
      assert Unmatched(t, d + [n]) == Unmatched(rest, d + [n]);
      assert n !in Unmatched(rest, d);
      assert TicketAfter(Unmatched(rest, d), n) == Unmatched(rest, d);
    } else {
      assert t[0] !in d + [n];
      var u := Unmatched(rest, d);
      assert Unmatched(t, d) == [t[0]] + u;
      if n in u {
        assert RemoveFirst([t[0]] + u, n) == [t[0]] + RemoveFirst(u, n);
      }
    }
  }
}

class BingoPlayer {
  var name: string
  var ticket: seq<int>
  /** False until `Initialize`; the source holds `None` in both fields until then. */
  var initialized: bool

  /** Initialized with the name `name` and a ticket `random.sample` could deal. */
  predicate Dealt(name: string)
    reads this
  {
    initialized && this.name == name && ValidTicket(ticket)
  }

  constructor ()
    ensures !initialized && name == "" && ticket == []
  {
    name, ticket, initialized := "", [], false;
  }

  /** Names the prototype and deals it a fresh ticket (the source draws it at random). */
  method Initialize(name: string)
    modifies this
    ensures Dealt(name)
  {
    assert ValidTicket([1, 2, 3, 4, 5]);
    var dealt :| ValidTicket(dealt);
    this.name, ticket, initialized := name, dealt, true;
  }

  /** A new player with the same name and an equal, unshared ticket. */
  method Clone() returns (copy: BingoPlayer)
    ensures fresh(copy)
    ensures copy.name == name && copy.ticket == ticket && copy.initialized == initialized
  {
    copy := new BingoPlayer();
    copy.name, copy.ticket, copy.initialized := name, ticket, initialized;
  }

  /**
   * Told the game's current number: cross it off the ticket if it is there; if that
   * empties the ticket, stop the game. Nothing else is written.
   */
  method Update(game: BingoGame)
    requires initialized
    modifies this`ticket, game`gameState
    ensures ticket == TicketAfter(old(ticket), game.number)
    ensures game.gameState == if CompletesOn(old(ticket), game.number) then false else old(game.gameState)
  {
    var current := game.number;
    if current in ticket {
      ticket := RemoveFirst(ticket, current);
      if ticket == [] {
        game.SetGameState(false);
      }
    }
  }
}
