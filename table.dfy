/**
 * The running simulation: one shared `Forks` object and the philosophers'
 * private records, stepped one atomic action at a time. Each method is
 * proved against the corresponding function of `Dining`, so the ring
 * invariant proved there holds of every state this object reaches.
 */
module Simulation {
  import opened Ring
  import opened ForkRing
  import opened Dining

  class Table {
    const forks: Forks
    /** `philosophers[i]` is the state of the philosopher named `i`. */
    var philosophers: seq<Philosopher>

    ghost function State(): World
      reads this, forks, forks.forks
    {
      World(forks.forks[..], forks.foodQuantity, forks.terminated, philosophers)
    }

    ghost predicate Valid()
      reads this, forks, forks.forks
    {
      forks.Valid() && forks.number == |philosophers| && Inv(State())
    }

    /** `number` philosophers at a fresh table, all hungry and running. */
    constructor (number: nat)
      requires number >= 2
      ensures Valid() && fresh(forks) && fresh(forks.forks)
      ensures State() == Initial(number)
    {
      forks := new Forks(number);
      philosophers := seq(number, _ => Philosopher(Hungry, false, false, false));
      new;
      InitialInv(number);
    }

    /** One atomic action of philosopher `i`'s `run` loop. */
    method Step(i: nat)
      requires Valid() && i < |philosophers|
      modifies this, forks, forks.forks
      ensures Valid()
      ensures State() == Next(old(State()), i)
    {
      ghost var w := State();
      StepKeepsInv(w, i);
      var p := philosophers[i];
      if forks.terminated {
        return;
      }
      if p.owesPortion {
        PayPortion(i);
      } else if p.inRetryLoop || (!p.paused && p.currentState == Hungry) {
        TryTakeForks(i);
      } else if !p.paused {
        match p.currentState
        case Eating =>
          assert !forks.forks[i] && !forks.forks[Right(i, forks.number)] by {
            assert w.forks[i] == forks.forks[i];
            LeftOfRight(i, forks.number);
          }
          FinishEating(i);
        case Thinking =>
          FinishThinking(i);
      }
    }

    /** The hungry case: one call of `takeForks`, then eating with a portion owed, or a retry. */
    method TryTakeForks(i: nat)
      requires forks.Valid() && forks.number == |philosophers| && i < |philosophers|
      modifies this, forks.forks
      ensures forks.Valid() && State() == Attempt(old(State()), i)
    {
      var p := philosophers[i];
      var taken := forks.TakeForks(i);
      if taken {
        philosophers := philosophers[i := Philosopher(Eating, p.paused, false, true)];
      } else {
        philosophers := philosophers[i := p.(inRetryLoop := true)];
      }
    }

    /** The portion owed after a pick-up: one call of `decreaseFoodQuantity`. */
    method PayPortion(i: nat)
      requires forks.Valid() && forks.number == |philosophers| && i < |philosophers|
      requires !forks.terminated
      modifies this, forks
      ensures forks.Valid() && State() == EatPortion(old(State()), i)
    {
      forks.DecreaseFoodQuantity();
      philosophers := philosophers[i := philosophers[i].(owesPortion := false)];
    }

    /** The eating case: the forks go back and the philosopher thinks. */
    method FinishEating(i: nat)
      requires forks.Valid() && forks.number == |philosophers| && i < |philosophers|
      requires !forks.forks[i] && !forks.forks[Right(i, forks.number)]
      modifies this, forks.forks
      ensures forks.Valid()
      ensures State() == old(State()).(forks := LeavePair(old(forks.forks[..]), i),
        philosophers := old(philosophers)[i := old(philosophers)[i].(currentState := Thinking)])
    {
      forks.LeaveForks(i);
      philosophers := philosophers[i := philosophers[i].(currentState := Thinking)];
    }

    /** The thinking case: the philosopher is hungry again, no fork is touched. */
    method FinishThinking(i: nat)
      requires i < |philosophers|
      modifies this
      ensures State() == old(State()).(philosophers := old(philosophers)[i := old(philosophers)[i].(currentState := Hungry)])
    {
      philosophers := philosophers[i := philosophers[i].(currentState := Hungry)];
    }

    method PauseThread(i: nat)
      requires Valid() && i < |philosophers|
      modifies this
      ensures Valid()
      ensures State() == SetPaused(old(State()), i, true)
    {
      PauseKeepsInv(State(), i, true);
      philosophers := philosophers[i := philosophers[i].(paused := true)];
    }

    method ResumeThread(i: nat)
      requires Valid() && i < |philosophers|
      modifies this
      ensures Valid()
      ensures State() == SetPaused(old(State()), i, false)
    {
      PauseKeepsInv(State(), i, false);
      philosophers := philosophers[i := philosophers[i].(paused := false)];
    }

    method IsPaused(i: nat) returns (paused: bool)
      requires i < |philosophers|
      ensures paused == philosophers[i].paused
    {
      paused := philosophers[i].paused;
    }

    method GetCurrentState(i: nat) returns (state: PhilosopherState)
      requires i < |philosophers|
      ensures state == philosophers[i].currentState
    {
      state := philosophers[i].currentState;
    }
  }
}
