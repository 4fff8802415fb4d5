/**
 * The shared fork table with its food counter, updated in place.
 *
 * Every operation runs as one atomic step: the Java class guards the fork
 * table with one ring-wide lock and the counter with the object monitor,
 * and each lock is held for the whole operation.
 */
module ForkRing {
  import opened Ring

  class Forks {
    /** Number of seats, and of forks. */
    const number: nat
    /** `forks[i]` is `true` while fork `i` is available. */
    const forks: array<bool>
    var foodQuantity: int
    /** Set when the food runs out; stands for the process exiting. */
    var terminated: bool

    ghost predicate Valid()
      reads this
    {
      forks.Length == number && 0 <= foodQuantity && (terminated <==> foodQuantity == 0)
    }

    /** A table of `number` forks, all available, with the initial amount of food. */
    constructor (number: nat)
      ensures Valid() && fresh(forks)
      ensures this.number == number && forks[..] == AllAvailable(number)
      ensures foodQuantity == InitialFood && !terminated
    {
      this.number := number;
      forks := new bool[number];
      foodQuantity := InitialFood;
      terminated := false;
      new;
      for i := 0 to number
        modifies forks
        invariant forall k :: 0 <= k < i ==> forks[k]
      {
        forks[i] := true;
      }
      assert forks[..] == AllAvailable(number);
    }

    /**
     * Picks up forks `philosopherId` and `(philosopherId + 1) % number` if
     * both are available; otherwise changes nothing.
     */
    method TakeForks(philosopherId: nat) returns (taken: bool)
      requires Valid() && philosopherId < number
      modifies forks
      ensures Valid()
      ensures taken == (old(forks[philosopherId]) && old(forks[Right(philosopherId, number)]))
      ensures taken ==> forks[..] == TakePair(old(forks[..]), philosopherId)
      ensures !taken ==> forks[..] == old(forks[..])
    {
      var leftForkIndex := philosopherId;
      var rightForkIndex := (philosopherId + 1) % number;
      if forks[leftForkIndex] && forks[rightForkIndex] {
        forks[leftForkIndex] := false;
        forks[rightForkIndex] := false;
        taken := true;
      } else {
        taken := false;
      }
    }

    /**
     * Puts forks `philosopherId` and `(philosopherId + 1) % number` back.
     * The store is unconditional; the caller must hold both forks.
     */
    method LeaveForks(philosopherId: nat)
      requires Valid() && philosopherId < number
      requires !forks[philosopherId] && !forks[Right(philosopherId, number)]
      modifies forks
      ensures Valid()
      ensures forks[..] == LeavePair(old(forks[..]), philosopherId)
    {
      var leftForkIndex := philosopherId;
      var rightForkIndex := (philosopherId + 1) % number;
      forks[leftForkIndex] := true;
      forks[rightForkIndex] := true;
    }

    /** Eats one portion; the portion that empties the table ends the simulation. */
    method DecreaseFoodQuantity()
      requires Valid() && !terminated
      modifies this
      ensures Valid()
      ensures foodQuantity == old(foodQuantity) - 1
      ensures terminated <==> foodQuantity == 0
    {
      foodQuantity := foodQuantity - 1;
      if foodQuantity == 0 {
        terminated := true;
      }
    }

    method GetFoodQuantity() returns (quantity: int)
      requires Valid()
      ensures quantity == foodQuantity && quantity >= 0
    {
      quantity := foodQuantity;
    }
  }
}
