/**
 * The philosophers' protocol as a state machine over whole-table snapshots.
 *
 * Each philosopher's thread is replaced by steps of `Next`: the scheduler
 * picks a philosopher and that philosopher performs one atomic action of
 * its `run` loop. `Run` applies any interleaving of such steps and of
 * pause/resume requests, and the ring invariant `Inv` holds after every one.
 */
module Dining {
  import opened Ring

  datatype PhilosopherState = Hungry | Eating | Thinking

  /**
   * The private state of one philosopher. `inRetryLoop` holds while the
   * philosopher is inside its `while (!takeForks(name))` loop, that is,
   * after a first attempt at its forks failed and before one succeeds.
   * `owesPortion` holds between a successful `takeForks` and the call of
   * `decreaseFoodQuantity` that follows it: the two run under different
   * locks, so other philosophers may act in between.
   */
  datatype Philosopher = Philosopher(currentState: PhilosopherState, paused: bool, inRetryLoop: bool, owesPortion: bool)

  /** The fork table, the food counter, the exit flag and every philosopher. */
  datatype World = World(forks: seq<bool>, foodQuantity: int, terminated: bool, philosophers: seq<Philosopher>)

  /** What the scheduler may do next: let philosopher `who` take a step, or pause or resume it. */
  datatype Event = Act(who: nat) | Pause(who: nat) | Resume(who: nat)

  /** There is one fork per philosopher: the fork table and the philosophers have the same length. */
  predicate WellFormed(w: World)
  {
    |w.forks| == |w.philosophers|
  }

  predicate IsEating(p: Philosopher)
  {
    p.currentState == Eating
  }

  /** The number of philosophers currently eating. */
  function EatingCount(ps: seq<Philosopher>): (k: nat)
    ensures k <= |ps|
    ensures k == 0 <==> forall j :: 0 <= j < |ps| ==> !IsEating(ps[j])
  {
    if ps == [] then 0 else (if IsEating(ps[0]) then 1 else 0) + EatingCount(ps[1..])
  }

  lemma {:induction false} EatingCountUpdate(ps: seq<Philosopher>, k: nat, p: Philosopher)
    requires k < |ps|
    ensures EatingCount(ps[k := p])
         == EatingCount(ps) - (if IsEating(ps[k]) then 1 else 0) + (if IsEating(p) then 1 else 0)
  {
    if k == 0 {
      assert ps[k := p][1..] == ps[1..];
    } else {
      assert ps[k := p][1..] == ps[1..][k - 1 := p];
      EatingCountUpdate(ps[1..], k - 1, p);
    }
  }

  /** The number of philosophers that hold their forks but have not yet eaten their portion. */
  function OwingCount(ps: seq<Philosopher>): (k: nat)
    ensures k <= |ps|
    ensures k == 0 <==> forall j :: 0 <= j < |ps| ==> !ps[j].owesPortion
  {
    if ps == [] then 0 else (if ps[0].owesPortion then 1 else 0) + OwingCount(ps[1..])
  }

  lemma {:induction false} OwingCountUpdate(ps: seq<Philosopher>, k: nat, p: Philosopher)
    requires k < |ps|
    ensures OwingCount(ps[k := p])
         == OwingCount(ps) - (if ps[k].owesPortion then 1 else 0) + (if p.owesPortion then 1 else 0)
  {
    if k == 0 {
      assert ps[k := p][1..] == ps[1..];
    } else {
      assert ps[k := p][1..] == ps[1..][k - 1 := p];
      OwingCountUpdate(ps[1..], k - 1, p);
    }
  }

  /** A philosopher retries only while hungry and owes a portion only while eating. */
  predicate Coherent(p: Philosopher)
  {
    (p.inRetryLoop ==> p.currentState == Hungry) && (p.owesPortion ==> p.currentState == Eating)
  }

  /** Only eating philosophers owe a portion, so there are no more owers than eaters. */
  lemma {:induction false} OwersAreEaters(ps: seq<Philosopher>)
    requires forall j :: 0 <= j < |ps| ==> Coherent(ps[j])
    ensures OwingCount(ps) <= EatingCount(ps)
  {
    if ps != [] {
      assert forall j :: 0 <= j < |ps[1..]| ==> Coherent(ps[1..][j]) by {
        forall j | 0 <= j < |ps[1..]| ensures Coherent(ps[1..][j]) {
          assert ps[1..][j] == ps[j + 1];
        }
      }
      OwersAreEaters(ps[1..]);
    }
  }

  /** The table as the simulation starts: `n` philosophers, all hungry and none paused. */
  function Initial(n: nat): (w: World)
    ensures WellFormed(w) && |w.philosophers| == n
    ensures Taken(w.forks) == 0 && EatingCount(w.philosophers) == 0 && OwingCount(w.philosophers) == 0
    ensures w.foodQuantity == InitialFood && !w.terminated
  {
    World(AllAvailable(n), InitialFood, false, seq(n, _ => Philosopher(Hungry, false, false, false)))
  }

  /** `decreaseFoodQuantity`: one portion less; the last portion ends the run. */
  function DecreaseFood(w: World): (r: World)
    ensures r.foodQuantity == w.foodQuantity - 1
    ensures r.terminated <==> r.foodQuantity == 0
    ensures r.forks == w.forks && r.philosophers == w.philosophers
  {
    var food := w.foodQuantity - 1;
    w.(foodQuantity := food, terminated := food == 0)
  }

  /**
   * One call of `takeForks(i)` by hungry philosopher `i`. On success it
   * holds both forks, is eating and owes its portion; on failure it is
   * (still) inside its retry loop and nothing shared changes.
   */
  function Attempt(w: World, i: nat): (r: World)
    requires WellFormed(w) && i < |w.philosophers|
    ensures WellFormed(r) && |r.philosophers| == |w.philosophers|
    ensures r.foodQuantity == w.foodQuantity && r.terminated == w.terminated
    ensures forall j :: 0 <= j < |w.philosophers| && j != i ==> r.philosophers[j] == w.philosophers[j]
    ensures r.philosophers[i].paused == w.philosophers[i].paused
    ensures w.forks[i] && w.forks[Right(i, |w.forks|)] ==>
      r.forks == TakePair(w.forks, i) && IsEating(r.philosophers[i])
      && r.philosophers[i].owesPortion && !r.philosophers[i].inRetryLoop
    ensures !(w.forks[i] && w.forks[Right(i, |w.forks|)]) ==>
      r.forks == w.forks && r.philosophers[i].inRetryLoop
      && r.philosophers[i].currentState == w.philosophers[i].currentState
      && r.philosophers[i].owesPortion == w.philosophers[i].owesPortion
  {
    var p := w.philosophers[i];
    if w.forks[i] && w.forks[Right(i, |w.forks|)] then
      w.(forks := TakePair(w.forks, i),
         philosophers := w.philosophers[i := Philosopher(Eating, p.paused, false, true)])
    else
      w.(philosophers := w.philosophers[i := p.(inRetryLoop := true)])
  }

  /** The `decreaseFoodQuantity` call that follows philosopher `i`'s successful pick-up. */
  function EatPortion(w: World, i: nat): (r: World)
    requires WellFormed(w) && i < |w.philosophers|
    ensures WellFormed(r) && r.forks == w.forks && r.foodQuantity == w.foodQuantity - 1
    ensures r.terminated <==> r.foodQuantity == 0
    ensures forall j :: 0 <= j < |w.philosophers| && j != i ==> r.philosophers[j] == w.philosophers[j]
    ensures r.philosophers[i] == w.philosophers[i].(owesPortion := false)
  {
    DecreaseFood(w.(philosophers := w.philosophers[i := w.philosophers[i].(owesPortion := false)]))
  }

  /**
   * One atomic step of philosopher `i`'s `run` loop. Once the food is gone
   * the process has exited and nothing happens. A philosopher that owes a
   * portion eats it. Inside the retry loop the philosopher attempts again
   * whether or not it is paused; otherwise a paused philosopher idles, and
   * an unpaused one acts on its state.
   */
  function Next(w: World, i: nat): (r: World)
    requires WellFormed(w) && i < |w.philosophers|
    ensures WellFormed(r) && |r.forks| == |w.forks|
    ensures forall j :: 0 <= j < |w.philosophers| && j != i ==> r.philosophers[j] == w.philosophers[j]
    ensures r.philosophers[i].paused == w.philosophers[i].paused
  {
    var p := w.philosophers[i];
    if w.terminated then w
    else if p.owesPortion then EatPortion(w, i)
    else if p.inRetryLoop then Attempt(w, i)
    else if p.paused then w
    else match p.currentState
      case Hungry => Attempt(w, i)
      case Eating =>
        w.(forks := LeavePair(w.forks, i),
           philosophers := w.philosophers[i := p.(currentState := Thinking)])
      case Thinking =>
        w.(philosophers := w.philosophers[i := p.(currentState := Hungry)])
  }

  /** `pauseThread` (b = true) and `resumeThread` (b = false) on philosopher `i`. */
  function SetPaused(w: World, i: nat, b: bool): (r: World)
    requires WellFormed(w) && i < |w.philosophers|
    ensures WellFormed(r) && r.forks == w.forks && r.foodQuantity == w.foodQuantity
    ensures r.terminated == w.terminated && |r.philosophers| == |w.philosophers|
    ensures r.philosophers[i].paused == b
    ensures r.philosophers[i].currentState == w.philosophers[i].currentState
    ensures r.philosophers[i].inRetryLoop == w.philosophers[i].inRetryLoop
    ensures r.philosophers[i].owesPortion == w.philosophers[i].owesPortion
    ensures forall j :: 0 <= j < |w.philosophers| && j != i ==> r.philosophers[j] == w.philosophers[j]
  {
    w.(philosophers := w.philosophers[i := w.philosophers[i].(paused := b)])
  }

  /** One scheduler event; after the process exited, or for a seat that does not exist, nothing happens. */
  function Apply(w: World, e: Event): (r: World)
    requires WellFormed(w)
    ensures WellFormed(r) && |r.forks| == |w.forks|
  {
    if w.terminated || e.who >= |w.philosophers| then w
    else match e
      case Act(i) => Next(w, i)
      case Pause(i) => SetPaused(w, i, true)
      case Resume(i) => SetPaused(w, i, false)
  }

  /** The table after the events, in order. */
  function Run(w: World, events: seq<Event>): (r: World)
    requires WellFormed(w)
    ensures WellFormed(r) && |r.forks| == |w.forks|
    decreases |events|
  {
    if events == [] then w else Run(Apply(w, events[0]), events[1..])
  }

  // ----- The ring invariant -----

  /** No two neighbours eat at once. */
  predicate NoAdjacentEating(w: World)
  {
    forall i :: 0 <= i < |w.philosophers| ==>
      !(IsEating(w.philosophers[i]) && IsEating(w.philosophers[Right(i, |w.philosophers|)]))
  }

  /** A fork is in use exactly when one of the two philosophers beside it is eating. */
  predicate ForksMatch(w: World)
    requires WellFormed(w)
  {
    forall j :: 0 <= j < |w.forks| ==>
      (w.forks[j] <==> !IsEating(w.philosophers[j]) && !IsEating(w.philosophers[Left(j, |w.forks|)]))
  }

  predicate AllCoherent(w: World)
  {
    forall i :: 0 <= i < |w.philosophers| ==> Coherent(w.philosophers[i])
  }

  /** The food counter stays within its range and is zero exactly after the exit. */
  predicate FoodInRange(w: World)
  {
    0 <= w.foodQuantity <= InitialFood && (w.terminated <==> w.foodQuantity == 0)
  }

  predicate Inv(w: World)
  {
    && WellFormed(w)
    && |w.forks| >= 2
    && FoodInRange(w)
    && AllCoherent(w)
    && NoAdjacentEating(w)
    && ForksMatch(w)
    && Taken(w.forks) == 2 * EatingCount(w.philosophers)
  }

  lemma InitialInv(n: nat)
    requires n >= 2
    ensures Inv(Initial(n))
  {
  }

  /** A successful pick-up keeps the invariant; both neighbours were not eating. */
  lemma TakeKeepsInv(w: World, i: nat)
    requires Inv(w) && i < |w.philosophers|
    requires w.philosophers[i].currentState == Hungry
    requires w.forks[i] && w.forks[Right(i, |w.forks|)]
    ensures !IsEating(w.philosophers[Left(i, |w.forks|)]) && !IsEating(w.philosophers[Right(i, |w.forks|)])
    ensures Inv(Attempt(w, i))
  {
    var n := |w.forks|;
    var r := Right(i, n);
    var p := w.philosophers[i];
    var q := Philosopher(Eating, p.paused, false, true);
    var ps := w.philosophers[i := q];
    var forks := TakePair(w.forks, i);
    var w' := Attempt(w, i);
    assert w'.forks == forks && w'.philosophers == ps;
    LeftOfRight(i, n);
    assert r != i;
    assert !IsEating(w.philosophers[Left(i, n)]);
    assert !IsEating(w.philosophers[r]);
    forall k | 0 <= k < n
      ensures !(IsEating(ps[k]) && IsEating(ps[Right(k, n)]))
    {
      if k == i {
      } else if Right(k, n) == i {
        assert k == Left(i, n);
      } else {
        assert ps[k] == w.philosophers[k] && ps[Right(k, n)] == w.philosophers[Right(k, n)];
      }
    }
    forall j | 0 <= j < n
      ensures forks[j] <==> !IsEating(ps[j]) && !IsEating(ps[Left(j, n)])
    {
      if j == i {
      } else if j == r {
      } else {
        assert Left(j, n) != i;
      }
    }
    TakenTakePair(w.forks, i);
    EatingCountUpdate(w.philosophers, i, q);
  }

  /** Putting the pair back after eating keeps the invariant. */
  lemma LeaveKeepsInv(w: World, i: nat)
    requires Inv(w) && i < |w.philosophers| && !w.terminated
    requires !w.philosophers[i].inRetryLoop && !w.philosophers[i].paused && !w.philosophers[i].owesPortion
    requires IsEating(w.philosophers[i])
    ensures Inv(Next(w, i))
  {
    var n := |w.forks|;
    var r := Right(i, n);
    var p := w.philosophers[i];
    var q := p.(currentState := Thinking);
    var ps := w.philosophers[i := q];
    var forks := LeavePair(w.forks, i);
    var w' := Next(w, i);
    assert w'.forks == forks && w'.philosophers == ps;
    LeftOfRight(i, n);
    assert r != i;
    assert !w.forks[i] && !w.forks[r];
    assert !IsEating(w.philosophers[r]);
    assert !IsEating(w.philosophers[Left(i, n)]) by {
      assert Right(Left(i, n), n) == i;
    }
    forall j | 0 <= j < n
      ensures forks[j] <==> !IsEating(ps[j]) && !IsEating(ps[Left(j, n)])
    {
      if j == i {
      } else if j == r {
      } else {
        assert Left(j, n) != i;
      }
    }
    TakenLeavePair(w.forks, i);
    EatingCountUpdate(w.philosophers, i, q);
  }

  /**
   * Replacing one philosopher's record by a coherent one that eats exactly
   * when the old one did keeps the invariant.
   */
  lemma PrivateChangeKeepsInv(w: World, i: nat, q: Philosopher)
    requires Inv(w) && i < |w.philosophers|
    requires IsEating(q) == IsEating(w.philosophers[i]) && Coherent(q)
    ensures Inv(w.(philosophers := w.philosophers[i := q]))
  {
    var n := |w.forks|;
    var ps := w.philosophers[i := q];
    assert forall k :: 0 <= k < n ==> IsEating(ps[k]) == IsEating(w.philosophers[k]);
    EatingCountUpdate(w.philosophers, i, q);
  }

  /** Eating a portion before the food is gone keeps the invariant. */
  lemma PortionKeepsInv(w: World, i: nat)
    requires Inv(w) && i < |w.philosophers| && !w.terminated && w.philosophers[i].owesPortion
    ensures Inv(EatPortion(w, i))
  {
    PrivateChangeKeepsInv(w, i, w.philosophers[i].(owesPortion := false));
  }

  /** Every atomic step keeps the ring invariant. */
  lemma StepKeepsInv(w: World, i: nat)
    requires Inv(w) && i < |w.philosophers|
    ensures Inv(Next(w, i))
  {
    var n := |w.forks|;
    var p := w.philosophers[i];
    if w.terminated {
    } else if p.owesPortion {
      PortionKeepsInv(w, i);
    } else if p.inRetryLoop || (!p.paused && p.currentState == Hungry) {
      if w.forks[i] && w.forks[Right(i, n)] {
        TakeKeepsInv(w, i);
      } else {
        PrivateChangeKeepsInv(w, i, p.(inRetryLoop := true));
      }
    } else if p.paused {
    } else if p.currentState == Eating {
      LeaveKeepsInv(w, i);
    } else {
      PrivateChangeKeepsInv(w, i, p.(currentState := Hungry));
    }
  }

  lemma PauseKeepsInv(w: World, i: nat, b: bool)
    requires Inv(w) && i < |w.philosophers|
    ensures Inv(SetPaused(w, i, b))
  {
    PrivateChangeKeepsInv(w, i, w.philosophers[i].(paused := b));
  }

  /** One scheduler event keeps the ring invariant. */
  lemma ApplyKeepsInv(w: World, e: Event)
    requires Inv(w)
    ensures Inv(Apply(w, e))
  {
    if !w.terminated && e.who < |w.philosophers| {
      match e
      case Act(i) => StepKeepsInv(w, i);
      case Pause(i) => PauseKeepsInv(w, i, true);
      case Resume(i) => PauseKeepsInv(w, i, false);
    }
  }

  /** The ring invariant holds after any interleaving of steps and pause requests. */
  lemma {:induction false} RunKeepsInv(w: World, events: seq<Event>)
    requires Inv(w)
    ensures Inv(Run(w, events))
    decreases |events|
  {
    if events != [] {
      ApplyKeepsInv(w, events[0]);
      RunKeepsInv(Apply(w, events[0]), events[1..]);
    }
  }

  /**
   * Safety of the table: on every reachable state, twice as many forks are
   * in use as philosophers eat, no two neighbours eat together, and the
   * food counter never goes below zero.
   */
  lemma Safety(n: nat, events: seq<Event>)
    requires n >= 2
    ensures var w := Run(Initial(n), events);
      && Taken(w.forks) == 2 * EatingCount(w.philosophers)
      && NoAdjacentEating(w)
      && 0 <= w.foodQuantity
  {
    InitialInv(n);
    RunKeepsInv(Initial(n), events);
  }

  /** Two different eating philosophers never share a fork. */
  lemma HeldForksDisjoint(w: World, i: nat, j: nat)
    requires Inv(w) && i < |w.philosophers| && j < |w.philosophers| && i != j
    requires IsEating(w.philosophers[i]) && IsEating(w.philosophers[j])
    ensures {i, Right(i, |w.forks|)} !! {j, Right(j, |w.forks|)}
  {
  }

  /** Every eating philosopher holds both of its forks, and at most half the table eats. */
  lemma EatersHoldTheirForks(w: World, i: nat)
    requires Inv(w) && i < |w.philosophers| && IsEating(w.philosophers[i])
    ensures !w.forks[i] && !w.forks[Right(i, |w.forks|)]
    ensures 2 * EatingCount(w.philosophers) <= |w.philosophers|
  {
  }

  // ----- The transitions of one philosopher -----

  /** Step `i` from `w` is a successful pick-up: `i` was not eating and now is. */
  predicate StartsEating(w: World, i: nat)
    requires WellFormed(w) && i < |w.philosophers|
  {
    !IsEating(w.philosophers[i]) && IsEating(Next(w, i).philosophers[i])
  }

  /** Step `i` from `w` is the `decreaseFoodQuantity` call owed after a pick-up. */
  predicate PaysPortion(w: World, i: nat)
    requires WellFormed(w) && i < |w.philosophers|
  {
    !w.terminated && w.philosophers[i].owesPortion
  }

  /** Only a successful `takeForks` makes a hungry philosopher eat; it then owes its portion. */
  lemma StartsEatingOnlyByTakingForks(w: World, i: nat)
    requires Inv(w) && i < |w.philosophers| && StartsEating(w, i)
    ensures w.philosophers[i].currentState == Hungry && !w.terminated
    ensures w.forks[i] && w.forks[Right(i, |w.forks|)]
    ensures Next(w, i).forks == TakePair(w.forks, i)
    ensures Next(w, i).philosophers[i].owesPortion && Next(w, i).foodQuantity == w.foodQuantity
  {
  }

  /**
   * The pick-up is followed by exactly one food decrement: the philosopher's
   * next step eats one portion and changes nothing else of the table.
   */
  lemma PortionFollowsPickUp(w: World, i: nat)
    requires Inv(w) && i < |w.philosophers| && StartsEating(w, i)
    ensures var w1 := Next(w, i); var w2 := Next(w1, i);
      && PaysPortion(w1, i)
      && w2.foodQuantity == w.foodQuantity - 1
      && w2.forks == w1.forks
      && IsEating(w2.philosophers[i]) && !w2.philosophers[i].owesPortion
      && !PaysPortion(w2, i)
  {
  }

  /** An eating philosopher stops eating only by putting its forks back, and then thinks. */
  lemma StopsEatingOnlyByLeavingForks(w: World, i: nat)
    requires Inv(w) && i < |w.philosophers|
    requires IsEating(w.philosophers[i]) && !IsEating(Next(w, i).philosophers[i])
    ensures Next(w, i).philosophers[i].currentState == Thinking
    ensures !w.forks[i] && !w.forks[Right(i, |w.forks|)]
    ensures Next(w, i).forks == LeavePair(w.forks, i)
    ensures Next(w, i).foodQuantity == w.foodQuantity
  {
  }

  /** A thinking philosopher becomes hungry without touching a fork or the food. */
  lemma ThinkingBecomesHungry(w: World, i: nat)
    requires Inv(w) && i < |w.philosophers| && !w.terminated
    requires w.philosophers[i].currentState == Thinking && !w.philosophers[i].paused
    ensures Next(w, i).philosophers[i].currentState == Hungry
    ensures Next(w, i).forks == w.forks && Next(w, i).foodQuantity == w.foodQuantity
  {
  }

  /** A failed attempt leaves the whole table and the food as they were. */
  lemma FailedAttemptChangesNothingShared(w: World, i: nat)
    requires Inv(w) && i < |w.philosophers|
    requires w.philosophers[i].currentState == Hungry
    requires Next(w, i).philosophers[i].currentState == Hungry
    ensures Next(w, i).forks == w.forks && Next(w, i).foodQuantity == w.foodQuantity
  {
  }

  /** The forks change only when a philosopher starts or stops eating. */
  lemma ForksChangeOnlyWithEating(w: World, i: nat)
    requires Inv(w) && i < |w.philosophers|
    requires Next(w, i).forks != w.forks
    ensures StartsEating(w, i) || (IsEating(w.philosophers[i]) && !IsEating(Next(w, i).philosophers[i]))
  {
  }

  /**
   * A paused philosopher outside its retry loop and owing nothing does
   * nothing at all. (The pause flag is read only at the head of the outer loop.)
   */
  lemma PausedIsIdle(w: World, i: nat)
    requires WellFormed(w) && i < |w.philosophers|
    requires w.philosophers[i].paused && !w.philosophers[i].inRetryLoop && !w.philosophers[i].owesPortion
    ensures Next(w, i) == w
  {
  }

  /** But a philosopher paused inside its retry loop still picks up its forks when both are free. */
  lemma PausedRetryStillEats(w: World, i: nat)
    requires Inv(w) && i < |w.philosophers| && !w.terminated
    requires w.philosophers[i].paused && w.philosophers[i].inRetryLoop
    requires w.forks[i] && w.forks[Right(i, |w.forks|)]
    ensures StartsEating(w, i) && Next(w, i).forks == TakePair(w.forks, i)
  {
  }

  // ----- The food counter -----

  /** Food drops by exactly one on the step that pays a portion and is otherwise unchanged. */
  lemma StepFood(w: World, i: nat)
    requires WellFormed(w) && i < |w.philosophers|
    ensures Next(w, i).foodQuantity == w.foodQuantity - (if PaysPortion(w, i) then 1 else 0)
    ensures Next(w, i).terminated <==> w.terminated || (PaysPortion(w, i) && w.foodQuantity == 1)
  {
  }

  /** Every pick-up creates one debt and every payment settles one. */
  lemma StepDebts(w: World, i: nat)
    requires Inv(w) && i < |w.philosophers|
    ensures OwingCount(Next(w, i).philosophers) + (if PaysPortion(w, i) then 1 else 0)
         == OwingCount(w.philosophers) + (if StartsEating(w, i) then 1 else 0)
  {
    var p := w.philosophers[i];
    var w' := Next(w, i);
    if !w.terminated && w' != w {
      OwingCountUpdate(w.philosophers, i, w'.philosophers[i]);
      assert w'.philosophers == w.philosophers[i := w'.philosophers[i]];
    }
  }

  /** Whether event `e` is a step of a philosopher that starts eating (a successful `takeForks`). */
  predicate IsPickUp(w: World, e: Event)
    requires WellFormed(w)
  {
    !w.terminated && e.Act? && e.who < |w.philosophers| && StartsEating(w, e.who)
  }

  /** Whether event `e` is a step that eats a portion (a `decreaseFoodQuantity` call). */
  predicate IsPortion(w: World, e: Event)
    requires WellFormed(w)
  {
    e.Act? && e.who < |w.philosophers| && PaysPortion(w, e.who)
  }

  /** Number of successful pick-ups while running the events from `w`. */
  function PickUps(w: World, events: seq<Event>): (k: nat)
    requires WellFormed(w)
    decreases |events|
  {
    if events == [] then 0
    else (if IsPickUp(w, events[0]) then 1 else 0) + PickUps(Apply(w, events[0]), events[1..])
  }

  /** Number of portions eaten while running the events from `w`. */
  function Portions(w: World, events: seq<Event>): (k: nat)
    requires WellFormed(w)
    decreases |events|
  {
    if events == [] then 0
    else (if IsPortion(w, events[0]) then 1 else 0) + Portions(Apply(w, events[0]), events[1..])
  }

  /** Food on the table is the food before minus every portion eaten since. */
  lemma {:induction false} RunFood(w: World, events: seq<Event>)
    requires WellFormed(w)
    ensures Run(w, events).foodQuantity == w.foodQuantity - Portions(w, events)
    decreases |events|
  {
    if events != [] {
      var e := events[0];
      if !w.terminated && e.who < |w.philosophers| && e.Act? {
        StepFood(w, e.who);
      }
      RunFood(Apply(w, e), events[1..]);
    }
  }

  /** Pick-ups exceed portions by exactly the debts still open at the end. */
  lemma {:induction false} RunDebts(w: World, events: seq<Event>)
    requires Inv(w)
    ensures PickUps(w, events) + OwingCount(w.philosophers)
         == Portions(w, events) + OwingCount(Run(w, events).philosophers)
    decreases |events|
  {
    if events != [] {
      var e := events[0];
      if !w.terminated && e.who < |w.philosophers| {
        match e
        case Act(i) => StepDebts(w, i);
        case Pause(i) =>
          OwingCountUpdate(w.philosophers, i, w.philosophers[i].(paused := true));
        case Resume(i) =>
          OwingCountUpdate(w.philosophers, i, w.philosophers[i].(paused := false));
      }
      ApplyKeepsInv(w, e);
      RunDebts(Apply(w, e), events[1..]);
    }
  }

  /** Once the process has exited, no event changes anything. */
  lemma {:induction false} TerminatedIsFinal(w: World, events: seq<Event>)
    requires WellFormed(w) && w.terminated
    ensures Run(w, events) == w && Portions(w, events) == 0 && PickUps(w, events) == 0
    decreases |events|
  {
    if events != [] {
      TerminatedIsFinal(w, events[1..]);
    }
  }

  /**
   * Over any run from the start, at most 43 portions are eaten, and the
   * simulation has ended exactly when all 43 have been. Pick-ups can
   * outnumber portions: philosophers that picked up their forks before the
   * last portion was eaten never eat theirs, but there are at most half a
   * table of them.
   */
  lemma PortionsBound(n: nat, events: seq<Event>)
    requires n >= 2
    ensures Portions(Initial(n), events) <= InitialFood
    ensures Run(Initial(n), events).terminated <==> Portions(Initial(n), events) == InitialFood
    ensures PickUps(Initial(n), events)
         == Portions(Initial(n), events) + OwingCount(Run(Initial(n), events).philosophers)
    ensures PickUps(Initial(n), events) <= InitialFood + n / 2
  {
    var w := Run(Initial(n), events);
    InitialInv(n);
    RunKeepsInv(Initial(n), events);
    RunFood(Initial(n), events);
    RunDebts(Initial(n), events);
    OwersAreEaters(w.philosophers);
  }

  /** Four hungry philosophers, all forks on the table, one portion left. */
  function RaceStart(): (w: World)
    ensures WellFormed(w) && |w.forks| == 4
  {
    var hungry := Philosopher(Hungry, false, false, false);
    World([true, true, true, true], 1, false, [hungry, hungry, hungry, hungry])
  }

  lemma RaceStartInv()
    ensures Inv(RaceStart())
  {
    var w := RaceStart();
    assert w.forks[1..][1..][1..] == [true];
    assert w.philosophers[1..][1..][1..] == [w.philosophers[0]];
  }

  /** The race ends with both pairs of forks in use by two eaters. */
  lemma RaceEndCounts(w3: World)
    requires var hungry := Philosopher(Hungry, false, false, false);
      var eater := Philosopher(Eating, false, false, true);
      w3.forks == [false, false, false, false]
      && w3.philosophers == [eater.(owesPortion := false), hungry, eater, hungry]
    ensures EatingCount(w3.philosophers) == 2 && Taken(w3.forks) == 4
  {
    var ps := w3.philosophers;
    assert ps[1..][1..][1..] == [ps[1]];
    assert EatingCount(ps[1..][1..]) == 1;
    var fs := w3.forks;
    assert fs[1..][1..][1..] == [false];
    assert Taken(fs[1..][1..]) == 2;
  }

  /** The race, step by step: 0 picks up, then 2 picks up, then 0 eats the last portion. */
  lemma RaceSteps()
    ensures var hungry := Philosopher(Hungry, false, false, false);
      var eater := Philosopher(Eating, false, false, true);
      var w1 := Next(RaceStart(), 0);
      var w2 := Next(w1, 2);
      var w3 := Next(w2, 0);
      && StartsEating(RaceStart(), 0) && !PaysPortion(RaceStart(), 0)
      && StartsEating(w1, 2) && !PaysPortion(w1, 2)
      && !StartsEating(w2, 0) && PaysPortion(w2, 0)
      && w3.forks == [false, false, false, false]
      && w3.philosophers == [eater.(owesPortion := false), hungry, eater, hungry]
      && w3.terminated && w3.foodQuantity == 0
  {
    var w := RaceStart();
    var hungry := Philosopher(Hungry, false, false, false);
    var eater := Philosopher(Eating, false, false, true);
    assert Right(0, 4) == 1 && Right(2, 4) == 3;
    var w1 := Next(w, 0);
    assert w1.forks == [false, false, true, true];
    assert w1.philosophers == [eater, hungry, hungry, hungry];
    var w2 := Next(w1, 2);
    assert w2.forks == [false, false, false, false];
    assert w2.philosophers == [eater, hungry, eater, hungry];
  }

  /**
   * The last portion race: with one portion left, philosophers 0 and 2 at a
   * table of four both pick up their forks before 0 eats the portion. The
   * run then ends with two eaters, four forks in use and two pick-ups for
   * one portion.
   */
  lemma LastPortionRace()
    ensures var w := RaceStart();
      var events := [Act(0), Act(2), Act(0)];
      var end := Run(w, events);
      && Inv(w)
      && end.terminated && end.foodQuantity == 0
      && EatingCount(end.philosophers) == 2 && Taken(end.forks) == 4
      && PickUps(w, events) == 2 && Portions(w, events) == 1
  {
    RaceStartInv();
    RaceSteps();
    var w := RaceStart();
    var w1 := Next(w, 0);
    var w2 := Next(w1, 2);
    var w3 := Next(w2, 0);
    RaceEndCounts(w3);
    var events := [Act(0), Act(2), Act(0)];
    assert events[1..] == [Act(2), Act(0)];
    assert [Act(2), Act(0)][1..] == [Act(0)];
    assert [Act(0)][1..] == [];
    assert Run(w2, [Act(0)]) == w3 && Portions(w2, [Act(0)]) == 1 && PickUps(w2, [Act(0)]) == 0;
    assert Run(w1, [Act(2), Act(0)]) == w3;
    assert Portions(w1, [Act(2), Act(0)]) == 1 && PickUps(w1, [Act(2), Act(0)]) == 1;
  }

  /** With a single seat both "forks" are one fork, and the count breaks: one fork for one eater. */
  lemma OneSeatBreaksCount()
    ensures var w := Next(Initial(1), 0);
      IsEating(w.philosophers[0]) && Taken(w.forks) == 1 && EatingCount(w.philosophers) == 1
  {
  }
}
