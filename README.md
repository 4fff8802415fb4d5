# Dining philosophers: the fork ring and the philosophers' protocol

This project models the arbitration core of a Java dining-philosophers
simulation. It has two parts.

The first is the shared `Forks` object: a ring of `number` forks,
`true` while a fork lies on the table, and a food counter that starts at 43.
- `takeForks(id)` checks forks `id` and `(id + 1) % number` under one lock and picks up both or neither.
- `leaveForks(id)` puts both back.
- `decreaseFoodQuantity()` eats one portion and ends the program on the last one.

The second is each philosopher's `run` loop. A philosopher cycles Hungry → Eating → Thinking → Hungry. It checks the pause flag only at the head of its loop (see below).
- When Hungry, it retries `takeForks` until that succeeds, becomes Eating, and then eats one portion with `decreaseFoodQuantity`.
- When Eating, it calls `leaveForks` and starts thinking.
- When Thinking, it becomes Hungry again.

Threads become a scheduler. At each point the scheduler picks any philosopher to take one atomic step, or pauses or resumes one. Each ring operation is one step, matching the locks in the source that make it indivisible. A successful `takeForks` and the `decreaseFoodQuantity` call after it run under different locks (the ring lock and the object monitor), so they are two steps: in between, the philosopher eats and owes its portion (`owesPortion`), and other philosophers may act.

Files:
- `ring.dfy` (module `Ring`): the fork table as a value. It defines the neighbour index `Right`, the effect of picking up and putting back a pair, and the count of forks in use.
- `forks.dfy` (module `ForkRing`): class `Forks`, the shared object, over an `array<bool>`. Its methods are proved to match the `Ring` functions.
- `dining.dfy` (module `Dining`): the protocol as a state machine over snapshots (`World`).
  - `Next` is one step of one philosopher. `Run` applies any sequence of scheduler events.
  - `Inv` is the ring invariant. It is proved to hold initially and to be kept by every step, so it holds after any interleaving.
  - Its key facts: the number of forks in use is twice the number of eating philosophers, and no two neighbours eat at once. These facts hold between the model's steps. Two of those steps merge a fork operation with the `currentState` assignment after it (see "## Left out"). In the program the facts hold once that assignment has run.
  - Also proved: eating philosophers share no fork, a philosopher starts eating only by a successful `takeForks`, its next step eats exactly one portion, at most 43 portions are eaten, and the run has ended exactly when all 43 have been.
  - Pick-ups can outnumber portions. When the last portion is eaten, other philosophers that already picked up their forks never eat theirs. `Dining.PortionsBound` proves the gap is exactly the open debts, at most half the table, and `Dining.LastPortionRace` exhibits such a run.
- `table.dfy` (module `Simulation`): class `Table`. It holds a `Forks` object and the philosophers' states. Its `Step` method performs one action of the `run` loop through the `Forks` methods, and is proved equal to `Dining.Next`. So every state a `Table` reaches satisfies the ring invariant.

Pausing is meant to stop a philosopher from acquiring anything, but the code differs on one point, and the model follows the code. In the code the pause flag is read only at the head of the outer loop (`src/Main.java:48`). A philosopher that is already inside its `while (!forks.takeForks(name))` loop (`src/Main.java:56-58`) keeps retrying while paused, and can pick up its forks and start eating. The model keeps this with the `inRetryLoop` flag. `Dining.PausedIsIdle` states the pause guarantee for philosophers that are outside the loop and owe no portion; a philosopher paused between its pick-up and its `decreaseFoodQuantity` call still pays. `Dining.PausedRetryStillEats` proves that a paused philosopher inside the loop still starts eating whenever both its forks are free.

The ring invariant needs at least two seats. With one seat, both "forks" of philosopher 0 are fork 0, so one fork is in use for one eater (`Dining.OneSeatBreaksCount`). The program itself uses 11 seats (`src/Main.java:247`).

## Model

| member | source | states |
|---|---|---|
| `Ring.Right` | src/Main.java:136-137 | philosopher `i`'s second fork is `(i + 1) % n`: the next seat, wrapping from `n - 1` to 0 |
| `Ring.RightDiffers` | src/Main.java:136-137 | a philosopher's two forks are different exactly when the table has two or more seats |
| `Ring.TakePair` | src/Main.java:139-141 | after a pick-up, both of the philosopher's forks are in use, the table keeps its length, and every other slot is unchanged |
| `Ring.LeavePair` | src/Main.java:155-159 | after a put-back, both forks are available whatever they were before, and every other slot is unchanged |
| `Ring.LeaveUndoesTake` | src/Main.java:133-164 | putting back a pair just picked up restores the table exactly |
| `Ring.Taken` | src/Main.java:120 | the number of forks in use is at most the table size, and is zero exactly when every fork is available |
| `Ring.TakenUpdate` | src/Main.java:140-141 | writing one slot changes the in-use count by what that slot held and now holds |
| `Ring.TakenTakePair` | src/Main.java:139-141 | a successful pick-up at a table of two or more puts exactly two more forks in use |
| `Ring.TakenLeavePair` | src/Main.java:158-159 | putting back a held pair puts exactly two fewer forks in use |
| `ForkRing.Forks.constructor` | src/Main.java:122-129 | the table has `number` slots, all available; food starts at 43 and the run has not ended |
| `ForkRing.Forks.TakeForks` | src/Main.java:133-150 | returns true iff forks `id` and `(id + 1) % number` were both available; on success the table is `TakePair` of the old one, on failure it is unchanged |
| `ForkRing.Forks.LeaveForks` | src/Main.java:152-164 | the table becomes `LeavePair` of the old one: both slots available, the rest unchanged; the caller must hold both forks |
| `ForkRing.Forks.DecreaseFoodQuantity` | src/Main.java:166-173 | food drops by exactly 1, and the run ends exactly when it reaches 0; it is never called after the end, so food never goes below 0 |
| `ForkRing.Forks.GetFoodQuantity` | src/Main.java:175-177 | returns the current food counter, which is never negative |
| `Dining.EatingCount` | src/Main.java:12 | the number of eating philosophers is at most the number of philosophers, and zero exactly when nobody eats |
| `Dining.OwingCount` | src/Main.java:56-61 | the number of philosophers that picked up their forks but have not yet eaten their portion is at most the table size, and zero exactly when nobody owes one |
| `Dining.OwersAreEaters` | src/Main.java:59-61 | a philosopher owes a portion only while eating, so there are no more owers than eaters |
| `Dining.Initial` | src/Main.java:246-254 | the initial table: no fork in use, nobody eating or owing a portion, 43 portions, not ended |
| `Dining.DecreaseFood` | src/Main.java:166-172 | food drops by exactly 1, the run ends exactly when food reaches 0, and forks and philosophers are untouched |
| `Dining.Attempt` | src/Main.java:56-59 | on success the table is `TakePair` of the old one and the philosopher eats, owes its portion and has left the retry loop; on failure forks and state are unchanged and it is in the retry loop; food, the end flag, its pause flag and everyone else are untouched either way |
| `Dining.EatPortion` | src/Main.java:61 | the owed `decreaseFoodQuantity`: food drops by exactly 1, the debt is cleared, and forks and every other field are unchanged |
| `Dining.Next` | src/Main.java:46-99 | one step of philosopher `i` changes no other philosopher's state and not its own pause flag, and keeps the table size |
| `Dining.SetPaused` | src/Main.java:105-111 | pausing or resuming sets only that philosopher's pause flag; forks, food, its state and everyone else stay the same |
| `Dining.InitialInv` | src/Main.java:122-129 | the ring invariant holds at the start for any table of two or more seats |
| `Dining.TakeKeepsInv` | src/Main.java:56-59 | when both forks of a hungry philosopher are free, neither neighbour is eating, and the pick-up keeps the ring invariant |
| `Dining.LeaveKeepsInv` | src/Main.java:76-77 | putting the forks back and starting to think keeps the ring invariant |
| `Dining.PrivateChangeKeepsInv` | src/Main.java:88 | a coherent change to one philosopher's private state that does not start or stop eating keeps the ring invariant |
| `Dining.PortionKeepsInv` | src/Main.java:61 | eating the owed portion before the food is gone keeps the ring invariant |
| `Dining.StepKeepsInv` | src/Main.java:46-99 | every atomic step of every philosopher keeps the ring invariant |
| `Dining.PauseKeepsInv` | src/Main.java:105-111 | pausing or resuming keeps the ring invariant |
| `Dining.ApplyKeepsInv` | src/Main.java:46-111 | every scheduler event (a step, a pause or a resume) keeps the ring invariant |
| `Dining.RunKeepsInv` | src/Main.java:46-99 | the ring invariant holds after any interleaving of steps, pauses and resumes |
| `Dining.Safety` | src/Main.java:133-164 | in every reachable state, at the model's step boundaries: forks in use = 2 × eating philosophers, no two neighbours eat at once, and food is not negative |
| `Dining.HeldForksDisjoint` | src/Main.java:139-141 | two different eating philosophers hold disjoint pairs of forks |
| `Dining.EatersHoldTheirForks` | src/Main.java:139-141 | an eating philosopher's two forks are both in use, and at most half the table eats |
| `Dining.StartsEatingOnlyByTakingForks` | src/Main.java:54-61 | a philosopher starts eating only from Hungry, only when both its forks were available, by `TakePair`; it then owes its portion and food is not yet touched |
| `Dining.PortionFollowsPickUp` | src/Main.java:56-61 | after a pick-up, the philosopher's next step pays its portion: food drops by exactly 1, forks stay as they are, it is still eating and owes nothing more |
| `Dining.StopsEatingOnlyByLeavingForks` | src/Main.java:68-79 | a philosopher stops eating only by putting back the two forks it holds, becoming Thinking, with food unchanged |
| `Dining.ThinkingBecomesHungry` | src/Main.java:80-89 | an active thinking philosopher becomes Hungry without touching a fork or the food |
| `Dining.FailedAttemptChangesNothingShared` | src/Main.java:144-146 | a hungry philosopher whose step leaves it hungry changes neither the forks nor the food |
| `Dining.ForksChangeOnlyWithEating` | src/Main.java:46-99 | the fork table changes only in a step where the philosopher starts or stops eating |
| `Dining.PausedIsIdle` | src/Main.java:91-97 | a paused philosopher outside its retry loop that owes no portion changes nothing at all |
| `Dining.PausedRetryStillEats` | src/Main.java:48-58 | any philosopher paused inside its retry loop, in any state satisfying the invariant, starts eating by `TakePair` whenever both its forks are free |
| `Dining.StepFood` | src/Main.java:61 | a step lowers food by 1 exactly when it pays a portion and leaves it unchanged otherwise; it ends the run exactly when that portion was the last |
| `Dining.StepDebts` | src/Main.java:56-61 | each step opens a debt exactly when it is a pick-up and settles one exactly when it pays a portion |
| `Dining.RunFood` | src/Main.java:166-172 | after any run, food = food before − number of portions eaten during the run |
| `Dining.RunDebts` | src/Main.java:56-61 | over any run, pick-ups + debts open before = portions + debts open after |
| `Dining.TerminatedIsFinal` | src/Main.java:169-172 | once the run has ended, no event changes anything, and no fork is picked up and no portion eaten |
| `Dining.PortionsBound` | src/Main.java:122 | from the start, at most 43 portions are eaten, and the run has ended exactly when 43 have been; pick-ups = portions + open debts, so at most 43 + n/2 pick-ups |
| `Dining.RaceStartInv` | src/Main.java:120-129 | a table of four with all forks free, everyone hungry and one portion left satisfies the ring invariant |
| `Dining.RaceSteps` | src/Main.java:56-61 | from that table, philosophers 0 and 2 both pick up their forks, then 0 pays the last portion and the run ends |
| `Dining.RaceEndCounts` | src/Main.java:133-141 | the table the race ends in has two eaters and four forks in use |
| `Dining.LastPortionRace` | src/Main.java:56-61 | a run exists that ends with two eaters, four forks in use, and two pick-ups for one portion eaten |
| `Dining.OneSeatBreaksCount` | src/Main.java:136-141 | with a single seat, one eater holds one fork, so the ring invariant needs two or more seats |
| `Simulation.Table.constructor` | src/Main.java:246-254 | a fresh fork table and all philosophers Hungry and not paused, equal to `Dining.Initial(number)`, with the ring invariant established |
| `Simulation.Table.Step` | src/Main.java:46-99 | one action of the `run` loop done through the `Forks` methods; the new state is `Dining.Next` of the old one and the ring invariant is kept |
| `Simulation.Table.TryTakeForks` | src/Main.java:50-59 | the hungry case: one `takeForks` call, then Eating with a portion owed, or staying in the retry loop; equal to `Dining.Attempt` |
| `Simulation.Table.PayPortion` | src/Main.java:61 | the owed `decreaseFoodQuantity` call through the `Forks` object; equal to `Dining.EatPortion` |
| `Simulation.Table.FinishEating` | src/Main.java:68-79 | the eating case: both forks go back and the philosopher becomes Thinking |
| `Simulation.Table.FinishThinking` | src/Main.java:80-89 | the thinking case: the philosopher becomes Hungry and no fork is touched |
| `Simulation.Table.PauseThread` | src/Main.java:105-107 | sets the philosopher's pause flag and nothing else, keeping the ring invariant |
| `Simulation.Table.ResumeThread` | src/Main.java:109-111 | clears the philosopher's pause flag and nothing else, keeping the ring invariant |
| `Simulation.Table.IsPaused` | src/Main.java:113-115 | returns the philosopher's pause flag |
| `Simulation.Table.GetCurrentState` | src/Main.java:101-103 | returns the philosopher's current state |

## Left out

- Threads, `Thread.sleep`, the random eating and thinking durations, `ReentrantLock` and `synchronized` are not modelled. A nondeterministic choice of the next event replaces them, and each ring operation is one atomic step.
- The per-philosopher `eatLock` (`src/Main.java:55,65`) is not modelled. It only guards the philosopher's own loop and has no effect across philosophers.
- A successful `takeForks` and the assignment `currentState = Eating` (`src/Main.java:56-59`) form one step in the model. No other thread reads `currentState` (`getCurrentState`, `src/Main.java:101-103`, has no caller), so no other philosopher's step depends on where the assignment falls. The `decreaseFoodQuantity` call after them (`src/Main.java:61`) is a separate step, and other philosophers may act in between.
- `leaveForks(name)` and the assignment `currentState = Thinking` after it (`src/Main.java:76-77`) form one step in the model. In the program the ring lock is released in between, so a neighbour's `takeForks` can succeed while the philosopher still has `currentState == Eating`; for that moment two neighbours show Eating and the fork count is one pair short. Again nothing else reads `currentState`, so this changes no other philosopher's step, and the model's `Inv` describes the state once the assignment has run.
- `System.exit(0)` is replaced by the `terminated` flag. After it, steps do nothing and the scheduler issues no further events. The short shutdown window is left out: until the JVM halts, the other (non-daemon) philosopher threads may still pick up and put back forks and change their own state, but no later `decreaseFoodQuantity` can complete.
- Philosophers are records in a sequence indexed by name, not separate `Thread` objects. The static `currentName` counter is replaced by names `0 .. number-1`.
- The Swing GUI (`GraphPanel`, its `updatePhilosopherState` calls, painting, the frame) and the Pause/Resume button's loop over all philosophers are not modelled. They are user interface and floating-point layout.
- The `FileWriter` logging and all console output are not modelled. They are I/O.
- `InterruptedException` handling is not modelled. A sleep is never interrupted.
- Liveness (freedom from deadlock and starvation under a fair scheduler) is not modelled. It is a property of infinite runs and scheduling, beyond this safety model.
- `foodQuantity` is a Java `int`. The model uses unbounded integers. This is exact here because the counter stays between 0 and 43.
- ForkRing.Forks.LeaveForks: requires that the caller hold both forks (both slots `false`). The source does not check this. Every call from the `run` loop meets it, as `Simulation.Table.Step` proves.
- ForkRing.Forks.DecreaseFoodQuantity: requires that the run has not ended. No later `decreaseFoodQuantity` can complete: `System.exit` does not return, and the exiting thread keeps the `Forks` monitor (`src/Main.java:166,171`), so every other caller blocks.
- ForkRing.Forks.constructor: takes `number` as a `nat`, so the source's `NegativeArraySizeException` for a negative size (`src/Main.java:126`) is not modelled. The program passes 11.
- ForkRing.Forks.TakeForks: requires `philosopherId < number`. That excludes the source's array-index and division-by-zero exceptions for names outside the table.
- Simulation.Table.constructor: requires two or more seats, which the ring invariant needs (see `Dining.OneSeatBreaksCount`). The program uses 11.
- Dining.PausedIsIdle: weaker than "a paused philosopher makes no transition". It holds only outside the retry loop and when no portion is owed, because the code reads the pause flag only at the head of the outer loop (`Dining.PausedRetryStillEats`); a philosopher paused after its pick-up still eats its portion.
- Simulation.Table.PauseThread and Simulation.Table.ResumeThread: set or clear the pause flag even after the run has ended, as the Java methods do, while `Dining.Apply` treats pause and resume after the end as no-ops. The difference is only in the flag. After the end every step does nothing (`Dining.TerminatedIsFinal`), so the flag is never read again.
