/**
 * The table of forks as a value.
 *
 * Slot `i` of a fork table is `true` while fork `i` lies on the table
 * (available) and `false` while a philosopher holds it. Philosopher `i`
 * eats with forks `i` and `(i + 1) % n`, so the table is a ring.
 */
module Ring {

  /** Amount of food on the table when the simulation starts. */
  const InitialFood := 43

  /** The second fork of philosopher `i` at a table of `n`: `(i + 1) % n`. */
  function Right(i: nat, n: nat): (r: nat)
    requires i < n
    ensures r < n
    ensures r == if i + 1 == n then 0 else i + 1
  {
    (i + 1) % n
  }

  /** The philosopher whose second fork is fork `j`. */
  function Left(j: nat, n: nat): (r: nat)
    requires j < n
    ensures r < n && Right(r, n) == j
  {
    if j == 0 then n - 1 else j - 1
  }

  lemma LeftOfRight(i: nat, n: nat)
    requires i < n
    ensures Left(Right(i, n), n) == i
  {
  }

  /** The two forks of a philosopher are distinct exactly when there are two seats or more. */
  lemma RightDiffers(i: nat, n: nat)
    requires i < n
    ensures Right(i, n) != i <==> n >= 2
  {
  }

  /** The table after philosopher `id` picks up both of its forks. */
  function TakePair(s: seq<bool>, id: nat): (r: seq<bool>)
    requires id < |s|
    ensures |r| == |s|
    ensures !r[id] && !r[Right(id, |s|)]
    ensures forall j :: 0 <= j < |s| && j != id && j != Right(id, |s|) ==> r[j] == s[j]
  {
    s[id := false][Right(id, |s|) := false]
  }

  /** The table after philosopher `id` puts both of its forks back. */
  function LeavePair(s: seq<bool>, id: nat): (r: seq<bool>)
    requires id < |s|
    ensures |r| == |s|
    ensures r[id] && r[Right(id, |s|)]
    ensures forall j :: 0 <= j < |s| && j != id && j != Right(id, |s|) ==> r[j] == s[j]
  {
    s[id := true][Right(id, |s|) := true]
  }

  /** Putting back the pair just picked up restores the table, provided both forks were on it. */
  lemma LeaveUndoesTake(s: seq<bool>, id: nat)
    requires id < |s| && s[id] && s[Right(id, |s|)]
    ensures LeavePair(TakePair(s, id), id) == s
  {
  }

  /** A table with every one of its `n` forks available. */
  function AllAvailable(n: nat): (s: seq<bool>)
    ensures |s| == n && forall j :: 0 <= j < n ==> s[j]
  {
    seq(n, _ => true)
  }

  /** The number of forks in use, i.e. of `false` slots. */
  function Taken(s: seq<bool>): (k: nat)
    ensures k <= |s|
    ensures k == 0 <==> forall j :: 0 <= j < |s| ==> s[j]
  {
    if s == [] then 0 else (if s[0] then 0 else 1) + Taken(s[1..])
  }

  /** Writing one slot changes the number of forks in use by what that slot held and now holds. */
  lemma {:induction false} TakenUpdate(s: seq<bool>, k: nat, v: bool)
    requires k < |s|
    ensures Taken(s[k := v]) == Taken(s) - (if s[k] then 0 else 1) + (if v then 0 else 1)
  {
    if k == 0 {
      assert s[k := v][1..] == s[1..];
    } else {
      assert s[k := v][1..] == s[1..][k - 1 := v];
      TakenUpdate(s[1..], k - 1, v);
    }
  }

  /** A successful pick-up puts exactly two more forks in use. */
  lemma TakenTakePair(s: seq<bool>, id: nat)
    requires 2 <= |s| && id < |s| && s[id] && s[Right(id, |s|)]
    ensures Taken(TakePair(s, id)) == Taken(s) + 2
  {
    var r := Right(id, |s|);
    RightDiffers(id, |s|);
    TakenUpdate(s, id, false);
    TakenUpdate(s[id := false], r, false);
  }

  /** Putting back a held pair puts exactly two fewer forks in use. */
  lemma TakenLeavePair(s: seq<bool>, id: nat)
    requires 2 <= |s| && id < |s| && !s[id] && !s[Right(id, |s|)]
    ensures Taken(LeavePair(s, id)) + 2 == Taken(s)
  {
    var r := Right(id, |s|);
    RightDiffers(id, |s|);
    TakenUpdate(s, id, true);
    TakenUpdate(s[id := true], r, true);
  }
}
