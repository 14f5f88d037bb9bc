/** The bounded push: on a refused push, pull, rebase and try again. */
module PushRetry {

  /** One call to the remote, and whether it succeeded. */
  datatype Call = Push(ok: bool) | PullRebase(ok: bool)

  /** Pushes and rebases alternate; whatever is followed by another call was a refused push or a clean rebase. */
  ghost predicate Alternating(calls: seq<Call>) {
    forall i :: 0 <= i < |calls| ==>
      && (calls[i].Push? <==> i % 2 == 0)
      && (i < |calls| - 1 ==> calls[i].ok == calls[i].PullRebase?)
  }

  function Pushes(calls: seq<Call>): (n: nat) {
    if calls == [] then 0 else Pushes(calls[..|calls| - 1]) + (if calls[|calls| - 1].Push? then 1 else 0)
  }

  lemma {:induction false} PushesOfAlternating(calls: seq<Call>)
    requires Alternating(calls)
    ensures Pushes(calls) == (|calls| + 1) / 2
  {
    if calls != [] {
      PushesOfAlternating(calls[..|calls| - 1]);
    }
  }

  /** Nothing more is to be done: the push landed, a rebase failed, or the last allowed push was refused. */
  ghost predicate Finished(calls: seq<Call>, maxRetries: nat) {
    calls != [] &&
    match calls[|calls| - 1]
    case Push(ok) => ok || Pushes(calls) == maxRetries + 1
    case PullRebase(ok) => !ok
  }

  /** The remote takes push `k` after refusing all before it, each refusal followed by a clean rebase. */
  ghost predicate LandsAt(pushOk: nat -> bool, rebaseOk: nat -> bool, k: nat) {
    pushOk(k) && forall i: nat :: i < k ==> !pushOk(i) && rebaseOk(i)
  }

  /** The calls got the remote's answers: `pushOk(k)` and `rebaseOk(k)` for the `k`-th of each kind. */
  ghost predicate Answered(calls: seq<Call>, pushOk: nat -> bool, rebaseOk: nat -> bool) {
    forall i :: 0 <= i < |calls| ==> calls[i].ok == if i % 2 == 0 then pushOk(i / 2) else rebaseOk(i / 2)
  }

  /** `k` refused pushes, each followed by a clean rebase. */
  ghost predicate Rounds(calls: seq<Call>, k: nat) {
    |calls| == 2 * k && Alternating(calls) && (k > 0 ==> calls[|calls| - 1].ok)
  }

  lemma AnotherPush(calls: seq<Call>, k: nat, pushOk: nat -> bool, rebaseOk: nat -> bool)
    requires Rounds(calls, k) && Answered(calls, pushOk, rebaseOk)
    ensures var more := calls + [Push(pushOk(k))];
            Alternating(more) && Answered(more, pushOk, rebaseOk) && Pushes(more) == k + 1
  {
    var more := calls + [Push(pushOk(k))];
    assert 2 * k % 2 == 0 && 2 * k / 2 == k;
    assert forall i :: 0 <= i < |calls| ==> more[i] == calls[i];
    assert Alternating(more) by { assert more[2 * k].Push?; }
    assert Answered(more, pushOk, rebaseOk) by { hide Alternating; }
    PushesOfAlternating(more);
  }

  lemma AnotherRebase(calls: seq<Call>, k: nat, pushOk: nat -> bool, rebaseOk: nat -> bool)
    requires Rounds(calls, k) && Answered(calls, pushOk, rebaseOk) && !pushOk(k)
    ensures var more := calls + [Push(pushOk(k))] + [PullRebase(rebaseOk(k))];
            Alternating(more) && Answered(more, pushOk, rebaseOk) && Pushes(more) == k + 1
  {
    var once := calls + [Push(pushOk(k))];
    var more := once + [PullRebase(rebaseOk(k))];
    AnotherPush(calls, k, pushOk, rebaseOk);
    assert (2 * k + 1) % 2 == 1 && (2 * k + 1) / 2 == k;
    assert forall i :: 0 <= i < |once| ==> more[i] == once[i];
    assert Alternating(more) by { hide Answered; }
    assert Answered(more, pushOk, rebaseOk) by { hide Alternating; }
    hide Alternating, Answered;
    PushesOfAlternating(more);
  }

  method PushOrRetry(pushOk: nat -> bool, rebaseOk: nat -> bool, maxRetries: nat) returns (ok: bool, calls: seq<Call>)
    ensures Alternating(calls) && Answered(calls, pushOk, rebaseOk) && 1 <= Pushes(calls) <= maxRetries + 1
    ensures ok <==> exists k: nat :: k <= maxRetries && LandsAt(pushOk, rebaseOk, k)
    ensures Finished(calls, maxRetries) && (ok <==> calls[|calls| - 1] == Push(true))
  {
    hide Alternating, Answered, Pushes;
    var attempt := 0;
    calls := [];
    assert Alternating(calls) && Answered(calls, pushOk, rebaseOk) by { NoCalls(pushOk, rebaseOk); }
    while true
      invariant attempt <= maxRetries && Rounds(calls, attempt) && Answered(calls, pushOk, rebaseOk)
      invariant forall i: nat :: i < attempt ==> !pushOk(i) && rebaseOk(i)
      decreases maxRetries - attempt
    {
      AnotherPush(calls, attempt, pushOk, rebaseOk);
      ghost var before := calls;
      calls := calls + [Push(pushOk(attempt))];
      if pushOk(attempt) {
        assert LandsAt(pushOk, rebaseOk, attempt);
        return true, calls;
      }
      if attempt >= maxRetries {
        NeverLands(pushOk, rebaseOk, attempt, maxRetries);
        return false, calls;
      }
      AnotherRebase(before, attempt, pushOk, rebaseOk);
      calls := calls + [PullRebase(rebaseOk(attempt))];
      if !rebaseOk(attempt) {
        NeverLands(pushOk, rebaseOk, attempt, maxRetries);
        return false, calls;
      }
      attempt := attempt + 1;
    }
  }

  lemma NoCalls(pushOk: nat -> bool, rebaseOk: nat -> bool)
    ensures Alternating([]) && Answered([], pushOk, rebaseOk)
  {
  }

  lemma NeverLands(pushOk: nat -> bool, rebaseOk: nat -> bool, attempt: nat, maxRetries: nat)
    requires forall i: nat :: i < attempt ==> !pushOk(i) && rebaseOk(i)
    requires !pushOk(attempt) && (attempt >= maxRetries || !rebaseOk(attempt))
    ensures forall k: nat :: k <= maxRetries ==> !LandsAt(pushOk, rebaseOk, k)
  {
  }
}
