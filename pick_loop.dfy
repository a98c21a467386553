/**
 * `processPickCommand` (run.js): after one login, list the rows on offer,
 * replenish when there are none, claim every listed row, save the claimed
 * numbers, and stop after two iterations in a row that found nothing to claim.
 * What the portal answers in each iteration is an input here; the ledger is
 * the model of module Ledger.
 */
module PickLoop {
  import opened Wrappers
  import Ledger

  const MAX_EMPTY_ATTEMPTS := 2

  /** A listed row, with what `pickUpNumber` resolved to for it (None for null). */
  datatype Row = Row(id: string, pickUpUrl: string, claimed: Option<string>)

  /**
   * What one iteration observes: the first `getWaNumbers()`, the result of
   * `assignNewNumber()` (asked only when the first listing is empty) and the
   * second `getWaNumbers()` (asked only after a successful assignment).
   */
  datatype Round = Round(listed: seq<Row>, replenished: bool, relisted: seq<Row>)

  /**
   * The rows an iteration goes on to claim: the first listing when it has
   * rows, else the second listing after a successful replenishment; empty
   * exactly when both empty-checks of the loop body fire.
   */
  function Numbers(r: Round): (n: seq<Row>)
    ensures n == [] <==> r.listed == [] && (!r.replenished || r.relisted == [])
    ensures n != [] ==> n == r.listed || (r.listed == [] && r.replenished && n == r.relisted)
  {
    if |r.listed| > 0 then r.listed else if r.replenished then r.relisted else []
  }

  /** `Promise.all(numbers.map(pickUpNumber))`: one result per row, in row order. */
  function Results(rows: seq<Row>): seq<Option<string>> {
    seq(|rows|, i requires 0 <= i < |rows| => rows[i].claimed)
  }

  /** `results.filter(Boolean)`: the results that are neither null nor `""`, in order. */
  function Successful(results: seq<Option<string>>): (ok: seq<string>)
    ensures |ok| <= |results|
  {
    if results == [] then []
    else if results[0].Some? && results[0].value != "" then [results[0].value] + Successful(results[1..])
    else Successful(results[1..])
  }

  /** The kept results are exactly the non-null, non-empty ones. */
  lemma {:induction false} SuccessfulMembers(results: seq<Option<string>>)
    ensures forall v :: v in Successful(results) <==> v != "" && Some(v) in results
  {
    if results != [] {
      SuccessfulMembers(results[1..]);
      assert results == [results[0]] + results[1..];
    }
  }

  /**
   * Every occurrence of a truthy result is kept, repeats included, and no
   * null or `""` is.
   */
  lemma {:induction false} SuccessfulMultiplicity(results: seq<Option<string>>, v: string)
    ensures multiset(Successful(results))[v] == if v == "" then 0 else multiset(results)[Some(v)]
  {
    if results != [] {
      SuccessfulMultiplicity(results[1..], v);
      assert results == [results[0]] + results[1..];
    }
  }

  /** The filter distributes over concatenation, so the kept results stay in order. */
  lemma {:induction false} SuccessfulAppend(a: seq<Option<string>>, b: seq<Option<string>>)
    ensures Successful(a + b) == Successful(a) + Successful(b)
  {
    if a == [] {
      assert a + b == b;
    } else {
      var c := a + b;
      assert c[0] == a[0] && c[1..] == a[1..] + b;
      SuccessfulAppend(a[1..], b);
      if a[0].Some? && a[0].value != "" {
        calc {
          Successful(c);
          [a[0].value] + Successful(a[1..] + b);
          [a[0].value] + (Successful(a[1..]) + Successful(b));
          ([a[0].value] + Successful(a[1..])) + Successful(b);
        }
      }
    }
  }

  /** The loop's variables, with the ledger the loop writes to. */
  datatype State = State(consecutiveEmptyAttempts: nat, totalProcessed: nat, totalDuplicate: nat, ledger: set<string>)

  /** One pass of the `while (true)` body, up to the test that breaks out of it. */
  function Step(s: State, r: Round): (t: State)
    ensures t.totalProcessed >= s.totalProcessed && t.totalDuplicate >= s.totalDuplicate
    ensures Numbers(r) == [] ==> t == s.(consecutiveEmptyAttempts := s.consecutiveEmptyAttempts + 1)
    ensures Numbers(r) != [] ==> t.consecutiveEmptyAttempts == 0
  {
    var numbers := Numbers(r);
    if numbers == [] then
      s.(consecutiveEmptyAttempts := s.consecutiveEmptyAttempts + 1)
    else
      var ok := Successful(Results(numbers));
      if ok == [] then
        s.(consecutiveEmptyAttempts := 0)
      else
        var saved := Ledger.SaveNumbers(s.ledger, ok);
        State(0, s.totalProcessed + saved.result.successCount,
              s.totalDuplicate + saved.result.duplicateCount, saved.ledger)
  }

  /**
   * How a run ends: the first login failed; or the loop broke after
   * `iterations` iterations, with the totals that go into the summary; or the
   * given rounds ran out while the loop would go on.
   */
  datatype Outcome =
    | LoginFailed
    | Finished(final: State, iterations: nat)
    | OutOfRounds(final: State, iterations: nat)

  /** The loop from state `s` over `rounds`, `done` iterations having already run. */
  function Loop(s: State, rounds: seq<Round>, done: nat): (o: Outcome)
    decreases |rounds|
  {
    if rounds == [] then OutOfRounds(s, done)
    else
      var t := Step(s, rounds[0]);
      if t.consecutiveEmptyAttempts >= MAX_EMPTY_ATTEMPTS then Finished(t, done + 1)
      else Loop(t, rounds[1..], done + 1)
  }

  /** The state a run starts from once logged in. */
  function Start(ledger: set<string>): State {
    State(0, 0, 0, ledger)
  }

  /**
   * `processPickCommand(chatId)`, given the first `login()` result, the rounds
   * the portal answers with and the ledger before the run.
   */
  method ProcessPickCommand(loggedIn: bool, rounds: seq<Round>, ledger: set<string>) returns (o: Outcome)
    ensures o.LoginFailed? <==> !loggedIn
    ensures loggedIn ==> o == Loop(Start(ledger), rounds, 0)
  {
    if !loggedIn {
      return LoginFailed;
    }
    var totalProcessed: nat, totalDuplicate: nat := 0, 0;
    var consecutiveEmptyAttempts: nat := 0;
    var stored := ledger;
    var i := 0;
    while i < |rounds|
      invariant 0 <= i <= |rounds|
      invariant consecutiveEmptyAttempts < MAX_EMPTY_ATTEMPTS
      invariant Loop(State(consecutiveEmptyAttempts, totalProcessed, totalDuplicate, stored), rounds[i..], i)
             == Loop(Start(ledger), rounds, 0)
    {
      ghost var before := State(consecutiveEmptyAttempts, totalProcessed, totalDuplicate, stored);
      ghost var rest := rounds[i..];
      assert rest[0] == rounds[i] && rest[1..] == rounds[i + 1..];
      var round := rounds[i];
      i := i + 1;
      var numbers := round.listed;
      if |numbers| == 0 {
        if round.replenished {
          numbers := round.relisted;
        } else {
          consecutiveEmptyAttempts := consecutiveEmptyAttempts + 1;
          LoopStep(before, rest, i - 1, State(consecutiveEmptyAttempts, totalProcessed, totalDuplicate, stored));
          if consecutiveEmptyAttempts >= MAX_EMPTY_ATTEMPTS {
            return Finished(State(consecutiveEmptyAttempts, totalProcessed, totalDuplicate, stored), i);
          }
          continue;
        }
      }
      if |numbers| == 0 {
        consecutiveEmptyAttempts := consecutiveEmptyAttempts + 1;
        LoopStep(before, rest, i - 1, State(consecutiveEmptyAttempts, totalProcessed, totalDuplicate, stored));
        if consecutiveEmptyAttempts >= MAX_EMPTY_ATTEMPTS {
          return Finished(State(consecutiveEmptyAttempts, totalProcessed, totalDuplicate, stored), i);
        }
        continue;
      }
      consecutiveEmptyAttempts := 0;
      var results := Results(numbers);
      var successfulNumbers := Successful(results);
      if |successfulNumbers| > 0 {
        var saved := Ledger.SaveNumbers(stored, successfulNumbers);
        totalProcessed := totalProcessed + saved.result.successCount;
        totalDuplicate := totalDuplicate + saved.result.duplicateCount;
        stored := saved.ledger;
      }
      LoopStep(before, rest, i - 1, State(consecutiveEmptyAttempts, totalProcessed, totalDuplicate, stored));
    }
    return OutOfRounds(State(consecutiveEmptyAttempts, totalProcessed, totalDuplicate, stored), i);
  }

  // ---------------------------------------------------------------------------
  // When the loop stops

  predicate EmptyRound(r: Round) {
    Numbers(r) == []
  }

  /**
   * Iteration `n` (counted from 1) of `rounds` is the second of two empty
   * iterations in a row, `streak` empty ones having come just before `rounds`.
   */
  predicate SecondEmptyAt(rounds: seq<Round>, streak: nat, n: nat) {
    && 1 <= n <= |rounds|
    && EmptyRound(rounds[n - 1])
    && (if n == 1 then streak == 1 else EmptyRound(rounds[n - 2]))
  }

  lemma SecondEmptyShift(rounds: seq<Round>, streak: nat, m: nat)
    requires |rounds| >= 1 && m >= 1
    ensures SecondEmptyAt(rounds[1..], if EmptyRound(rounds[0]) then 1 else 0, m)
        <==> SecondEmptyAt(rounds, streak, m + 1)
  {
    if m <= |rounds[1..]| {
      assert rounds[1..][m - 1] == rounds[m];
      if m >= 2 {
        assert rounds[1..][m - 2] == rounds[m - 1];
      }
    }
  }

  /** The counter after an iteration: back to 0 when it had rows to claim, one more otherwise. */
  lemma StepCounter(s: State, r: Round)
    ensures Step(s, r).consecutiveEmptyAttempts
         == if |r.listed| > 0 || (r.replenished && |r.relisted| > 0) then 0 else s.consecutiveEmptyAttempts + 1
  {
  }

  /** One iteration of the loop from `s`, given the state `t` it leaves. */
  lemma LoopStep(s: State, rounds: seq<Round>, done: nat, t: State)
    requires rounds != [] && t == Step(s, rounds[0])
    ensures t.consecutiveEmptyAttempts >= MAX_EMPTY_ATTEMPTS ==> Loop(s, rounds, done) == Finished(t, done + 1)
    ensures t.consecutiveEmptyAttempts < MAX_EMPTY_ATTEMPTS ==> Loop(s, rounds, done) == Loop(t, rounds[1..], done + 1)
  {
  }

  /**
   * A logged-in run never ends in a login failure; it runs at most one
   * iteration per round, all of them when the rounds run out, and it breaks
   * only once the counter has reached MAX_EMPTY_ATTEMPTS.
   */
  lemma {:induction false} LoopBounds(s: State, rounds: seq<Round>, done: nat)
    ensures var o := Loop(s, rounds, done);
            && !o.LoginFailed?
            && done <= o.iterations <= done + |rounds|
            && (o.OutOfRounds? ==> o.iterations == done + |rounds|)
            && (o.Finished? ==> o.final.consecutiveEmptyAttempts >= MAX_EMPTY_ATTEMPTS)
    decreases |rounds|
  {
    if rounds != [] {
      var t := Step(s, rounds[0]);
      LoopStep(s, rounds, done, t);
      if t.consecutiveEmptyAttempts < MAX_EMPTY_ATTEMPTS {
        LoopBounds(t, rounds[1..], done + 1);
      }
    }
  }

  /** The iterations before the loop stops, or all of them when the rounds run out. */
  function Ran(o: Outcome, done: nat): int
    requires !o.LoginFailed?
  {
    o.iterations - done
  }

  /**
   * The counter alone, from `streak`: the iteration (counted from 1) at which
   * it reaches MAX_EMPTY_ATTEMPTS, or None when the rounds run out first.
   */
  function BreakIteration(streak: nat, rounds: seq<Round>): Option<nat>
    decreases |rounds|
  {
    if rounds == [] then None
    else
      var next := if EmptyRound(rounds[0]) then streak + 1 else 0;
      if next >= MAX_EMPTY_ATTEMPTS then Some(1)
      else
        match BreakIteration(next, rounds[1..])
        case None => None
        case Some(n) => Some(n + 1)
  }

  /** The loop stops where the counter alone says, with the counter at MAX_EMPTY_ATTEMPTS. */
  lemma {:induction false} LoopFollowsCounter(s: State, rounds: seq<Round>, done: nat)
    requires s.consecutiveEmptyAttempts < MAX_EMPTY_ATTEMPTS
    ensures var b := BreakIteration(s.consecutiveEmptyAttempts, rounds);
            var o := Loop(s, rounds, done);
            && (b.None? ==> o.OutOfRounds? && o.iterations == done + |rounds|)
            && (b.Some? ==> o.Finished? && o.iterations == done + b.value
                            && o.final.consecutiveEmptyAttempts == MAX_EMPTY_ATTEMPTS)
    decreases |rounds|
  {
    if rounds != [] {
      var t := Step(s, rounds[0]);
      LoopStep(s, rounds, done, t);
      if t.consecutiveEmptyAttempts < MAX_EMPTY_ATTEMPTS {
        LoopFollowsCounter(t, rounds[1..], done + 1);
      }
    }
  }

  /**
   * The counter reaches MAX_EMPTY_ATTEMPTS exactly at the first iteration that
   * is the second of two empty ones in a row, and never when there is none.
   */
  lemma {:induction false} CounterBreaksAtSecondEmpty(streak: nat, rounds: seq<Round>)
    requires streak < MAX_EMPTY_ATTEMPTS
    ensures var b := BreakIteration(streak, rounds);
            && (b.Some? ==> 1 <= b.value <= |rounds| && SecondEmptyAt(rounds, streak, b.value))
            && forall n :: 1 <= n <= |rounds| && (b.None? || n < b.value) ==> !SecondEmptyAt(rounds, streak, n)
    decreases |rounds|
  {
    if rounds != [] {
      var next := if EmptyRound(rounds[0]) then streak + 1 else 0;
      if next < MAX_EMPTY_ATTEMPTS {
        var b := BreakIteration(streak, rounds);
        var b' := BreakIteration(next, rounds[1..]);
        CounterBreaksAtSecondEmpty(next, rounds[1..]);
        if b'.Some? {
          SecondEmptyShift(rounds, streak, b'.value);
        }
        assert !SecondEmptyAt(rounds, streak, 1);
        forall n | 2 <= n <= |rounds| && (b.None? || n < b.value)
          ensures !SecondEmptyAt(rounds, streak, n)
        {
          assert !SecondEmptyAt(rounds[1..], next, n - 1);
          SecondEmptyShift(rounds, streak, n - 1);
        }
      } else {
        assert SecondEmptyAt(rounds, streak, 1);
      }
    }
  }

  /**
   * The loop breaks exactly at the first iteration that ends a pair of empty
   * iterations, with the counter at MAX_EMPTY_ATTEMPTS; when the rounds run
   * out first, no such pair occurred.
   */
  lemma LoopStopsAtSecondEmpty(s: State, rounds: seq<Round>, done: nat)
    requires s.consecutiveEmptyAttempts < MAX_EMPTY_ATTEMPTS
    ensures !Loop(s, rounds, done).LoginFailed?
    ensures Loop(s, rounds, done).Finished? ==>
              && 1 <= Ran(Loop(s, rounds, done), done)
              && SecondEmptyAt(rounds, s.consecutiveEmptyAttempts, Ran(Loop(s, rounds, done), done))
              && Loop(s, rounds, done).final.consecutiveEmptyAttempts == MAX_EMPTY_ATTEMPTS
    ensures Loop(s, rounds, done).OutOfRounds? ==> Ran(Loop(s, rounds, done), done) == |rounds|
    ensures forall n :: 1 <= n <= |rounds| && (Loop(s, rounds, done).OutOfRounds? || n < Ran(Loop(s, rounds, done), done))
              ==> !SecondEmptyAt(rounds, s.consecutiveEmptyAttempts, n)
  {
    LoopFollowsCounter(s, rounds, done);
    CounterBreaksAtSecondEmpty(s.consecutiveEmptyAttempts, rounds);
  }

  /** A run that meets two empty iterations at once ends after them with its totals and ledger untouched. */
  lemma TwoEmptyRoundsEndTheRun(ledger: set<string>, first: Round, second: Round, later: seq<Round>)
    requires EmptyRound(first) && EmptyRound(second)
    ensures Loop(Start(ledger), [first, second] + later, 0) == Finished(State(2, 0, 0, ledger), 2)
  {
    assert ([first, second] + later)[1..] == [second] + later;
  }

  /** An empty listing followed by a good replenishment and a non-empty second listing goes on to claim. */
  lemma ReplenishedRoundClaims(s: State, rows: seq<Row>)
    requires |rows| > 0
    ensures Step(s, Round([], true, rows)).consecutiveEmptyAttempts == 0
  {
  }

  // ---------------------------------------------------------------------------
  // The totals

  /** The numbers claimed over all of `rounds`, iteration by iteration, in order. */
  function Claimed(rounds: seq<Round>): seq<string> {
    if rounds == [] then [] else Successful(Results(Numbers(rounds[0]))) + Claimed(rounds[1..])
  }

  /**
   * One iteration adds the ledger's two counts for its claimed numbers, which
   * together are how many numbers it claimed, and stores those numbers; an
   * iteration that claimed nothing changes neither the totals nor the ledger.
   */
  lemma StepTotals(s: State, r: Round)
    ensures var t := Step(s, r);
            var ok := Successful(Results(Numbers(r)));
            && RunTotals(s, t, ok)
            && (ok == [] ==> t.totalProcessed == s.totalProcessed && t.totalDuplicate == s.totalDuplicate)
            && (ok != [] ==>
                  var saved := Ledger.SaveNumbers(s.ledger, ok).result;
                  && t.totalProcessed == s.totalProcessed + saved.successCount
                  && t.totalDuplicate == s.totalDuplicate + saved.duplicateCount)
  {
    Ledger.SaveNumbersCounts(s.ledger, Successful(Results(Numbers(r))));
  }

  /**
   * Over a whole run the totals never decrease, they add up to the number of
   * numbers claimed in the iterations that ran, and the ledger ends up holding
   * exactly what it held plus those numbers.
   */
  lemma {:induction false} LoopTotals(s: State, rounds: seq<Round>, done: nat)
    ensures !Loop(s, rounds, done).LoginFailed?
    ensures done <= Loop(s, rounds, done).iterations <= done + |rounds|
    ensures RunTotals(s, Loop(s, rounds, done).final, Claimed(rounds[..Ran(Loop(s, rounds, done), done)]))
    decreases |rounds|
  {
    if rounds == [] {
      assert rounds[..0] == [];
    } else {
      var t := Step(s, rounds[0]);
      LoopStep(s, rounds, done, t);
      StepTotals(s, rounds[0]);
      var ok := Successful(Results(Numbers(rounds[0])));
      if t.consecutiveEmptyAttempts >= MAX_EMPTY_ATTEMPTS {
        ClaimedPrefix(rounds, 1);
        assert rounds[1..][..0] == [];
        assert Claimed(rounds[..1]) == ok;
      } else {
        LoopTotals(t, rounds[1..], done + 1);
        var o := Loop(t, rounds[1..], done + 1);
        assert Loop(s, rounds, done) == o;
        var rest := Claimed(rounds[1..][..o.iterations - done - 1]);
        assert RunTotals(t, o.final, rest);
        ClaimedPrefix(rounds, o.iterations - done);
        RunTotalsCompose(s, t, o.final, ok, rest);
      }
    }
  }

  /** The totals of `after` are those of `before` plus the ledger's counts for `claimed`. */
  ghost predicate RunTotals(before: State, after: State, claimed: seq<string>) {
    && before.totalProcessed <= after.totalProcessed
    && before.totalDuplicate <= after.totalDuplicate
    && after.totalProcessed + after.totalDuplicate == before.totalProcessed + before.totalDuplicate + |claimed|
    && after.ledger == before.ledger + Ledger.Elements(claimed)
  }

  lemma RunTotalsCompose(a: State, b: State, c: State, x: seq<string>, y: seq<string>)
    requires RunTotals(a, b, x) && RunTotals(b, c, y)
    ensures RunTotals(a, c, x + y)
  {
    ElementsAppend(x, y);
  }

  lemma ClaimedPrefix(rounds: seq<Round>, k: nat)
    requires 1 <= k <= |rounds|
    ensures Claimed(rounds[..k]) == Successful(Results(Numbers(rounds[0]))) + Claimed(rounds[1..][..k - 1])
  {
    assert rounds[..k][0] == rounds[0];
    assert rounds[..k][1..] == rounds[1..][..k - 1];
  }

  lemma ElementsAppend(a: seq<string>, b: seq<string>)
    ensures Ledger.Elements(a + b) == Ledger.Elements(a) + Ledger.Elements(b)
  {
  }

  /**
   * The scenario of three listed rows whose claims give a, null and c, saved
   * to an empty ledger: two new, none duplicate; the same iteration once more
   * finds both stored.
   */
  lemma ThreeRowsScenario(a: string, c: string)
    requires a != "" && c != "" && a != c
    ensures var r := Round([Row("1", "/p/1", Some(a)), Row("2", "/p/2", None), Row("3", "/p/3", Some(c))], false, []);
            && Step(Start({}), r) == State(0, 2, 0, {a, c})
            && Step(Step(Start({}), r), r) == State(0, 2, 2, {a, c})
  {
    var r := Round([Row("1", "/p/1", Some(a)), Row("2", "/p/2", None), Row("3", "/p/3", Some(c))], false, []);
    var results := Results(Numbers(r));
    assert results == [Some(a), None, Some(c)];
    assert results[1..] == [None, Some(c)] && results[1..][1..] == [Some(c)];
    assert results[1..][1..][1..] == [];
    assert Successful(results[1..][1..]) == [c];
    assert Successful(results[1..]) == [c];
    assert Successful(results) == [a, c];
    assert Ledger.NewNumbers([a, c], {}) == [a, c] by {
      assert [a, c][1..] == [c];
    }
    assert Ledger.Elements([a, c]) == {a, c};
    Ledger.SaveTwice({}, [a, c]);
  }
}
