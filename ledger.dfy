/**
 * The dedup ledger behind `saveNumbersToDatabase` (run.js): the `pick_numbers`
 * table seen as the set of `nomor` values it holds. The table has no UNIQUE
 * constraint on `nomor`, so only the membership query decides what is new.
 */
module Ledger {

  /** The values of `numbers` that `existing` does not hold, in batch order, repeats kept. */
  function NewNumbers(numbers: seq<string>, existing: set<string>): (newOnes: seq<string>)
    ensures |newOnes| <= |numbers|
  {
    if numbers == [] then []
    else if numbers[0] in existing then NewNumbers(numbers[1..], existing)
    else [numbers[0]] + NewNumbers(numbers[1..], existing)
  }

  /** The kept values are exactly the batch values the ledger lacks. */
  lemma {:induction false} NewNumbersMembers(numbers: seq<string>, existing: set<string>)
    ensures forall x :: x in NewNumbers(numbers, existing) <==> x in numbers && x !in existing
  {
    if numbers != [] {
      NewNumbersMembers(numbers[1..], existing);
      assert numbers == [numbers[0]] + numbers[1..];
    }
  }

  /** Filtering a concatenation filters each part: the kept values stay in batch order. */
  lemma {:induction false} NewNumbersAppend(a: seq<string>, b: seq<string>, existing: set<string>)
    ensures NewNumbers(a + b, existing) == NewNumbers(a, existing) + NewNumbers(b, existing)
  {
    if a == [] {
      assert a + b == b;
    } else {
      assert (a + b)[0] == a[0];
      assert (a + b)[1..] == a[1..] + b;
      NewNumbersAppend(a[1..], b, existing);
    }
  }

  /** Every occurrence of a value absent from the ledger is kept; no occurrence of a stored value is. */
  lemma {:induction false} NewNumbersMultiplicity(numbers: seq<string>, existing: set<string>, x: string)
    ensures multiset(NewNumbers(numbers, existing))[x] == if x in existing then 0 else multiset(numbers)[x]
  {
    if numbers != [] {
      assert numbers == [numbers[0]] + numbers[1..];
      NewNumbersMultiplicity(numbers[1..], existing, x);
    }
  }

  /** When the ledger holds every value of the batch, nothing is kept. */
  lemma {:induction false} NothingNewWhenAllStored(numbers: seq<string>, existing: set<string>)
    requires forall x :: x in numbers ==> x in existing
    ensures NewNumbers(numbers, existing) == []
  {
    if numbers != [] {
      NothingNewWhenAllStored(numbers[1..], existing);
    }
  }

  /** The values a batch holds. */
  function Elements(numbers: seq<string>): set<string> {
    set x | x in numbers
  }

  datatype SaveResult = SaveResult(successCount: nat, duplicateCount: nat)

  /**
   * One call of `saveNumbersToDatabase`: the counts it returns, the rows it
   * inserts (`[]` when it issues no INSERT) and the ledger afterwards.
   */
  datatype Saved = Saved(result: SaveResult, inserted: seq<string>, ledger: set<string>)

  function SaveNumbers(ledger: set<string>, numbers: seq<string>): (s: Saved)
    ensures s.result.successCount + s.result.duplicateCount == |numbers|
    ensures s.result.successCount == |s.inserted| <= |numbers|
  {
    var newOnes := NewNumbers(numbers, ledger);
    Saved(SaveResult(|newOnes|, |numbers| - |newOnes|), newOnes,
          if |newOnes| > 0 then ledger + Elements(newOnes) else ledger)
  }

  /**
   * The two counts add up to the batch; the new ones are the inserted rows,
   * which are exactly the batch values not stored before; afterwards the
   * ledger holds its old values and every batch value; without an insert it
   * is unchanged.
   */
  lemma SaveNumbersCounts(ledger: set<string>, numbers: seq<string>)
    ensures var s := SaveNumbers(ledger, numbers);
            && s.result.successCount + s.result.duplicateCount == |numbers|
            && s.result.successCount == |s.inserted|
            && (forall x :: x in s.inserted <==> x in numbers && x !in ledger)
            && s.ledger == ledger + Elements(numbers)
            && (s.inserted == [] ==> s.ledger == ledger)
  {
    NewNumbersMembers(numbers, ledger);
    var s := SaveNumbers(ledger, numbers);
    if s.inserted == [] {
      assert forall x :: x in numbers ==> x in ledger;
    }
  }

  /** A batch whose every value is already stored counts wholly as duplicates and inserts nothing. */
  lemma AllStoredAreDuplicates(ledger: set<string>, numbers: seq<string>)
    requires forall x :: x in numbers ==> x in ledger
    ensures SaveNumbers(ledger, numbers).result == SaveResult(0, |numbers|)
    ensures SaveNumbers(ledger, numbers).inserted == []
    ensures SaveNumbers(ledger, numbers).ledger == ledger
  {
    NothingNewWhenAllStored(numbers, ledger);
    SaveNumbersCounts(ledger, numbers);
  }

  /** Saving the same batch twice: the second save finds everything and changes nothing. */
  lemma SaveTwice(ledger: set<string>, numbers: seq<string>)
    ensures var first := SaveNumbers(ledger, numbers);
            var second := SaveNumbers(first.ledger, numbers);
            second.result == SaveResult(0, |numbers|) && second.inserted == [] && second.ledger == first.ledger
  {
    SaveNumbersCounts(ledger, numbers);
    AllStoredAreDuplicates(SaveNumbers(ledger, numbers).ledger, numbers);
  }

  /** A value repeated inside one batch and absent from the ledger is counted new each time. */
  lemma RepeatsInBatchCountAsNew(ledger: set<string>, v: string)
    requires v !in ledger
    ensures SaveNumbers(ledger, [v, v]).result == SaveResult(2, 0)
    ensures SaveNumbers(ledger, [v, v]).inserted == [v, v]
  {
    assert [v, v][1..] == [v] && [v][1..] == [];
    assert NewNumbers([v], ledger) == [v];
    assert NewNumbers([v, v], ledger) == [v, v];
  }
}
