/** The selection step of `generate_new_quiz` (backend/utils/quiz_manager.py):
    cap the request to the pool, work out which indices may be drawn, and
    draw them one by one in a loop bounded by twice the pool size. */
module Selection {
  import opened IndexSeqs

  /** The request after capping: `num_questions` if it fits, else the pool size. */
  function CappedCount(numQuestions: int, poolSize: nat): (k: int)
    ensures k <= poolSize
    ensures k == numQuestions || k == poolSize
    ensures numQuestions <= poolSize ==> k == numQuestions
  {
    if numQuestions > poolSize then poolSize else numQuestions
  }

  /** How many questions a quiz gets: min(num_questions, pool size), or none
      when fewer than one is asked for. */
  function QuizSize(numQuestions: int, poolSize: nat): (n: nat)
    ensures n <= poolSize
    ensures numQuestions >= 1 ==> n == if numQuestions < poolSize then numQuestions else poolSize
    ensures numQuestions <= 0 ==> n == 0
  {
    var k := CappedCount(numQuestions, poolSize);
    if k < 0 then 0 else k
  }

  /** Without repeats, too few unused questions remain for the capped
      request, so the used set is cleared before drawing. */
  predicate NeedsReset(poolSize: nat, numQuestions: int, used: set<nat>): (r: bool)
    ensures r ==> numQuestions > 0 && used != {}
  {
    UnusedOfNothing(poolSize);
    |Unused(poolSize, used)| < CappedCount(numQuestions, poolSize)
  }

  /** Lines 278-340 of `generate_new_quiz`. `used0` is the session's used
      set on entry and `used` the set afterwards; `attempts` counts the loop's
      rounds. The quiz has exactly min(num_questions, pool size) distinct
      indices; without repeats each index drawn is marked used, and when no
      reset was needed none of them had been used before. */
  method SelectIndices(poolSize: nat, numQuestions: int, allowRepeats: bool, used0: set<nat>)
    returns (selected: seq<nat>, used: set<nat>, ghost attempts: nat)
    ensures |selected| == QuizSize(numQuestions, poolSize)
    ensures Distinct(selected)
    ensures forall i :: i in selected ==> i < poolSize
    ensures attempts == |selected| <= 2 * poolSize
    ensures allowRepeats ==> used == used0
    ensures !allowRepeats ==>
              used == (if NeedsReset(poolSize, numQuestions, used0) then {} else used0)
                      + (set i | i in selected)
    ensures !allowRepeats && !NeedsReset(poolSize, numQuestions, used0) ==>
              forall i :: i in selected ==> i !in used0
  {
    var k := CappedCount(numQuestions, poolSize);
    used := used0;
    var available: seq<nat>;
    if allowRepeats {
      available := Range(poolSize);
    } else {
      available := Unused(poolSize, used);
      if |available| < k {
        used := {};
        available := Range(poolSize);
      }
    }
    ghost var base := used;
    available := Shuffle(available);

    selected := [];
    var selectedSet: set<nat> := {};
    var tries := 0;
    var maxAttempts := poolSize * 2;
    while |selected| < k && tries < maxAttempts
      invariant tries == |selected| <= QuizSize(numQuestions, poolSize)
      invariant |selected| + |available| >= QuizSize(numQuestions, poolSize)
      invariant Distinct(selected) && Distinct(available)
      invariant selectedSet == set i | i in selected
      invariant forall i :: i in selected ==> i < poolSize
      invariant forall i :: i in available ==> i < poolSize && i !in selectedSet
      invariant allowRepeats ==> used == used0
      invariant !allowRepeats ==> used == base + selectedSet
      invariant !allowRepeats ==> forall i :: i in available ==> i !in used
      invariant !allowRepeats ==> forall i :: i in selected ==> i !in base
      decreases maxAttempts - tries
    {
      tries := tries + 1;
      if |available| == 0 {
        // Refill from the indices not yet in this quiz.
        var remaining := Unused(poolSize, selectedSet);
        if |remaining| == 0 {
          if !allowRepeats {
            used := {};
          }
          remaining := Unused(poolSize, selectedSet);
        }
        if |remaining| > 0 {
          available := Shuffle(remaining);
        } else {
          break;
        }
      }
      var idx := available[0];
      assert idx !in available[1..] by {
        forall j | 0 <= j < |available| - 1 ensures available[1..][j] != idx {
          assert available[1..][j] == available[j + 1];
        }
      }
      assert forall i :: i in available[1..] ==> i in available;
      available := available[1..];
      if idx in selectedSet {
        continue;
      }
      selected := selected + [idx];
      selectedSet := selectedSet + {idx};
      if !allowRepeats {
        used := used + {idx};
      }
    }
    attempts := tries;
  }
}
