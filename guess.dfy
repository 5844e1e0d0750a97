/**
 * The guess evaluator of the game server (`checkGuess` in server.js).
 *
 * The server scores a guess against the secret word in two passes over a
 * five-slot result that starts as all `Wrong`, with a table of how many copies
 * of each letter the word still has to give: the first pass marks exact hits
 * `Correct` and spends one copy each, the second walks the remaining slots left
 * to right and marks a slot `Misplaced` while its letter still has a copy to
 * spend.  `Score` states the outcome declaratively; `CheckGuess` is the
 * two-pass algorithm, proved to compute `Score`.
 *
 * The server never checks the guess's length.  Slots past the end of a short
 * guess hold no letter (JavaScript reads `undefined` there), never match and
 * never spend a copy, and letters past the fifth are never looked at.
 */
module GuessEvaluator {
  import opened Wrappers

  datatype Verdict = Correct | Misplaced | Wrong

  /** The result array always has this many slots; every secret word is this long. */
  const Slots: nat := 5

  function Min(a: int, b: int): int
  {
    if a <= b then a else b
  }

  /** The letter in slot `i` of a guess, or `None` past its end. */
  function LetterAt(guess: string, i: nat): Option<char>
  {
    if i < |guess| then Some(guess[i]) else None
  }

  /** Slot `i` holds the secret word's own letter. */
  predicate Exact(guess: string, word: string, i: nat)
    requires i < |word|
  {
    LetterAt(guess, i) == Some(word[i])
  }

  /** Copies of `c` among the first `n` letters of the word. */
  function WordCount(word: string, n: nat, c: char): nat
    requires n <= |word|
  {
    if n == 0 then 0 else WordCount(word, n - 1, c) + (if word[n - 1] == c then 1 else 0)
  }

  /** Copies of `c` among the first `n` slots of the guess. */
  function GuessCount(guess: string, n: nat, c: char): nat
  {
    if n == 0 then 0 else GuessCount(guess, n - 1, c) + (if LetterAt(guess, n - 1) == Some(c) then 1 else 0)
  }

  /** Exact hits on letter `c` among the first `n` slots. */
  function ExactCount(guess: string, word: string, n: nat, c: char): nat
    requires n <= |word|
  {
    if n == 0 then 0
    else ExactCount(guess, word, n - 1, c) + (if Exact(guess, word, n - 1) && word[n - 1] == c then 1 else 0)
  }

  /** Slots among the first `n` that hold `c` but are not exact hits. */
  function LooseCount(guess: string, word: string, n: nat, c: char): nat
    requires n <= |word|
  {
    if n == 0 then 0
    else LooseCount(guess, word, n - 1, c) + (if !Exact(guess, word, n - 1) && LetterAt(guess, n - 1) == Some(c) then 1 else 0)
  }

  /** Copies of `c` in the word left over once the exact hits are paid for. */
  function Spare(guess: string, word: string, c: char): int
    requires |word| == Slots
  {
    WordCount(word, |word|, c) - ExactCount(guess, word, |word|, c)
  }

  /**
   * The verdict for slot `i`: an exact hit is `Correct`; any other letter is
   * `Misplaced` exactly when fewer of its earlier non-exact occurrences than
   * its spare copies come before it (the spare copies go to the leftmost
   * non-exact occurrences), and `Wrong` otherwise.
   */
  function VerdictAt(guess: string, word: string, i: nat): Verdict
    requires |word| == Slots && i < Slots
  {
    if Exact(guess, word, i) then Correct
    else match LetterAt(guess, i)
      case None => Wrong
      case Some(c) => if LooseCount(guess, word, i, c) < Spare(guess, word, c) then Misplaced else Wrong
  }

  /** The result of scoring `guess` against the secret `word`. */
  function Score(guess: string, word: string): (r: seq<Verdict>)
    requires |word| == Slots
    ensures |r| == Slots
    ensures forall i :: 0 <= i < Slots ==> (r[i] == Correct <==> i < |guess| && guess[i] == word[i])
    ensures forall i :: 0 <= i < Slots && i >= |guess| ==> r[i] == Wrong
  {
    seq(Slots, i requires 0 <= i < Slots => VerdictAt(guess, word, i))
  }

  /** Slots among the first `n` that hold `c` and were credited (`Correct` or `Misplaced`). */
  function MarkCount(guess: string, r: seq<Verdict>, n: nat, c: char): nat
    requires n <= |r|
  {
    if n == 0 then 0
    else MarkCount(guess, r, n - 1, c) + (if r[n - 1] != Wrong && LetterAt(guess, n - 1) == Some(c) then 1 else 0)
  }

  /** The remaining-copies table: a letter that is not a key has none. */
  function Remaining(letterCounts: map<char, int>, c: char): int
  {
    if c in letterCounts then letterCounts[c] else 0
  }

  /** The table after one copy of `c` is spent (JavaScript's `letterCounts[c]--`). */
  function Spend(letterCounts: map<char, int>, c: char): map<char, int>
  {
    letterCounts[c := Remaining(letterCounts, c) - 1]
  }

  /** The two-pass scorer of server.js, over a fixed-size result array and a letter table. */
  method CheckGuess(guess: string, word: string) returns (r: seq<Verdict>)
    requires |word| == Slots
    ensures r == Score(guess, word)
  {
    var result := new Verdict[Slots](_ => Wrong);
    var letterCounts: map<char, int> := map[];

    var i := 0;
    while i < |word|
      invariant 0 <= i <= |word|
      invariant forall c :: Remaining(letterCounts, c) == WordCount(word, i, c)
    {
      letterCounts := letterCounts[word[i] := Remaining(letterCounts, word[i]) + 1];
      i := i + 1;
    }

    // First pass: exact hits.
    i := 0;
    while i < Slots
      invariant 0 <= i <= Slots
      invariant forall c :: Remaining(letterCounts, c) == WordCount(word, |word|, c) - ExactCount(guess, word, i, c)
      invariant result[..] == AfterFirstPass(guess, word, i)
    {
      PassesStep(guess, word, i);
      if i < |guess| && guess[i] == word[i] {
        result[i] := Correct;
        letterCounts := Spend(letterCounts, guess[i]);
      }
      i := i + 1;
    }

    // Second pass: misplaced letters, left to right, while copies remain.
    SecondPassStart(guess, word);
    i := 0;
    while i < Slots
      invariant 0 <= i <= Slots
      invariant forall c :: Remaining(letterCounts, c) == Unspent(guess, word, i, c)
      invariant result[..] == AfterSecondPass(guess, word, i)
    {
      PassesStep(guess, word, i);
      SecondPassVisit(guess, word, i, result[i], letterCounts);
      if result[i] != Correct && i < |guess| && Remaining(letterCounts, guess[i]) > 0 {
        result[i] := Misplaced;
        letterCounts := Spend(letterCounts, guess[i]);
      }
      i := i + 1;
    }

    r := result[..];
  }

  /** The result array once the first pass has visited the slots before `i`. */
  function AfterFirstPass(guess: string, word: string, i: nat): (r: seq<Verdict>)
    requires |word| == Slots
    ensures |r| == Slots
  {
    seq(Slots, j requires 0 <= j < Slots => if j < i then ExactOnly(guess, word, j) else Wrong)
  }

  /** The result array once the second pass has visited the slots before `i`. */
  function AfterSecondPass(guess: string, word: string, i: nat): (r: seq<Verdict>)
    requires |word| == Slots
    ensures |r| == Slots
  {
    seq(Slots, j requires 0 <= j < Slots => if j < i then VerdictAt(guess, word, j) else ExactOnly(guess, word, j))
  }

  /** How one visit of slot `i` moves each pass forward, and how the passes join up. */
  lemma PassesStep(guess: string, word: string, i: nat)
    requires |word| == Slots && i < Slots
    ensures AfterFirstPass(guess, word, 0) == seq(Slots, _ => Wrong)
    ensures AfterFirstPass(guess, word, i + 1) == AfterFirstPass(guess, word, i)[i := ExactOnly(guess, word, i)]
    ensures AfterFirstPass(guess, word, Slots) == AfterSecondPass(guess, word, 0)
    ensures AfterSecondPass(guess, word, i + 1) == AfterSecondPass(guess, word, i)[i := VerdictAt(guess, word, i)]
    ensures AfterSecondPass(guess, word, i)[i] == ExactOnly(guess, word, i)
    ensures AfterSecondPass(guess, word, Slots) == Score(guess, word)
  {
  }

  /** The verdict after the first pass alone. */
  function ExactOnly(guess: string, word: string, i: nat): Verdict
    requires i < |word|
  {
    if Exact(guess, word, i) then Correct else Wrong
  }

  /** Spare copies of `c` not yet handed to the non-exact occurrences before slot `i`. */
  function Unspent(guess: string, word: string, i: nat, c: char): int
    requires |word| == Slots && i <= Slots
  {
    Spare(guess, word, c) - Min(LooseCount(guess, word, i, c), Spare(guess, word, c))
  }

  lemma SecondPassStart(guess: string, word: string)
    requires |word| == Slots
    ensures forall c :: Unspent(guess, word, 0, c) == WordCount(word, |word|, c) - ExactCount(guess, word, |word|, c)
  {
    forall c ensures Spare(guess, word, c) >= 0 {
      ExactWithinWord(guess, word, |word|, c);
    }
  }

  /** One slot of the second pass: a non-exact letter with an unspent copy is
      `Misplaced` and spends it; every other slot keeps its first-pass verdict
      and leaves the table as it is. */
  lemma SecondPassVisit(guess: string, word: string, i: nat, first: Verdict, letterCounts: map<char, int>)
    requires |word| == Slots && i < Slots
    requires first == ExactOnly(guess, word, i)
    requires forall c :: Remaining(letterCounts, c) == Unspent(guess, word, i, c)
    ensures var spend := first != Correct && i < |guess| && Remaining(letterCounts, guess[i]) > 0;
            && VerdictAt(guess, word, i) == (if spend then Misplaced else ExactOnly(guess, word, i))
            && (spend ==> forall c :: Remaining(Spend(letterCounts, guess[i]), c) == Unspent(guess, word, i + 1, c))
            && (!spend ==> forall c :: Remaining(letterCounts, c) == Unspent(guess, word, i + 1, c))
  {
    forall c ensures Spare(guess, word, c) >= 0 {
      ExactWithinWord(guess, word, |word|, c);
    }
    if first != Correct && i < |guess| && Remaining(letterCounts, guess[i]) > 0 {
      var g := guess[i];
      assert !Exact(guess, word, i) && LetterAt(guess, i) == Some(g);
      forall c ensures Remaining(Spend(letterCounts, g), c) == Unspent(guess, word, i + 1, c) {
        if c == g {
          var loose, spare := LooseCount(guess, word, i, c), Spare(guess, word, c);
          assert LooseCount(guess, word, i + 1, c) == loose + 1;
          assert Remaining(letterCounts, c) == spare - Min(loose, spare);
          assert loose < spare;
          assert Remaining(Spend(letterCounts, g), c) == spare - loose - 1;
        } else {
          assert LooseCount(guess, word, i + 1, c) == LooseCount(guess, word, i, c);
        }
      }
    }
  }

  /** An exact hit on `c` spends a copy of `c` that the word really has. */
  lemma {:induction false} ExactWithinWord(guess: string, word: string, n: nat, c: char)
    requires n <= |word|
    ensures ExactCount(guess, word, n, c) <= WordCount(word, n, c)
  {
    if n > 0 {
      ExactWithinWord(guess, word, n - 1, c);
    }
  }

  /** Every copy of `c` in the guess is either an exact hit or a non-exact occurrence. */
  lemma {:induction false} GuessCountSplits(guess: string, word: string, n: nat, c: char)
    requires n <= |word|
    ensures GuessCount(guess, n, c) == ExactCount(guess, word, n, c) + LooseCount(guess, word, n, c)
  {
    if n > 0 {
      GuessCountSplits(guess, word, n - 1, c);
    }
  }

  /** Over any prefix, the credited copies of `c` are its exact hits plus as many
      non-exact occurrences as the spare copies allow. */
  lemma {:induction false} MarksOnPrefix(guess: string, word: string, n: nat, c: char)
    requires |word| == Slots && n <= Slots
    ensures MarkCount(guess, Score(guess, word), n, c)
            == ExactCount(guess, word, n, c) + Min(LooseCount(guess, word, n, c), Spare(guess, word, c))
  {
    ExactWithinWord(guess, word, |word|, c);
    if n > 0 {
      MarksOnPrefix(guess, word, n - 1, c);
    }
  }

  /**
   * The evaluator credits each letter exactly as often as it occurs in both the
   * guess and the word: never more copies than the word holds, never more than
   * the guess offers.
   */
  lemma ScoreCreditsCommonCopies(guess: string, word: string, c: char)
    requires |word| == Slots
    ensures MarkCount(guess, Score(guess, word), Slots, c) == Min(GuessCount(guess, Slots, c), WordCount(word, Slots, c))
  {
    MarksOnPrefix(guess, word, Slots, c);
    GuessCountSplits(guess, word, Slots, c);
  }

  /** Letter-count conservation: no letter earns more `Correct` and `Misplaced`
      marks than it has copies in the word. */
  lemma ScoreConservesLetters(guess: string, word: string, c: char)
    requires |word| == Slots
    ensures MarkCount(guess, Score(guess, word), Slots, c) <= WordCount(word, Slots, c)
  {
    ScoreCreditsCommonCopies(guess, word, c);
  }

  /** A letter is marked `Wrong` only once every copy of it in the word is credited elsewhere. */
  lemma {:induction false} WrongMeansExhausted(guess: string, word: string, i: nat)
    requires |word| == Slots && i < Slots && i < |guess|
    requires Score(guess, word)[i] == Wrong
    ensures MarkCount(guess, Score(guess, word), Slots, guess[i]) == WordCount(word, Slots, guess[i])
  {
    var c := guess[i];
    ExactWithinWord(guess, word, |word|, c);
    LooseGrows(guess, word, i + 1, Slots, c);
    MarksOnPrefix(guess, word, Slots, c);
  }

  lemma {:induction false} LooseGrows(guess: string, word: string, m: nat, n: nat, c: char)
    requires m <= n <= |word|
    ensures LooseCount(guess, word, m, c) <= LooseCount(guess, word, n, c)
  {
    if m < n {
      LooseGrows(guess, word, m, n - 1, c);
    }
  }

  /** Every slot is `Correct` exactly when the guess starts with the secret word;
      for a five-letter guess, exactly when it is the word. */
  lemma AllCorrectIffWord(guess: string, word: string)
    requires |word| == Slots
    ensures (forall i :: 0 <= i < Slots ==> Score(guess, word)[i] == Correct)
            <==> |guess| >= Slots && guess[..Slots] == word
  {
    var r := Score(guess, word);
    if forall i :: 0 <= i < Slots ==> r[i] == Correct {
      assert |guess| >= Slots by {
        assert r[Slots - 1] == Correct;
      }
      assert forall i :: 0 <= i < Slots ==> guess[..Slots][i] == word[i];
    }
  }

  /** A worked example: the secret APPLE against the guess PAPER. */
  lemma PaperAgainstApple()
    ensures Score("PAPER", "APPLE") == [Misplaced, Misplaced, Correct, Misplaced, Wrong]
  {
    var g, w := "PAPER", "APPLE";
    assert WordCount(w, 5, 'P') == 2 && ExactCount(g, w, 5, 'P') == 1;
    assert WordCount(w, 5, 'A') == 1 && ExactCount(g, w, 5, 'A') == 0;
    assert WordCount(w, 5, 'E') == 1 && ExactCount(g, w, 5, 'E') == 0;
    assert WordCount(w, 5, 'R') == 0;
    assert VerdictAt(g, w, 0) == Misplaced;
    assert VerdictAt(g, w, 1) == Misplaced;
    assert VerdictAt(g, w, 2) == Correct;
    assert LooseCount(g, w, 3, 'E') == 0;
    assert VerdictAt(g, w, 3) == Misplaced;
    assert VerdictAt(g, w, 4) == Wrong;
  }

}
