/** vllm/logits_process.py: masking the token that would complete a bad word. */
module BadWords {

  /** A logit is a real number or minus infinity, which absorbs whatever is added. */
  datatype Logit = NegInf | Fin(value: real)

  function Plus(a: Logit, b: Logit): Logit {
    if a.NegInf? || b.NegInf? then NegInf else Fin(a.value + b.value)
  }

  // ---- what bad words mean --------------------------------------------------------

  ghost predicate EndsWith(tokens: seq<int>, word: seq<int>) {
    |word| <= |tokens| && tokens[|tokens| - |word|..] == word
  }

  /** The word occurs somewhere in the tokens. */
  ghost predicate Contains(tokens: seq<int>, word: seq<int>) {
    exists i :: 0 <= i && i + |word| <= |tokens| && OccursAt(tokens, word, i)
  }

  ghost predicate OccursAt(tokens: seq<int>, word: seq<int>, i: nat)
    requires i + |word| <= |tokens|
  {
    tokens[i..i + |word|] == word
  }

  ghost predicate Clean(words: seq<seq<int>>, tokens: seq<int>) {
    forall w :: 0 <= w < |words| ==> !Contains(tokens, words[w])
  }

  /** Appending the token would complete one of the words. */
  ghost predicate Completes(words: seq<seq<int>>, past: seq<int>, token: int) {
    exists w :: 0 <= w < |words| && EndsWith(past + [token], words[w])
  }

  /** What the processor must return: minus infinity exactly where a word would be completed. */
  ghost function Masked(words: seq<seq<int>>, past: seq<int>, logits: seq<Logit>): (masked: seq<Logit>)
    ensures |masked| == |logits|
  {
    seq(|logits|, t requires 0 <= t < |logits| => if Completes(words, past, t) then NegInf else logits[t])
  }

  /** A word occurs in the longer sequence where it occurred before, or at the very end. */
  lemma ContainsAfterAppend(tokens: seq<int>, token: int, word: seq<int>)
    requires word != []
    ensures Contains(tokens + [token], word) <==> Contains(tokens, word) || EndsWith(tokens + [token], word)
  {
    var longer := tokens + [token];
    forall i: nat | i + |word| <= |tokens| ensures OccursAt(longer, word, i) <==> OccursAt(tokens, word, i) {
      assert longer[i..i + |word|] == tokens[i..i + |word|];
    }
    if |word| <= |longer| {
      AtTheEnd(longer, word);
    }
    if Contains(tokens, word) {
      var i: nat :| i + |word| <= |tokens| && OccursAt(tokens, word, i);
      assert OccursAt(longer, word, i);
    }
  }

  lemma AtTheEnd(tokens: seq<int>, word: seq<int>)
    requires |word| <= |tokens|
    ensures EndsWith(tokens, word) <==> OccursAt(tokens, word, |tokens| - |word|)
  {
    assert tokens[|tokens| - |word|..] == tokens[|tokens| - |word|..|tokens|];
  }

  lemma CleanAfterAppend(words: seq<seq<int>>, tokens: seq<int>, token: int)
    requires forall w :: 0 <= w < |words| ==> words[w] != []
    ensures Clean(words, tokens + [token]) <==> Clean(words, tokens) && !Completes(words, tokens, token)
  {
    forall w | 0 <= w < |words|
      ensures Contains(tokens + [token], words[w])
         <==> Contains(tokens, words[w]) || EndsWith(tokens + [token], words[w])
    {
      ContainsAfterAppend(tokens, token, words[w]);
    }
  }

  // ---- every run --------------------------------------------------------------------

  /** The tokens after `chosen` were appended to `start`, one a step. */
  function After(start: seq<int>, chosen: seq<nat>): seq<int> {
    if chosen == [] then start else After(start, chosen[..|chosen| - 1]) + [chosen[|chosen| - 1]]
  }

  /** At every step the chosen token has a processed logit above minus infinity. */
  ghost predicate IsRun(words: seq<seq<int>>, start: seq<int>, logits: seq<seq<Logit>>, chosen: seq<nat>)
    requires |logits| == |chosen|
  {
    chosen == [] ||
    var n := |chosen| - 1;
    && IsRun(words, start, logits[..n], chosen[..n])
    && chosen[n] < |logits[n]|
    && Masked(words, After(start, chosen[..n]), logits[n])[chosen[n]] != NegInf
  }

  /** Every chosen token had a finite logit before masking. */
  ghost predicate Available(logits: seq<seq<Logit>>, chosen: seq<nat>)
    requires |logits| == |chosen|
  {
    forall k :: 0 <= k < |chosen| ==> chosen[k] < |logits[k]| && logits[k][chosen[k]] != NegInf
  }

  /** From a clean start, whatever the logits, the runs the processor allows are exactly those
      over available tokens whose outcome contains no bad word. */
  lemma {:induction false} RunsAreTheCleanOnes(words: seq<seq<int>>, start: seq<int>, logits: seq<seq<Logit>>, chosen: seq<nat>)
    requires forall w :: 0 <= w < |words| ==> words[w] != []
    requires Clean(words, start) && |logits| == |chosen|
    ensures IsRun(words, start, logits, chosen) <==> Available(logits, chosen) && Clean(words, After(start, chosen))
  {
    if chosen != [] {
      var n := |chosen| - 1;
      RunsAreTheCleanOnes(words, start, logits[..n], chosen[..n]);
      CleanAfterAppend(words, After(start, chosen[..n]), chosen[n]);
      assert Available(logits, chosen) <==>
             Available(logits[..n], chosen[..n]) && chosen[n] < |logits[n]| && logits[n][chosen[n]] != NegInf by {
        AvailableStep(logits, chosen);
      }
    }
  }

  lemma AvailableStep(logits: seq<seq<Logit>>, chosen: seq<nat>)
    requires |logits| == |chosen| && chosen != []
    ensures var n := |chosen| - 1;
      Available(logits, chosen) <==>
      Available(logits[..n], chosen[..n]) && chosen[n] < |logits[n]| && logits[n][chosen[n]] != NegInf
  {
    var n := |chosen| - 1;
    if Available(logits, chosen) {
      forall k | 0 <= k < n
        ensures chosen[..n][k] < |logits[..n][k]| && logits[..n][k][chosen[..n][k]] != NegInf
      {
        assert chosen[k] < |logits[k]|;
      }
    }
    if Available(logits[..n], chosen[..n]) {
      forall k | 0 <= k < n ensures chosen[k] < |logits[k]| && logits[k][chosen[k]] != NegInf {
        assert chosen[..n][k] < |logits[..n][k]|;
      }
    }
  }
}
