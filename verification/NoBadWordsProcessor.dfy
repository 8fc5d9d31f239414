/** The `NoBadWordsLogitsProcessor` object of vllm/logits_process.py. */
module NoBadWordsProcessor {
  import opened Options
  import opened BadWords

  datatype Outcome =
    | Ok(logits: seq<Logit>)
    | ValueError(invalidIds: seq<int>)
    | IndexError

  function InvalidIn(word: seq<int>, vocabSize: nat): seq<int> {
    if word == [] then []
    else
      var last := word[|word| - 1];
      InvalidIn(word[..|word| - 1], vocabSize) + if last < 0 || last >= vocabSize then [last] else []
  }

  /** Token ids outside the vocabulary, in order. */
  function InvalidIds(words: seq<seq<int>>, vocabSize: nat): seq<int> {
    if words == [] then []
    else InvalidIds(words[..|words| - 1], vocabSize) + InvalidIn(words[|words| - 1], vocabSize)
  }

  lemma {:induction false} NoneInvalid(word: seq<int>, vocabSize: nat)
    ensures InvalidIn(word, vocabSize) == [] <==> forall k :: 0 <= k < |word| ==> 0 <= word[k] < vocabSize
  {
    if word != [] {
      NoneInvalid(word[..|word| - 1], vocabSize);
    }
  }

  /** The ids found are those outside the vocabulary, in the order of the words. */
  lemma {:induction false} InvalidInOrder(words: seq<seq<int>>, more: seq<seq<int>>, vocabSize: nat)
    ensures InvalidIds(words + more, vocabSize) == InvalidIds(words, vocabSize) + InvalidIds(more, vocabSize)
    ensures forall word :: InvalidIds([word], vocabSize) == InvalidIn(word, vocabSize)
  {
    forall word: seq<int> ensures [word][..0] == [] {
    }
    if more == [] {
      assert words + more == words;
    } else {
      InvalidInOrder(words, more[..|more| - 1], vocabSize);
      assert (words + more)[..|words + more| - 1] == words + more[..|more| - 1];
    }
  }

  lemma {:induction false} InvalidInWord(word: seq<int>, more: seq<int>, vocabSize: nat)
    ensures InvalidIn(word + more, vocabSize) == InvalidIn(word, vocabSize) + InvalidIn(more, vocabSize)
    ensures forall t :: InvalidIn([t], vocabSize) == if 0 <= t < vocabSize then [] else [t]
  {
    forall t: int ensures [t][..0] == [] {
    }
    if more == [] {
      assert word + more == word;
    } else {
      InvalidInWord(word, more[..|more| - 1], vocabSize);
      assert (word + more)[..|word + more| - 1] == word + more[..|more| - 1];
    }
  }

  ghost predicate InVocabulary(words: seq<seq<int>>, vocabSize: nat) {
    forall w :: 0 <= w < |words| ==> forall k :: 0 <= k < |words[w]| ==> 0 <= words[w][k] < vocabSize
  }

  lemma {:induction false} BoundsHold(words: seq<seq<int>>, vocabSize: nat)
    ensures InvalidIds(words, vocabSize) == [] <==> InVocabulary(words, vocabSize)
  {
    if words != [] {
      BoundsHold(words[..|words| - 1], vocabSize);
      NoneInvalid(words[|words| - 1], vocabSize);
    }
  }

  /** The first `n` words ban the token on their own. */
  ghost predicate BannedAlone(words: seq<seq<int>>, n: nat, t: int)
    requires n <= |words|
  {
    exists w :: 0 <= w < n && words[w] == [t]
  }

  /** One of the first `n` words, of two tokens or more, is completed by the token. */
  ghost predicate BannedNow(words: seq<seq<int>>, n: nat, past: seq<int>, t: int)
    requires n <= |words|
  {
    exists w :: 0 <= w < n && 2 <= |words[w]| && EndsWith(past + [t], words[w])
  }

  /** A token has its logit back unless it would complete a bad word, and minus infinity if it would. */
  ghost predicate IsMasked(words: seq<seq<int>>, past: seq<int>, logits: seq<Logit>, masked: seq<Logit>) {
    && |masked| == |logits|
    && forall t :: 0 <= t < |logits| ==>
         masked[t] == if exists w :: 0 <= w < |words| && EndsWith(past + [t], words[w]) then NegInf else logits[t]
  }

  ghost predicate AloneBias(bias: seq<Logit>, words: seq<seq<int>>, n: nat)
    requires n <= |words|
  {
    forall t :: 0 <= t < |bias| ==> bias[t] == if BannedAlone(words, n, t) then NegInf else Fin(0.0)
  }

  ghost predicate NowBias(bias: seq<Logit>, words: seq<seq<int>>, n: nat, past: seq<int>)
    requires n <= |words|
  {
    forall t :: 0 <= t < |bias| ==> bias[t] == if BannedNow(words, n, past, t) then NegInf else Fin(0.0)
  }

  lemma SingleEnds(past: seq<int>, t: int, word: seq<int>)
    requires |word| == 1
    ensures EndsWith(past + [t], word) <==> word == [t]
  {
    assert (past + [t])[|past|..] == [t];
  }

  lemma LongerEnds(past: seq<int>, t: int, word: seq<int>)
    requires 2 <= |word| <= |past| + 1
    ensures var n := |word| - 1;
      EndsWith(past + [t], word) <==> t == word[n] && past[|past| - n..] == word[..n]
  {
    var n := |word| - 1;
    assert (past + [t])[|past| + 1 - |word|..] == past[|past| - n..] + [t];
    assert word == word[..n] + [word[n]];
  }

  /** A token completes a word exactly if a one-token word bans it or a longer one is completed. */
  lemma CompletesByLength(words: seq<seq<int>>, past: seq<int>, t: int)
    requires forall w :: 0 <= w < |words| ==> words[w] != []
    ensures Completes(words, past, t) <==> BannedAlone(words, |words|, t) || BannedNow(words, |words|, past, t)
  {
    forall w | 0 <= w < |words| && |words[w]| == 1 ensures EndsWith(past + [t], words[w]) <==> words[w] == [t] {
      SingleEnds(past, t, words[w]);
    }
    if BannedAlone(words, |words|, t) {
      var w :| 0 <= w < |words| && words[w] == [t];
      assert EndsWith(past + [t], words[w]);
    }
  }

  class NoBadWordsLogitsProcessor {
    const badWordsIds: seq<seq<int>>
    var wordBias: Option<seq<Logit>>

    constructor (badWordsIds: seq<seq<int>>)
      ensures this.badWordsIds == badWordsIds && wordBias == None && Valid()
    {
      this.badWordsIds := badWordsIds;
      wordBias := None;
    }

    /** A cached bias is right, and was computed for a vocabulary that holds all the words. */
    ghost predicate Valid()
      reads this
    {
      wordBias.Some? ==>
        && InVocabulary(badWordsIds, |wordBias.value|)
        && AloneBias(wordBias.value, badWordsIds, |badWordsIds|)
    }

    method CheckTokenIdsBounds(vocabSize: nat) returns (invalidTokenIds: seq<int>)
      ensures invalidTokenIds == InvalidIds(badWordsIds, vocabSize)
    {
      invalidTokenIds := [];
      for w := 0 to |badWordsIds|
        invariant invalidTokenIds == InvalidIds(badWordsIds[..w], vocabSize)
      {
        var word := badWordsIds[w];
        for k := 0 to |word|
          invariant invalidTokenIds == InvalidIds(badWordsIds[..w], vocabSize) + InvalidIn(word[..k], vocabSize)
        {
          assert word[..k + 1][..k] == word[..k];
          if word[k] < 0 || word[k] >= vocabSize {
            invalidTokenIds := invalidTokenIds + [word[k]];
          }
        }
        assert word[..|word|] == word && badWordsIds[..w + 1][..w] == badWordsIds[..w];
      }
      assert badWordsIds[..|badWordsIds|] == badWordsIds;
    }

    /** `_init_word_bias`: the ids outside the vocabulary, or none and the bias is cached. */
    method InitWordBias(vocabSize: nat) returns (invalidTokenIds: seq<int>)
      requires wordBias.None?
      modifies this
      ensures invalidTokenIds == InvalidIds(badWordsIds, vocabSize) && Valid()
      ensures invalidTokenIds == [] ==> wordBias.Some? && |wordBias.value| == vocabSize
      ensures invalidTokenIds != [] ==> wordBias.None?
    {
      invalidTokenIds := CheckTokenIdsBounds(vocabSize);
      BoundsHold(badWordsIds, vocabSize);
      if invalidTokenIds != [] {
        return;
      }
      var bias := seq(vocabSize, _ => Fin(0.0));
      for w := 0 to |badWordsIds|
        invariant |bias| == vocabSize && AloneBias(bias, badWordsIds, w)
      {
        var word := badWordsIds[w];
        var bias' := if |word| == 1 then bias[word[0] := NegInf] else bias;
        forall t | 0 <= t < vocabSize
          ensures bias'[t] == if BannedAlone(badWordsIds, w + 1, t) then NegInf else Fin(0.0)
        {
          AloneStep(badWordsIds, w, t);
        }
        bias := bias';
      }
      wordBias := Some(bias);
    }

    /** The loop body for one word: minus infinity is added at its last token if the rest matches. */
    method AddWord(w: nat, past: seq<int>, bias: seq<Logit>) returns (bias': seq<Logit>)
      requires w < |badWordsIds| && badWordsIds[w] != []
      requires InVocabulary(badWordsIds, |bias|) && NowBias(bias, badWordsIds, w, past)
      ensures |bias'| == |bias| && NowBias(bias', badWordsIds, w + 1, past)
    {
      var word := badWordsIds[w];
      bias' := bias;
      if |word| != 1 && |word| <= |past| + 1 {
        var prefixLength := |word| - 1;
        var lastTokenId := word[prefixLength];
        var isMatch := past[|past| - prefixLength..] == word[..prefixLength];
        bias' := bias[lastTokenId := Plus(bias[lastTokenId], if isMatch then NegInf else Fin(0.0))];
      }
      forall t | 0 <= t < |bias| ensures bias'[t] == if BannedNow(badWordsIds, w + 1, past, t) then NegInf else Fin(0.0) {
        NowStep(badWordsIds, w, past, t);
        if 2 <= |word| <= |past| + 1 {
          LongerEnds(past, t, word);
        }
      }
    }

    /** `__call__`, for logits of one vocabulary size. Ids outside it and empty words are errors;
        otherwise the logits come back masked exactly where a bad word would be completed. */
    method Call(past: seq<int>, logits: seq<Logit>) returns (r: Outcome)
      requires Valid() && (wordBias.Some? ==> |wordBias.value| == |logits|)
      modifies this
      ensures Valid() && (wordBias.Some? ==> |wordBias.value| == |logits|)
      ensures var invalidIds := InvalidIds(badWordsIds, |logits|);
        if old(wordBias).None? && invalidIds != [] then r == ValueError(invalidIds)
        else if [] in badWordsIds then r == IndexError
        else r.Ok? && IsMasked(badWordsIds, past, logits, r.logits)
    {
      if wordBias.None? {
        var invalidTokenIds := InitWordBias(|logits|);
        if invalidTokenIds != [] {
          return ValueError(invalidTokenIds);
        }
      }
      var lastTokenBias := seq(|logits|, _ => Fin(0.0));
      for w := 0 to |badWordsIds|
        invariant |lastTokenBias| == |logits| && wordBias.Some? && Valid() && |wordBias.value| == |logits|
        invariant forall v :: 0 <= v < w ==> badWordsIds[v] != []
        invariant NowBias(lastTokenBias, badWordsIds, w, past)
      {
        var word := badWordsIds[w];
        if word == [] {
          return IndexError;
        }
        lastTokenBias := AddWord(w, past, lastTokenBias);
      }
      var result := seq(|logits|, t requires 0 <= t < |logits| && wordBias.Some? && |wordBias.value| == |logits|
                                            && |lastTokenBias| == |logits| reads this =>
                          Plus(Plus(logits[t], wordBias.value[t]), lastTokenBias[t]));
      forall t | 0 <= t < |logits|
        ensures result[t] == if Completes(badWordsIds, past, t) then NegInf else logits[t]
      {
        CompletesByLength(badWordsIds, past, t);
      }
      return Ok(result);
    }
  }

  lemma AloneStep(words: seq<seq<int>>, w: nat, t: int)
    requires w < |words|
    ensures BannedAlone(words, w + 1, t) <==> BannedAlone(words, w, t) || words[w] == [t]
  {
  }

  lemma NowStep(words: seq<seq<int>>, w: nat, past: seq<int>, t: int)
    requires w < |words|
    ensures BannedNow(words, w + 1, past, t)
       <==> BannedNow(words, w, past, t) || (2 <= |words[w]| && EndsWith(past + [t], words[w]))
  {
  }
}
