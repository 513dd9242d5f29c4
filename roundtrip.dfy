/**
 * What the pipeline promises across calls: how decoding fails, that
 * non-numeric text passes through both directions unchanged, and that
 * decoding an encoded name gives back the name with every word that is in
 * the lexicon spelt as the lexicon spells it.
 */
module RoundTrip {
  import opened Wrappers
  import opened Text
  import opened Numbers
  import opened Cantor
  import opened Resolver
  import opened Pipeline

  /** A word as the lexicon spells it, when it is in the lexicon. */
  function CanonicalWord(word: string, lexicon: seq<string>): string
  {
    match FirstMatch(lexicon, word)
    case Some(k) => lexicon[k]
    case None => word
  }

  function CanonicalWords(words: seq<string>, lexicon: seq<string>): (r: seq<string>)
    ensures |r| == |words|
  {
    seq(|words|, i requires 0 <= i < |words| => CanonicalWord(words[i], lexicon))
  }

  /** The resolver's result when every word is looked up on its own. */
  function ResolveEach(words: seq<string>, lexicon: seq<string>): (r: seq<string>)
    ensures |r| == |words|
  {
    seq(|words|, i requires 0 <= i < |words| => ResolveWord(words[i], lexicon))
  }

  /** Decoding stops at the first token that fails, with that token's error. */
  lemma {:induction false} DecodeFailsAtFirstBadToken(tokens: seq<string>, lexicon: seq<string>, k: nat)
    requires k < |tokens|
    requires forall j :: 0 <= j < k ==> DecodeToken(tokens[j], lexicon).Success?
    requires DecodeToken(tokens[k], lexicon).Failure?
    ensures DecodeWords(tokens, lexicon) == Failure(DecodeToken(tokens[k], lexicon).error)
    decreases k
  {
    if k > 0 {
      DecodeFailsAtFirstBadToken(tokens[1..], lexicon, k - 1);
    }
  }

  /** Decoding succeeds exactly when every token decodes on its own. */
  lemma {:induction false} DecodeSucceedsIffEveryToken(tokens: seq<string>, lexicon: seq<string>)
    ensures DecodeWords(tokens, lexicon).Success? <==>
      forall j :: 0 <= j < |tokens| ==> DecodeToken(tokens[j], lexicon).Success?
    decreases |tokens|
  {
    if |tokens| > 0 {
      DecodeSucceedsIffEveryToken(tokens[1..], lexicon);
      assert forall j :: 1 <= j < |tokens| ==> tokens[j] == tokens[1..][j - 1];
    }
  }

  /** Text with no numeric token decodes to itself. */
  lemma {:induction false} DecodePassesWordsThrough(tokens: seq<string>, lexicon: seq<string>)
    requires forall j :: 0 <= j < |tokens| ==> !IsNumeric(tokens[j])
    ensures DecodeWords(tokens, lexicon) == Success(tokens)
    decreases |tokens|
  {
    if |tokens| > 0 {
      DecodePassesWordsThrough(tokens[1..], lexicon);
      DecodeWord(tokens[0], lexicon);
      DecodeCons(tokens[0], tokens[1..], lexicon, [tokens[0]]);
      assert tokens == [tokens[0]] + tokens[1..];
    }
  }

  /** A token that is not numeric decodes to itself. */
  lemma DecodeWord(t: string, lexicon: seq<string>)
    requires !IsNumeric(t)
    ensures DecodeToken(t, lexicon) == Success([t])
  {
  }

  /** A code whose pair lies in the lexicon decodes to the two words, in order. */
  lemma DecodeCode(valor: string, lexicon: seq<string>, z: nat)
    requires ParseDecimal(valor) == Some(z)
    requires |lexicon| <= MaxInt64
    requires CantorPairInverse(z).0 < |lexicon| && CantorPairInverse(z).1 < |lexicon|
    ensures DecodeToken(valor, lexicon)
      == Success([lexicon[CantorPairInverse(z).0], lexicon[CantorPairInverse(z).1]])
  {
    var xy := CantorPairInverse(z);
    assert IsNumeric(valor);
    assert Wrap64(xy.0) == xy.0;
    assert Wrap64(xy.1) == xy.1;
  }

  /** A code whose halves fit in int64, one of them at or above the lexicon size, fails with the index error. */
  lemma DecodeCodeOutOfRange(valor: string, lexicon: seq<string>, z: nat)
    requires ParseDecimal(valor) == Some(z)
    requires CantorPairInverse(z).0 <= MaxInt64 && CantorPairInverse(z).1 <= MaxInt64
    requires CantorPairInverse(z).0 >= |lexicon| || CantorPairInverse(z).1 >= |lexicon|
    ensures DecodeToken(valor, lexicon) == Failure(IndexOutOfBounds)
  {
  }

  /**
   * A half of 2^64 or more is truncated before the bound test: when its low 64
   * bits are 0 it passes as index 0, and the token decodes to the wrong words
   * with no error.
   */
  lemma DecodeWrappedIndex(s: string, lexicon: seq<string>, x: nat, z: nat)
    requires |lexicon| >= 1 && Wrap64(x) == 0 && x >= |lexicon|
    requires z == Pair(x, 0) && s == FormatInt(z)
    ensures DecodeToken(s, lexicon) == Success([lexicon[0], lexicon[0]])
  {
    InversePair(x, 0);
    ParseFormat(z);
    assert ParseDecimal(s) == Some(z);
    assert IsNumeric(s);
    assert CantorPairInverse(z) == (x, 0);
  }

  /** A numeric token that is not a decimal integer, such as "1.5" or "inf", fails to convert. */
  lemma DecodeConversionFailure(valor: string, lexicon: seq<string>)
    requires IsNumeric(valor) && ParseDecimal(valor).None?
    ensures DecodeToken(valor, lexicon) == Failure(ConversionFailed(valor))
  {
  }

  /** A negative code reaches the square root of a negative number, which stops the program. */
  lemma DecodeNegativeCode(valor: string, lexicon: seq<string>, z: int)
    requires ParseDecimal(valor) == Some(z) && z < 0
    ensures DecodeToken(valor, lexicon) == Failure(NegativeSqrtPanic(valor))
  {
  }

  /**
   * Only the upper bound of the lexicon is checked: a half that truncates to a
   * negative int64 passes that test and the lookup at a negative index stops
   * the program.
   */
  lemma DecodeNegativeIndex(valor: string, lexicon: seq<string>, z: nat)
    requires ParseDecimal(valor) == Some(z)
    requires Wrap64(CantorPairInverse(z).0) < |lexicon| && Wrap64(CantorPairInverse(z).1) < |lexicon|
    requires Wrap64(CantorPairInverse(z).0) < 0 || Wrap64(CantorPairInverse(z).1) < 0
    ensures DecodeToken(valor, lexicon) == Failure(NegativeIndexPanic(valor))
  {
    assert IsNumeric(valor);
  }

  /** Tokens none of which is an int64 pass through the fold unchanged. */
  lemma {:induction false} FoldPassesWordsThrough(palavras: seq<string>, lexicon: seq<string>)
    requires forall j :: 0 <= j < |palavras| ==> ParseInt64(palavras[j]).None?
    ensures FoldTokens(palavras, lexicon) == palavras
    decreases |palavras|
  {
    if |palavras| > 0 {
      FoldPassesWordsThrough(palavras[1..], lexicon);
      assert palavras == [palavras[0]] + palavras[1..];
    }
  }

  /** Lexicons small enough that every fold of two positions fits in int64. */
  predicate SmallLexicon(lexicon: seq<string>)
  {
    4 * |lexicon| * |lexicon| <= MaxInt64
  }

  lemma LexiconFitsInt64(lexicon: seq<string>)
    requires SmallLexicon(lexicon)
    ensures |lexicon| <= MaxInt64
  {
    var n := |lexicon|;
    if n > 0 {
      MulMonotonic(1, 4 * n, n);
    }
  }

  lemma IndexFitsInt64(m: nat, lexicon: seq<string>)
    requires SmallLexicon(lexicon) && m < |lexicon|
    ensures m <= MaxInt64 && ParseInt64(FormatInt(m)) == Some(m)
  {
    MulMonotonic(1, |lexicon|, |lexicon|);
    ParseFormat(m);
  }

  /** Two lexicon positions fold without overflow, and the code unfolds back to them. */
  lemma IndicesFold(m0: nat, m1: nat, lexicon: seq<string>)
    requires SmallLexicon(lexicon) && m0 < |lexicon| && m1 < |lexicon|
    ensures CantorPair(m0, m1) == Pair(m0, m1)
    ensures ParseDecimal(FormatInt(Pair(m0, m1))) == Some(Pair(m0, m1))
    ensures CantorPairInverse(Pair(m0, m1)) == (m0, m1)
  {
    var n := |lexicon|;
    var s := m0 + m1;
    assert s + 1 <= 2 * n;
    SquareMonotonic(s + 1, 2 * n);
    assert s * (s + 1) <= (s + 1) * (s + 1);
    assert (2 * n) * (2 * n) == 4 * n * n;
    CantorPairAgrees(m0, m1);
    ParseFormat(Pair(m0, m1));
    InversePair(m0, m1);
  }

  /** Conditions under which a name survives encoding and decoding. */
  predicate RoundTripSafe(words: seq<string>, lexicon: seq<string>)
  {
    && SmallLexicon(lexicon)
    && (forall k :: 0 <= k < |lexicon| ==> !IsNumeric(lexicon[k]))
    && (forall j :: 0 <= j < |words| ==> FirstMatch(lexicon, words[j]).None? ==> !IsNumeric(words[j]))
  }

  /** How a safe word's resolved form reads back as an int64. */
  lemma ResolvedParse(word: string, lexicon: seq<string>)
    requires SmallLexicon(lexicon)
    requires FirstMatch(lexicon, word).None? ==> !IsNumeric(word)
    ensures FirstMatch(lexicon, word).Some? ==>
      ParseInt64(ResolveWord(word, lexicon)) == Some(FirstMatch(lexicon, word).value)
    ensures FirstMatch(lexicon, word).None? ==> ParseInt64(ResolveWord(word, lexicon)).None?
  {
    if FirstMatch(lexicon, word).Some? {
      IndexFitsInt64(FirstMatch(lexicon, word).value, lexicon);
    }
  }

  lemma CanonicalCons(words: seq<string>, lexicon: seq<string>)
    requires |words| >= 1
    ensures CanonicalWords(words, lexicon) == [CanonicalWord(words[0], lexicon)] + CanonicalWords(words[1..], lexicon)
  {
  }

  lemma ResolveEachTail(words: seq<string>, lexicon: seq<string>, k: nat)
    requires k <= |words|
    ensures ResolveEach(words, lexicon)[k..] == ResolveEach(words[k..], lexicon)
  {
  }

  lemma SafeTail(words: seq<string>, lexicon: seq<string>, k: nat)
    requires k <= |words| && RoundTripSafe(words, lexicon)
    ensures RoundTripSafe(words[k..], lexicon)
  {
    assert forall j :: 0 <= j < |words| - k ==> words[k..][j] == words[j + k];
  }

  /** Two lexicon words in a row are folded into the code of their positions. */
  lemma FoldMatchedPair(words: seq<string>, lexicon: seq<string>, m0: nat, m1: nat)
    requires SmallLexicon(lexicon) && |words| >= 2
    requires FirstMatch(lexicon, words[0]) == Some(m0) && FirstMatch(lexicon, words[1]) == Some(m1)
    ensures FoldTokens(ResolveEach(words, lexicon), lexicon)
      == [FormatInt(Pair(m0, m1))] + FoldTokens(ResolveEach(words[2..], lexicon), lexicon)
  {
    var resolved := ResolveEach(words, lexicon);
    ResolvedParse(words[0], lexicon);
    ResolvedParse(words[1], lexicon);
    IndicesFold(m0, m1, lexicon);
    ResolveEachTail(words, lexicon, 2);
    FoldPairAt(resolved, lexicon, 0);
    assert resolved[0..] == resolved;
  }

  /** A word not followed by a fold partner comes out of the fold as its canonical spelling. */
  lemma FoldLoneWord(words: seq<string>, lexicon: seq<string>)
    requires RoundTripSafe(words, lexicon) && |words| >= 1
    requires !(|words| >= 2 && FirstMatch(lexicon, words[0]).Some? && FirstMatch(lexicon, words[1]).Some?)
    ensures FoldTokens(ResolveEach(words, lexicon), lexicon)
      == [CanonicalWord(words[0], lexicon)] + FoldTokens(ResolveEach(words[1..], lexicon), lexicon)
  {
    var resolved := ResolveEach(words, lexicon);
    ResolvedParse(words[0], lexicon);
    if |words| >= 2 {
      ResolvedParse(words[1], lexicon);
    }
    ResolveEachTail(words, lexicon, 1);
    FoldLoneAt(resolved, lexicon, 0);
    assert resolved[0..] == resolved;
  }

  /** The code of two lexicon positions decodes to the two words. */
  lemma DecodeMatchedPair(lexicon: seq<string>, m0: nat, m1: nat)
    requires SmallLexicon(lexicon) && m0 < |lexicon| && m1 < |lexicon|
    ensures DecodeToken(FormatInt(Pair(m0, m1)), lexicon) == Success([lexicon[m0], lexicon[m1]])
  {
    var z := Pair(m0, m1);
    IndicesFold(m0, m1, lexicon);
    assert CantorPairInverse(z) == (m0, m1);
    LexiconFitsInt64(lexicon);
    assert ParseDecimal(FormatInt(z)) == Some(z);
    assert CantorPairInverse(z).0 < |lexicon| && CantorPairInverse(z).1 < |lexicon|;
    DecodeCode(FormatInt(z), lexicon, z);
  }

  /** Decoding a list that starts with a token that decodes. */
  lemma DecodeCons(t: string, rest: seq<string>, lexicon: seq<string>, w: seq<string>)
    requires DecodeToken(t, lexicon) == Success(w)
    ensures DecodeWords([t] + rest, lexicon) == Prepend(w, DecodeWords(rest, lexicon))
  {
    assert ([t] + rest)[1..] == rest;
  }

  /** The pair step of `FoldThenDecode`: two lexicon words become one code and come back. */
  lemma FoldThenDecodePair(words: seq<string>, lexicon: seq<string>, m0: nat, m1: nat)
    requires RoundTripSafe(words, lexicon) && |words| >= 2
    requires FirstMatch(lexicon, words[0]) == Some(m0) && FirstMatch(lexicon, words[1]) == Some(m1)
    requires DecodeWords(FoldTokens(ResolveEach(words[2..], lexicon), lexicon), lexicon)
      == Success(CanonicalWords(words[2..], lexicon))
    ensures DecodeWords(FoldTokens(ResolveEach(words, lexicon), lexicon), lexicon)
      == Success(CanonicalWords(words, lexicon))
  {
    FoldMatchedPair(words, lexicon, m0, m1);
    DecodeMatchedPair(lexicon, m0, m1);
    var code, rest := FormatInt(Pair(m0, m1)), FoldTokens(ResolveEach(words[2..], lexicon), lexicon);
    DecodeCons(code, rest, lexicon, [lexicon[m0], lexicon[m1]]);
    CanonicalPair(words, lexicon, m0, m1);
  }

  lemma CanonicalPair(words: seq<string>, lexicon: seq<string>, m0: nat, m1: nat)
    requires |words| >= 2
    requires FirstMatch(lexicon, words[0]) == Some(m0) && FirstMatch(lexicon, words[1]) == Some(m1)
    ensures CanonicalWords(words, lexicon) == [lexicon[m0], lexicon[m1]] + CanonicalWords(words[2..], lexicon)
  {
    CanonicalCons(words, lexicon);
    CanonicalCons(words[1..], lexicon);
    assert words[1..][1..] == words[2..];
    assert CanonicalWords(words, lexicon)
      == [lexicon[m0]] + ([lexicon[m1]] + CanonicalWords(words[2..], lexicon));
  }

  /** The single-word step of `FoldThenDecode`: a word left alone comes back in canonical spelling. */
  lemma FoldThenDecodeLone(words: seq<string>, lexicon: seq<string>)
    requires RoundTripSafe(words, lexicon) && |words| >= 1
    requires !(|words| >= 2 && FirstMatch(lexicon, words[0]).Some? && FirstMatch(lexicon, words[1]).Some?)
    requires DecodeWords(FoldTokens(ResolveEach(words[1..], lexicon), lexicon), lexicon)
      == Success(CanonicalWords(words[1..], lexicon))
    ensures DecodeWords(FoldTokens(ResolveEach(words, lexicon), lexicon), lexicon)
      == Success(CanonicalWords(words, lexicon))
  {
    FoldLoneWord(words, lexicon);
    var lone := CanonicalWord(words[0], lexicon);
    assert !IsNumeric(lone);
    DecodeCons(lone, FoldTokens(ResolveEach(words[1..], lexicon), lexicon), lexicon, [lone]);
    assert DecodeWords(FoldTokens(ResolveEach(words, lexicon), lexicon), lexicon)
      == Success([lone] + CanonicalWords(words[1..], lexicon));
    CanonicalCons(words, lexicon);
  }

  /** Folding the resolved words and decoding the result gives the canonical words. */
  lemma {:induction false} FoldThenDecode(words: seq<string>, lexicon: seq<string>)
    requires RoundTripSafe(words, lexicon)
    ensures DecodeWords(FoldTokens(ResolveEach(words, lexicon), lexicon), lexicon)
      == Success(CanonicalWords(words, lexicon))
    decreases |words|
  {
    if |words| == 0 {
      assert ResolveEach(words, lexicon) == [];
      assert FoldTokens([], lexicon) == [];
      assert DecodeWords([], lexicon) == Success([]);
      assert CanonicalWords(words, lexicon) == [];
    } else if |words| >= 2 && FirstMatch(lexicon, words[0]).Some? && FirstMatch(lexicon, words[1]).Some? {
      SafeTail(words, lexicon, 2);
      FoldThenDecode(words[2..], lexicon);
      FoldThenDecodePair(words, lexicon, FirstMatch(lexicon, words[0]).value, FirstMatch(lexicon, words[1]).value);
    } else {
      SafeTail(words, lexicon, 1);
      FoldThenDecode(words[1..], lexicon);
      FoldThenDecodeLone(words, lexicon);
    }
  }

  /**
   * Encoding then decoding a name gives its words, each spelt as in the
   * lexicon when it is there, joined by single spaces, provided each worker
   * gets one word, the lexicon is small and has no numeric word, and no word
   * outside the lexicon is numeric.
   */
  lemma EncodeDecodeRoundTrip(nomeCompleto: string, lexicon: seq<string>, numWorkers: nat)
    requires numWorkers >= 1 && |NameWords(nomeCompleto)| <= numWorkers
    requires RoundTripSafe(NameWords(nomeCompleto), lexicon)
    ensures DecodeWords(Encode(nomeCompleto, lexicon, numWorkers), lexicon)
      == Success(CanonicalWords(NameWords(nomeCompleto), lexicon))
    ensures Decode(Encode(nomeCompleto, lexicon, numWorkers), lexicon)
      == Success(Join(CanonicalWords(NameWords(nomeCompleto), lexicon), ' '))
  {
    var words := NameWords(nomeCompleto);
    ResolveOneWordPerChunk(words, lexicon, numWorkers);
    assert Resolve(words, lexicon, numWorkers) == ResolveEach(words, lexicon);
    FoldThenDecode(words, lexicon);
  }
}
