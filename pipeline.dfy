/**
 * The token pipeline of `cantenomes.go`: `ProcessarPalavras` folds adjacent
 * integer tokens with `CantorPair`, `Decantar` unfolds numeric tokens back
 * into pairs of lexicon words, and `Cantar` chains trimming, splitting, the
 * resolver and the fold. The lexicon is the list of the first fields of the
 * lexicon file's rows.
 */
module Pipeline {
  import opened Wrappers
  import opened Text
  import opened Numbers
  import opened Cantor
  import opened Resolver

  /**
   * The fold pass, read from the left: two adjacent int64 tokens become one
   * code; a lone int64 that is a lexicon position becomes that word, any other
   * lone int64 disappears; every other token passes through.
   */
  function FoldTokens(palavras: seq<string>, lexicon: seq<string>): (r: seq<string>)
    ensures |r| <= |palavras|
    decreases |palavras|
  {
    if |palavras| == 0 then []
    else if |palavras| >= 2 && ParseInt64(palavras[0]).Some? && ParseInt64(palavras[1]).Some? then
      [FormatInt(CantorPair(ParseInt64(palavras[0]).value, ParseInt64(palavras[1]).value))]
        + FoldTokens(palavras[2..], lexicon)
    else
      match ParseInt64(palavras[0])
      case Some(v) =>
        (if 0 <= v < |lexicon| then [lexicon[v]] else []) + FoldTokens(palavras[1..], lexicon)
      case None =>
        [palavras[0]] + FoldTokens(palavras[1..], lexicon)
  }

  /** What a token handled on its own contributes to the fold. */
  function LoneToken(palavra: string, lexicon: seq<string>): seq<string>
  {
    match ParseInt64(palavra)
    case Some(v) => if 0 <= v < |lexicon| then [lexicon[v]] else []
    case None => [palavra]
  }

  /** One step of the fold at position i: a pair of int64 tokens. */
  lemma FoldPairAt(palavras: seq<string>, lexicon: seq<string>, i: nat)
    requires i + 1 < |palavras|
    requires ParseInt64(palavras[i]).Some? && ParseInt64(palavras[i + 1]).Some?
    ensures FoldTokens(palavras[i..], lexicon)
      == [FormatInt(CantorPair(ParseInt64(palavras[i]).value, ParseInt64(palavras[i + 1]).value))]
         + FoldTokens(palavras[i + 2..], lexicon)
  {
    assert palavras[i..][2..] == palavras[i + 2..];
  }

  /** One step of the fold at position i: a token handled alone. */
  lemma FoldLoneAt(palavras: seq<string>, lexicon: seq<string>, i: nat)
    requires i < |palavras|
    requires !(i + 1 < |palavras| && ParseInt64(palavras[i]).Some? && ParseInt64(palavras[i + 1]).Some?)
    ensures FoldTokens(palavras[i..], lexicon) == LoneToken(palavras[i], lexicon) + FoldTokens(palavras[i + 1..], lexicon)
  {
    assert palavras[i..][1..] == palavras[i + 1..];
  }

  /** The loop invariant of `ProcessarPalavras` survives appending what the fold emits for positions i to j. */
  lemma FoldAdvance(palavras: seq<string>, lexicon: seq<string>, i: nat, j: nat, before: seq<string>, emitted: seq<string>)
    requires i <= j <= |palavras|
    requires before + FoldTokens(palavras[i..], lexicon) == FoldTokens(palavras, lexicon)
    requires FoldTokens(palavras[i..], lexicon) == emitted + FoldTokens(palavras[j..], lexicon)
    ensures (before + emitted) + FoldTokens(palavras[j..], lexicon) == FoldTokens(palavras, lexicon)
  {
    assert (before + emitted) + FoldTokens(palavras[j..], lexicon)
      == before + (emitted + FoldTokens(palavras[j..], lexicon));
  }

  /** `ProcessarPalavras`: the left-to-right loop that builds `resultadoFinal`. */
  method ProcessarPalavras(palavras: seq<string>, lexicon: seq<string>) returns (resultadoFinal: seq<string>)
    ensures resultadoFinal == FoldTokens(palavras, lexicon)
  {
    resultadoFinal := [];
    var i := 0;
    assert palavras[i..] == palavras;
    while i < |palavras|
      invariant 0 <= i <= |palavras|
      invariant resultadoFinal + FoldTokens(palavras[i..], lexicon) == FoldTokens(palavras, lexicon)
      decreases |palavras| - i
    {
      ghost var before := resultadoFinal;
      if i + 1 < |palavras| {
        var indice1 := ParseInt64(palavras[i]);
        if indice1.Some? {
          var indice2 := ParseInt64(palavras[i + 1]);
          if indice2.Some? {
            var cantorZ := CantorPair(indice1.value, indice2.value);
            FoldPairAt(palavras, lexicon, i);
            FoldAdvance(palavras, lexicon, i, i + 2, before, [FormatInt(cantorZ)]);
            resultadoFinal := resultadoFinal + [FormatInt(cantorZ)];
            i := i + 2;
            continue;
          }
        }
      }
      FoldLoneAt(palavras, lexicon, i);
      FoldAdvance(palavras, lexicon, i, i + 1, before, LoneToken(palavras[i], lexicon));
      var indice := ParseInt64(palavras[i]);
      if indice.Some? {
        if 0 <= indice.value < |lexicon| {
          resultadoFinal := resultadoFinal + [lexicon[indice.value]];
        }
      } else {
        resultadoFinal := resultadoFinal + [palavras[i]];
      }
      assert resultadoFinal == before + LoneToken(palavras[i], lexicon);
      i := i + 1;
    }
    assert palavras[i..] == [];
  }

  /**
   * Why `Decantar` gives up. The last two stand for Go run-time panics
   * (`big.Int.Sqrt` of a negative number, and indexing the lexicon with a
   * negative int64 after `Int64()` truncation), which end the process
   * instead of returning an error.
   */
  datatype DecodeError =
    | ConversionFailed(token: string)
    | IndexOutOfBounds
    | NegativeSqrtPanic(token: string)
    | NegativeIndexPanic(token: string)
  {
    predicate IsPanic()
    {
      NegativeSqrtPanic? || NegativeIndexPanic?
    }
  }

  /** What one encoded token contributes to the decoded name. */
  function DecodeToken(valor: string, lexicon: seq<string>): (r: Result<seq<string>, DecodeError>)
    ensures r.Success? ==> 1 <= |r.value| <= 2
  {
    if !IsNumeric(valor) then Success([valor])
    else match ParseDecimal(valor)
      case None => Failure(ConversionFailed(valor))
      case Some(z) =>
        if z < 0 then Failure(NegativeSqrtPanic(valor))
        else
          var xy := CantorPairInverse(z);
          var indiceX, indiceY := Wrap64(xy.0), Wrap64(xy.1);
          if indiceX < |lexicon| && indiceY < |lexicon| then
            if indiceX < 0 || indiceY < 0 then Failure(NegativeIndexPanic(valor))
            else Success([lexicon[indiceX], lexicon[indiceY]])
          else Failure(IndexOutOfBounds)
  }

  /** The decoded words of a token list, or the failure of its first failing token. */
  function DecodeWords(tokens: seq<string>, lexicon: seq<string>): (r: Result<seq<string>, DecodeError>)
    ensures r.Success? ==> |tokens| <= |r.value| <= 2 * |tokens|
    decreases |tokens|
  {
    if |tokens| == 0 then Success([])
    else match DecodeToken(tokens[0], lexicon)
      case Failure(e) => Failure(e)
      case Success(w) =>
        match DecodeWords(tokens[1..], lexicon)
        case Failure(e) => Failure(e)
        case Success(rest) => Success(w + rest)
  }

  /** `Decantar`'s result: the decoded words joined by single spaces. */
  function Decode(tokens: seq<string>, lexicon: seq<string>): Result<string, DecodeError>
  {
    match DecodeWords(tokens, lexicon)
    case Success(ws) => Success(Join(ws, ' '))
    case Failure(e) => Failure(e)
  }

  /** `prefix` followed by the outcome of decoding the rest. */
  function Prepend(prefix: seq<string>, r: Result<seq<string>, DecodeError>): Result<seq<string>, DecodeError>
  {
    match r
    case Success(ws) => Success(prefix + ws)
    case Failure(e) => Failure(e)
  }

  /** Decoding the suffix from position i: first token i, then the rest. */
  lemma DecodeAt(tokens: seq<string>, lexicon: seq<string>, i: nat)
    requires i < |tokens|
    ensures DecodeWords(tokens[i..], lexicon) ==
      match DecodeToken(tokens[i], lexicon)
      case Failure(e) => Failure(e)
      case Success(w) => Prepend(w, DecodeWords(tokens[i + 1..], lexicon))
  {
    assert tokens[i..][1..] == tokens[i + 1..];
  }

  lemma PrependTwice(a: seq<string>, b: seq<string>, r: Result<seq<string>, DecodeError>)
    ensures Prepend(a, Prepend(b, r)) == Prepend(a + b, r)
  {
    if r.Success? {
      assert a + (b + r.value) == (a + b) + r.value;
    }
  }

  lemma PrependNothing(r: Result<seq<string>, DecodeError>)
    ensures Prepend([], r) == r
  {
    if r.Success? {
      assert [] + r.value == r.value;
    }
  }

  /** The loop invariant of `Decantar` survives appending a decoded token. */
  lemma DecodeStep(tokens: seq<string>, lexicon: seq<string>, i: nat, palavras: seq<string>, w: seq<string>)
    requires i < |tokens|
    requires DecodeWords(tokens, lexicon) == Prepend(palavras, DecodeWords(tokens[i..], lexicon))
    requires DecodeToken(tokens[i], lexicon) == Success(w)
    ensures DecodeWords(tokens, lexicon) == Prepend(palavras + w, DecodeWords(tokens[i + 1..], lexicon))
  {
    DecodeAt(tokens, lexicon, i);
    PrependTwice(palavras, w, DecodeWords(tokens[i + 1..], lexicon));
  }

  /** Under the loop invariant of `Decantar`, a failing token is the outcome of the whole decode. */
  lemma DecodeStopsAt(tokens: seq<string>, lexicon: seq<string>, i: nat, palavras: seq<string>, e: DecodeError)
    requires i < |tokens|
    requires DecodeWords(tokens, lexicon) == Prepend(palavras, DecodeWords(tokens[i..], lexicon))
    requires DecodeToken(tokens[i], lexicon) == Failure(e)
    ensures Decode(tokens, lexicon) == Failure(e)
  {
    DecodeAt(tokens, lexicon, i);
  }

  /** `Decantar`: the loop that appends to `palavras` and returns at the first bad token. */
  method Decantar(nomeModificado: seq<string>, lexicon: seq<string>) returns (r: Result<string, DecodeError>)
    ensures r == Decode(nomeModificado, lexicon)
  {
    var palavras: seq<string> := [];
    var i := 0;
    assert nomeModificado[i..] == nomeModificado;
    PrependNothing(DecodeWords(nomeModificado, lexicon));
    while i < |nomeModificado|
      invariant 0 <= i <= |nomeModificado|
      invariant DecodeWords(nomeModificado, lexicon) == Prepend(palavras, DecodeWords(nomeModificado[i..], lexicon))
      decreases |nomeModificado| - i
    {
      var valor := nomeModificado[i];
      var contribution: seq<string>;
      if IsNumeric(valor) {
        var z := ParseDecimal(valor);
        if z.None? {
          DecodeStopsAt(nomeModificado, lexicon, i, palavras, ConversionFailed(valor));
          return Failure(ConversionFailed(valor));
        }
        if z.value < 0 {
          DecodeStopsAt(nomeModificado, lexicon, i, palavras, NegativeSqrtPanic(valor));
          return Failure(NegativeSqrtPanic(valor));
        }
        var xy := CantorPairInverse(z.value);
        var indiceX, indiceY := Wrap64(xy.0), Wrap64(xy.1);
        if indiceX < |lexicon| && indiceY < |lexicon| {
          if indiceX < 0 || indiceY < 0 {
            DecodeStopsAt(nomeModificado, lexicon, i, palavras, NegativeIndexPanic(valor));
            return Failure(NegativeIndexPanic(valor));
          }
          contribution := [lexicon[indiceX], lexicon[indiceY]];
        } else {
          DecodeStopsAt(nomeModificado, lexicon, i, palavras, IndexOutOfBounds);
          return Failure(IndexOutOfBounds);
        }
      } else {
        contribution := [valor];
      }
      DecodeStep(nomeModificado, lexicon, i, palavras, contribution);
      palavras := palavras + contribution;
      i := i + 1;
    }
    assert nomeModificado[i..] == [];
    assert palavras + [] == palavras;
    r := Success(Join(palavras, ' '));
  }

  /**
   * The words `Cantar` takes from a full name: the pieces of the trimmed name
   * between single spaces, which join back to the trimmed name.
   */
  function NameWords(nomeCompleto: string): (words: seq<string>)
    ensures |words| >= 1
    ensures forall k :: 0 <= k < |words| ==> ' ' !in words[k]
    ensures Join(words, ' ') == TrimSpace(nomeCompleto)
  {
    JoinSplit(TrimSpace(nomeCompleto), ' ');
    Split(TrimSpace(nomeCompleto), ' ')
  }

  /** `Cantar`'s result for a full name. */
  function Encode(nomeCompleto: string, lexicon: seq<string>, numWorkers: nat): seq<string>
    requires numWorkers >= 1
  {
    FoldTokens(Resolve(NameWords(nomeCompleto), lexicon, numWorkers), lexicon)
  }

  /** `Cantar`: trim, split on single spaces, resolve, fold. `cpf` is not used by the Go code either. */
  method Cantar(cpf: string, nomeCompleto: string, lexicon: seq<string>, numWorkers: nat) returns (r: seq<string>)
    requires numWorkers >= 1
    ensures r == Encode(nomeCompleto, lexicon, numWorkers)
  {
    var palavras := Split(TrimSpace(nomeCompleto), ' ');
    var palavrasComIndices := SubstituirNomesPorIndices(palavras, lexicon, numWorkers);
    assert palavrasComIndices == Resolve(palavras, lexicon, numWorkers);
    r := ProcessarPalavras(palavrasComIndices, lexicon);
  }
}
