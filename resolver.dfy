/**
 * `SubstituirNomesPorIndices`: each word of a name is replaced by the decimal
 * index of its first case-insensitive match in the lexicon, or kept when it has
 * none. The words are split into contiguous chunks, one per worker; a worker
 * stops at the first word of its chunk that has a match, so the later
 * positions of that chunk keep the empty string the result slice starts with.
 * The chunks are disjoint, so the result does not depend on the order in which
 * workers finish, and the workers are run here one after another.
 */
module Resolver {
  import opened Wrappers
  import opened Text
  import opened Numbers

  /** The smallest lexicon position whose word equals `word` up to case. */
  function FirstMatch(lexicon: seq<string>, word: string): (r: Option<nat>)
    ensures r.Some? ==> r.value < |lexicon| && EqualFold(lexicon[r.value], word)
    ensures r.Some? ==> forall j :: 0 <= j < r.value ==> !EqualFold(lexicon[j], word)
    ensures r.None? ==> forall j :: 0 <= j < |lexicon| ==> !EqualFold(lexicon[j], word)
    decreases |lexicon|
  {
    if |lexicon| == 0 then None
    else if EqualFold(lexicon[0], word) then Some(0)
    else match FirstMatch(lexicon[1..], word)
      case Some(k) => Some(k + 1)
      case None => None
  }

  /** What a worker reports for a word it reaches: its index, or the word itself on a miss. */
  function ResolveWord(word: string, lexicon: seq<string>): string
  {
    match FirstMatch(lexicon, word)
    case Some(k) => FormatInt(k)
    case None => word
  }

  /**
   * `(len(palavras) + numWorkers - 1) / numWorkers`: the smallest chunk size
   * for which `numWorkers` chunks cover all words, that is n/numWorkers rounded up.
   */
  function ChunkSize(n: nat, numWorkers: nat): (c: nat)
    requires numWorkers >= 1
    ensures n > 0 ==> c >= 1
    ensures n <= c * numWorkers
    ensures n > 0 ==> (c - 1) * numWorkers < n
    ensures n == 0 ==> c == 0
  {
    (n + numWorkers - 1) / numWorkers
  }

  /** Some word in positions [lo, i) has a lexicon match. */
  predicate HitBefore(words: seq<string>, lexicon: seq<string>, lo: nat, i: nat)
    requires i <= |words|
  {
    exists j :: lo <= j < i && FirstMatch(lexicon, words[j]).Some?
  }

  /**
   * The value at position i: the chunk holding i starts at (i / c) * c; if an
   * earlier word of that chunk matched, the worker had already stopped and the
   * position is still empty.
   */
  function ResolvedAt(words: seq<string>, lexicon: seq<string>, numWorkers: nat, i: nat): string
    requires numWorkers >= 1 && i < |words|
  {
    var c := ChunkSize(|words|, numWorkers);
    if HitBefore(words, lexicon, (i / c) * c, i) then "" else ResolveWord(words[i], lexicon)
  }

  /** The whole resolved list, position by position. */
  function Resolve(words: seq<string>, lexicon: seq<string>, numWorkers: nat): (r: seq<string>)
    requires numWorkers >= 1
  {
    seq(|words|, i requires 0 <= i < |words| => ResolvedAt(words, lexicon, numWorkers, i))
  }

  lemma MulMonotonic(a: nat, b: nat, c: nat)
    requires a <= b
    ensures a * c <= b * c
  {
    assert b * c - a * c == (b - a) * c;
  }

  /** A position in [q*c, q*c + c) belongs to chunk q. */
  lemma ChunkOf(j: nat, c: nat, q: nat)
    requires c >= 1 && q * c <= j < q * c + c
    ensures j / c == q
  {
    var q' := j / c;
    assert j == q' * c + j % c;
    assert (q' + 1) * c == q' * c + c;
    assert (q + 1) * c == q * c + c;
    if q' < q {
      MulMonotonic(q' + 1, q, c);
    } else if q' > q {
      MulMonotonic(q + 1, q', c);
    }
  }

  /** The linear scan of the lexicon done for one word. */
  method FindInLexicon(lexicon: seq<string>, palavra: string) returns (indice: int)
    ensures -1 <= indice < |lexicon|
    ensures indice >= 0 ==> EqualFold(lexicon[indice], palavra)
    ensures indice >= 0 ==> forall j :: 0 <= j < indice ==> !EqualFold(lexicon[j], palavra)
    ensures indice == -1 ==> forall j :: 0 <= j < |lexicon| ==> !EqualFold(lexicon[j], palavra)
  {
    var k := 0;
    while k < |lexicon|
      invariant 0 <= k <= |lexicon|
      invariant forall j :: 0 <= j < k ==> !EqualFold(lexicon[j], palavra)
    {
      if EqualFold(lexicon[k], palavra) {
        return k;
      }
      k := k + 1;
    }
    return -1;
  }

  /**
   * One worker: resolves words start, start+1, ... of its chunk and returns at
   * the first one found in the lexicon.
   */
  method Worker(resultados: array<string>, palavras: seq<string>, lexicon: seq<string>, start: nat, end: nat)
    requires start <= end <= |palavras| == resultados.Length
    modifies resultados
    ensures forall j :: 0 <= j < resultados.Length && !(start <= j < end) ==> resultados[j] == old(resultados[j])
    ensures forall j :: start <= j < end ==>
      resultados[j] == if HitBefore(palavras, lexicon, start, j) then old(resultados[j]) else ResolveWord(palavras[j], lexicon)
  {
    var i := start;
    while i < end
      invariant start <= i <= end
      invariant forall j :: start <= j < i ==> FirstMatch(lexicon, palavras[j]).None?
      invariant forall j :: start <= j < i ==> resultados[j] == palavras[j]
      invariant forall j :: 0 <= j < resultados.Length && !(start <= j < i) ==> resultados[j] == old(resultados[j])
    {
      var indice := FindInLexicon(lexicon, palavras[i]);
      if indice >= 0 {
        assert FirstMatch(lexicon, palavras[i]) == Some(indice);
        resultados[i] := FormatInt(indice);
        assert !HitBefore(palavras, lexicon, start, i);
        assert forall j :: i < j < end ==> HitBefore(palavras, lexicon, start, j);
        return;
      }
      assert FirstMatch(lexicon, palavras[i]).None?;
      resultados[i] := palavras[i];
      i := i + 1;
    }
  }

  /**
   * `SubstituirNomesPorIndices` with `numWorkers` standing for
   * `runtime.NumCPU()`: one result per word, at the word's own position.
   */
  method SubstituirNomesPorIndices(palavras: seq<string>, lexicon: seq<string>, numWorkers: nat)
    returns (r: seq<string>)
    requires numWorkers >= 1
    ensures |r| == |palavras|
    ensures forall i :: 0 <= i < |palavras| ==> r[i] == ResolvedAt(palavras, lexicon, numWorkers, i)
  {
    var n := |palavras|;
    var resultados := new string[n](_ => "");
    var chunkSize := ChunkSize(n, numWorkers);
    var start := 0;
    ghost var q := 0;
    while start < n
      invariant start == q * chunkSize
      invariant forall j :: 0 <= j < n && j < start ==> resultados[j] == ResolvedAt(palavras, lexicon, numWorkers, j)
      invariant forall j :: start <= j < n ==> resultados[j] == ""
      decreases n - start
    {
      var end := start + chunkSize;
      if end > n {
        end := n;
      }
      Worker(resultados, palavras, lexicon, start, end);
      forall j | start <= j < end
        ensures resultados[j] == ResolvedAt(palavras, lexicon, numWorkers, j)
      {
        ChunkOf(j, chunkSize, q);
      }
      start := start + chunkSize;
      q := q + 1;
    }
    r := resultados[..];
  }

  /** With one word per chunk (at least as many workers as words) every word is resolved on its own. */
  lemma {:induction false} ResolveOneWordPerChunk(words: seq<string>, lexicon: seq<string>, numWorkers: nat)
    requires numWorkers >= 1 && |words| <= numWorkers
    ensures forall i :: 0 <= i < |words| ==> Resolve(words, lexicon, numWorkers)[i] == ResolveWord(words[i], lexicon)
  {
    var n := |words|;
    if n > 0 {
      var c := ChunkSize(n, numWorkers);
      ChunkOf(n + numWorkers - 1, numWorkers, 1);
      assert c == 1;
      forall i | 0 <= i < n
        ensures Resolve(words, lexicon, numWorkers)[i] == ResolveWord(words[i], lexicon)
      {
        assert (i / c) * c == i;
        assert !HitBefore(words, lexicon, i, i);
      }
    }
  }
  /** Lookup ignores case: "JOSE" is found at position 1 of ["Bia", "Jose"]. */
  lemma CaseInsensitiveExample()
    ensures ResolveWord("JOSE", ["Bia", "Jose"]) == "1"
  {
    var lexicon := ["Bia", "Jose"];
    assert Lower(lexicon[0][0]) != Lower("JOSE"[0]);
    assert EqualFold(lexicon[1], "JOSE");
    assert FirstMatch(lexicon, "JOSE") == Some(1);
    assert FormatInt(1) == "1";
  }

  lemma ExampleLookups(words: seq<string>)
    requires words == ["Ana", "Bia", "Eva"]
    ensures FirstMatch(words, "Ana") == Some(0) && FirstMatch(words, "Eva") == Some(2)
    ensures ResolveWord("Ana", words) == "0" && ResolveWord("Eva", words) == "2"
  {
    assert Lower(words[0][0]) != Lower("Eva"[0]);
    assert Lower(words[1][0]) != Lower("Eva"[0]);
    assert FirstMatch(words[1..][1..], "Eva") == Some(0);
    assert FirstMatch(words[1..], "Eva") == Some(1);
    assert FormatInt(0) == "0";
    assert FormatInt(2) == "2";
  }

  /**
   * A worker stops at its first hit: with two workers, chunks of two words,
   * the second word of the first chunk is left empty although it is in the lexicon.
   */
  lemma FirstHitStopsWorkerExample()
    ensures Resolve(["Ana", "Bia", "Eva"], ["Ana", "Bia", "Eva"], 2) == ["0", "", "2"]
  {
    var words := ["Ana", "Bia", "Eva"];
    ExampleLookups(words);
    assert ChunkSize(3, 2) == 2;
    assert HitBefore(words, words, 0, 1);
    assert ResolvedAt(words, words, 2, 0) == "0";
    assert ResolvedAt(words, words, 2, 1) == "";
    assert ResolvedAt(words, words, 2, 2) == "2";
  }
}
