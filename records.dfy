/**
 * The stored record of the command-line tool. Encoding a CSV row keys the
 * record by the row's third field and stores
 * `encoded name|second field|date without dashes`; decoding splits the
 * stored text on `|`, splits its first field on spaces, decodes the tokens
 * and picks the second and third fields.
 */
module Records {
  import opened Wrappers
  import opened Text
  import opened Numbers
  import opened Cantor
  import opened Resolver
  import opened Pipeline
  import opened RoundTrip

  /** What the decoder shows for a stored record. */
  datatype Decantado = Decantado(valorEncontrado: string, nomeDecantado: string, sexo: string, nascimento: string)

  /**
   * Why building or reading a record stops the program: a decoding panic, or
   * a row or stored value with too few fields for the positions it reads.
   */
  datatype RecordFault = DecodePanicked(error: DecodeError) | MissingField(fields: nat)

  /** The birth date with every `-` removed. */
  function NormalizeDate(nasc: string): string
  {
    RemoveAll(nasc, '-')
  }

  /**
   * The stored value: the encoded tokens joined by spaces, the second field and
   * the date, joined by `|`. It splits on `|` into exactly those three fields
   * when none of the tokens, the second field and the date contains `|`.
   */
  function StoredValue(encoded: seq<string>, sexo: string, nasc: string): (r: string)
    ensures (forall k :: 0 <= k < |encoded| ==> '|' !in encoded[k]) && '|' !in sexo && '|' !in nasc ==>
      Split(r, '|') == [Join(encoded, ' '), sexo, NormalizeDate(nasc)]
  {
    StoredFieldsSplit(encoded, sexo, nasc);
    Join([Join(encoded, ' '), sexo, NormalizeDate(nasc)], '|')
  }

  /**
   * The key and stored value built from a row: the name is the first field,
   * the second field is stored as it is, the third is the key and the fourth
   * the date. A row with fewer than four fields is an index failure.
   */
  function Record(linha: seq<string>, lexicon: seq<string>, numWorkers: nat): (r: Result<(string, string), RecordFault>)
    requires numWorkers >= 1
    ensures r.Success? <==> |linha| >= 4
    ensures r.Failure? ==> r.error == MissingField(|linha|)
    ensures r.Success? ==> r.value.0 == linha[2]
  {
    if |linha| < 4 then Failure(MissingField(|linha|))
    else Success((linha[2], StoredValue(Encode(linha[0], lexicon, numWorkers), linha[1], linha[3])))
  }

  /** One row of the loading worker: encodes the name and builds the key and value to store. */
  method BuildRecord(linha: seq<string>, lexicon: seq<string>, numWorkers: nat)
    returns (r: Result<(string, string), RecordFault>)
    requires numWorkers >= 1
    ensures r == Record(linha, lexicon, numWorkers)
  {
    if |linha| < 4 {
      return Failure(MissingField(|linha|));
    }
    var resultado := Cantar(linha[1], linha[0], lexicon, numWorkers);
    var bucketName := linha[2];
    var nasc := RemoveAll(linha[3], '-');
    var valorConcatenado := Join([Join(resultado, ' '), linha[1], nasc], '|');
    r := Success((bucketName, valorConcatenado));
  }

  /**
   * Reading a stored value back. A panic while decoding the name stops
   * everything; other decoding errors are dropped and show an empty name;
   * a value with fewer than three `|` fields fails when the second and third
   * are read.
   */
  function DecantarRecord(val: string, lexicon: seq<string>): (r: Result<Decantado, RecordFault>)
    ensures r.Success? ==> r.value.valorEncontrado == val
    ensures r.Failure? <==> Panics(StoredTokens(val), lexicon) || |Split(val, '|')| < 3
  {
    var valSlice := Split(val, '|');
    var nomecantado := Split(valSlice[0], ' ');
    var decoded := Decode(nomecantado, lexicon);
    if decoded.Failure? && decoded.error.IsPanic() then Failure(DecodePanicked(decoded.error))
    else if |valSlice| < 3 then Failure(MissingField(|valSlice|))
    else
      var nome := if decoded.Success? then decoded.value else "";
      Success(Decantado(val, nome, valSlice[1], valSlice[2]))
  }

  /** The name tokens of a stored value: its first `|` field split on spaces. */
  function StoredTokens(val: string): seq<string>
  {
    Split(Split(val, '|')[0], ' ')
  }

  /** Decoding these tokens stops the program. */
  predicate Panics(tokens: seq<string>, lexicon: seq<string>)
  {
    Decode(tokens, lexicon).Failure? && Decode(tokens, lexicon).error.IsPanic()
  }

  /** The name shown for decoded tokens: the decoded text, or empty text after an error. */
  function ShownName(tokens: seq<string>, lexicon: seq<string>): string
  {
    match Decode(tokens, lexicon)
    case Success(nome) => nome
    case Failure(_) => ""
  }

  /** Text that survives both splits of a stored value intact. */
  predicate Plain(t: string)
  {
    ' ' !in t && '|' !in t
  }

  lemma FormatIntPlain(v: int)
    ensures Plain(FormatInt(v))
  {
    var s := FormatInt(v);
    assert forall k :: 0 <= k < |s| ==> s[k] != ' ' && s[k] != '|';
  }

  lemma NormalizeDateAvoids(nasc: string, c: char)
    requires c != '-' && c !in nasc
    ensures c !in NormalizeDate(nasc)
  {
    assert multiset(NormalizeDate(nasc))[c] == 0;
  }

  /** Dashes go, every other character stays, in order. */
  lemma NormalizeDateExample(nasc: string)
    requires nasc == "1990-05-17"
    ensures NormalizeDate(nasc) == "19900517"
  {
    var year, month, day := "1990", "05", "17";
    assert nasc == year + ['-'] + month + ['-'] + day;
    DashedDate(year, month, day);
  }

  /** A dashed date whose parts have no dash loses exactly its two dashes and keeps its parts in order. */
  lemma DashedDate(year: string, month: string, day: string)
    requires '-' !in year && '-' !in month && '-' !in day
    ensures NormalizeDate(year + ['-'] + month + ['-'] + day) == year + month + day
  {
    var dash := ['-'];
    var withYear := year + dash;
    var withMonth := withYear + month;
    var beforeDay := withMonth + dash;
    assert RemoveAll(dash, '-') == [];
    RemoveAllAbsent(year, '-');
    RemoveAllConcat(year, dash, '-');
    assert RemoveAll(withYear, '-') == year;
    RemoveAllAbsent(month, '-');
    RemoveAllConcat(withYear, month, '-');
    assert RemoveAll(withMonth, '-') == year + month;
    RemoveAllConcat(withMonth, dash, '-');
    assert RemoveAll(beforeDay, '-') == year + month;
    RemoveAllAbsent(day, '-');
    RemoveAllConcat(beforeDay, day, '-');
  }

  lemma StoredFieldsSplit(encoded: seq<string>, sexo: string, nasc: string)
    ensures (forall k :: 0 <= k < |encoded| ==> '|' !in encoded[k]) && '|' !in sexo && '|' !in nasc ==>
      Split(Join([Join(encoded, ' '), sexo, NormalizeDate(nasc)], '|'), '|') == [Join(encoded, ' '), sexo, NormalizeDate(nasc)]
  {
    if (forall k :: 0 <= k < |encoded| ==> '|' !in encoded[k]) && '|' !in sexo && '|' !in nasc {
      JoinAvoids(encoded, ' ', '|');
      NormalizeDateAvoids(nasc, '|');
      SplitThree(Join(encoded, ' '), sexo, NormalizeDate(nasc));
    }
  }

  lemma SplitThree(a: string, b: string, c: string)
    requires '|' !in a && '|' !in b && '|' !in c
    ensures Split(Join([a, b, c], '|'), '|') == [a, b, c]
  {
    var fields := [a, b, c];
    assert forall k :: 0 <= k < |fields| ==> '|' !in fields[k];
    SplitJoin(fields, '|');
  }

  /**
   * Reading back a stored value gives the stored text, the shown name of the
   * stored tokens, the second field and the normalised date, unless decoding
   * the tokens panics.
   */
  lemma DecantarStored(encoded: seq<string>, sexo: string, nasc: string, lexicon: seq<string>)
    requires forall k :: 0 <= k < |encoded| ==> Plain(encoded[k])
    requires '|' !in sexo && '|' !in nasc
    ensures Panics(encoded, lexicon) ==>
      DecantarRecord(StoredValue(encoded, sexo, nasc), lexicon) == Failure(DecodePanicked(Decode(encoded, lexicon).error))
    ensures !Panics(encoded, lexicon) ==>
      DecantarRecord(StoredValue(encoded, sexo, nasc), lexicon)
        == Success(Decantado(StoredValue(encoded, sexo, nasc), ShownName(encoded, lexicon), sexo, NormalizeDate(nasc)))
  {
    StoredFieldsSplit(encoded, sexo, nasc);
    if |encoded| == 0 {
      EmptyNameReadsBack(lexicon);
      assert StoredTokens(StoredValue(encoded, sexo, nasc)) == [""];
    } else {
      SplitJoin(encoded, ' ');
      assert StoredTokens(StoredValue(encoded, sexo, nasc)) == encoded;
    }
  }

  /**
   * An empty token list is stored as an empty first field, which reads back as
   * the single token "" and shows the same empty name.
   */
  lemma EmptyNameReadsBack(lexicon: seq<string>)
    ensures Split("", ' ') == [""]
    ensures Decode([""], lexicon) == Decode([], lexicon) == Success("")
  {
    NumericHasDigit("");
    DecodeWord("", lexicon);
    DecodeCons("", [], lexicon, [""]);
    assert [""] + [] == [""];
  }

  /** A decoding error that is not a panic is dropped: the record shows an empty name. */
  lemma DecodeErrorShowsEmptyName(val: string, lexicon: seq<string>)
    requires |Split(val, '|')| >= 3
    requires Decode(StoredTokens(val), lexicon).Failure? && !Panics(StoredTokens(val), lexicon)
    ensures DecantarRecord(val, lexicon) == Success(Decantado(val, "", Split(val, '|')[1], Split(val, '|')[2]))
  {
  }

  /** Every token of a resolved and folded name is plain when the name and the lexicon are. */
  lemma {:induction false} FoldTokensPlain(palavras: seq<string>, lexicon: seq<string>)
    requires forall k :: 0 <= k < |palavras| ==> Plain(palavras[k])
    requires forall k :: 0 <= k < |lexicon| ==> Plain(lexicon[k])
    ensures forall k :: 0 <= k < |FoldTokens(palavras, lexicon)| ==> Plain(FoldTokens(palavras, lexicon)[k])
    decreases |palavras|
  {
    if |palavras| >= 2 && ParseInt64(palavras[0]).Some? && ParseInt64(palavras[1]).Some? {
      FoldTokensPlain(palavras[2..], lexicon);
      FormatIntPlain(CantorPair(ParseInt64(palavras[0]).value, ParseInt64(palavras[1]).value));
    } else if |palavras| >= 1 {
      FoldTokensPlain(palavras[1..], lexicon);
    }
  }

  lemma ResolvePlain(words: seq<string>, lexicon: seq<string>, numWorkers: nat)
    requires numWorkers >= 1
    requires forall k :: 0 <= k < |words| ==> Plain(words[k])
    ensures forall k :: 0 <= k < |words| ==> Plain(Resolve(words, lexicon, numWorkers)[k])
  {
    forall k | 0 <= k < |words|
      ensures Plain(Resolve(words, lexicon, numWorkers)[k])
    {
      match FirstMatch(lexicon, words[k])
      case Some(m) => FormatIntPlain(m);
      case None =>
    }
  }

  /** A name free of `|` splits into plain words. */
  lemma NameWordsPlain(nomeCompleto: string)
    requires '|' !in nomeCompleto
    ensures forall k :: 0 <= k < |NameWords(nomeCompleto)| ==> Plain(NameWords(nomeCompleto)[k])
  {
    TrimSpaceAvoids(nomeCompleto, '|');
    SplitAvoids(TrimSpace(nomeCompleto), ' ', '|');
  }

  /**
   * A row loaded and then read back shows its name in canonical spelling,
   * its second field and its date without dashes, when the conditions of the
   * name round trip hold and no field and no lexicon word contains `|` or,
   * for lexicon words, a space.
   */
  lemma RecordRoundTrip(linha: seq<string>, lexicon: seq<string>, numWorkers: nat)
    requires |linha| >= 4 && numWorkers >= 1
    requires |NameWords(linha[0])| <= numWorkers && RoundTripSafe(NameWords(linha[0]), lexicon)
    requires '|' !in linha[0] && '|' !in linha[1] && '|' !in linha[3]
    requires forall k :: 0 <= k < |lexicon| ==> Plain(lexicon[k])
    ensures Record(linha, lexicon, numWorkers).Success?
    ensures DecantarRecord(Record(linha, lexicon, numWorkers).value.1, lexicon)
      == Success(Decantado(Record(linha, lexicon, numWorkers).value.1,
           Join(CanonicalWords(NameWords(linha[0]), lexicon), ' '), linha[1], NormalizeDate(linha[3])))
  {
    var words := NameWords(linha[0]);
    var encoded := Encode(linha[0], lexicon, numWorkers);
    EncodeDecodeRoundTrip(linha[0], lexicon, numWorkers);
    assert |encoded| >= 1;
    NameWordsPlain(linha[0]);
    ResolvePlain(words, lexicon, numWorkers);
    FoldTokensPlain(Resolve(words, lexicon, numWorkers), lexicon);
    DecantarStored(encoded, linha[1], linha[3], lexicon);
  }
}
