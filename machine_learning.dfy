/**
 * `MachineLearning.processText`: four keyword scans over the same text,
 * combined into one result record, which is then serialised.
 *
 * Number parsing (`Double(String)`) is the parameter `parse`, with Swift's
 * `Double` modelled as `real`; normalisation is the parameter `normalize`;
 * the JSON serialisation is the parameter `encode`, which gives `None` when
 * `JSONSerialization` throws or its bytes are not UTF-8.
 */
module MachineLearning {
  import opened Common
  import opened Tokens
  import opened KeywordScan

  const WeightKeywords: seq<string> := ["peso", "quilos", "quilograma", "kg"]
  const HeightMeterKeywords: seq<string> := ["metros", "m", "metros"]
  const HeightCmKeywords: seq<string> := ["centimetros", "cm"]
  const SymptomKeywords: seq<string> := ["sintomas", "sintoma"]

  /** The keywords of the three suffix scans; a first token among them traps. */
  const SuffixKeywords: seq<string> := WeightKeywords + HeightMeterKeywords + HeightCmKeywords

  /** The fixed reply for a bad request, also used when serialisation fails. */
  const ErrorPayload: string := "{\"error\":\"Incorrect parameter\"}"

  /** The dictionary `processText` serialises. `height` is never nil. */
  datatype Extraction = Extraction(weight: Option<real>, height: real, symptoms: Option<string>, fullText: string)

  /**
   * `(meters ?? 0 * 100) + (centimeters ?? 0)`. Since `??` binds looser
   * than `*`, this is `meters ?? (0 * 100)`: the metres are not scaled.
   */
  function Height(meters: Option<real>, centimeters: Option<real>): real {
    meters.GetOr(0.0 * 100.0) + centimeters.GetOr(0.0)
  }

  /** The record built by `processText`, or a trap from one of its scans. */
  function ExtractRecord(text: string, normalize: string -> string, parse: string -> Option<real>): Outcome<Extraction> {
    var weight := SuffixScan(WeightKeywords, text, normalize, parse);
    var meters := SuffixScan(HeightMeterKeywords, text, normalize, parse);
    var centimeters := SuffixScan(HeightCmKeywords, text, normalize, parse);
    var symptoms := PrefixScan(SymptomKeywords, text, normalize, AsText);
    if weight.Trapped? || meters.Trapped? || centimeters.Trapped? || symptoms.Trapped? then Trapped
    else Done(Extraction(weight.value, Height(meters.value, centimeters.value), symptoms.value, text))
  }

  /** `processText`: the serialised record, or the error payload when serialisation fails. */
  function ProcessText(text: string, normalize: string -> string, parse: string -> Option<real>,
                       encode: Extraction -> Option<string>): Outcome<string> {
    match ExtractRecord(text, normalize, parse)
    case Trapped => Trapped
    case Done(e) => Done(encode(e).GetOr(ErrorPayload))
  }

  // ---------------------------------------------------------------------
  // Properties
  // ---------------------------------------------------------------------

  /** `processText` traps exactly when the first word normalises to a weight or height keyword. */
  lemma ProcessTextTrapsIff(text: string, normalize: string -> string, parse: string -> Option<real>,
                            encode: Extraction -> Option<string>)
    ensures ProcessText(text, normalize, parse, encode) == Trapped <==> normalize(Split(text)[0]) in SuffixKeywords
  {
    SuffixTrapsIff(WeightKeywords, text, normalize, parse);
    SuffixTrapsIff(HeightMeterKeywords, text, normalize, parse);
    SuffixTrapsIff(HeightCmKeywords, text, normalize, parse);
    PrefixNeverTraps(SymptomKeywords, text, normalize, AsText);
  }

  /**
   * The fields of the record: the text unchanged, the weight and the two
   * height parts from the numeric suffix scans, the symptoms from the text
   * prefix scan, and a height that adds the metres and centimetres unscaled.
   */
  lemma RecordFields(text: string, normalize: string -> string, parse: string -> Option<real>, e: Extraction)
    requires ExtractRecord(text, normalize, parse) == Done(e)
    ensures e.fullText == text
    ensures SuffixScan(WeightKeywords, text, normalize, parse) == Done(e.weight)
    ensures PrefixScan(SymptomKeywords, text, normalize, AsText) == Done(e.symptoms)
    ensures exists m, c ::
      && SuffixScan(HeightMeterKeywords, text, normalize, parse) == Done(m)
      && SuffixScan(HeightCmKeywords, text, normalize, parse) == Done(c)
      && e.height == (if m.Some? then m.value else 0.0) + (if c.Some? then c.value else 0.0)
  {
  }

  /** The successful reply is the encoded record, or the error payload when encoding fails. */
  lemma ProcessTextReply(text: string, normalize: string -> string, parse: string -> Option<real>,
                         encode: Extraction -> Option<string>, e: Extraction)
    requires ExtractRecord(text, normalize, parse) == Done(e)
    ensures encode(e).Some? ==> ProcessText(text, normalize, parse, encode) == Done(encode(e).value)
    ensures encode(e).None? ==> ProcessText(text, normalize, parse, encode) == Done(ErrorPayload)
  {
  }

  /** Metres are never multiplied by 100: with metres m != 0 the height differs from m * 100 + c. */
  lemma HeightUnscaled(m: real, c: Option<real>)
    ensures Height(Some(m), c) == m + c.GetOr(0.0)
    ensures Height(None, c) == c.GetOr(0.0)
    ensures m != 0.0 ==> Height(Some(m), c) != m * 100.0 + c.GetOr(0.0)
  {
  }

  // ---------------------------------------------------------------------
  // Worked inputs (the parser and normaliser are pinned only where used)
  // ---------------------------------------------------------------------

  lemma SplitOneMSeventyCm()
    ensures Split("1 m 70 cm") == ["1", "m", "70", "cm"]
  {
    SplitJoin(["1", "m", "70", "cm"]);
    assert Join(["1", "m", "70", "cm"]) == "1 m 70 cm";
  }

  /** "1 m 70 cm" gives a height of 71, not 170. */
  lemma ExampleHeightIsSum(normalize: string -> string, parse: string -> Option<real>)
    requires normalize("1") == "1" && normalize("m") == "m" && normalize("70") == "70" && normalize("cm") == "cm"
    requires parse("1") == Some(1.0) && parse("70") == Some(70.0)
    ensures ExtractRecord("1 m 70 cm", normalize, parse) == Done(Extraction(None, 71.0, None, "1 m 70 cm"))
  {
    OneMSeventyCmWeight(normalize, parse);
    OneMSeventyCmMeters(normalize, parse);
    OneMSeventyCmCentimeters(normalize, parse);
    OneMSeventyCmSymptoms(normalize);
  }

  lemma OneMSeventyCmWeight(normalize: string -> string, parse: string -> Option<real>)
    requires normalize("1") == "1" && normalize("m") == "m" && normalize("70") == "70" && normalize("cm") == "cm"
    requires parse("1") == Some(1.0) && parse("70") == Some(70.0)
    ensures SuffixScan(WeightKeywords, "1 m 70 cm", normalize, parse) == Done(None)
  {
    var tokens := ["1", "m", "70", "cm"];
    SplitOneMSeventyCm();
    assert forall p :: 0 <= p < 4 ==> !IsKeywordAt(WeightKeywords, tokens, normalize, p);
    SuffixFromSkip(WeightKeywords, tokens, normalize, parse, 0, 4);
  }

  lemma OneMSeventyCmMeters(normalize: string -> string, parse: string -> Option<real>)
    requires normalize("1") == "1" && normalize("m") == "m" && normalize("70") == "70" && normalize("cm") == "cm"
    requires parse("1") == Some(1.0) && parse("70") == Some(70.0)
    ensures SuffixScan(HeightMeterKeywords, "1 m 70 cm", normalize, parse) == Done(Some(1.0))
  {
    var tokens := ["1", "m", "70", "cm"];
    SplitOneMSeventyCm();
    assert !IsKeywordAt(HeightMeterKeywords, tokens, normalize, 0);
    SuffixFromSkip(HeightMeterKeywords, tokens, normalize, parse, 0, 1);
    assert Backward(tokens, parse, 0) == Some(1.0);
  }

  lemma OneMSeventyCmCentimeters(normalize: string -> string, parse: string -> Option<real>)
    requires normalize("1") == "1" && normalize("m") == "m" && normalize("70") == "70" && normalize("cm") == "cm"
    requires parse("1") == Some(1.0) && parse("70") == Some(70.0)
    ensures SuffixScan(HeightCmKeywords, "1 m 70 cm", normalize, parse) == Done(Some(70.0))
  {
    var tokens := ["1", "m", "70", "cm"];
    SplitOneMSeventyCm();
    assert forall p :: 0 <= p < 3 ==> !IsKeywordAt(HeightCmKeywords, tokens, normalize, p);
    SuffixFromSkip(HeightCmKeywords, tokens, normalize, parse, 0, 3);
    assert Backward(tokens, parse, 2) == Some(70.0);
  }

  lemma OneMSeventyCmSymptoms(normalize: string -> string)
    requires normalize("1") == "1" && normalize("m") == "m" && normalize("70") == "70" && normalize("cm") == "cm"
    ensures PrefixScan(SymptomKeywords, "1 m 70 cm", normalize, AsText) == Done(None)
  {
    var tokens := ["1", "m", "70", "cm"];
    SplitOneMSeventyCm();
    assert forall p :: 0 <= p < 4 ==> !IsKeywordAt(SymptomKeywords, tokens, normalize, p);
    PrefixFromSkip(SymptomKeywords, tokens, normalize, AsText, 0, 4);
  }

  /** "10 20 kg": the nearest number before the keyword wins. */
  lemma ExampleNearestNumberWins(normalize: string -> string, parse: string -> Option<real>)
    requires normalize("10") == "10" && normalize("20") == "20" && normalize("kg") == "kg"
    requires parse("10") == Some(10.0) && parse("20") == Some(20.0)
    ensures SuffixScan(WeightKeywords, "10 20 kg", normalize, parse) == Done(Some(20.0))
  {
    SplitJoin(["10", "20", "kg"]);
    assert Join(["10", "20", "kg"]) == "10 20 kg";
    assert Backward(["10", "20", "kg"], parse, 1) == Some(20.0);
  }

  /** "kg 30": a keyword in first position traps instead of giving no weight. */
  lemma ExampleKeywordFirstTraps(normalize: string -> string, parse: string -> Option<real>,
                                 encode: Extraction -> Option<string>)
    requires normalize("kg") == "kg"
    ensures ProcessText("kg 30", normalize, parse, encode) == Trapped
  {
    SplitJoin(["kg", "30"]);
    assert Join(["kg", "30"]) == "kg 30";
    ProcessTextTrapsIff("kg 30", normalize, parse, encode);
    assert "kg" in SuffixKeywords;
  }

  /** "Sintomas Febre": the keyword matches after normalising, the value is the raw next token. */
  lemma ExampleRawSymptom(normalize: string -> string)
    requires normalize("Sintomas") == "sintomas"
    ensures PrefixScan(SymptomKeywords, "Sintomas Febre", normalize, AsText) == Done(Some("Febre"))
  {
    SplitJoin(["Sintomas", "Febre"]);
    assert Join(["Sintomas", "Febre"]) == "Sintomas Febre";
    PrefixTextFirstKeyword(SymptomKeywords, "Sintomas Febre", normalize, 0);
  }
}
