/**
 * The two keyword-proximity scans of `MachineLearning`
 * (`getValueFromSufix`, `getValueFromPrefix`).
 *
 * Swift's generic `T?` result with its run-time `T.self is Double.Type` /
 * `T.self is String.Type` test is modelled by a converter passed in by the
 * caller: in numeric mode it is the number parser (`Double(String)`), in
 * text mode it is `AsText`, which accepts every token. A type that is
 * neither would be a converter that accepts nothing.
 *
 * Token normalisation (diacritic folding, then lowercasing, both locale
 * dependent) is a parameter `normalize` as well.
 */
module KeywordScan {
  import opened Common
  import opened Tokens

  /** Text mode: every token is a value, returned exactly as written. */
  function AsText(token: string): Option<string> {
    Some(token)
  }

  // ---------------------------------------------------------------------
  // Specification functions
  // ---------------------------------------------------------------------

  /** The first value among tokens[j], tokens[j-1], ..., tokens[0]. */
  function Backward<T>(tokens: seq<string>, convert: string -> Option<T>, j: int): Option<T>
    requires j < |tokens|
    decreases j + 1
  {
    if j < 0 then None
    else if convert(tokens[j]).Some? then convert(tokens[j])
    else Backward(tokens, convert, j - 1)
  }

  /** The first value among tokens[j], tokens[j+1], ..., tokens[|tokens|-1]. */
  function Forward<T>(tokens: seq<string>, convert: string -> Option<T>, j: nat): Option<T>
    requires j <= |tokens|
    decreases |tokens| - j
  {
    if j == |tokens| then None
    else if convert(tokens[j]).Some? then convert(tokens[j])
    else Forward(tokens, convert, j + 1)
  }

  /**
   * The outer loop of the suffix scan from keyword index i on. A keyword
   * at index 0 traps, because the loop then builds the closed range
   * `0 ... -1`; an occurrence with no value before it lets the loop go on.
   */
  function SuffixFrom<T>(keywords: seq<string>, tokens: seq<string>, normalize: string -> string,
                         convert: string -> Option<T>, i: nat): Outcome<Option<T>>
    requires i <= |tokens|
    decreases |tokens| - i
  {
    if i == |tokens| then Done(None)
    else if normalize(tokens[i]) in keywords then
      if i == 0 then Trapped
      else if Backward(tokens, convert, i - 1).Some? then Done(Backward(tokens, convert, i - 1))
      else SuffixFrom(keywords, tokens, normalize, convert, i + 1)
    else SuffixFrom(keywords, tokens, normalize, convert, i + 1)
  }

  /** The outer loop of the prefix scan from keyword index i on. */
  function PrefixFrom<T>(keywords: seq<string>, tokens: seq<string>, normalize: string -> string,
                         convert: string -> Option<T>, i: nat): Outcome<Option<T>>
    requires i <= |tokens|
    decreases |tokens| - i
  {
    if i == |tokens| then Done(None)
    else if normalize(tokens[i]) in keywords && Forward(tokens, convert, i + 1).Some? then
      Done(Forward(tokens, convert, i + 1))
    else PrefixFrom(keywords, tokens, normalize, convert, i + 1)
  }

  /** What `getValueFromSufix` computes for `text`. */
  function SuffixScan<T>(keywords: seq<string>, text: string, normalize: string -> string,
                         convert: string -> Option<T>): Outcome<Option<T>>
  {
    SuffixFrom(keywords, Split(text), normalize, convert, 0)
  }

  /** What `getValueFromPrefix` computes for `text`. */
  function PrefixScan<T>(keywords: seq<string>, text: string, normalize: string -> string,
                         convert: string -> Option<T>): Outcome<Option<T>>
  {
    PrefixFrom(keywords, Split(text), normalize, convert, 0)
  }

  // ---------------------------------------------------------------------
  // The scans as the source writes them: nested loops with early returns
  // ---------------------------------------------------------------------

  method GetValueFromSuffix<T>(suffixes: seq<string>, text: string, normalize: string -> string,
                               convert: string -> Option<T>) returns (r: Outcome<Option<T>>)
    ensures r == SuffixScan(suffixes, text, normalize, convert)
  {
    var words := Split(text);
    for i := 0 to |words|
      invariant SuffixFrom(suffixes, words, normalize, convert, i) == SuffixScan(suffixes, text, normalize, convert)
    {
      var clearWord := normalize(words[i]);
      if clearWord in suffixes {
        var index := i - 1;
        if index < 0 {
          // `(0 ... index)` with index == -1 is not a valid closed range
          return Trapped;
        }
        var j := index;
        while j >= 0
          invariant -1 <= j <= index
          invariant Backward(words, convert, j) == Backward(words, convert, index)
        {
          var value := convert(words[j]);
          if value.Some? {
            return Done(value);
          }
          j := j - 1;
        }
      }
    }
    return Done(None);
  }

  method GetValueFromPrefix<T>(prefixes: seq<string>, text: string, normalize: string -> string,
                               convert: string -> Option<T>) returns (r: Outcome<Option<T>>)
    ensures r == PrefixScan(prefixes, text, normalize, convert)
  {
    var words := Split(text);
    for i := 0 to |words|
      invariant PrefixFrom(prefixes, words, normalize, convert, i) == PrefixScan(prefixes, text, normalize, convert)
    {
      var clearWord := normalize(words[i]);
      if clearWord in prefixes {
        var index := i + 1;
        // `index ..< words.count` is a valid half-open range, if empty
        for j := index to |words|
          invariant Forward(words, convert, j) == Forward(words, convert, index)
        {
          var value := convert(words[j]);
          if value.Some? {
            return Done(value);
          }
        }
      }
    }
    return Done(None);
  }

  // ---------------------------------------------------------------------
  // An independent description of the results
  // ---------------------------------------------------------------------

  /** Token i is an occurrence of one of the keywords (after normalising). */
  ghost predicate IsKeywordAt(keywords: seq<string>, tokens: seq<string>, normalize: string -> string, i: int) {
    0 <= i < |tokens| && normalize(tokens[i]) in keywords
  }

  /** No token with index in [lo, hi) converts to a value. */
  ghost predicate NoValue<T>(tokens: seq<string>, convert: string -> Option<T>, lo: int, hi: int) {
    0 <= lo && hi <= |tokens| && forall k :: lo <= k < hi ==> convert(tokens[k]).None?
  }

  /**
   * The suffix scan, started at keyword index lo, settles on the value of
   * token j for the keyword at i: j is the nearest index below i with a
   * value, and every keyword occurrence from lo up to i had no value before it.
   */
  ghost predicate SuffixWinner<T>(keywords: seq<string>, tokens: seq<string>, normalize: string -> string,
                                  convert: string -> Option<T>, lo: int, i: int, j: int) {
    && lo <= i
    && IsKeywordAt(keywords, tokens, normalize, i)
    && 0 <= j < i
    && convert(tokens[j]).Some?
    && NoValue(tokens, convert, j + 1, i)
    && forall p :: lo <= p < i && IsKeywordAt(keywords, tokens, normalize, p) ==> NoValue(tokens, convert, 0, p)
  }

  /**
   * The prefix scan, started at keyword index lo, settles on the value of
   * token j for the keyword at i: j is the nearest index above i with a
   * value, and i is the first keyword occurrence from lo on. (An earlier
   * occurrence with no value after it cannot exist, since token j would be
   * after it too.)
   */
  ghost predicate PrefixWinner<T>(keywords: seq<string>, tokens: seq<string>, normalize: string -> string,
                                  convert: string -> Option<T>, lo: int, i: int, j: int) {
    && lo <= i
    && IsKeywordAt(keywords, tokens, normalize, i)
    && i < j < |tokens|
    && convert(tokens[j]).Some?
    && NoValue(tokens, convert, i + 1, j)
    && forall p :: lo <= p < i ==> !IsKeywordAt(keywords, tokens, normalize, p)
  }

  // Backward and forward inner scans

  lemma {:induction false} BackwardNone<T>(tokens: seq<string>, convert: string -> Option<T>, hi: int)
    requires -1 <= hi < |tokens|
    ensures Backward(tokens, convert, hi).None? <==> NoValue(tokens, convert, 0, hi + 1)
    decreases hi + 1
  {
    if hi >= 0 {
      BackwardNone(tokens, convert, hi - 1);
    }
  }

  lemma {:induction false} BackwardSome<T>(tokens: seq<string>, convert: string -> Option<T>, hi: int) returns (j: int)
    requires hi < |tokens| && Backward(tokens, convert, hi).Some?
    ensures 0 <= j <= hi && convert(tokens[j]) == Backward(tokens, convert, hi)
    ensures NoValue(tokens, convert, j + 1, hi + 1)
    decreases hi + 1
  {
    if convert(tokens[hi]).Some? {
      j := hi;
    } else {
      j := BackwardSome(tokens, convert, hi - 1);
    }
  }

  lemma {:induction false} BackwardAt<T>(tokens: seq<string>, convert: string -> Option<T>, hi: int, j: int)
    requires 0 <= j <= hi < |tokens| && convert(tokens[j]).Some? && NoValue(tokens, convert, j + 1, hi + 1)
    ensures Backward(tokens, convert, hi) == convert(tokens[j])
    decreases hi
  {
    if hi > j {
      BackwardAt(tokens, convert, hi - 1, j);
    }
  }

  lemma {:induction false} ForwardNone<T>(tokens: seq<string>, convert: string -> Option<T>, lo: nat)
    requires lo <= |tokens|
    ensures Forward(tokens, convert, lo).None? <==> NoValue(tokens, convert, lo, |tokens|)
    decreases |tokens| - lo
  {
    if lo < |tokens| {
      ForwardNone(tokens, convert, lo + 1);
    }
  }

  lemma {:induction false} ForwardSome<T>(tokens: seq<string>, convert: string -> Option<T>, lo: nat) returns (j: int)
    requires lo <= |tokens| && Forward(tokens, convert, lo).Some?
    ensures lo <= j < |tokens| && convert(tokens[j]) == Forward(tokens, convert, lo)
    ensures NoValue(tokens, convert, lo, j)
    decreases |tokens| - lo
  {
    if convert(tokens[lo]).Some? {
      j := lo;
    } else {
      j := ForwardSome(tokens, convert, lo + 1);
    }
  }

  lemma {:induction false} ForwardAt<T>(tokens: seq<string>, convert: string -> Option<T>, lo: nat, j: int)
    requires lo <= j < |tokens| && convert(tokens[j]).Some? && NoValue(tokens, convert, lo, j)
    ensures Forward(tokens, convert, lo) == convert(tokens[j])
    decreases j - lo
  {
    if lo < j {
      ForwardAt(tokens, convert, lo + 1, j);
    }
  }

  // The suffix scan from keyword index lo on

  lemma {:induction false} SuffixFromNoTrap<T>(keywords: seq<string>, tokens: seq<string>, normalize: string -> string,
                                              convert: string -> Option<T>, lo: nat)
    requires 1 <= lo <= |tokens|
    ensures SuffixFrom(keywords, tokens, normalize, convert, lo) != Trapped
    decreases |tokens| - lo
  {
    if lo < |tokens| {
      SuffixFromNoTrap(keywords, tokens, normalize, convert, lo + 1);
    }
  }

  lemma {:induction false} SuffixFromSound<T>(keywords: seq<string>, tokens: seq<string>, normalize: string -> string,
                                             convert: string -> Option<T>, lo: nat, v: T) returns (i: int, j: int)
    requires lo <= |tokens| && SuffixFrom(keywords, tokens, normalize, convert, lo) == Done(Some(v))
    ensures SuffixWinner(keywords, tokens, normalize, convert, lo, i, j) && convert(tokens[j]) == Some(v)
    decreases |tokens| - lo
  {
    if normalize(tokens[lo]) in keywords && Backward(tokens, convert, lo - 1).Some? {
      i := lo;
      j := BackwardSome(tokens, convert, lo - 1);
    } else {
      if normalize(tokens[lo]) in keywords {
        BackwardNone(tokens, convert, lo - 1);
      }
      i, j := SuffixFromSound(keywords, tokens, normalize, convert, lo + 1, v);
    }
  }

  lemma {:induction false} SuffixFromComplete<T>(keywords: seq<string>, tokens: seq<string>, normalize: string -> string,
                                                convert: string -> Option<T>, lo: nat, i: int, j: int)
    requires lo <= |tokens| && (lo >= 1 || !IsKeywordAt(keywords, tokens, normalize, 0))
    requires SuffixWinner(keywords, tokens, normalize, convert, lo, i, j)
    ensures SuffixFrom(keywords, tokens, normalize, convert, lo) == Done(convert(tokens[j]))
    decreases i - lo
  {
    if lo == i {
      BackwardAt(tokens, convert, i - 1, j);
    } else {
      if IsKeywordAt(keywords, tokens, normalize, lo) {
        BackwardNone(tokens, convert, lo - 1);
      }
      SuffixFromComplete(keywords, tokens, normalize, convert, lo + 1, i, j);
    }
  }

  lemma {:induction false} SuffixFromNone<T>(keywords: seq<string>, tokens: seq<string>, normalize: string -> string,
                                            convert: string -> Option<T>, lo: nat)
    requires lo <= |tokens| && (lo >= 1 || !IsKeywordAt(keywords, tokens, normalize, 0))
    ensures SuffixFrom(keywords, tokens, normalize, convert, lo) == Done(None) <==>
            forall i :: lo <= i && IsKeywordAt(keywords, tokens, normalize, i) ==> NoValue(tokens, convert, 0, i)
    decreases |tokens| - lo
  {
    if lo < |tokens| {
      SuffixFromNone(keywords, tokens, normalize, convert, lo + 1);
      if normalize(tokens[lo]) in keywords {
        BackwardNone(tokens, convert, lo - 1);
      }
    }
  }

  lemma {:induction false} SuffixFromSkip<T>(keywords: seq<string>, tokens: seq<string>, normalize: string -> string,
                                            convert: string -> Option<T>, lo: nat, hi: nat)
    requires lo <= hi <= |tokens|
    requires forall p :: lo <= p < hi ==> !IsKeywordAt(keywords, tokens, normalize, p)
    ensures SuffixFrom(keywords, tokens, normalize, convert, lo) == SuffixFrom(keywords, tokens, normalize, convert, hi)
    decreases hi - lo
  {
    if lo < hi {
      assert !IsKeywordAt(keywords, tokens, normalize, lo);
      SuffixFromSkip(keywords, tokens, normalize, convert, lo + 1, hi);
    }
  }

  // The prefix scan from keyword index lo on

  lemma {:induction false} PrefixFromNoTrap<T>(keywords: seq<string>, tokens: seq<string>, normalize: string -> string,
                                              convert: string -> Option<T>, lo: nat)
    requires lo <= |tokens|
    ensures PrefixFrom(keywords, tokens, normalize, convert, lo) != Trapped
    decreases |tokens| - lo
  {
    if lo < |tokens| {
      PrefixFromNoTrap(keywords, tokens, normalize, convert, lo + 1);
    }
  }

  lemma {:induction false} PrefixFromSound<T>(keywords: seq<string>, tokens: seq<string>, normalize: string -> string,
                                             convert: string -> Option<T>, lo: nat, v: T) returns (i: int, j: int)
    requires lo <= |tokens| && PrefixFrom(keywords, tokens, normalize, convert, lo) == Done(Some(v))
    ensures PrefixWinner(keywords, tokens, normalize, convert, lo, i, j) && convert(tokens[j]) == Some(v)
    decreases |tokens| - lo
  {
    if normalize(tokens[lo]) in keywords {
      if Forward(tokens, convert, lo + 1).None? {
        // then nothing after lo has a value, yet the scan finds one after lo
        ForwardNone(tokens, convert, lo + 1);
        var i', j' := PrefixFromSound(keywords, tokens, normalize, convert, lo + 1, v);
        assert false;
      }
      i := lo;
      j := ForwardSome(tokens, convert, lo + 1);
    } else {
      i, j := PrefixFromSound(keywords, tokens, normalize, convert, lo + 1, v);
    }
  }

  lemma {:induction false} PrefixFromComplete<T>(keywords: seq<string>, tokens: seq<string>, normalize: string -> string,
                                                convert: string -> Option<T>, lo: nat, i: int, j: int)
    requires lo <= |tokens| && PrefixWinner(keywords, tokens, normalize, convert, lo, i, j)
    ensures PrefixFrom(keywords, tokens, normalize, convert, lo) == Done(convert(tokens[j]))
    decreases i - lo
  {
    if lo == i {
      ForwardAt(tokens, convert, i + 1, j);
    } else {
      assert !IsKeywordAt(keywords, tokens, normalize, lo);
      PrefixFromComplete(keywords, tokens, normalize, convert, lo + 1, i, j);
    }
  }

  lemma {:induction false} PrefixFromNone<T>(keywords: seq<string>, tokens: seq<string>, normalize: string -> string,
                                            convert: string -> Option<T>, lo: nat)
    requires lo <= |tokens|
    ensures PrefixFrom(keywords, tokens, normalize, convert, lo) == Done(None) <==>
            forall i :: lo <= i && IsKeywordAt(keywords, tokens, normalize, i) ==> NoValue(tokens, convert, i + 1, |tokens|)
    decreases |tokens| - lo
  {
    if lo < |tokens| {
      PrefixFromNone(keywords, tokens, normalize, convert, lo + 1);
      if IsKeywordAt(keywords, tokens, normalize, lo) {
        ForwardNone(tokens, convert, lo + 1);
      } else {
        assert normalize(tokens[lo]) !in keywords;
      }
    }
  }

  lemma {:induction false} PrefixFromSkip<T>(keywords: seq<string>, tokens: seq<string>, normalize: string -> string,
                                            convert: string -> Option<T>, lo: nat, hi: nat)
    requires lo <= hi <= |tokens|
    requires forall p :: lo <= p < hi ==> !IsKeywordAt(keywords, tokens, normalize, p)
    ensures PrefixFrom(keywords, tokens, normalize, convert, lo) == PrefixFrom(keywords, tokens, normalize, convert, hi)
    decreases hi - lo
  {
    if lo < hi {
      assert !IsKeywordAt(keywords, tokens, normalize, lo);
      PrefixFromSkip(keywords, tokens, normalize, convert, lo + 1, hi);
    }
  }

  // ---------------------------------------------------------------------
  // Properties of getValueFromSufix
  // ---------------------------------------------------------------------

  /** The suffix scan traps exactly when the first token is a keyword. */
  lemma SuffixTrapsIff<T>(keywords: seq<string>, text: string, normalize: string -> string, convert: string -> Option<T>)
    ensures SuffixScan(keywords, text, normalize, convert) == Trapped <==> normalize(Split(text)[0]) in keywords
  {
    var tokens := Split(text);
    if normalize(tokens[0]) !in keywords {
      SuffixFromNoTrap(keywords, tokens, normalize, convert, 1);
    }
  }

  /**
   * A value v is found exactly when the first token is not a keyword and
   * some keyword occurrence i is the first with a value before it, v being
   * the value of the nearest such token j < i.
   */
  lemma SuffixFoundIff<T>(keywords: seq<string>, text: string, normalize: string -> string,
                          convert: string -> Option<T>, v: T)
    ensures var tokens := Split(text);
      SuffixScan(keywords, text, normalize, convert) == Done(Some(v)) <==>
      && normalize(tokens[0]) !in keywords
      && exists i, j :: SuffixWinner(keywords, tokens, normalize, convert, 0, i, j) && convert(tokens[j]) == Some(v)
  {
    var tokens := Split(text);
    SuffixTrapsIff(keywords, text, normalize, convert);
    if SuffixScan(keywords, text, normalize, convert) == Done(Some(v)) {
      var i, j := SuffixFromSound(keywords, tokens, normalize, convert, 0, v);
    }
    if normalize(tokens[0]) !in keywords {
      forall i, j | SuffixWinner(keywords, tokens, normalize, convert, 0, i, j) && convert(tokens[j]) == Some(v)
        ensures SuffixScan(keywords, text, normalize, convert) == Done(Some(v))
      {
        SuffixFromComplete(keywords, tokens, normalize, convert, 0, i, j);
      }
    }
  }

  /** Nothing is found exactly when there is no trap and no keyword occurrence has a value before it. */
  lemma SuffixNotFoundIff<T>(keywords: seq<string>, text: string, normalize: string -> string, convert: string -> Option<T>)
    ensures var tokens := Split(text);
      SuffixScan(keywords, text, normalize, convert) == Done(None) <==>
      && normalize(tokens[0]) !in keywords
      && forall i :: IsKeywordAt(keywords, tokens, normalize, i) ==> NoValue(tokens, convert, 0, i)
  {
    var tokens := Split(text);
    SuffixTrapsIff(keywords, text, normalize, convert);
    if normalize(tokens[0]) !in keywords {
      SuffixFromNone(keywords, tokens, normalize, convert, 0);
    }
  }

  /**
   * In text mode the first keyword occurrence decides: it traps at index 0
   * and otherwise yields the raw token just before it.
   */
  lemma SuffixTextFirstKeyword(keywords: seq<string>, text: string, normalize: string -> string, i: nat)
    requires IsKeywordAt(keywords, Split(text), normalize, i)
    requires forall p :: 0 <= p < i ==> !IsKeywordAt(keywords, Split(text), normalize, p)
    ensures SuffixScan(keywords, text, normalize, AsText) ==
            if i == 0 then Trapped else Done(Some(Split(text)[i - 1]))
  {
    SuffixFromSkip(keywords, Split(text), normalize, AsText, 0, i);
  }

  /** In text mode nothing is found exactly when no token is a keyword. */
  lemma SuffixTextNotFoundIff(keywords: seq<string>, text: string, normalize: string -> string)
    ensures SuffixScan(keywords, text, normalize, AsText) == Done(None) <==>
            forall i :: !IsKeywordAt(keywords, Split(text), normalize, i)
  {
    var tokens := Split(text);
    SuffixNotFoundIff(keywords, text, normalize, AsText);
    var convert: string -> Option<string> := AsText;
    assert IsKeywordAt(keywords, tokens, normalize, 0) <==> normalize(tokens[0]) in keywords;
    forall i | IsKeywordAt(keywords, tokens, normalize, i) && i > 0
      ensures !NoValue(tokens, convert, 0, i)
    {
      assert convert(tokens[0]).Some?;
    }
  }

  // ---------------------------------------------------------------------
  // Properties of getValueFromPrefix
  // ---------------------------------------------------------------------

  /** The prefix scan never traps: `i + 1 ..< count` is always a valid range. */
  lemma PrefixNeverTraps<T>(keywords: seq<string>, text: string, normalize: string -> string, convert: string -> Option<T>)
    ensures PrefixScan(keywords, text, normalize, convert) != Trapped
  {
    PrefixFromNoTrap(keywords, Split(text), normalize, convert, 0);
  }

  /**
   * A value v is found exactly when some keyword occurrence i is the first
   * with a value after it, v being the value of the nearest such token j > i.
   */
  lemma PrefixFoundIff<T>(keywords: seq<string>, text: string, normalize: string -> string,
                          convert: string -> Option<T>, v: T)
    ensures PrefixScan(keywords, text, normalize, convert) == Done(Some(v)) ==>
      exists i, j :: PrefixWinner(keywords, Split(text), normalize, convert, 0, i, j) && convert(Split(text)[j]) == Some(v)
    ensures (exists i, j :: PrefixWinner(keywords, Split(text), normalize, convert, 0, i, j) && convert(Split(text)[j]) == Some(v)) ==>
      PrefixScan(keywords, text, normalize, convert) == Done(Some(v))
  {
    var tokens := Split(text);
    if PrefixScan(keywords, text, normalize, convert) == Done(Some(v)) {
      var i, j := PrefixFromSound(keywords, tokens, normalize, convert, 0, v);
    }
    if exists i, j :: PrefixWinner(keywords, tokens, normalize, convert, 0, i, j) && convert(tokens[j]) == Some(v) {
      var i, j :| PrefixWinner(keywords, tokens, normalize, convert, 0, i, j) && convert(tokens[j]) == Some(v);
      PrefixFromComplete(keywords, tokens, normalize, convert, 0, i, j);
    }
  }

  /** Nothing is found exactly when no keyword occurrence has a value after it. */
  lemma PrefixNotFoundIff<T>(keywords: seq<string>, text: string, normalize: string -> string, convert: string -> Option<T>)
    ensures PrefixScan(keywords, text, normalize, convert) == Done(None) ==>
      forall i :: IsKeywordAt(keywords, Split(text), normalize, i) ==> NoValue(Split(text), convert, i + 1, |Split(text)|)
    ensures (forall i :: IsKeywordAt(keywords, Split(text), normalize, i) ==> NoValue(Split(text), convert, i + 1, |Split(text)|)) ==>
      PrefixScan(keywords, text, normalize, convert) == Done(None)
  {
    PrefixFromNone(keywords, Split(text), normalize, convert, 0);
  }

  /**
   * In text mode the first keyword occurrence decides: it yields the raw
   * token just after it, or nothing when it is the last token.
   */
  lemma PrefixTextFirstKeyword(keywords: seq<string>, text: string, normalize: string -> string, i: nat)
    requires IsKeywordAt(keywords, Split(text), normalize, i)
    requires forall p :: 0 <= p < i ==> !IsKeywordAt(keywords, Split(text), normalize, p)
    ensures PrefixScan(keywords, text, normalize, AsText) ==
            if i + 1 < |Split(text)| then Done(Some(Split(text)[i + 1])) else Done(None)
  {
    var tokens := Split(text);
    PrefixFromSkip(keywords, tokens, normalize, AsText, 0, i);
    if i + 1 == |tokens| {
      assert PrefixFrom(keywords, tokens, normalize, AsText, i + 1) == Done(None);
    }
  }
}
