/**
 * The per-token test of `extractStockTickers`: normalise one raw token and
 * decide whether it is a ticker candidate.
 */
module Tickers {
  import opened Ascii
  import opened Wrappers

  /** The longest ticker symbol, in bytes. */
  const MaxTickerLength := 5

  /** The `Commands` and `Objects` of the message's structured interpretation. */
  datatype StructuredInput = StructuredInput(commands: seq<Bytes>, objects: seq<Bytes>)

  /** The part of an incoming message the extraction reads. */
  datatype Msg = Msg(tokens: seq<Bytes>, input: StructuredInput)

  /**
   * The two foreign collaborators: the English Porter2 stemmer and
   * `language.Contains`. Neither is visible, so both are parameters.
   */
  datatype Lang = Lang(stem: Bytes -> Bytes, contains: (seq<Bytes>, Bytes) -> bool)

  /** What every accepted candidate looks like. */
  predicate IsTicker(t: Bytes) {
    1 <= |t| <= MaxTickerLength && AllWord(t) && NoLower(t)
  }

  /** The stem of `t` is one of the message's own command or object words. */
  predicate Listed(t: Bytes, input: StructuredInput, lang: Lang) {
    var stem := lang.stem(t);
    lang.contains(input.commands, stem) || lang.contains(input.objects, stem)
  }

  /** The body of the token loop: `Some(ticker)` where it appends, `None` where it continues. */
  function Candidate(token: Bytes, input: StructuredInput, lang: Lang): (r: Option<Bytes>)
    ensures r.Some? ==> |token| <= MaxTickerLength && IsTicker(r.value)
    ensures r.Some? ==> r.value == ToUpper(DeleteNonWord(token))
  {
    if |token| > MaxTickerLength then None
    else
      var t := DeleteNonWord(token);
      if |t| == 0 || |t| > MaxTickerLength then None
      else if |DeleteLower(t)| == |t| then Some(t)
      else if Listed(t, input, lang) then None
      else Some(ToUpper(t))
  }

  /**
   * A short token whose normalised form is non-empty and has no lower-case
   * letter is accepted as that normalised form.
   */
  lemma NoLowercaseAccepted(token: Bytes, input: StructuredInput, lang: Lang)
    requires |token| <= MaxTickerLength
    requires DeleteNonWord(token) != [] && NoLower(DeleteNonWord(token))
    ensures Candidate(token, input, lang) == Some(DeleteNonWord(token))
  {
  }

  /** In particular a token that is already a ticker is accepted verbatim. */
  lemma TickerAcceptedVerbatim(token: Bytes, input: StructuredInput, lang: Lang)
    requires IsTicker(token)
    ensures Candidate(token, input, lang) == Some(token)
  {
  }

  /**
   * Without a lower-case letter, neither the vocabulary nor the stemmer
   * can change the outcome: they are not consulted.
   */
  lemma NoLowercaseIgnoresVocabulary(token: Bytes, input: StructuredInput, lang: Lang,
                                     input': StructuredInput, lang': Lang)
    requires NoLower(DeleteNonWord(token))
    ensures Candidate(token, input, lang) == Candidate(token, input', lang')
  {
  }

  /**
   * A short token with a lower-case letter is rejected exactly when its stem
   * is listed, and otherwise accepted upper-cased.
   */
  lemma LowercaseRejectedIffListed(token: Bytes, input: StructuredInput, lang: Lang)
    requires |token| <= MaxTickerLength
    requires DeleteNonWord(token) != [] && !NoLower(DeleteNonWord(token))
    ensures Candidate(token, input, lang).None? <==> Listed(DeleteNonWord(token), input, lang)
    ensures Candidate(token, input, lang).Some? ==>
              Candidate(token, input, lang).value == ToUpper(DeleteNonWord(token))
  {
  }
}
