/** `extractStockTickers`: every candidate of the message, longest first. */
module Extract {
  import opened Ascii
  import opened Wrappers
  import opened Tickers
  import opened ByLength

  /** The error text of an extraction that found nothing. */
  const MissingTicker := "missing ticker symbol"

  /**
   * The candidates of `tokens` in the order the loop discovers them,
   * duplicates kept: the `tickers` slice just before it is sorted.
   */
  function Accepted(tokens: seq<Bytes>, input: StructuredInput, lang: Lang): (r: seq<Bytes>)
    ensures |r| <= |tokens|
    ensures forall t :: t in r ==> IsTicker(t)
  {
    if tokens == [] then []
    else
      var prior := Accepted(tokens[..|tokens| - 1], input, lang);
      match Candidate(tokens[|tokens| - 1], input, lang)
      case None => prior
      case Some(t) => prior + [t]
  }

  /** Discovery order: the candidates of a concatenation are concatenated. */
  lemma {:induction false} AcceptedAppend(a: seq<Bytes>, b: seq<Bytes>, input: StructuredInput, lang: Lang)
    ensures Accepted(a + b, input, lang) == Accepted(a, input, lang) + Accepted(b, input, lang)
  {
    if b == [] {
      assert a + b == a;
    } else {
      var b' := b[..|b| - 1];
      assert (a + b)[..|a + b| - 1] == a + b';
      assert (a + b)[|a + b| - 1] == b[|b| - 1];
      AcceptedAppend(a, b', input, lang);
    }
  }

  /** Every candidate came from one token that the per-token test accepted. */
  lemma {:induction false} AcceptedSound(tokens: seq<Bytes>, input: StructuredInput, lang: Lang)
    ensures forall t :: t in Accepted(tokens, input, lang) ==>
              exists i :: 0 <= i < |tokens| && Candidate(tokens[i], input, lang) == Some(t)
  {
    if tokens != [] {
      var n := |tokens| - 1;
      var prefix := tokens[..n];
      AcceptedSound(prefix, input, lang);
      forall t | t in Accepted(tokens, input, lang)
        ensures exists i :: 0 <= i < |tokens| && Candidate(tokens[i], input, lang) == Some(t)
      {
        if t in Accepted(prefix, input, lang) {
          var i :| 0 <= i < |prefix| && Candidate(prefix[i], input, lang) == Some(t);
          assert tokens[i] == prefix[i];
        } else {
          assert Candidate(tokens[n], input, lang) == Some(t);
        }
      }
    }
  }

  /** Every token the per-token test accepts contributes its candidate. */
  lemma {:induction false} AcceptedComplete(tokens: seq<Bytes>, input: StructuredInput, lang: Lang)
    ensures forall i :: 0 <= i < |tokens| && Candidate(tokens[i], input, lang).Some? ==>
              Candidate(tokens[i], input, lang).value in Accepted(tokens, input, lang)
  {
    if tokens != [] {
      var n := |tokens| - 1;
      var prefix := tokens[..n];
      AcceptedComplete(prefix, input, lang);
      forall i | 0 <= i < |tokens| && Candidate(tokens[i], input, lang).Some?
        ensures Candidate(tokens[i], input, lang).value in Accepted(tokens, input, lang)
      {
        if i < n {
          assert tokens[i] == prefix[i];
        }
      }
    }
  }

  /** Nothing is accepted exactly when every token is rejected. */
  lemma {:induction false} AcceptedEmptyIff(tokens: seq<Bytes>, input: StructuredInput, lang: Lang)
    ensures Accepted(tokens, input, lang) == [] <==>
              forall i :: 0 <= i < |tokens| ==> Candidate(tokens[i], input, lang).None?
  {
    AcceptedComplete(tokens, input, lang);
    if Accepted(tokens, input, lang) != [] {
      AcceptedSound(tokens, input, lang);
      var t := Accepted(tokens, input, lang)[0];
      assert t in Accepted(tokens, input, lang);
    }
  }

  /** A token that is already a ticker is always extracted, verbatim. */
  lemma TickerTokenExtracted(tokens: seq<Bytes>, i: nat, input: StructuredInput, lang: Lang)
    requires i < |tokens| && IsTicker(tokens[i])
    ensures tokens[i] in Accepted(tokens, input, lang)
  {
  }

  /**
   * `extractStockTickers`: the loop over the tokens with its `continue`s,
   * then the reverse sort by length, or the error when nothing was found.
   */
  method ExtractStockTickers(msg: Msg, lang: Lang) returns (r: Result<seq<Bytes>, string>)
    ensures r.Failure? <==> Accepted(msg.tokens, msg.input, lang) == []
    ensures r.Failure? ==> r.error == MissingTicker
    ensures r.Success? ==> |r.value| > 0 && NonIncreasing(r.value)
    ensures r.Success? ==> multiset(r.value) == multiset(Accepted(msg.tokens, msg.input, lang))
    ensures r.Success? ==> forall t :: t in r.value ==> IsTicker(t)
  {
    var tickers: seq<Bytes> := [];
    for i := 0 to |msg.tokens|
      invariant tickers == Accepted(msg.tokens[..i], msg.input, lang)
    {
      assert msg.tokens[..i + 1][..i] == msg.tokens[..i];
      var token := msg.tokens[i];
      if |token| > MaxTickerLength {
        continue;
      }

      token := DeleteNonWord(token);
      if |token| == 0 || |token| > MaxTickerLength {
        continue;
      }

      var caps := DeleteLower(token);
      if |caps| == |token| {
        tickers := tickers + [token];
        continue;
      }

      var stem := lang.stem(token);
      if lang.contains(msg.input.commands, stem) || lang.contains(msg.input.objects, stem) {
        continue;
      }
      tickers := tickers + [ToUpper(token)];
    }
    assert msg.tokens[..|msg.tokens|] == msg.tokens;

    if |tickers| > 0 {
      var a := new Bytes[|tickers|](k => if 0 <= k < |tickers| then tickers[k] else []);
      assert a[..] == tickers;
      SortReverse(a);
      r := Success(a[..]);
      forall t | t in r.value ensures IsTicker(t) {
        assert t in multiset(r.value);
      }
      return;
    }
    r := Failure(MissingTicker);
  }
}
