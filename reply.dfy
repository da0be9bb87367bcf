/**
 * `kwGetStockDetails`: the reply to a message, chosen from the outcome of
 * the extraction and of the quote request for the top-ranked ticker.
 */
module Reply {
  import opened Ascii
  import opened Wrappers
  import opened Tickers
  import opened ByLength
  import opened Extract

  /** `resources[i].resource.fields` of the quote service's answer. */
  datatype Fields = Fields(name: string, price: string, symbol: string)

  /**
   * What the quote request for one symbol produced: the request could not
   * be built or sent, or a response came back with a status code and a
   * body that either decoded into a resource list or did not.
   */
  datatype Fetch = TransportFail | Response(status: int, decoded: Option<seq<Fields>>)

  /** The reply when the quote service knows no such symbol. */
  const NotFound := "I couldn't find any ticker symbols matching that."

  /** The three kinds of outcome the conversation can see. */
  datatype Kind = Silent | NoQuote | Quote

  /** The kind a fetch outcome is, by the failure taxonomy of the handler. */
  function FetchKind(f: Fetch): Kind {
    match f
    case TransportFail => Silent
    case Response(status, decoded) =>
      if status != 200 || decoded.None? then Silent
      else if decoded.value == [] then NoQuote
      else Quote
  }

  /** The kind a reply string shows to the user. */
  function ReplyKind(reply: string): Kind {
    if reply == "" then Silent
    else if reply == NotFound then NoQuote
    else Quote
  }

  /** The `fmt.Sprintf` template filled with a quote's fields verbatim. */
  function Sentence(q: Fields): string {
    q.name + " (" + q.symbol + ") is trading at " + q.price + " right now."
  }

  /** A filled template is neither empty nor the not-found message. */
  lemma SentenceIsQuote(q: Fields)
    ensures ReplyKind(Sentence(q)) == Quote
  {
    var prefix := q.name + " (" + q.symbol + ") is trading at " + q.price;
    var s := Sentence(q);
    assert s == prefix + " right now.";
    assert s[|s| - 2] == 'w';
    assert NotFound[|NotFound| - 2] == 't';
  }

  /**
   * The reply once a ticker was found: empty on any request, status or
   * decoding failure, the not-found message for an empty resource list, and
   * the template over `resources[0]` otherwise. The reply alone tells which.
   */
  function QuoteReply(f: Fetch): (reply: string)
    ensures ReplyKind(reply) == FetchKind(f)
    ensures FetchKind(f) == Quote ==> reply == Sentence(f.decoded.value[0])
  {
    match f
    case TransportFail => ""
    case Response(status, decoded) =>
      if status != 200 then ""
      else if decoded.None? then ""
      else if |decoded.value| == 0 then NotFound
      else
        SentenceIsQuote(decoded.value[0]);
        Sentence(decoded.value[0])
  }

  /** No candidate in the list is longer than `t`. */
  predicate IsLongest(t: Bytes, candidates: seq<Bytes>) {
    forall u :: u in candidates ==> |u| <= |t|
  }

  /**
   * `kwGetStockDetails`: no reply without a candidate; otherwise the reply
   * to the quote request for one candidate of the greatest length. `fetch`
   * stands for the HTTP request and JSON decoding for a symbol.
   */
  method GetStockDetails(msg: Msg, lang: Lang, fetch: Bytes -> Fetch) returns (reply: string)
    ensures Accepted(msg.tokens, msg.input, lang) == [] ==> reply == ""
    ensures Accepted(msg.tokens, msg.input, lang) != [] ==>
              exists t :: t in Accepted(msg.tokens, msg.input, lang) &&
                IsLongest(t, Accepted(msg.tokens, msg.input, lang)) &&
                reply == QuoteReply(fetch(t))
  {
    var tickers := ExtractStockTickers(msg, lang);
    if tickers.Failure? {
      return "";
    }
    var stock := tickers.value[0];
    reply := QuoteReply(fetch(stock));

    ghost var accepted := Accepted(msg.tokens, msg.input, lang);
    assert stock in multiset(tickers.value);
    forall u | u in accepted ensures |u| <= |stock| {
      assert u in multiset(tickers.value);
      var k :| 0 <= k < |tickers.value| && tickers.value[k] == u;
      assert k == 0 || |tickers.value[0]| >= |tickers.value[k]|;
    }
  }
}
