/** `ScrapeRecipes` after the HTTP fetch: scan the page for the
    `__NEXT_DATA__` text, decode the envelope down to the list of cached
    queries, and run the query filter. Both JSON decodings are oracles. */
module Scrape {
  import opened Base
  import opened RecipeModel
  import Scanner
  import Queries

  /** `json.Unmarshal` of the script text into the `payload` envelope
      (`props.pageProps.ssrPayload.dehydratedState.queries`), yielding each
      query's raw `state.data` in document order. */
  type EnvelopeDecoder = Bytes -> Decoded<seq<Bytes>>

  /** `ScrapeRecipes` from the page's tokens on: a scanner error or an
      envelope decoding error is returned with no recipes; otherwise the
      result is the query filter's verdict on the envelope's queries. Every
      error is the tokenizer's or a decoder's: the package never reports
      "recipe props data not found". */
  method ScrapeRecipes(toks: seq<Scanner.Token>, unmarshalEnvelope: EnvelopeDecoder,
                       decode: Queries.Decoder) returns (r: Result<seq<Recipe>>)
    requires Scanner.Scan(toks).Ok? && unmarshalEnvelope(Scanner.Scan(toks).value).Decoded? ==>
      Queries.ReachedNonEmpty(unmarshalEnvelope(Scanner.Scan(toks).value).value, decode)
    ensures Scanner.Scan(toks).Err? ==> r == Err(Scanner.Scan(toks).error)
    ensures Scanner.Scan(toks).Ok? && unmarshalEnvelope(Scanner.Scan(toks).value).Malformed? ==>
      r == Err(JsonError(unmarshalEnvelope(Scanner.Scan(toks).value).reason))
    ensures Scanner.Scan(toks).Ok? && unmarshalEnvelope(Scanner.Scan(toks).value).Decoded? ==>
      var qs := unmarshalEnvelope(Scanner.Scan(toks).value).value;
      && (r.Ok? <==> forall k :: 0 <= k < |qs| ==> !Queries.Fails(qs[k], decode))
      && (r.Ok? ==> r.value == Queries.Items(qs, decode))
      && (r.Err? ==>
            var f := Queries.FirstFailure(qs, decode, 0);
            f < |qs| && r.error == JsonError(decode(qs[f]).reason))
    ensures r.Err? ==> r.error.StreamError? || r.error.JsonError?
    ensures r != Err(PropsNotFound)
  {
    var b := Scanner.ParseRecipeProps(toks);
    if b.Err? {
      Scanner.ScanNeverReportsNotFound(toks);
      return Err(b.error);
    }
    var p := unmarshalEnvelope(b.value);
    if p.Malformed? {
      return Err(JsonError(p.reason));
    }
    r := Queries.CollectRecipes(p.value, decode);
  }
}
