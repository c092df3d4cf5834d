/** The document scanner (`parseRecipeProps`): it walks the token stream of
    an HTML page and returns the text of the `__NEXT_DATA__` script element.
    The tokenizer itself is not modelled; its output is a finite sequence of
    tokens, and running off the end of that sequence stands for the
    tokenizer's final `ErrorToken` carrying `io.EOF`. */
module Scanner {
  import opened Base

  /** One attribute as the tokenizer reports it (key lower-cased, value
      unescaped). */
  datatype Attr = Attr(key: string, val: string)

  /** The token kinds the scanner distinguishes. End tags, self-closing
      tags, comments and doctypes are all `OtherToken`: the scanner ignores
      them. */
  datatype Token =
    | ErrorToken(cause: StreamCause)
    | TextToken(text: Bytes)
    | StartTagToken(name: string, attrs: seq<Attr>)
    | OtherToken

  const SentinelId: string := "__NEXT_DATA__"
  const JsonType: string := "application/json"

  /** The start-tag test of the scanner, step by step as the source makes it:
      a `script` tag that has attributes, whose first attribute is the
      sentinel `id` and has a successor, and whose second attribute is the
      JSON `type`. Attributes after the second are never read. */
  predicate Arms(t: Token) {
    match t
    case StartTagToken(name, attrs) =>
      var hasAttr := |attrs| > 0;
      name == "script" && hasAttr &&
      var moreAttr := |attrs| > 1;
      attrs[0].key == "id" && attrs[0].val == SentinelId && moreAttr &&
      attrs[1].key == "type" && attrs[1].val == JsonType
    case _ => false
  }

  /** The arming rule as a statement about attribute positions: exactly the
      `script` tags whose first two attributes are the sentinel pair, in
      that order. */
  lemma ArmingRule(t: Token)
    ensures Arms(t) <==>
      && t.StartTagToken?
      && t.name == "script"
      && |t.attrs| >= 2
      && t.attrs[0] == Attr("id", SentinelId)
      && t.attrs[1] == Attr("type", JsonType)
  {
  }

  /** Tags that carry the right attributes in the wrong places never arm:
      `type` first, `id` absent from the first slot, or `id` alone. */
  lemma MisplacedAttributesNeverArm(name: string, a: Attr, b: Attr, rest: seq<Attr>)
    ensures a.key != "id" ==> !Arms(StartTagToken(name, [a, b] + rest))
    ensures !Arms(StartTagToken(name, [a]))
    ensures !Arms(StartTagToken(name, []))
    ensures name != "script" ==> !Arms(StartTagToken(name, [a, b] + rest))
  {
  }

  // ----- Reference description of where the scan stops -----

  /** Some token strictly before position `j` is an arming tag. */
  ghost predicate ArmedBefore(toks: seq<Token>, j: int) {
    exists i :: 0 <= i < j && i < |toks| && Arms(toks[i])
  }

  /** Position `j` ends the scan: a tokenizer error, or text after arming. */
  ghost predicate StopsAt(toks: seq<Token>, j: int)
    requires 0 <= j < |toks|
  {
    toks[j].ErrorToken? || (toks[j].TextToken? && ArmedBefore(toks, j))
  }

  /** Position `j` is the first position that ends the scan. */
  ghost predicate FirstStop(toks: seq<Token>, j: int) {
    && 0 <= j < |toks|
    && StopsAt(toks, j)
    && forall k :: 0 <= k < j ==> !StopsAt(toks, k)
  }

  /** No token ends the scan: the stream runs out first. */
  ghost predicate NeverStops(toks: seq<Token>) {
    forall k :: 0 <= k < |toks| ==> !StopsAt(toks, k)
  }

  /** What the scanner returns when it stops at token `t`. */
  function StopResult(t: Token): Result<Bytes>
    requires t.ErrorToken? || t.TextToken?
  {
    if t.ErrorToken? then Err(StreamError(t.cause)) else Ok(t.text)
  }

  // ----- The scan as a pure function -----

  /** The scanner's loop from position `i` with the armed flag `armed`. */
  function ScanFrom(toks: seq<Token>, i: nat, armed: bool): Result<Bytes>
    requires i <= |toks|
    decreases |toks| - i
  {
    if i == |toks| then Err(StreamError(EndOfStream))
    else match toks[i]
      case ErrorToken(c) => Err(StreamError(c))
      case TextToken(b) => if armed then Ok(b) else ScanFrom(toks, i + 1, armed)
      case StartTagToken(_, _) => ScanFrom(toks, i + 1, armed || Arms(toks[i]))
      case OtherToken => ScanFrom(toks, i + 1, armed)
  }

  /** `parseRecipeProps` on a whole token stream. */
  function Scan(toks: seq<Token>): Result<Bytes> {
    ScanFrom(toks, 0, false)
  }

  /** The armed flag after the token at `i` is the flag before it, or that
      token arming: the flag is never cleared. */
  lemma ArmedBeforeStep(toks: seq<Token>, i: nat)
    requires i < |toks|
    ensures ArmedBefore(toks, i + 1) <==> ArmedBefore(toks, i) || Arms(toks[i])
  {
    if ArmedBefore(toks, i + 1) && !Arms(toks[i]) {
      var k :| 0 <= k < i + 1 && k < |toks| && Arms(toks[k]);
      assert k < i;
    }
  }

  lemma {:induction false} ScanFromStopsAt(toks: seq<Token>, i: nat, j: nat)
    requires i <= j
    requires FirstStop(toks, j)
    ensures ScanFrom(toks, i, ArmedBefore(toks, i)) == StopResult(toks[j])
    decreases j - i
  {
    ArmedBeforeStep(toks, i);
    if i < j {
      assert !StopsAt(toks, i);
      ScanFromStopsAt(toks, i + 1, j);
    }
  }

  lemma {:induction false} ScanFromRunsOut(toks: seq<Token>, i: nat)
    requires i <= |toks|
    requires NeverStops(toks)
    ensures ScanFrom(toks, i, ArmedBefore(toks, i)) == Err(StreamError(EndOfStream))
    decreases |toks| - i
  {
    if i < |toks| {
      ArmedBeforeStep(toks, i);
      assert !StopsAt(toks, i);
      ScanFromRunsOut(toks, i + 1);
    }
  }

  /** Scanner result: the scan ends at the first error token or at the first
      text token after the first arming tag, whichever comes first, and
      returns that error or that text. Text before arming is skipped and
      later tags do not disarm. */
  lemma ScanFirstStop(toks: seq<Token>, j: nat)
    requires FirstStop(toks, j)
    ensures Scan(toks) == StopResult(toks[j])
    ensures toks[j].TextToken? ==> Scan(toks) == Ok(toks[j].text)
    ensures toks[j].ErrorToken? ==> Scan(toks) == Err(StreamError(toks[j].cause))
  {
    assert !ArmedBefore(toks, 0);
    ScanFromStopsAt(toks, 0, j);
  }

  /** Scanner failure at end of stream: with no stopping token (in
      particular when no tag ever armed and no error came), the result is
      the tokenizer's end-of-stream error. */
  lemma ScanRunsOut(toks: seq<Token>)
    requires NeverStops(toks)
    ensures Scan(toks) == Err(StreamError(EndOfStream))
  {
    assert !ArmedBefore(toks, 0);
    ScanFromRunsOut(toks, 0);
  }

  /** Every stream either has a first stopping position or none at all. */
  lemma {:induction false} StopsOrRunsOut(toks: seq<Token>, i: nat)
    requires i <= |toks|
    requires forall k :: 0 <= k < i ==> !StopsAt(toks, k)
    ensures NeverStops(toks) || exists j :: FirstStop(toks, j)
    decreases |toks| - i
  {
    if i < |toks| {
      if StopsAt(toks, i) {
        assert FirstStop(toks, i);
      } else {
        StopsOrRunsOut(toks, i + 1);
      }
    }
  }

  /** The scanner never produces the "recipe props data not found" error:
      the statement after the source's endless loop is dead, and every
      failure is the tokenizer's own error. */
  lemma ScanNeverReportsNotFound(toks: seq<Token>)
    ensures Scan(toks) != Err(PropsNotFound)
    ensures Scan(toks).Err? ==> Scan(toks).error.StreamError?
  {
    StopsOrRunsOut(toks, 0);
    if NeverStops(toks) {
      ScanRunsOut(toks);
    } else {
      var j :| FirstStop(toks, j);
      ScanFirstStop(toks, j);
    }
  }

  /** Nothing after the stopping token is inspected: replacing everything
      after it leaves the result unchanged. */
  lemma ScanIgnoresRest(toks: seq<Token>, j: nat, rest: seq<Token>)
    requires FirstStop(toks, j)
    ensures Scan(toks[..j + 1] + rest) == Scan(toks)
  {
    var toks' := toks[..j + 1] + rest;
    forall k | 0 <= k <= j
      ensures toks'[k] == toks[k]
      ensures ArmedBefore(toks', k) <==> ArmedBefore(toks, k)
    {
      if ArmedBefore(toks', k) {
        var i :| 0 <= i < k && i < |toks'| && Arms(toks'[i]);
        assert toks'[i] == toks[i];
      }
      if ArmedBefore(toks, k) {
        var i :| 0 <= i < k && i < |toks| && Arms(toks[i]);
        assert toks'[i] == toks[i];
      }
    }
    assert FirstStop(toks', j) by {
      forall k | 0 <= k < j ensures !StopsAt(toks', k) {
        assert !StopsAt(toks, k);
      }
      assert StopsAt(toks, j);
    }
    ScanFirstStop(toks', j);
    ScanFirstStop(toks, j);
  }

  // ----- The scan as the source's loop -----

  /** `parseRecipeProps`: stream the tokens, arm on the sentinel script tag,
      return the first text token seen while armed, or the tokenizer's
      error. */
  method ParseRecipeProps(toks: seq<Token>) returns (r: Result<Bytes>)
    ensures r == Scan(toks)
    ensures forall j :: FirstStop(toks, j) ==> r == StopResult(toks[j])
    ensures NeverStops(toks) ==> r == Err(StreamError(EndOfStream))
  {
    var armed := false;
    var i := 0;
    while i < |toks|
      invariant 0 <= i <= |toks|
      invariant armed <==> ArmedBefore(toks, i)
      invariant forall k :: 0 <= k < i ==> !StopsAt(toks, k)
      invariant Scan(toks) == ScanFrom(toks, i, armed)
    {
      ArmedBeforeStep(toks, i);
      match toks[i] {
        case ErrorToken(c) =>
          assert FirstStop(toks, i);
          return Err(StreamError(c));
        case TextToken(b) =>
          if armed {
            assert FirstStop(toks, i);
            return Ok(b);
          }
        case StartTagToken(_, _) =>
          if Arms(toks[i]) {
            armed := true;
          }
        case OtherToken =>
      }
      i := i + 1;
    }
    return Err(StreamError(EndOfStream));
  }
}
