/** The query filter of `ScrapeRecipes`: from the decoded envelope's list of
    cached query results, decode the ones whose raw `data` is a JSON object
    and concatenate their `items`. The JSON decoder is an oracle. */
module Queries {
  import opened Base
  import opened RecipeModel

  /** The byte `{` that opens a JSON object. */
  const ObjectOpen: byte := 0x7B

  /** `json.Unmarshal` of one query's `data` into `struct { Items []Recipe }`. */
  type Decoder = Bytes -> Decoded<seq<Recipe>>

  /** The first-byte filter: only object-shaped data is decoded. */
  predicate IsObject(d: Bytes) {
    |d| > 0 && d[0] == ObjectOpen
  }

  /** Query `d` passes the filter and fails to decode. */
  predicate Fails(d: Bytes, decode: Decoder) {
    IsObject(d) && decode(d).Malformed?
  }

  /** The source indexes `data[0]` unguarded, but only for the queries the
      loop reaches: those with no failing query before them. Each of those
      must carry data; a query after the first failure may be empty. */
  predicate ReachedNonEmpty(datas: seq<Bytes>, decode: Decoder) {
    forall k :: 0 <= k < |datas| && (forall j :: 0 <= j < k ==> !Fails(datas[j], decode)) ==>
      |datas[k]| > 0
  }

  /** What query `d` adds to the batch: its decoded items when it passes the
      filter and decodes, nothing otherwise. */
  function Contribution(d: Bytes, decode: Decoder): seq<Recipe> {
    if IsObject(d) && decode(d).Decoded? then decode(d).value else []
  }

  /** Reference concatenation of every query's contribution, in query order. */
  ghost function Items(datas: seq<Bytes>, decode: Decoder): seq<Recipe> {
    if |datas| == 0 then []
    else Items(datas[..|datas| - 1], decode) + Contribution(datas[|datas| - 1], decode)
  }

  /** Reference item count: the sum of the contributions' lengths. */
  ghost function ItemCount(datas: seq<Bytes>, decode: Decoder): nat {
    if |datas| == 0 then 0
    else |Contribution(datas[0], decode)| + ItemCount(datas[1..], decode)
  }

  /** Position of the first query that passes the filter and fails to
      decode, or `|datas|` when there is none. */
  ghost function FirstFailure(datas: seq<Bytes>, decode: Decoder, i: nat): (f: nat)
    requires i <= |datas|
    ensures i <= f <= |datas|
    ensures forall k :: i <= k < f ==> !Fails(datas[k], decode)
    ensures f < |datas| ==> Fails(datas[f], decode)
    decreases |datas| - i
  {
    if i == |datas| || Fails(datas[i], decode) then i
    else FirstFailure(datas, decode, i + 1)
  }

  /** Filter output, order: the recipes of two consecutive runs of queries
      are the first run's recipes followed by the second's. */
  lemma {:induction false} ItemsAppend(a: seq<Bytes>, b: seq<Bytes>, decode: Decoder)
    ensures Items(a + b, decode) == Items(a, decode) + Items(b, decode)
    decreases |b|
  {
    if |b| == 0 {
      assert a + b == a;
    } else {
      var b' := b[..|b| - 1];
      assert (a + b)[..|a + b| - 1] == a + b';
      ItemsAppend(a, b', decode);
    }
  }

  /** Filter output, length: the result has as many recipes as the decoded
      `items` lists of the object-shaped queries hold together. */
  lemma {:induction false} ItemsLength(datas: seq<Bytes>, decode: Decoder)
    ensures |Items(datas, decode)| == ItemCount(datas, decode)
    decreases |datas|
  {
    if |datas| > 0 {
      assert datas == [datas[0]] + datas[1..];
      ItemsAppend([datas[0]], datas[1..], decode);
      assert [datas[0]][..0] == [];
      ItemsLength(datas[1..], decode);
    }
  }

  /** Filter output, skipping: a query whose data is not an object, or whose
      `items` list is empty, contributes nothing wherever it stands. */
  lemma SkippedQueryContributesNothing(a: seq<Bytes>, d: Bytes, b: seq<Bytes>, decode: Decoder)
    requires !IsObject(d) || decode(d) == Decoded([])
    ensures Items(a + [d] + b, decode) == Items(a + b, decode)
  {
    assert Contribution(d, decode) == [];
    assert (a + [d])[..|a + [d]| - 1] == a;
    assert Items(a + [d], decode) == Items(a, decode);
    ItemsAppend(a + [d], b, decode);
    ItemsAppend(a, b, decode);
  }

  /** The loop of `ScrapeRecipes` over the envelope's queries. It succeeds
      exactly when every object-shaped query decodes, and then returns the
      in-order concatenation of their items; otherwise it returns only the
      first failing query's error and no recipes. */
  method CollectRecipes(datas: seq<Bytes>, decode: Decoder) returns (r: Result<seq<Recipe>>)
    requires ReachedNonEmpty(datas, decode)
    ensures r.Ok? <==> forall k :: 0 <= k < |datas| ==> !Fails(datas[k], decode)
    ensures r.Ok? ==> r.value == Items(datas, decode)
    ensures r.Err? ==>
      var f := FirstFailure(datas, decode, 0);
      f < |datas| && r.error == JsonError(decode(datas[f]).reason)
  {
    var rs: seq<Recipe> := [];
    var i := 0;
    while i < |datas|
      invariant 0 <= i <= |datas|
      invariant forall k :: 0 <= k < i ==> !Fails(datas[k], decode)
      invariant rs == Items(datas[..i], decode)
    {
      assert datas[..i + 1][..i] == datas[..i];
      if datas[i][0] == ObjectOpen {
        var d := decode(datas[i]);
        if d.Malformed? {
          assert FirstFailure(datas, decode, 0) == i;
          return Err(JsonError(d.reason));
        }
        if |d.value| > 0 {
          rs := rs + d.value;
        }
      }
      i := i + 1;
    }
    assert datas[..i] == datas;
    return Ok(rs);
  }
}
