/**
 * The upload batches of a search index (searchBatches in
 * apps/cms/src/search/meili-index.ts): documents in order, each batch one
 * JSON array within a byte bound.
 */
module SearchBatches {
  import opened Common

  type Bytes = seq<bv8>

  /** A document of the index, with its UTF-8 JSON text. */
  datatype Document = Document(id: string, json: Bytes)

  const OPEN: bv8 := 0x5B
  const CLOSE: bv8 := 0x5D
  const COMMA: bv8 := 0x2C

  /** The documents, separated by commas. */
  function Joined(batch: seq<Document>): Bytes {
    if batch == [] then []
    else if |batch| == 1 then batch[0].json
    else Joined(batch[..|batch| - 1]) + [COMMA] + batch[|batch| - 1].json
  }

  /** The request body of a batch: the JSON array of its documents. */
  function Body(batch: seq<Document>): Bytes {
    [OPEN] + Joined(batch) + [CLOSE]
  }

  function Flatten(batches: seq<seq<Document>>): seq<Document> {
    if batches == [] then [] else Flatten(batches[..|batches| - 1]) + batches[|batches| - 1]
  }

  predicate Fits(batch: seq<Document>, maxBytes: int) {
    |Body(batch)| <= maxBytes
  }

  /** The batches are a split of the documents, in order, into bodies that fit. */
  ghost predicate SplitOf(batches: seq<seq<Document>>, documents: seq<Document>, maxBytes: int) {
    Flatten(batches) == documents && forall i :: 0 <= i < |batches| ==> Fits(batches[i], maxBytes)
  }

  /** No batch is empty, and none had room for the next one's first document. */
  ghost predicate Tight(batches: seq<seq<Document>>, maxBytes: int) {
    && (forall i :: 0 <= i < |batches| ==> batches[i] != [])
    && (forall i :: 0 <= i && i + 1 < |batches| ==> !Fits(batches[i] + [batches[i + 1][0]], maxBytes))
  }

  lemma BodyGrows(batch: seq<Document>, document: Document)
    ensures |Body(batch + [document])| == |Body(batch)| + (if batch == [] then 0 else 1) + |document.json|
  {
    var more := batch + [document];
    if batch != [] {
      assert more[..|more| - 1] == batch;
    }
  }

  /** Cuts the documents; throws at the first one that does not fit alone. */
  method Cut(documents: seq<Document>, maxBytes: int) returns (result: Result<seq<seq<Document>>, nat>)
    ensures result.Ok? ==> SplitOf(result.value, documents, maxBytes) && Tight(result.value, maxBytes)
    ensures result.Err? ==>
      && result.error < |documents| && !Fits([documents[result.error]], maxBytes)
      && forall i :: 0 <= i < result.error ==> Fits([documents[i]], maxBytes)
    ensures result.Ok? <==> forall i :: 0 <= i < |documents| ==> Fits([documents[i]], maxBytes)
  {
    hide Fits, Body, Flatten, Tight;
    var batches: seq<seq<Document>> := [];
    var batch: seq<Document> := [];
    var bytes := 2;
    NothingCut(maxBytes);
    for i := 0 to |documents|
      invariant bytes == |Body(batch)|
      invariant Flatten(batches) + batch == documents[..i]
      invariant batch == [] ==> batches == []
      invariant batch != [] ==> Fits(batch, maxBytes)
      invariant forall k :: 0 <= k < |batches| ==> Fits(batches[k], maxBytes)
      invariant Tight(if batch == [] then [] else batches + [batch], maxBytes)
      invariant forall k :: 0 <= k < i ==> Fits([documents[k]], maxBytes)
    {
      var size := |documents[i].json|;
      Alone(documents[i], maxBytes);
      if size + 2 > maxBytes { return Err(i); }
      NextDocument(batches, batch, documents[i], maxBytes);
      assert documents[..i + 1] == documents[..i] + [documents[i]];
      if |batch| > 0 && bytes + 1 + size > maxBytes {
        FlattenAppend(batches, batch);
        batches := batches + [batch];
        batch := [];
        assert batch + [documents[i]] == [documents[i]];
        bytes := 2;
      }
      bytes := bytes + (if |batch| > 0 then 1 else 0) + size;
      batch := batch + [documents[i]];
      assert batches == [] ==> batches + [batch] == [batch];
    }
    assert documents[..|documents|] == documents;
    if |batch| > 0 {
      FlattenAppend(batches, batch);
      batches := batches + [batch];
    }
    return Ok(batches);
  }

  lemma NothingCut(maxBytes: int)
    ensures |Body([])| == 2 && Flatten([]) == [] && Tight([], maxBytes)
  {}

  lemma FlattenAppend(batches: seq<seq<Document>>, batch: seq<Document>)
    ensures Flatten(batches + [batch]) == Flatten(batches) + batch
  {
    assert (batches + [batch])[..|batches|] == batches;
  }

  lemma Alone(document: Document, maxBytes: int)
    ensures |Body([document])| == |document.json| + 2
    ensures Fits([document], maxBytes) <==> |document.json| + 2 <= maxBytes
  {}

  /** One more document: into the open batch when it has room, else into a new one. */
  lemma NextDocument(batches: seq<seq<Document>>, batch: seq<Document>, document: Document, maxBytes: int)
    requires Fits([document], maxBytes) && Tight(if batch == [] then [] else batches + [batch], maxBytes)
    ensures Fits(batch + [document], maxBytes) <==>
      |Body(batch)| + (if batch == [] then 0 else 1) + |document.json| <= maxBytes
    ensures |Body(batch + [document])| == |Body(batch)| + (if batch == [] then 0 else 1) + |document.json|
    ensures batch == [] ==> Tight([batch + [document]], maxBytes) && batch + [document] == [document]
    ensures batch != [] ==> Tight(batches + [batch + [document]], maxBytes)
    ensures batch != [] && !Fits(batch + [document], maxBytes) ==> Tight(batches + [batch] + [[document]], maxBytes)
  {
    BodyGrows(batch, document);
    hide Body;
    if batch != [] {
      var was, more, other := batches + [batch], batches + [batch + [document]], batches + [batch] + [[document]];
      assert forall i :: 0 <= i < |batches| ==> more[i] == was[i] && was[i] != [];
      forall i | 0 <= i && i + 1 < |more|
        ensures !Fits(more[i] + [more[i + 1][0]], maxBytes)
      {
        assert was[i] == more[i] && was[i + 1][0] == more[i + 1][0];
      }
      if !Fits(batch + [document], maxBytes) {
        assert forall i :: 0 <= i < |was| ==> other[i] == was[i] && was[i] != [];
        forall i | 0 <= i && i + 1 < |other|
          ensures !Fits(other[i] + [other[i + 1][0]], maxBytes)
        {
          if i + 1 < |was| { assert was[i] == other[i] && was[i + 1] == other[i + 1]; }
        }
      }
    }
  }

  // ---------------------------------------------------------------------
  // No other split needs fewer batches.

  /** How many documents the first `k` batches hold. */
  function Covered(batches: seq<seq<Document>>, k: nat): (n: nat)
    requires k <= |batches|
    ensures n == |Flatten(batches[..k])|
  {
    if k == 0 then 0
    else
      assert batches[..k][..k - 1] == batches[..k - 1];
      Covered(batches, k - 1) + |batches[k - 1]|
  }

  lemma {:induction false} BatchIsSlice(batches: seq<seq<Document>>, k: nat, n: nat)
    requires k < n <= |batches|
    ensures Covered(batches, k + 1) <= |Flatten(batches[..n])|
    ensures Flatten(batches[..n])[Covered(batches, k)..Covered(batches, k + 1)] == batches[k]
  {
    assert batches[..n][..n - 1] == batches[..n - 1];
    if k + 1 == n {
      var _ := Covered(batches, k);
    } else {
      BatchIsSlice(batches, k, n - 1);
      assert Flatten(batches[..n])[..|Flatten(batches[..n - 1])|] == Flatten(batches[..n - 1]);
    }
  }

  /** A slice's body is not longer than the body of a slice around it. */
  lemma {:induction false} SliceIsShorter(documents: seq<Document>, a: nat, b: nat, c: nat, d: nat)
    requires a <= b < c <= d <= |documents|
    ensures |Body(documents[b..c])| <= |Body(documents[a..d])|
    decreases b - a, d - c
  {
    if c < d {
      SliceIsShorter(documents, a, b, c, d - 1);
      assert documents[a..d] == documents[a..d - 1] + [documents[d - 1]];
      BodyGrows(documents[a..d - 1], documents[d - 1]);
    } else if a < b {
      SliceIsShorter(documents, a + 1, b, c, d);
      FrontIsLonger(documents, a, d);
    }
  }

  lemma {:induction false} FrontIsLonger(documents: seq<Document>, a: nat, d: nat)
    requires a + 1 < d <= |documents|
    ensures |Body(documents[a + 1..d])| <= |Body(documents[a..d])|
    decreases d
  {
    assert documents[a..d] == documents[a..d - 1] + [documents[d - 1]];
    assert documents[a + 1..d] == documents[a + 1..d - 1] + [documents[d - 1]];
    BodyGrows(documents[a..d - 1], documents[d - 1]);
    BodyGrows(documents[a + 1..d - 1], documents[d - 1]);
    if a + 2 < d {
      FrontIsLonger(documents, a, d - 1);
    } else {
      assert documents[a + 1..d - 1] == [];
    }
  }

  /** A split's batch, as the slice of the documents it covers. */
  lemma SplitBatch(batches: seq<seq<Document>>, documents: seq<Document>, k: nat)
    requires Flatten(batches) == documents && k < |batches|
    ensures Covered(batches, k) <= Covered(batches, k + 1) <= |documents|
    ensures documents[Covered(batches, k)..Covered(batches, k + 1)] == batches[k]
  {
    assert batches[..|batches|] == batches;
    BatchIsSlice(batches, k, |batches|);
  }

  /** A batch and the first document of the next one do not fit, nor does any slice around them. */
  lemma TightSlice(batches: seq<seq<Document>>, documents: seq<Document>, maxBytes: int, k: nat, a: nat, d: nat)
    requires Flatten(batches) == documents && Tight(batches, maxBytes) && k + 1 < |batches|
    requires a <= Covered(batches, k) && Covered(batches, k + 1) < d <= |documents|
    ensures !Fits(documents[a..d], maxBytes)
  {
    hide Covered, Flatten, Body;
    var b, c := Covered(batches, k), Covered(batches, k + 1);
    SplitBatch(batches, documents, k);
    SplitBatch(batches, documents, k + 1);
    assert documents[c] == batches[k + 1][0];
    assert documents[b..c + 1] == documents[b..c] + [documents[c]];
    SliceIsShorter(documents, a, b, c + 1, d);
  }

  /** After any number of batches the tight split is at least as far as any other. */
  lemma {:induction false} TightIsAhead(batches: seq<seq<Document>>, other: seq<seq<Document>>,
                                        documents: seq<Document>, maxBytes: int, k: nat)
    requires SplitOf(batches, documents, maxBytes) && Tight(batches, maxBytes) && SplitOf(other, documents, maxBytes)
    requires k < |batches| && k <= |other|
    ensures Covered(other, k) <= Covered(batches, k)
  {
    hide Fits, Tight, Flatten;
    if k > 0 {
      TightIsAhead(batches, other, documents, maxBytes, k - 1);
      SplitBatch(other, documents, k - 1);
      if Covered(batches, k) < Covered(other, k) {
        TightSlice(batches, documents, maxBytes, k - 1, Covered(other, k - 1), Covered(other, k));
      }
    }
  }

  /** No in-order split of the documents into bodies that fit uses fewer batches. */
  lemma CutIsMinimal(batches: seq<seq<Document>>, other: seq<seq<Document>>, documents: seq<Document>, maxBytes: int)
    requires SplitOf(batches, documents, maxBytes) && Tight(batches, maxBytes) && SplitOf(other, documents, maxBytes)
    ensures |batches| <= |other|
  {
    if |other| < |batches| {
      var k := |other|;
      TightIsAhead(batches, other, documents, maxBytes, k);
      assert other[..k] == other && batches[..|batches|] == batches;
      BatchIsSlice(batches, k, |batches|);
      assert false;
    }
  }
}
