/** The record bookkeeping of `ResearchMemory` in `memory/vector_db.py`.
    The vector collection is modelled as its sequence of records in storage
    order; embeddings and nearest-neighbour ranking stay outside the model, so
    a search is given the hits the index returned. */
module VectorDb {
  import opened Wrappers
  import opened PyStr
  import opened PyList

  /** A metadata value as the collection stores it. */
  datatype MetaValue = Str(s: string) | Int(i: int) | Bool(b: bool)

  /** A metadata mapping from keys to values. */
  type MetaMap = map<string, MetaValue>

  /** The metadata key that ties every record to its paper. */
  const PaperIdKey: string := "paper_id"

  /** One record of the collection: its id, its document text and its metadata. */
  datatype Record = Record(id: string, document: string, metadata: MetaMap)

  /** A search hit, shaped as `search_similar_papers` returns it (the
      similarity score is left out). */
  datatype Hit = Hit(paperId: string, content: string, metadata: MetaMap)

  /** A paper reconstructed by `get_paper_by_id`. */
  datatype Paper = Paper(id: string, content: string, metadata: MetaMap)

  /** The documents to store: the chunks when there are any, otherwise the
      full content as a single document (`None` and `[]` are both falsy). */
  function Documents(content: string, chunks: seq<string>): (docs: seq<string>)
    ensures |docs| >= 1
    ensures |chunks| > 0 ==> docs == chunks
    ensures |chunks| == 0 ==> docs == [content]
  {
    if |chunks| > 0 then chunks else [content]
  }

  /** The id of record `i` of a paper: `f"{paper_id}_{i}"`. */
  function RecordId(paperId: string, i: nat): string {
    paperId + "_" + NatToString(i)
  }

  /** The metadata copy stamped with the paper's id. */
  function Stamp(metadata: MetaMap, paperId: string): (m: MetaMap)
    ensures m.Keys == metadata.Keys + {PaperIdKey}
    ensures m[PaperIdKey] == Str(paperId)
    ensures forall k | k in metadata && k != PaperIdKey :: m[k] == metadata[k]
  {
    metadata[PaperIdKey := Str(paperId)]
  }

  /** `store_paper(content, metadata, chunks)`, with `paperId` the fresh
      `uuid4` string. The collection grows by one record per document, in
      order, each with id `paperId_i` and the stamped metadata; the records
      already stored are untouched. */
  function StorePaper(c: seq<Record>, content: string, metadata: MetaMap, chunks: seq<string>, paperId: string)
    : (r: (seq<Record>, string))
    ensures r.1 == paperId
    ensures var docs := Documents(content, chunks);
      && |r.0| == |c| + |docs|
      && r.0[..|c|] == c
      && (forall i | 0 <= i < |docs| ::
            && r.0[|c| + i].id == RecordId(paperId, i)
            && r.0[|c| + i].document == docs[i]
            && r.0[|c| + i].metadata == Stamp(metadata, paperId))
  {
    var docs := Documents(content, chunks);
    var added := seq(|docs|, i requires 0 <= i < |docs| => Record(RecordId(paperId, i), docs[i], Stamp(metadata, paperId)));
    assert (c + added)[..|c|] == c;
    assert forall i | 0 <= i < |docs| :: (c + added)[|c| + i] == added[i];
    (c + added, paperId)
  }

  /** The ids a store adds are pairwise distinct. */
  lemma {:induction false} RecordIdsDistinct(paperId: string, i: nat, j: nat)
    ensures RecordId(paperId, i) == RecordId(paperId, j) ==> i == j
  {
    if RecordId(paperId, i) == RecordId(paperId, j) {
      var n := |paperId| + 1;
      assert NatToString(i) == RecordId(paperId, i)[n..];
      assert NatToString(j) == RecordId(paperId, j)[n..];
      NatToStringInjective(i, j);
    }
  }

  /** The paper id recovered from a record id: `id.split('_')[0]`. */
  function PaperIdOf(recordId: string): string {
    Split(recordId, "_")[0]
  }

  /** For a paper id without `_`, as `uuid4` strings are, the recovery gives the paper id back. */
  lemma {:induction false} PaperIdOfRecordId(paperId: string, i: nat)
    requires '_' !in paperId
    ensures PaperIdOf(RecordId(paperId, i)) == paperId
  {
    var s := RecordId(paperId, i);
    forall j | 0 <= j < |paperId| ensures !IsAt(s, "_", j) {
      assert s[j] == paperId[j];
    }
    assert IsAt(s, "_", |paperId|);
    assert Find(s, "_") == Some(|paperId|);
    SplitAt(s, "_", |paperId|);
    assert s[..|paperId|] == paperId;
  }

  /** `search_similar_papers`: one result per hit, in hit order, each with the
      recovered paper id and the hit's own document and metadata. */
  function SearchSimilarPapers(hits: seq<Record>): (r: seq<Hit>)
    ensures |r| == |hits|
    ensures forall i | 0 <= i < |hits| ::
      r[i].paperId == PaperIdOf(hits[i].id) && r[i].content == hits[i].document && r[i].metadata == hits[i].metadata
  {
    seq(|hits|, i requires 0 <= i < |hits| => Hit(PaperIdOf(hits[i].id), hits[i].document, hits[i].metadata))
  }

  /** The record belongs to paper `paperId`: the `where={"paper_id": ...}` filter. */
  predicate Owns(r: Record, paperId: string) {
    PaperIdKey in r.metadata && r.metadata[PaperIdKey] == Str(paperId)
  }

  /** The ownership test as a function value. */
  function OwnedBy(paperId: string): Record -> bool {
    r => Owns(r, paperId)
  }

  /** The records of paper `paperId`, in storage order: every owning record and
      nothing else, repeats included (by `FilterUnique`, the clauses below make
      it the filter of the collection). */
  function Matching(c: seq<Record>, paperId: string): (m: seq<Record>)
    ensures FilterOf(m, c, OwnedBy(paperId))
    ensures forall i | 0 <= i < |m| :: Owns(m[i], paperId)
    ensures forall i | 0 <= i < |c| :: Owns(c[i], paperId) ==> c[i] in m
    ensures |m| == 0 <==> forall i | 0 <= i < |c| :: !Owns(c[i], paperId)
    decreases |c|
  {
    if |c| == 0 then []
    else
      var tail := Matching(c[1..], paperId);
      if Owns(c[0], paperId) then
        assert ([c[0]] + tail)[1..] == tail;
        [c[0]] + tail
      else tail
  }

  /** The records `get` returns are exactly the comprehension-style filter of the collection. */
  lemma {:induction false} MatchingIsFilter(c: seq<Record>, paperId: string)
    ensures Matching(c, paperId) == Filter(c, OwnedBy(paperId))
  {
    FilterUnique(Matching(c, paperId), c, OwnedBy(paperId));
  }

  /** Filtering distributes over concatenation. */
  lemma {:induction false} MatchingAppend(a: seq<Record>, b: seq<Record>, paperId: string)
    ensures Matching(a + b, paperId) == Matching(a, paperId) + Matching(b, paperId)
    decreases |a|
  {
    if |a| > 0 {
      assert (a + b)[1..] == a[1..] + b;
      MatchingAppend(a[1..], b, paperId);
    } else {
      assert a + b == b;
    }
  }

  /** The first record of the collection that belongs to `paperId`. */
  lemma {:induction false} MatchingFirst(c: seq<Record>, paperId: string)
    requires |Matching(c, paperId)| > 0
    ensures exists i | 0 <= i < |c| ::
      c[i] == Matching(c, paperId)[0] && forall j | 0 <= j < i :: !Owns(c[j], paperId)
    decreases |c|
  {
    if !Owns(c[0], paperId) {
      MatchingFirst(c[1..], paperId);
      var i :| 0 <= i < |c[1..]| && c[1..][i] == Matching(c[1..], paperId)[0]
        && forall j | 0 <= j < i :: !Owns(c[1..][j], paperId);
      assert c[i + 1] == Matching(c, paperId)[0];
      forall j | 0 <= j < i + 1 ensures !Owns(c[j], paperId) {
        if j > 0 {
          assert c[j] == c[1..][j - 1];
        }
      }
    }
  }

  /** The documents of a list of records. */
  function DocumentsOf(rs: seq<Record>): (docs: seq<string>)
    ensures |docs| == |rs|
    ensures forall i | 0 <= i < |rs| :: docs[i] == rs[i].document
  {
    seq(|rs|, i requires 0 <= i < |rs| => rs[i].document)
  }

  /** `get_paper_by_id(paper_id)`: `None` when the backend raises (`backendFails`)
      or no record belongs to the paper; otherwise the documents of its records
      joined by single spaces, in storage order, with the metadata of the first one. */
  function GetPaperById(c: seq<Record>, paperId: string, backendFails: bool): (r: Option<Paper>)
    ensures r.None? <==> backendFails || forall i | 0 <= i < |c| :: !Owns(c[i], paperId)
    ensures r.Some? ==>
      && r.value.id == paperId
      && r.value.content == Join(" ", DocumentsOf(Matching(c, paperId)))
      && exists i | 0 <= i < |c| ::
           && Owns(c[i], paperId)
           && r.value.metadata == c[i].metadata
           && forall j | 0 <= j < i :: !Owns(c[j], paperId)
  {
    if backendFails then None
    else
      var m := Matching(c, paperId);
      if |m| == 0 then None
      else
        MatchingFirst(c, paperId);
        Some(Paper(paperId, Join(" ", DocumentsOf(m)), m[0].metadata))
  }

  /** Getting a freshly stored paper back: its documents joined by single
      spaces (so the chunks, when there were any) and the stamped metadata. */
  lemma {:induction false} GetAfterStore(c: seq<Record>, content: string, metadata: MetaMap, chunks: seq<string>, paperId: string)
    requires forall i | 0 <= i < |c| :: !Owns(c[i], paperId)
    ensures var c' := StorePaper(c, content, metadata, chunks, paperId).0;
      GetPaperById(c', paperId, false)
        == Some(Paper(paperId, Join(" ", Documents(content, chunks)), Stamp(metadata, paperId)))
  {
    var c' := StorePaper(c, content, metadata, chunks, paperId).0;
    var docs := Documents(content, chunks);
    var added := c'[|c|..];
    assert Matching(c', paperId) == added by {
      assert c' == c + added;
      MatchingAppend(c, added, paperId);
      MatchingNone(c, paperId);
      MatchingAll(added, paperId);
    }
    assert DocumentsOf(added) == docs by {
      forall i | 0 <= i < |docs| ensures DocumentsOf(added)[i] == docs[i] {
        assert added[i] == c'[|c| + i];
      }
    }
    assert added[0].metadata == Stamp(metadata, paperId) by {
      assert added[0] == c'[|c| + 0];
    }
    GetPaperByIdFound(c', paperId);
  }

  /** A paper with records is found, with its first record's metadata. */
  lemma {:induction false} GetPaperByIdFound(c: seq<Record>, paperId: string)
    requires |Matching(c, paperId)| > 0
    ensures var m := Matching(c, paperId);
      GetPaperById(c, paperId, false) == Some(Paper(paperId, Join(" ", DocumentsOf(m)), m[0].metadata))
  {
  }

  /** Records that all belong to the paper are all kept by the filter. */
  lemma {:induction false} MatchingAll(rs: seq<Record>, paperId: string)
    requires forall i | 0 <= i < |rs| :: Owns(rs[i], paperId)
    ensures Matching(rs, paperId) == rs
    decreases |rs|
  {
    if |rs| > 0 {
      MatchingAll(rs[1..], paperId);
    }
  }

  /** Storing a paper does not change what is retrieved for any other paper id. */
  lemma {:induction false} StoreKeepsOthers(c: seq<Record>, content: string, metadata: MetaMap, chunks: seq<string>,
                         paperId: string, other: string, backendFails: bool)
    requires other != paperId
    ensures var c' := StorePaper(c, content, metadata, chunks, paperId).0;
      GetPaperById(c', other, backendFails) == GetPaperById(c, other, backendFails)
  {
    var c' := StorePaper(c, content, metadata, chunks, paperId).0;
    var added := c'[|c|..];
    assert c' == c + added;
    MatchingAppend(c, added, other);
    MatchingNone(added, other);
    assert Matching(c', other) == Matching(c, other);
  }

  /** Records that all belong to other papers are all dropped by the filter. */
  lemma {:induction false} MatchingNone(rs: seq<Record>, paperId: string)
    requires forall i | 0 <= i < |rs| :: !Owns(rs[i], paperId)
    ensures Matching(rs, paperId) == []
    decreases |rs|
  {
    if |rs| > 0 {
      MatchingNone(rs[1..], paperId);
    }
  }

  /** Every record of a well-formed collection carries a paper id without `_`
      in its metadata, and its own id is that paper id, `_`, and a number. */
  ghost predicate WellFormed(c: seq<Record>) {
    forall r | r in c ::
      && PaperIdKey in r.metadata
      && r.metadata[PaperIdKey].Str?
      && '_' !in r.metadata[PaperIdKey].s
      && exists i: nat :: r.id == RecordId(r.metadata[PaperIdKey].s, i)
  }

  /** Storing under a paper id without `_` keeps the collection well-formed. */
  lemma {:induction false} StoreKeepsWellFormed(c: seq<Record>, content: string, metadata: MetaMap, chunks: seq<string>, paperId: string)
    requires WellFormed(c)
    requires '_' !in paperId
    ensures WellFormed(StorePaper(c, content, metadata, chunks, paperId).0)
  {
    var c' := StorePaper(c, content, metadata, chunks, paperId).0;
    forall r | r in c'
      ensures && PaperIdKey in r.metadata
              && r.metadata[PaperIdKey].Str?
              && '_' !in r.metadata[PaperIdKey].s
              && exists i: nat :: r.id == RecordId(r.metadata[PaperIdKey].s, i)
    {
      var k :| 0 <= k < |c'| && c'[k] == r;
      if k < |c| {
        assert r in c;
      } else {
        assert r.id == RecordId(paperId, k - |c|);
      }
    }
  }

  /** Searching a well-formed collection recovers, for every hit, the paper id
      recorded in the hit's own metadata. */
  lemma {:induction false} SearchRecoversPaperIds(c: seq<Record>, hits: seq<Record>)
    requires WellFormed(c)
    requires forall i | 0 <= i < |hits| :: hits[i] in c
    ensures var r := SearchSimilarPapers(hits);
      forall i | 0 <= i < |r| :: Str(r[i].paperId) == hits[i].metadata[PaperIdKey]
  {
    forall i | 0 <= i < |hits| ensures Str(PaperIdOf(hits[i].id)) == hits[i].metadata[PaperIdKey] {
      var h := hits[i];
      assert h in c;
      var k: nat :| h.id == RecordId(h.metadata[PaperIdKey].s, k);
      PaperIdOfRecordId(h.metadata[PaperIdKey].s, k);
    }
  }
}
