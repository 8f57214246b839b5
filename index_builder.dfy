/**
 * The offline index builder (`build_index`): every PDF's text is cut into
 * chunks, the chunks are embedded in batches of `BATCH_SIZE`, the vectors are
 * appended to the vector index and one metadata entry per chunk is appended to
 * the metadata list, numbered globally and per PDF.
 *
 * Reading a PDF and the embedding model are outside the model: a PDF arrives
 * with its extracted text, and the model is a function from a chunk to its
 * vector, applied chunk by chunk (which is what encoding a batch does row by
 * row).
 */
module IndexBuilder {
  import opened Wrappers
  import opened Text
  import opened Chunker

  const CHUNK_SIZE: int := 500
  const CHUNK_OVERLAP: int := 100
  const BATCH_SIZE: nat := 32

  /** A PDF file of the corpus with the text extracted from its pages. */
  datatype PdfFile = PdfFile(path: string, text: string)

  /** One metadata record: `global_id`, `pdf_path`, `chunk_id`, `text`. */
  datatype Entry = Entry(globalId: nat, pdfPath: string, chunkId: nat, text: string)

  /** An embedding vector; its dimension is the model's business. */
  type Vector = seq<real>

  /** What a build leaves behind: nothing when there is no PDF or no chunk,
      otherwise the index rows and the metadata that are saved. */
  datatype Outcome = NoPdfs | NoChunks | Written(index: seq<Vector>, metadata: seq<Entry>)

  /** The metadata entries of the chunks of one PDF, numbered from `base`. */
  function ChunkEntries(path: string, chunks: seq<string>, base: nat): (es: seq<Entry>)
    ensures |es| == |chunks|
  {
    seq(|chunks|, k requires 0 <= k < |chunks| => Entry(base + k, path, k, chunks[k]))
  }

  /** The entries one PDF contributes after `base` earlier chunks: none when
      its text is blank, otherwise one per chunk. */
  function PdfEntries(pdf: PdfFile, base: nat): seq<Entry> {
    if Strip(pdf.text) == [] then []
    else ChunkEntries(pdf.path, Chunks(pdf.text, CHUNK_SIZE, CHUNK_OVERLAP), base)
  }

  /** The metadata list after the given PDFs have been processed in order. */
  function Entries(pdfs: seq<PdfFile>): seq<Entry>
    decreases |pdfs|
  {
    if pdfs == [] then []
    else
      var prior := Entries(pdfs[..|pdfs| - 1]);
      prior + PdfEntries(pdfs[|pdfs| - 1], |prior|)
  }

  /** The index rows: the vector of each entry's text, in metadata order. */
  function Embeddings(embed: string -> Vector, es: seq<Entry>): (rows: seq<Vector>)
    ensures |rows| == |es|
  {
    seq(|es|, k requires 0 <= k < |es| => embed(es[k].text))
  }

  /** The vectors of a batch of chunks. */
  function Encode(embed: string -> Vector, batch: seq<string>): (rows: seq<Vector>)
    ensures |rows| == |batch|
  {
    seq(|batch|, k requires 0 <= k < |batch| => embed(batch[k]))
  }

  function Min(a: int, b: int): int {
    if a < b then a else b
  }

  /** The outcome `build_index` reaches for the PDFs, listed in sorted order. */
  function Build(pdfs: seq<PdfFile>, embed: string -> Vector): Outcome {
    if pdfs == [] then NoPdfs
    else if Entries(pdfs) == [] then NoChunks
    else Written(Embeddings(embed, Entries(pdfs)), Entries(pdfs))
  }

  lemma EntriesSnoc(pdfs: seq<PdfFile>, p: nat)
    requires p < |pdfs|
    ensures Entries(pdfs[..p + 1]) == Entries(pdfs[..p]) + PdfEntries(pdfs[p], |Entries(pdfs[..p])|)
  {
    assert pdfs[..p + 1][..p] == pdfs[..p];
  }

  /** Appending the entry of chunk `k` extends the entries of the first `k` chunks. */
  lemma ChunkEntriesStep(path: string, chunks: seq<string>, prior: seq<Entry>, k: nat)
    requires k < |chunks|
    ensures (prior + ChunkEntries(path, chunks[..k], |prior|)) + [Entry(|prior| + k, path, k, chunks[k])]
         == prior + ChunkEntries(path, chunks[..k + 1], |prior|)
  {
    var e := Entry(|prior| + k, path, k, chunks[k]);
    AppendAssoc(prior, ChunkEntries(path, chunks[..k], |prior|), [e]);
    assert ChunkEntries(path, chunks[..k], |prior|) + [e] == ChunkEntries(path, chunks[..k + 1], |prior|);
  }

  /** Appending an entry to the metadata moves one vector of the pending
      batch over to the embedded metadata. */
  lemma EmbeddingsStep(embed: string -> Vector, es: seq<Entry>, e: Entry, batch: seq<string>, j: nat)
    requires j < |batch| && e.text == batch[j]
    ensures Embeddings(embed, es) + Encode(embed, batch[j..]) ==
            Embeddings(embed, es + [e]) + Encode(embed, batch[j + 1..])
  {
    var lhs := Embeddings(embed, es) + Encode(embed, batch[j..]);
    var rhs := Embeddings(embed, es + [e]) + Encode(embed, batch[j + 1..]);
    assert |lhs| == |rhs|;
    forall k | 0 <= k < |lhs| ensures lhs[k] == rhs[k] {
      if k < |es| {
      } else if k == |es| {
      } else {
        assert batch[j..][k - |es|] == batch[j + 1..][k - |es| - 1];
      }
    }
  }

  /** One PDF's share of the main loop: its chunks are embedded in batches of
      `BATCH_SIZE`; each batch's vectors are added to the index (created on
      the first batch) and each chunk gets a metadata entry numbered by the
      running total and by its position in the PDF. */
  method EmbedChunks(path: string, chunks: seq<string>, embed: string -> Vector,
                     index0: Option<seq<Vector>>, metadata0: seq<Entry>)
    returns (index: Option<seq<Vector>>, metadata: seq<Entry>)
    requires index0 == None <==> metadata0 == []
    requires index0.Some? ==> index0.value == Embeddings(embed, metadata0)
    ensures metadata == metadata0 + ChunkEntries(path, chunks, |metadata0|)
    ensures index == None <==> metadata == []
    ensures index.Some? ==> index.value == Embeddings(embed, metadata)
  {
    index, metadata := index0, metadata0;
    var totalChunks := |metadata0|;
    var i := 0;
    while i < |chunks|
      invariant metadata == metadata0 + ChunkEntries(path, chunks[..Min(i, |chunks|)], |metadata0|)
      invariant totalChunks == |metadata|
      invariant index == None <==> metadata == []
      invariant index.Some? ==> index.value == Embeddings(embed, metadata)
      decreases |chunks| - i
    {
      var batch := chunks[i..Min(i + BATCH_SIZE, |chunks|)];
      var embeddings := Encode(embed, batch);
      if index == None {
        index := Some([]);
      }
      index := Some(index.value + embeddings);
      metadata, totalChunks := RecordBatch(path, chunks, embed, i, batch, metadata0, metadata, index.value);
      i := i + BATCH_SIZE;
    }
  }

  /** The metadata half of one batch: each chunk of the batch, starting at
      position `i` of the PDF, gets the next entry, so that the entries keep
      pace with the vectors already appended to the index. */
  method RecordBatch(path: string, chunks: seq<string>, embed: string -> Vector, i: nat,
                     batch: seq<string>, prior: seq<Entry>, metadata0: seq<Entry>, ghost vectors: seq<Vector>)
    returns (metadata: seq<Entry>, totalChunks: nat)
    requires i + |batch| <= |chunks| && batch == chunks[i..i + |batch|]
    requires metadata0 == prior + ChunkEntries(path, chunks[..i], |prior|)
    requires vectors == Embeddings(embed, metadata0) + Encode(embed, batch)
    ensures metadata == prior + ChunkEntries(path, chunks[..i + |batch|], |prior|)
    ensures totalChunks == |metadata|
    ensures vectors == Embeddings(embed, metadata)
  {
    metadata, totalChunks := metadata0, |metadata0|;
    var j := 0;
    while j < |batch|
      invariant j <= |batch|
      invariant metadata == prior + ChunkEntries(path, chunks[..i + j], |prior|)
      invariant totalChunks == |metadata|
      invariant vectors == Embeddings(embed, metadata) + Encode(embed, batch[j..])
    {
      assert batch[j] == chunks[i + j];
      ChunkEntriesStep(path, chunks, prior, i + j);
      EmbeddingsStep(embed, metadata, Entry(totalChunks, path, i + j, batch[j]), batch, j);
      metadata := metadata + [Entry(totalChunks, path, i + j, batch[j])];
      totalChunks := totalChunks + 1;
      j := j + 1;
    }
    assert batch[j..] == [];
  }

  /** The main loop of `build_index`: PDFs in order, blank ones skipped. */
  method BuildIndex(pdfs: seq<PdfFile>, embed: string -> Vector) returns (outcome: Outcome)
    ensures outcome == Build(pdfs, embed)
  {
    var index: Option<seq<Vector>> := None;
    var metadata: seq<Entry> := [];
    if pdfs == [] {
      return NoPdfs;
    }
    var p := 0;
    while p < |pdfs|
      invariant p <= |pdfs|
      invariant metadata == Entries(pdfs[..p])
      invariant index == None <==> metadata == []
      invariant index.Some? ==> index.value == Embeddings(embed, metadata)
    {
      var pdf := pdfs[p];
      EntriesSnoc(pdfs, p);
      if Strip(pdf.text) == [] {
        p := p + 1;
        continue;
      }
      var chunks := SplitIntoChunks(pdf.text, CHUNK_SIZE, CHUNK_OVERLAP);
      index, metadata := EmbedChunks(pdf.path, chunks, embed, index, metadata);
      p := p + 1;
    }
    assert pdfs[..p] == pdfs;
    if index == None {
      return NoChunks;
    }
    return Written(index.value, metadata);
  }

  /** Every entry's `global_id` is its position in the metadata list. */
  lemma {:induction false} GlobalIdIsPosition(pdfs: seq<PdfFile>)
    ensures forall k :: 0 <= k < |Entries(pdfs)| ==> Entries(pdfs)[k].globalId == k
    decreases |pdfs|
  {
    if pdfs != [] {
      GlobalIdIsPosition(pdfs[..|pdfs| - 1]);
    }
  }

  /** Entry `k` either opens a PDF's run with `chunk_id` 0 or follows the
      previous chunk of the same PDF. */
  predicate NumberedInRun(es: seq<Entry>, k: int)
    requires 0 <= k < |es|
  {
    es[k].chunkId == 0 ||
    (0 < k && es[k - 1].pdfPath == es[k].pdfPath && es[k - 1].chunkId + 1 == es[k].chunkId)
  }

  /** Within a PDF the `chunk_id`s count up from 0, one per chunk. */
  lemma {:induction false} ChunkIdsConsecutive(pdfs: seq<PdfFile>)
    ensures forall k :: 0 <= k < |Entries(pdfs)| ==> NumberedInRun(Entries(pdfs), k)
    decreases |pdfs|
  {
    if pdfs != [] {
      var prefix := pdfs[..|pdfs| - 1];
      ChunkIdsConsecutive(prefix);
      var prior := Entries(prefix);
      var added := PdfEntries(pdfs[|pdfs| - 1], |prior|);
      var es := prior + added;
      forall k | 0 <= k < |es| ensures NumberedInRun(es, k) {
        if k < |prior| {
          assert NumberedInRun(prior, k);
        } else if k > |prior| {
          assert es[k] == added[k - |prior|] && es[k - 1] == added[k - 1 - |prior|];
        }
      }
    }
  }

  /** `e` records chunk `e.chunkId` of PDF `p`. */
  predicate ChunkOf(pdfs: seq<PdfFile>, e: Entry, p: int) {
    && 0 <= p < |pdfs|
    && e.pdfPath == pdfs[p].path
    && e.chunkId < |Chunks(pdfs[p].text, CHUNK_SIZE, CHUNK_OVERLAP)|
    && e.text == Chunks(pdfs[p].text, CHUNK_SIZE, CHUNK_OVERLAP)[e.chunkId]
  }

  /** Every entry records a chunk of one of the PDFs: its path, a valid
      chunk position and exactly that chunk's text. */
  lemma {:induction false} EntriesProvenance(pdfs: seq<PdfFile>)
    ensures forall e :: e in Entries(pdfs) ==> exists p :: ChunkOf(pdfs, e, p)
    decreases |pdfs|
  {
    if pdfs != [] {
      var prefix := pdfs[..|pdfs| - 1];
      EntriesProvenance(prefix);
      forall e | e in Entries(pdfs) ensures exists p :: ChunkOf(pdfs, e, p) {
        if e in Entries(prefix) {
          var p :| ChunkOf(prefix, e, p);
          assert prefix[p] == pdfs[p];
          assert ChunkOf(pdfs, e, p);
        } else {
          assert ChunkOf(pdfs, e, |pdfs| - 1);
        }
      }
    }
  }

  /** The chunks of all PDFs, in order, with no PDF skipped. */
  function AllChunks(pdfs: seq<PdfFile>): seq<string>
    decreases |pdfs|
  {
    if pdfs == [] then []
    else AllChunks(pdfs[..|pdfs| - 1]) + Chunks(pdfs[|pdfs| - 1].text, CHUNK_SIZE, CHUNK_OVERLAP)
  }

  function Texts(es: seq<Entry>): (ts: seq<string>)
    ensures |ts| == |es|
  {
    seq(|es|, k requires 0 <= k < |es| => es[k].text)
  }

  lemma TextsAppend(a: seq<Entry>, b: seq<Entry>)
    ensures Texts(a + b) == Texts(a) + Texts(b)
  {
    assert forall k :: 0 <= k < |a| + |b| ==> Texts(a + b)[k] == (Texts(a) + Texts(b))[k];
  }

  /** A PDF's entries carry its chunks; a blank PDF has none to carry. */
  lemma PdfEntriesTexts(pdf: PdfFile, base: nat)
    ensures Texts(PdfEntries(pdf, base)) == Chunks(pdf.text, CHUNK_SIZE, CHUNK_OVERLAP)
  {
    StripBlank(pdf.text);
    if Blank(pdf.text) {
      BlankTextNoChunks(pdf.text, CHUNK_SIZE, CHUNK_OVERLAP);
    }
  }

  /** The metadata holds every chunk of every PDF, in order: skipping the
      blank PDFs loses nothing, since a blank text has no chunk. */
  lemma {:induction false} EntriesHoldAllChunks(pdfs: seq<PdfFile>)
    ensures Texts(Entries(pdfs)) == AllChunks(pdfs)
    decreases |pdfs|
  {
    if pdfs != [] {
      var prefix := pdfs[..|pdfs| - 1];
      var pdf := pdfs[|pdfs| - 1];
      EntriesHoldAllChunks(prefix);
      var prior := Entries(prefix);
      PdfEntriesTexts(pdf, |prior|);
      TextsAppend(prior, PdfEntries(pdf, |prior|));
    }
  }

  /** With at least one PDF, nothing is written exactly when every PDF's text
      is blank. */
  lemma {:induction false} NoChunksIffAllBlank(pdfs: seq<PdfFile>, embed: string -> Vector)
    requires pdfs != []
    ensures Build(pdfs, embed) == NoChunks <==> forall p :: 0 <= p < |pdfs| ==> Blank(pdfs[p].text)
  {
    EntriesHoldAllChunks(pdfs);
    AllChunksEmptyIff(pdfs);
  }

  lemma {:induction false} AllChunksEmptyIff(pdfs: seq<PdfFile>)
    ensures AllChunks(pdfs) == [] <==> forall p :: 0 <= p < |pdfs| ==> Blank(pdfs[p].text)
    decreases |pdfs|
  {
    if pdfs != [] {
      var prefix := pdfs[..|pdfs| - 1];
      var last := pdfs[|pdfs| - 1].text;
      AllChunksEmptyIff(prefix);
      if Blank(last) {
        BlankTextNoChunks(last, CHUNK_SIZE, CHUNK_OVERLAP);
      } else {
        TextYieldsChunk(last, CHUNK_SIZE, CHUNK_OVERLAP);
      }
      if forall p :: 0 <= p < |prefix| ==> Blank(prefix[p].text) {
        assert forall p :: 0 <= p < |pdfs| - 1 ==> pdfs[p] == prefix[p];
      } else {
        var p :| 0 <= p < |prefix| && !Blank(prefix[p].text);
        assert pdfs[p] == prefix[p];
      }
    }
  }
}
