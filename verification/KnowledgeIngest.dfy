/** Document ingest and deletion in a knowledge base. */
module KnowledgeIngest {
  import opened Prelude
  import opened StableSort
  import opened Chunker

  datatype Status = VALIDATING | PROCESSING | CHUNKING | READY | FAILED

  /** A document row; its id is its position in the table. */
  datatype Document = Document(kb: nat, checksum: string, status: Status, isDeleted: bool)

  datatype ChunkRow = ChunkRow(
    documentId: nat, chunkIndex: nat, text: string, tokenCount: nat, characterCount: nat, isDeleted: bool)

  const CHUNK_SIZE := 1000

  function ChunksFor(text: string): seq<Chunk> {
    ChunkList(text, CHUNK_SIZE)
  }

  /** Where an ingest can raise once its document row exists: at the PROCESSING write, in the
      extraction, at the CHUNKING write, in the metadata merge or the chunker, or at the write
      of the given chunk (past the last chunk, at the READY write). */
  datatype Stage = ProcessingWrite | Extraction | ChunkingWrite | Preparation | Storing(at: nat)

  /** What goes wrong in an ingest. Creating the row is outside the handler; after a raise at a
      later stage the handler writes FAILED, and `recorded` says whether that write succeeds. */
  datatype Fault = NoFault | CreateRaises | StageRaises(stage: Stage, recorded: bool)

  /** What goes wrong in a deletion: the write that flags the document raises, or the given
      chunk write does. */
  datatype DeletionFault = NoneRaises | DocumentRaises | ChunkRaises(at: nat)

  /** `deletion` is for the copy that a "replace" deletes. */
  datatype Request = Request(
    kb: nat, valid: bool, checksum: string, policy: string, text: string, fault: Fault, deletion: DeletionFault)

  /** The two tables, the text extracted for each document that got that far, and the documents
      whose deletion raised before all their chunks were flagged. */
  datatype Store = Store(docs: seq<Document>, chunks: seq<ChunkRow>, texts: map<nat, string>, torn: set<nat>)

  // ---- reading the tables ----

  predicate IsActive(d: Document, kb: nat, checksum: string) {
    d.kb == kb && d.checksum == checksum && !d.isDeleted
  }

  function FindActive(docs: seq<Document>, kb: nat, checksum: string, from: nat := 0): (r: Option<nat>)
    requires from <= |docs|
    ensures r.Some? ==> from <= r.value < |docs| && IsActive(docs[r.value], kb, checksum)
    ensures r.None? ==> forall i :: from <= i < |docs| ==> !IsActive(docs[i], kb, checksum)
    decreases |docs| - from
  {
    if from == |docs| then None
    else if IsActive(docs[from], kb, checksum) then Some(from)
    else FindActive(docs, kb, checksum, from + 1)
  }

  function ActiveOf(d: nat): ChunkRow -> bool {
    (c: ChunkRow) => c.documentId == d && !c.isDeleted
  }

  function ActiveRows(chunks: seq<ChunkRow>, d: nat): seq<ChunkRow> {
    Filter(ActiveOf(d), chunks)
  }

  function Row(d: nat, i: nat, c: Chunk): ChunkRow {
    ChunkRow(d, i, c.text, c.tokenCount, c.characterCount, false)
  }

  /** Rows for the first `n` chunks, numbered from 0. */
  function Rows(d: nat, cs: seq<Chunk>, n: nat): (r: seq<ChunkRow>)
    requires n <= |cs|
    ensures |r| == n
  {
    if n == 0 then [] else Rows(d, cs, n - 1) + [Row(d, n - 1, cs[n - 1])]
  }

  lemma {:induction false} RowsShape(d: nat, cs: seq<Chunk>, n: nat)
    requires n <= |cs|
    ensures forall i :: 0 <= i < n ==> Rows(d, cs, n)[i] == Row(d, i, cs[i])
  {
    if n > 0 {
      RowsShape(d, cs, n - 1);
    }
  }

  // ---- the operations on values ----

  /** Flag the first `n` active chunks of a document. */
  function ErasedFirst(chunks: seq<ChunkRow>, d: nat, n: nat): (r: seq<ChunkRow>)
    ensures |r| == |chunks|
  {
    if chunks == [] || n == 0 then chunks
    else if ActiveOf(d)(chunks[0]) then [chunks[0].(isDeleted := true)] + ErasedFirst(chunks[1..], d, n - 1)
    else [chunks[0]] + ErasedFirst(chunks[1..], d, n)
  }

  function Writes(f: DeletionFault, rows: nat): nat {
    if f.ChunkRaises? && f.at < rows then f.at else rows
  }

  predicate Tears(s: Store, d: nat, f: DeletionFault) {
    f.ChunkRaises? && f.at < |ActiveRows(s.chunks, d)|
  }

  predicate DeletionRaises(s: Store, d: nat, f: DeletionFault) {
    d < |s.docs| && !s.docs[d].isDeleted && (f.DocumentRaises? || Tears(s, d, f))
  }

  function Deleted(s: Store, d: nat, f: DeletionFault): Store {
    if d < |s.docs| && !s.docs[d].isDeleted && !f.DocumentRaises? then
      s.(docs := s.docs[d := s.docs[d].(isDeleted := true)],
         chunks := ErasedFirst(s.chunks, d, Writes(f, |ActiveRows(s.chunks, d)|)),
         torn := if Tears(s, d, f) then s.torn + {d} else s.torn)
    else s
  }

  /** The status in the table when a stage raises. */
  function StatusAt(stage: Stage): Status {
    match stage
    case ProcessingWrite => VALIDATING
    case Extraction => PROCESSING
    case ChunkingWrite => PROCESSING
    case Preparation => CHUNKING
    case Storing(_) => CHUNKING
  }

  function FinalStatus(f: Fault): Status
    requires !f.CreateRaises?
  {
    if f.NoFault? then READY else if f.recorded then FAILED else StatusAt(f.stage)
  }

  predicate Extracted(f: Fault) {
    f.NoFault? || (f.StageRaises? && !f.stage.ProcessingWrite? && !f.stage.Extraction?)
  }

  function StoredCount(f: Fault, all: nat): (n: nat)
    ensures n <= all
  {
    if f.NoFault? then all
    else if f.StageRaises? && f.stage.Storing? then if f.stage.at < all then f.stage.at else all
    else 0
  }

  function Added(s: Store, r: Request): Store {
    if r.fault.CreateRaises? then s
    else
      var d, cs := |s.docs|, ChunksFor(r.text);
      s.(docs := s.docs + [Document(r.kb, r.checksum, FinalStatus(r.fault), false)],
         chunks := s.chunks + Rows(d, cs, StoredCount(r.fault, |cs|)),
         texts := if Extracted(r.fault) then s.texts[d := r.text] else s.texts)
  }

  predicate Duplicate(s: Store, r: Request) {
    FindActive(s.docs, r.kb, r.checksum).Some?
  }

  function Ingested(s: Store, r: Request): Store {
    if !r.valid then s
    else if Duplicate(s, r) && r.policy == "reject" then s
    else if Duplicate(s, r) && r.policy == "replace" then
      var d := FindActive(s.docs, r.kb, r.checksum).value;
      var t := Deleted(s, d, r.deletion);
      if DeletionRaises(s, d, r.deletion) then t else Added(t, r)
    else Added(s, r)
  }

  // ---- what every run keeps ----

  /** The rows are the leading chunks in order, numbered from 0. */
  ghost predicate Numbered(rows: seq<ChunkRow>, d: nat, cs: seq<Chunk>) {
    && |rows| <= |cs|
    && forall i :: 0 <= i < |rows| ==>
         && rows[i].documentId == d && rows[i].chunkIndex == i && !rows[i].isDeleted
         && rows[i].text == cs[i].text && rows[i].tokenCount == cs[i].tokenCount
         && rows[i].characterCount == cs[i].characterCount
  }

  lemma {:induction false} RowsNumbered(d: nat, cs: seq<Chunk>, n: nat)
    requires n <= |cs|
    ensures Numbered(Rows(d, cs, n), d, cs)
  {
    RowsShape(d, cs, n);
  }

  /** Active chunks of a document are the leading chunks of its text, numbered from 0: all of
      them when it is READY, none when its status is still VALIDATING or PROCESSING or its text
      was never extracted. A deleted document has active chunks exactly when its deletion was
      torn. */
  ghost predicate Consistent(s: Store, d: nat)
    requires d < |s.docs|
  {
    var rows, status := ActiveRows(s.chunks, d), s.docs[d].status;
    if s.docs[d].isDeleted then rows != [] <==> d in s.torn
    else if d !in s.texts then rows == [] && status in {VALIDATING, PROCESSING, FAILED}
    else
      && Numbered(rows, d, ChunkList(s.texts[d], 1000))
      && status != VALIDATING && (status == PROCESSING ==> rows == [])
      && (status == READY ==> |rows| == |ChunkList(s.texts[d], 1000)|)
  }

  ghost predicate Known(s: Store) {
    && (forall c :: c in s.chunks ==> c.documentId < |s.docs|)
    && (forall d :: d in s.texts ==> d < |s.docs|)
    && forall d :: d in s.torn ==> d < |s.docs| && s.docs[d].isDeleted
  }

  ghost predicate Inv(s: Store) {
    Known(s) && forall d :: 0 <= d < |s.docs| ==> Consistent(s, d)
  }

  /** No two active documents of a knowledge base share a checksum. */
  ghost predicate Unique(docs: seq<Document>) {
    forall i, j :: 0 <= i < j < |docs| && !docs[i].isDeleted && !docs[j].isDeleted && docs[i].kb == docs[j].kb ==>
      docs[i].checksum != docs[j].checksum
  }

  lemma {:induction false} ErasedRows(chunks: seq<ChunkRow>, d: nat, n: nat, e: nat)
    requires n <= |ActiveRows(chunks, d)|
    ensures ActiveRows(ErasedFirst(chunks, d, n), e) ==
            if e == d then ActiveRows(chunks, d)[n..] else ActiveRows(chunks, e)
  {
    if chunks != [] && n > 0 {
      var rest := chunks[1..];
      if ActiveOf(d)(chunks[0]) {
        ErasedRows(rest, d, n - 1, e);
        assert ([chunks[0].(isDeleted := true)] + ErasedFirst(rest, d, n - 1))[1..] == ErasedFirst(rest, d, n - 1);
        assert ActiveRows(chunks, d)[n..] == ActiveRows(rest, d)[n - 1..];
      } else {
        ErasedRows(rest, d, n, e);
        assert ([chunks[0]] + ErasedFirst(rest, d, n))[1..] == ErasedFirst(rest, d, n);
      }
    }
  }

  /** A walk over chunk rows: those in `done` are dealt with, `written` of them flagged. */
  datatype Flags = Flags(done: seq<ChunkRow>, rest: seq<ChunkRow>, written: nat)

  /** Flagging what is left in `rest` gives the target. */
  ghost predicate Flagging(was: seq<ChunkRow>, d: nat, all: nat, w: Flags) {
    && w.written <= all
    && w.written + |ActiveRows(w.rest, d)| == |ActiveRows(was, d)|
    && w.done + ErasedFirst(w.rest, d, all - w.written) == ErasedFirst(was, d, all)
  }

  lemma {:induction false} SkipRow(was: seq<ChunkRow>, d: nat, all: nat, w: Flags)
    requires Flagging(was, d, all, w) && w.rest != [] && !ActiveOf(d)(w.rest[0])
    ensures Flagging(was, d, all, Flags(w.done + [w.rest[0]], w.rest[1..], w.written))
  {
    assert [w.rest[0]] + w.rest[1..] == w.rest;
  }

  lemma {:induction false} FlagRow(was: seq<ChunkRow>, d: nat, all: nat, w: Flags)
    requires Flagging(was, d, all, w) && w.rest != [] && ActiveOf(d)(w.rest[0]) && w.written < all
    ensures Flagging(was, d, all, Flags(w.done + [w.rest[0].(isDeleted := true)], w.rest[1..], w.written + 1))
  {
  }

  lemma {:induction false} ErasedIds(chunks: seq<ChunkRow>, d: nat, n: nat, bound: nat)
    requires forall c :: c in chunks ==> c.documentId < bound
    ensures forall c :: c in ErasedFirst(chunks, d, n) ==> c.documentId < bound
  {
    if chunks != [] && n > 0 {
      ErasedIds(chunks[1..], d, n - 1, bound);
      ErasedIds(chunks[1..], d, n, bound);
    }
  }

  lemma {:induction false} DeletedConsistent(s: Store, d: nat, f: DeletionFault, e: nat)
    requires d < |s.docs| && e < |s.docs| && Consistent(s, e)
    requires d in s.torn ==> s.docs[d].isDeleted
    ensures Consistent(Deleted(s, d, f), e)
  {
    ErasedRows(s.chunks, d, Writes(f, |ActiveRows(s.chunks, d)|), e);
  }

  lemma {:induction false} DeletedInv(s: Store, d: nat, f: DeletionFault)
    requires Inv(s)
    ensures Inv(Deleted(s, d, f))
  {
    if d < |s.docs| {
      ErasedIds(s.chunks, d, Writes(f, |ActiveRows(s.chunks, d)|), |s.docs|);
      forall e | 0 <= e < |s.docs| ensures Consistent(Deleted(s, d, f), e) {
        DeletedConsistent(s, d, f, e);
      }
    }
  }

  lemma {:induction false} AddedRows(chunks: seq<ChunkRow>, cs: seq<Chunk>, n: nat, d: nat, e: nat)
    requires n <= |cs| && forall c :: c in chunks ==> c.documentId < d
    ensures ActiveRows(chunks + Rows(d, cs, n), e) == if e == d then Rows(d, cs, n) else ActiveRows(chunks, e)
  {
    FilterAppend(ActiveOf(e), chunks, Rows(d, cs, n));
    RowsShape(d, cs, n);
    if e == d {
      FilterOut(ActiveOf(d), chunks);
      FilterAll(ActiveOf(d), Rows(d, cs, n));
    } else {
      FilterOut(ActiveOf(e), Rows(d, cs, n));
      assert ActiveRows(chunks, e) + [] == ActiveRows(chunks, e);
    }
  }

  lemma {:induction false} OldConsistent(s: Store, r: Request, e: nat)
    requires Known(s) && !r.fault.CreateRaises? && e < |s.docs| && Consistent(s, e)
    ensures Consistent(Added(s, r), e)
  {
    var t, cs := Added(s, r), ChunksFor(r.text);
    AddedRows(s.chunks, cs, StoredCount(r.fault, |cs|), |s.docs|, e);
    assert t.docs[e] == s.docs[e] && ActiveRows(t.chunks, e) == ActiveRows(s.chunks, e);
    assert e in t.texts <==> e in s.texts;
  }

  lemma {:induction false} NewConsistent(s: Store, r: Request)
    requires Known(s) && !r.fault.CreateRaises?
    ensures Consistent(Added(s, r), |s.docs|)
  {
    var t, cs, d := Added(s, r), ChunksFor(r.text), |s.docs|;
    AddedRows(s.chunks, cs, StoredCount(r.fault, |cs|), d, d);
    assert ActiveRows(t.chunks, d) == Rows(d, cs, StoredCount(r.fault, |cs|));
    RowsNumbered(d, cs, StoredCount(r.fault, |cs|));
    assert d in t.texts <==> Extracted(r.fault);
  }

  lemma {:induction false} AddedKnown(s: Store, r: Request)
    requires Known(s)
    ensures Known(Added(s, r))
  {
    var cs := ChunksFor(r.text);
    RowsShape(|s.docs|, cs, StoredCount(r.fault, |cs|));
  }

  lemma {:induction false} AddedInv(s: Store, r: Request)
    requires Inv(s)
    ensures Inv(Added(s, r))
  {
    AddedKnown(s, r);
    if !r.fault.CreateRaises? {
      forall e | 0 <= e <= |s.docs| ensures Consistent(Added(s, r), e) {
        if e < |s.docs| {
          OldConsistent(s, r, e);
        } else {
          NewConsistent(s, r);
        }
      }
    }
  }

  lemma {:induction false} IngestedInv(s: Store, r: Request)
    requires Inv(s)
    ensures Inv(Ingested(s, r))
  {
    if Duplicate(s, r) && r.policy == "replace" {
      var d := FindActive(s.docs, r.kb, r.checksum).value;
      DeletedInv(s, d, r.deletion);
      AddedInv(Deleted(s, d, r.deletion), r);
    } else {
      AddedInv(s, r);
    }
  }

  // ---- what one call does, in the fields of the rows ----

  lemma {:induction false} ActiveRowsInFields(chunks: seq<ChunkRow>, d: nat)
    ensures ActiveRows(chunks, d) == Filter((c: ChunkRow) => c.documentId == d && !c.isDeleted, chunks)
  {
    SameFilter(ActiveOf(d), (c: ChunkRow) => c.documentId == d && !c.isDeleted, chunks);
  }

  /** The row of a new document, its status for every place where the ingest can raise, and how
      many of its chunks are stored. The other documents are as they were. */
  lemma {:induction false} AddedInFields(s: Store, r: Request)
    requires Known(s) && !r.fault.CreateRaises?
    ensures var d, t, cs := |s.docs|, Added(s, r), ChunkList(r.text, 1000);
            var status, stored := t.docs[d].status, ActiveRows(t.chunks, d);
            && t.docs == s.docs + [Document(r.kb, r.checksum, status, false)]
            && Numbered(stored, d, cs)
            && (r.fault.NoFault? ==> status == READY && |stored| == |cs|)
            && (r.fault.StageRaises? && r.fault.recorded ==> status == FAILED)
            && (r.fault.StageRaises? ==> StoppedAt(r.fault.stage, r.fault.recorded, status, |stored|, |cs|))
  {
    var d, cs := |s.docs|, ChunksFor(r.text);
    AddedRows(s.chunks, cs, StoredCount(r.fault, |cs|), d, d);
    RowsNumbered(d, cs, StoredCount(r.fault, |cs|));
  }

  /** Without the handler's write the status is the last one written before the raise. */
  ghost predicate StoppedAt(stage: Stage, recorded: bool, status: Status, stored: nat, all: nat) {
    match stage
    case ProcessingWrite => stored == 0 && (!recorded ==> status == VALIDATING)
    case Extraction => stored == 0 && (!recorded ==> status == PROCESSING)
    case ChunkingWrite => stored == 0 && (!recorded ==> status == PROCESSING)
    case Preparation => stored == 0 && (!recorded ==> status == CHUNKING)
    case Storing(at) => stored == (if at < all then at else all) && (!recorded ==> status == CHUNKING)
  }

  lemma {:induction false} ErasedInFields(chunks: seq<ChunkRow>, d: nat, n: nat, i: nat)
    requires i < |chunks|
    ensures var t := ErasedFirst(chunks, d, n);
            && t[i] == chunks[i].(isDeleted := t[i].isDeleted)
            && (t[i].isDeleted <==> chunks[i].isDeleted ||
                                    (chunks[i].documentId == d && |ActiveRows(chunks[..i], d)| < n))
  {
    if n > 0 {
      var active := ActiveOf(d)(chunks[0]);
      if i > 0 {
        ErasedInFields(chunks[1..], d, if active then n - 1 else n, i - 1);
        assert chunks[1..][i - 1] == chunks[i];
        assert chunks[..i][1..] == chunks[1..][..i - 1];
      }
    }
  }

  /** A deletion sets two kinds of flags and nothing else: that of the document, and those of its
      active chunks that come before the write that raises. */
  lemma {:induction false} DeletedInFields(s: Store, d: nat, f: DeletionFault, i: nat)
    requires d < |s.docs| && !s.docs[d].isDeleted && !f.DocumentRaises? && i < |s.chunks|
    ensures var t := Deleted(s, d, f);
            && t.docs == s.docs[d := s.docs[d].(isDeleted := true)]
            && |t.chunks| == |s.chunks|
            && t.chunks[i] == s.chunks[i].(isDeleted := t.chunks[i].isDeleted)
            && (t.chunks[i].isDeleted <==>
                s.chunks[i].isDeleted ||
                (s.chunks[i].documentId == d && (f.ChunkRaises? ==> |ActiveRows(s.chunks[..i], d)| < f.at)))
  {
    var rows := |ActiveRows(s.chunks, d)|;
    ErasedInFields(s.chunks, d, Writes(f, rows), i);
    if !s.chunks[i].isDeleted && s.chunks[i].documentId == d {
      assert s.chunks == s.chunks[..i] + ([s.chunks[i]] + s.chunks[i + 1..]);
      FilterAppend(ActiveOf(d), s.chunks[..i], [s.chunks[i]] + s.chunks[i + 1..]);
    }
  }

  /** An unknown or deleted document, and one whose own write raises, stays as it is. */
  lemma {:induction false} NotDeleted(s: Store, d: nat, f: DeletionFault)
    requires d >= |s.docs| || s.docs[d].isDeleted || f.DocumentRaises?
    ensures Deleted(s, d, f) == s
  {
  }

  /** A refused request changes nothing. */
  lemma {:induction false} RefusedChangesNothing(s: Store, r: Request, i: nat)
    requires !r.valid || (i < |s.docs| && r.policy == "reject" && !s.docs[i].isDeleted &&
                          s.docs[i].kb == r.kb && s.docs[i].checksum == r.checksum)
    ensures Ingested(s, r) == s
  {
    if r.valid {
      assert IsActive(s.docs[i], r.kb, r.checksum);
    }
  }

  /** Any other request without faults ends with a new READY document that holds the content. */
  lemma {:induction false} AcceptedIsStored(s: Store, r: Request)
    requires Inv(s) && r.valid && r.fault.NoFault? && r.deletion.NoneRaises?
    requires r.policy == "reject" ==>
               forall i :: 0 <= i < |s.docs| ==>
                 s.docs[i].isDeleted || s.docs[i].kb != r.kb || s.docs[i].checksum != r.checksum
    ensures var t, d := Ingested(s, r), |s.docs|;
            && |t.docs| == d + 1 && t.docs[d] == Document(r.kb, r.checksum, READY, false)
            && Numbered(ActiveRows(t.chunks, d), d, ChunkList(r.text, 1000))
            && |ActiveRows(t.chunks, d)| == |ChunkList(r.text, 1000)|
  {
    if Duplicate(s, r) && r.policy == "replace" {
      var d := FindActive(s.docs, r.kb, r.checksum).value;
      DeletedInv(s, d, r.deletion);
      AddedInFields(Deleted(s, d, r.deletion), r);
    } else {
      AddedInFields(s, r);
    }
  }

  // ---- one document per checksum ----

  /** Whether an ingest gets as far as a second active row for the same content. */
  predicate AddsCopy(s: Store, r: Request) {
    r.valid && Duplicate(s, r) && r.policy != "reject" && r.policy != "replace" && !r.fault.CreateRaises?
  }

  lemma {:induction false} AddedUnique(s: Store, r: Request)
    requires Unique(s.docs)
    ensures Unique(Added(s, r).docs) <==> r.fault.CreateRaises? || !Duplicate(s, r)
  {
    var t := Added(s, r);
    if !r.fault.CreateRaises? && Duplicate(s, r) {
      var d := FindActive(s.docs, r.kb, r.checksum).value;
      assert !(t.docs[d].checksum != t.docs[|s.docs|].checksum);
    }
  }

  lemma {:induction false} DeletedUnique(s: Store, d: nat, f: DeletionFault)
    requires Unique(s.docs)
    ensures Unique(Deleted(s, d, f).docs)
  {
  }

  /** The copy that a "replace" found is gone unless flagging it raised, and it was the only one. */
  lemma {:induction false} NoneLeft(s: Store, r: Request)
    requires Unique(s.docs) && Duplicate(s, r)
    ensures Duplicate(Deleted(s, FindActive(s.docs, r.kb, r.checksum).value, r.deletion), r) <==>
            r.deletion.DocumentRaises?
  {
  }

  /** An ingest keeps checksums unique exactly when it does not add a second copy: with any
      policy but "reject" and "replace" a valid duplicate is simply added. */
  lemma {:induction false} IngestUniqueExactly(s: Store, r: Request)
    requires Unique(s.docs)
    ensures Unique(Ingested(s, r).docs) <==> !AddsCopy(s, r)
  {
    AddedUnique(s, r);
    if Duplicate(s, r) {
      var d := FindActive(s.docs, r.kb, r.checksum).value;
      DeletedUnique(s, d, r.deletion);
      NoneLeft(s, r);
      AddedUnique(Deleted(s, d, r.deletion), r);
    }
  }

  /** "replace" is not atomic. The content is still there afterwards exactly when the old copy
      could not even be flagged, or nothing raised before the new row existed; otherwise the
      old copy is deleted and no new one was created. */
  lemma {:induction false} ReplaceKeepsContentExactly(s: Store, r: Request)
    requires Unique(s.docs) && r.valid && Duplicate(s, r) && r.policy == "replace"
    ensures Duplicate(Ingested(s, r), r) <==>
            var d := FindActive(s.docs, r.kb, r.checksum).value;
            r.deletion.DocumentRaises? || (!Tears(s, d, r.deletion) && !r.fault.CreateRaises?)
  {
    var d := FindActive(s.docs, r.kb, r.checksum).value;
    var t := Deleted(s, d, r.deletion);
    NoneLeft(s, r);
    if !DeletionRaises(s, d, r.deletion) && !r.fault.CreateRaises? {
      assert IsActive(Added(t, r).docs[|t.docs|], r.kb, r.checksum);
    }
  }

  /** The duplicate check and the insert are two steps. Two ingests that both pass the check
      before either inserts keep checksums unique exactly when their content or base differs,
      or one of them creates no row. */
  lemma {:induction false} CheckedTogether(s: Store, r: Request, q: Request)
    requires Unique(s.docs) && !Duplicate(s, r) && !Duplicate(s, q)
    ensures Unique(Added(Added(s, r), q).docs) <==>
            r.kb != q.kb || r.checksum != q.checksum || r.fault.CreateRaises? || q.fault.CreateRaises?
  {
    var t := Added(s, r);
    AddedUnique(s, r);
    AddedUnique(t, q);
    if r.kb == q.kb && r.checksum == q.checksum && !r.fault.CreateRaises? {
      assert IsActive(t.docs[|s.docs|], q.kb, q.checksum);
    }
  }

  datatype Operation = Ingest(request: Request) | Delete(id: nat, fault: DeletionFault)

  function Apply(s: Store, o: Operation): Store {
    match o
    case Ingest(r) => Ingested(s, r)
    case Delete(d, f) => Deleted(s, d, f)
  }

  const EMPTY := Store([], [], map[], {})

  function Run(ops: seq<Operation>): Store {
    if ops == [] then EMPTY else Apply(Run(ops[..|ops| - 1]), ops[|ops| - 1])
  }

  /** Over every run of ingests and deletes, wherever each of them raises. */
  lemma {:induction false} RunInv(ops: seq<Operation>)
    ensures Inv(Run(ops))
  {
    if ops != [] {
      RunInv(ops[..|ops| - 1]);
      match ops[|ops| - 1]
      case Ingest(r) => IngestedInv(Run(ops[..|ops| - 1]), r);
      case Delete(d, f) => DeletedInv(Run(ops[..|ops| - 1]), d, f);
    }
  }

  /** Over every run whose ingests use "reject" or "replace". */
  lemma {:induction false} RunUnique(ops: seq<Operation>)
    requires forall o :: o in ops && o.Ingest? ==> o.request.policy == "reject" || o.request.policy == "replace"
    ensures Unique(Run(ops).docs)
  {
    if ops != [] {
      var last := ops[|ops| - 1];
      assert last in ops;
      RunUnique(ops[..|ops| - 1]);
      if last.Ingest? {
        IngestUniqueExactly(Run(ops[..|ops| - 1]), last.request);
      }
    }
  }

  /** With any other policy, ingesting the same content twice leaves two active copies. */
  lemma {:induction false} TwoCopies(r: Request)
    requires r.valid && !r.fault.CreateRaises? && r.policy != "reject" && r.policy != "replace"
    ensures !Unique(Run([Ingest(r), Ingest(r)]).docs)
  {
    RunSnoc([], Ingest(r));
    RunSnoc([Ingest(r)], Ingest(r));
    assert [] + [Ingest(r)] == [Ingest(r)] && [Ingest(r)] + [Ingest(r)] == [Ingest(r), Ingest(r)];
    var s := Run([Ingest(r)]);
    assert s == Added(EMPTY, r) && IsActive(s.docs[0], r.kb, r.checksum);
    IngestUniqueExactly(EMPTY, r);
    IngestUniqueExactly(s, r);
  }

  /** Content can be lost to a "replace": any document can be ingested and then replaced by
      nothing. */
  lemma {:induction false} ReplacedByNothing(r: Request)
    requires r.valid && !r.fault.CreateRaises?
    ensures var q := r.(policy := "replace", fault := CreateRaises, deletion := NoneRaises);
            Duplicate(Run([Ingest(r)]), r) && !Duplicate(Run([Ingest(r), Ingest(q)]), r)
  {
    var q := r.(policy := "replace", fault := CreateRaises, deletion := NoneRaises);
    RunSnoc([], Ingest(r));
    RunSnoc([Ingest(r)], Ingest(q));
    assert [] + [Ingest(r)] == [Ingest(r)] && [Ingest(r)] + [Ingest(q)] == [Ingest(r), Ingest(q)];
    var s := Run([Ingest(r)]);
    assert s == Added(EMPTY, r) && IsActive(s.docs[0], r.kb, r.checksum);
    ReplaceKeepsContentExactly(s, q);
  }

  lemma {:induction false} RunSnoc(ops: seq<Operation>, o: Operation)
    ensures Run(ops + [o]) == Apply(Run(ops), o)
  {
    assert (ops + [o])[..|ops|] == ops;
  }

  // ---- torn deletions ----

  lemma {:induction false} DeleteLeavesOthers(s: Store, e: nat, f: DeletionFault, d: nat)
    requires d < |s.docs| && s.docs[d].isDeleted
    ensures var t := Deleted(s, e, f);
            && |t.docs| == |s.docs| && t.docs[d] == s.docs[d] && ActiveRows(t.chunks, d) == ActiveRows(s.chunks, d)
            && s.torn <= t.torn
  {
    if e < |s.docs| && !s.docs[e].isDeleted {
      ErasedRows(s.chunks, e, Writes(f, |ActiveRows(s.chunks, e)|), d);
    }
  }

  lemma {:induction false} AddLeavesOthers(s: Store, r: Request, d: nat)
    requires Known(s) && d < |s.docs|
    ensures var t := Added(s, r);
            && d < |t.docs| && t.docs[d] == s.docs[d] && ActiveRows(t.chunks, d) == ActiveRows(s.chunks, d)
            && t.torn == s.torn
  {
    var cs := ChunksFor(r.text);
    AddedRows(s.chunks, cs, StoredCount(r.fault, |cs|), |s.docs|, d);
  }

  ghost predicate StaysDeleted(s: Store, t: Store, d: nat)
    requires d < |s.docs|
  {
    && d < |t.docs| && t.docs[d] == s.docs[d] && ActiveRows(t.chunks, d) == ActiveRows(s.chunks, d)
    && s.torn <= t.torn
  }

  lemma {:induction false} DeletedRowsStay(s: Store, o: Operation, d: nat)
    requires Inv(s) && d < |s.docs| && s.docs[d].isDeleted
    ensures StaysDeleted(s, Apply(s, o), d)
  {
    match o
    case Delete(e, f) =>
      DeleteLeavesOthers(s, e, f, d);
    case Ingest(r) =>
      if Duplicate(s, r) && r.policy == "replace" {
        var e := FindActive(s.docs, r.kb, r.checksum).value;
        DeletedInv(s, e, r.deletion);
        DeleteLeavesOthers(s, e, r.deletion, d);
        AddLeavesOthers(Deleted(s, e, r.deletion), r, d);
      } else {
        AddLeavesOthers(s, r, d);
      }
  }

  /** A torn deletion is never repaired: whatever is called later, the deleted document keeps
      the same active chunks. */
  lemma {:induction false} TornForGood(ops: seq<Operation>, more: seq<Operation>, d: nat)
    requires d in Run(ops).torn
    ensures d in Run(ops + more).torn
    ensures ActiveRows(Run(ops + more).chunks, d) == ActiveRows(Run(ops).chunks, d) != []
    decreases |more|
  {
    if more == [] {
      assert ops + more == ops;
      TornHasRows(ops, d);
    } else {
      var front, o := more[..|more| - 1], more[|more| - 1];
      TornForGood(ops, front, d);
      TornStep(ops + front, o, d);
      assert ops + more == ops + front + [o];
    }
  }

  lemma {:induction false} TornHasRows(ops: seq<Operation>, d: nat)
    requires d in Run(ops).torn
    ensures d < |Run(ops).docs| && Run(ops).docs[d].isDeleted && ActiveRows(Run(ops).chunks, d) != []
  {
    RunInv(ops);
    assert Consistent(Run(ops), d);
  }

  lemma {:induction false} TornStep(ops: seq<Operation>, o: Operation, d: nat)
    requires d in Run(ops).torn
    ensures d in Run(ops + [o]).torn
    ensures ActiveRows(Run(ops + [o]).chunks, d) == ActiveRows(Run(ops).chunks, d)
  {
    RunSnoc(ops, o);
    RunInv(ops);
    TornHasRows(ops, d);
    DeletedRowsStay(Run(ops), o, d);
  }

  /** Such deletions exist: any document can be ingested and its deletion torn at once. */
  lemma {:induction false} TornReachable(r: Request)
    requires r.valid && r.fault.NoFault?
    ensures 0 in Run([Ingest(r), Delete(0, ChunkRaises(0))]).torn
  {
    var o := Delete(0, ChunkRaises(0));
    RunSnoc([], Ingest(r));
    RunSnoc([Ingest(r)], o);
    assert [] + [Ingest(r)] == [Ingest(r)] && [Ingest(r)] + [o] == [Ingest(r), o];
    FirstRows(r);
    assert Run([Ingest(r)]) == Added(EMPTY, r);
  }

  lemma {:induction false} FirstRows(r: Request)
    requires r.fault.NoFault?
    ensures ActiveRows(Added(EMPTY, r).chunks, 0) != []
  {
    var cs := ChunksFor(r.text);
    AddedRows([], cs, |cs|, 0, 0);
  }

  /** A document counts as a duplicate as soon as its row exists, even when its own ingest
      failed: the same content is then refused under "reject", although it is not READY. */
  lemma {:induction false} FailedIngestBlocksRetry(s: Store, r: Request, again: Request)
    requires r.valid && !Duplicate(s, r)
    requires again.kb == r.kb && again.checksum == r.checksum
    ensures Duplicate(Ingested(s, r), again) <==> !r.fault.CreateRaises?
    ensures !r.fault.CreateRaises? && again.policy == "reject" ==> Ingested(Ingested(s, r), again) == Ingested(s, r)
    ensures !r.fault.CreateRaises? ==> (Ingested(s, r).docs[|s.docs|].status == READY <==> r.fault.NoFault?)
  {
    var t := Ingested(s, r);
    assert t == Added(s, r);
    if r.fault.CreateRaises? {
      assert t == s && !Duplicate(s, again);
    } else {
      assert IsActive(t.docs[|s.docs|], again.kb, again.checksum);
    }
  }

  // ---- the service ----

  /** What a request returns or raises. The last four are: an error of the deletion or of the
      row's creation let through, the ingestion error of the handler, and an error of the
      handler's own write. */
  datatype Result =
    | Created(id: nat) | InvalidFile | DuplicateDocument
    | DeletionRaised | CreationRaised | IngestionFailed | HandlerRaised

  /** The result of an ingest that gets as far as creating its row. */
  function ResultOf(f: Fault, id: nat): Result {
    match f
    case NoFault => Created(id)
    case CreateRaises => CreationRaised
    case StageRaises(_, recorded) => if recorded then IngestionFailed else HandlerRaised
  }

  class KnowledgeService {
    var docs: seq<Document>
    var chunks: seq<ChunkRow>
    ghost var texts: map<nat, string>
    ghost var torn: set<nat>

    ghost function Current(): Store
      reads this
    {
      Store(docs, chunks, texts, torn)
    }

    constructor ()
      ensures Current() == EMPTY
    {
      docs, chunks, texts, torn := [], [], map[], {};
    }

    /** Flags the active chunks of a document one by one, up to the write that raises. */
    method FlagChunks(id: nat, fault: DeletionFault) returns (raised: bool)
      modifies `chunks
      ensures var rows := |ActiveRows(old(chunks), id)|;
              && chunks == ErasedFirst(old(chunks), id, Writes(fault, rows))
              && raised == (fault.ChunkRaises? && fault.at < rows)
    {
      var w := Flags([], chunks, 0);
      ghost var was := chunks;
      ghost var all := Writes(fault, |ActiveRows(was, id)|);
      while w.rest != []
        invariant chunks == w.done + w.rest && (fault.ChunkRaises? ==> w.written <= fault.at)
        invariant Flagging(was, id, all, w)
        decreases |w.rest|
      {
        var row := w.rest[0];
        if ActiveOf(id)(row) {
          if fault == ChunkRaises(w.written) {
            return true;
          }
          FlagRow(was, id, all, w);
          w := Flags(w.done + [row.(isDeleted := true)], w.rest[1..], w.written + 1);
        } else {
          SkipRow(was, id, all, w);
          w := Flags(w.done + [row], w.rest[1..], w.written);
        }
        chunks := w.done + w.rest;
      }
      return false;
    }

    /** Flags the document, then its active chunks. */
    method DeleteDocument(id: nat, fault: DeletionFault) returns (raised: bool)
      modifies this
      ensures Current() == Deleted(old(Current()), id, fault)
      ensures raised == DeletionRaises(old(Current()), id, fault)
    {
      if id >= |docs| || docs[id].isDeleted {
        return false;
      }
      if fault.DocumentRaises? {
        return true;
      }
      docs := docs[id := docs[id].(isDeleted := true)];
      raised := FlagChunks(id, fault);
      if raised {
        torn := torn + {id};
      }
    }

    /** Writes the row of the newest document again. */
    method Save(ghost others: seq<Document>, doc: Document)
      requires |docs| == |others| + 1 && docs[..|others|] == others
      modifies `docs
      ensures docs == others + [doc]
    {
      docs := docs[|docs| - 1 := doc];
    }

    /** Stores the chunks in order, up to the one whose write raises. */
    method StoreChunks(id: nat, data: seq<Chunk>, fault: Fault)
      requires fault.NoFault? || (fault.StageRaises? && fault.stage.Storing?)
      modifies `chunks
      ensures chunks == old(chunks) + Rows(id, data, StoredCount(fault, |data|))
    {
      for i := 0 to |data|
        invariant chunks == old(chunks) + Rows(id, data, i)
        invariant fault.StageRaises? ==> i <= fault.stage.at
      {
        if fault.StageRaises? && fault.stage.at == i {
          return;
        }
        chunks := chunks + [Row(id, i, data[i])];
      }
    }

    /** Chunks the text and stores what the storage accepts. */
    method ChunkAndStore(id: nat, text: string, fault: Fault)
      requires fault.NoFault? || (fault.StageRaises? && fault.stage.Storing?)
      modifies `chunks
      ensures var cs := ChunksFor(text); chunks == old(chunks) + Rows(id, cs, StoredCount(fault, |cs|))
    {
      var data := ChunkText(text, CHUNK_SIZE, 200);
      ChunkListCorrect(text, CHUNK_SIZE, data);
      StoreChunks(id, data, fault);
    }

    /** The body of the `try`: steps the status and stores the chunks; stops where it raises. */
    method Process(id: nat, ghost others: seq<Document>, doc: Document, r: Request)
      requires |docs| == |others| + 1 && docs[..|others|] == others && docs[|others|] == doc
      requires doc.status == VALIDATING && !r.fault.CreateRaises?
      modifies `docs, `chunks, `texts
      ensures docs == others + [doc.(status := if r.fault.NoFault? then READY else StatusAt(r.fault.stage))]
      ensures var cs := ChunksFor(r.text); chunks == old(chunks) + Rows(id, cs, StoredCount(r.fault, |cs|))
      ensures texts == if Extracted(r.fault) then old(texts)[id := r.text] else old(texts)
    {
      if r.fault.StageRaises? && r.fault.stage.ProcessingWrite? {
        return;
      }
      Save(others, doc.(status := PROCESSING));
      if r.fault.StageRaises? && r.fault.stage.Extraction? {
        return;
      }
      texts := texts[id := r.text];
      if r.fault.StageRaises? && r.fault.stage.ChunkingWrite? {
        return;
      }
      Save(others, doc.(status := CHUNKING));
      if r.fault.StageRaises? && r.fault.stage.Preparation? {
        return;
      }
      ChunkAndStore(id, r.text, r.fault);
      if r.fault.NoFault? {
        Save(others, doc.(status := READY));
      }
    }

    /** From the document row to its final status. */
    method AddDocument(r: Request) returns (result: Result)
      modifies this
      ensures Current() == Added(old(Current()), r)
      ensures result == ResultOf(r.fault, |old(docs)|)
    {
      if r.fault.CreateRaises? {
        return CreationRaised;
      }
      var id := |docs|;
      ghost var others := docs;
      var doc := Document(r.kb, r.checksum, VALIDATING, false);
      docs := docs + [doc];
      Process(id, others, doc, r);
      if r.fault.NoFault? {
        return Created(id);
      }
      if !r.fault.recorded {
        return HandlerRaised;
      }
      Save(others, doc.(status := FAILED));
      return IngestionFailed;
    }

    method IngestDocument(r: Request) returns (result: Result)
      modifies this
      ensures Current() == Ingested(old(Current()), r)
      ensures result.InvalidFile? <==> !r.valid
      ensures result.DuplicateDocument? <==> r.valid && Duplicate(old(Current()), r) && r.policy == "reject"
      ensures result.DeletionRaised? <==>
              && r.valid && Duplicate(old(Current()), r) && r.policy == "replace"
              && DeletionRaises(old(Current()), FindActive(old(docs), r.kb, r.checksum).value, r.deletion)
      ensures result.InvalidFile? || result.DuplicateDocument? || result.DeletionRaised? ||
              result == ResultOf(r.fault, |old(docs)|)
    {
      if !r.valid {
        return InvalidFile;
      }
      var existing := FindActive(docs, r.kb, r.checksum);
      if existing.Some? {
        if r.policy == "reject" {
          return DuplicateDocument;
        } else if r.policy == "replace" {
          var raised := DeleteDocument(existing.value, r.deletion);
          if raised {
            return DeletionRaised;
          }
        }
      }
      result := AddDocument(r);
    }
  }
}
