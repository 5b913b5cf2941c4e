/** The write receipt and journal (src/write_journal.rs, src/secret_storage.rs) and how creating and
    reconciling change them (src/commands.rs). */
module Journals {
  import opened ByteStrings
  import opened Destinations

  datatype WriteStatus = Failed | Uncertain | CreatedUnverified | Verified
  datatype WriteReceipt = WriteReceipt(attemptId: string, itemId: Option<string>, status: WriteStatus)
  datatype WriteJournal = WriteJournal(
    server: string, destination: Destination, fields: seq<string>, receipt: WriteReceipt)

  /** A receipt names an item exactly when the item is known to exist. */
  predicate Consistent(r: WriteReceipt) {
    r.itemId.Some? <==> r.status == CreatedUnverified || r.status == Verified
  }

  /** The journal file of a place; `sha256Hex` is any function. */
  function FileOf(j: WriteJournal, sha256Hex: string -> string): (file: string) {
    JournalName(j.server, j.destination, sha256Hex)
  }

  // ----- the answer to a creation request -----

  /** What the transport delivers: nothing usable, a refusal, or a body in chunks that may break off. */
  datatype Response =
    | NoResponse
    | Refused(code: nat)
    | Success(chunks: seq<string>, broken: bool)

  datatype Answer = Created(id: string) | NotCreated(status: WriteStatus)

  const MAX_BODY := 1048576
  const DEFINITE_REJECTIONS := {400, 401, 403, 404, 405, 422}

  function Concat(chunks: seq<string>): (body: string) {
    if chunks == [] then [] else Concat(chunks[..|chunks| - 1]) + chunks[|chunks| - 1]
  }

  /** What `create_cipher` concludes; `parse` reads the id of the cipher a body spells. */
  ghost function Conclusion(r: Response, parse: string -> Option<string>): (a: Answer) {
    match r
    case NoResponse => NotCreated(Uncertain)
    case Refused(code) => NotCreated(if code in DEFINITE_REJECTIONS then Failed else Uncertain)
    case Success(chunks, broken) =>
      var id := parse(Concat(chunks));
      if |Concat(chunks)| <= MAX_BODY && !broken && id.Some? && ValidId(id.value) then Created(id.value)
      else NotCreated(Uncertain)
  }

  lemma {:induction false} ConcatGrows(chunks: seq<string>, i: nat)
    requires i <= |chunks|
    ensures |Concat(chunks[..i])| <= |Concat(chunks)|
  {
    if i < |chunks| {
      ConcatGrows(chunks[..|chunks| - 1], i);
      assert chunks[..|chunks| - 1][..i] == chunks[..i];
    } else {
      assert chunks[..i] == chunks;
    }
  }

  /** The body is the chunks, one behind the other. */
  lemma {:induction false} ConcatMeaning(a: seq<string>, b: seq<string>, chunk: string)
    ensures Concat([chunk]) == chunk && Concat(a + b) == Concat(a) + Concat(b)
  {
    assert [chunk][..0] == [];
    if b == [] {
      assert a + b == a;
    } else {
      ConcatMeaning(a, b[..|b| - 1], chunk);
      assert (a + b)[..|a + b| - 1] == a + b[..|b| - 1];
    }
  }

  /** Reads the body under the size limit and classifies the outcome of the single request. */
  method CreateCipher(r: Response, parse: string -> Option<string>) returns (a: Answer)
    ensures a == Conclusion(r, parse)
  {
    match r
    case NoResponse => return NotCreated(Uncertain);
    case Refused(code) => return NotCreated(if code in DEFINITE_REJECTIONS then Failed else Uncertain);
    case Success(chunks, broken) =>
      var bytes := "";
      for i := 0 to |chunks|
        invariant bytes == Concat(chunks[..i]) && |bytes| <= MAX_BODY
      {
        assert chunks[..i + 1][..i] == chunks[..i];
        if |bytes| + |chunks[i]| > MAX_BODY {
          ConcatGrows(chunks, i + 1);
          return NotCreated(Uncertain);
        }
        bytes := bytes + chunks[i];
      }
      assert chunks[..|chunks|] == chunks;
      if broken {
        return NotCreated(Uncertain);
      }
      var id := parse(bytes);
      if id.None? || !ValidId(id.value) {
        return NotCreated(Uncertain);
      }
      return Created(id.value);
  }

  /** Helper: `Failed` is concluded only from an explicit refusal, `Created` only from a complete answer. */
  lemma ConclusionIsHonest(r: Response, parse: string -> Option<string>)
    ensures Conclusion(r, parse) == NotCreated(Failed) <==> r.Refused? && r.code in DEFINITE_REJECTIONS
    ensures Conclusion(r, parse).Created? ==>
      r.Success? && !r.broken && parse(Concat(r.chunks)) == Some(Conclusion(r, parse).id)
    ensures Conclusion(r, parse).NotCreated? ==> Conclusion(r, parse).status in {Failed, Uncertain}
  {}

  // ----- how a journal evolves -----

  function WithReceipt(j: WriteJournal, itemId: Option<string>, status: WriteStatus): (k: WriteJournal) {
    j.(receipt := j.receipt.(itemId := itemId, status := status))
  }

  /** The journal as it was when the attempt began: everything but what the receipt has learnt since. */
  function Begun(j: WriteJournal): (k: WriteJournal) {
    WithReceipt(j, None, Uncertain)
  }

  /** The journal after the answer, before verification. */
  function AfterAnswer(j: WriteJournal, a: Answer): (k: WriteJournal)
    ensures k.server == j.server && k.destination == j.destination
    ensures k.receipt.attemptId == j.receipt.attemptId
  {
    match a
    case Created(id) => WithReceipt(j, Some(id), CreatedUnverified)
    case NotCreated(status) => WithReceipt(j, j.receipt.itemId, status)
  }

  /** The journal that a reconcile run saves for the item `id`, unless the receipt names another one. */
  function Reconciled(j: WriteJournal, id: string): (k: Option<WriteJournal>) {
    if !ValidId(id) || (j.receipt.itemId.Some? && j.receipt.itemId.value != id) then None
    else Some(WithReceipt(j, Some(id), if j.receipt.status != Verified then CreatedUnverified else Verified))
  }

  /** A later state of the same journal: a bound id stays bound, a verified item stays verified. */
  ghost predicate Advances(j: WriteJournal, k: WriteJournal) {
    && k.server == j.server && k.destination == j.destination && k.fields == j.fields
    && k.receipt.attemptId == j.receipt.attemptId
    && (j.receipt.itemId.Some? ==> k.receipt.itemId == j.receipt.itemId)
    && (j.receipt.status == Verified ==> k.receipt.status == Verified)
    && (Consistent(j.receipt) ==> Consistent(k.receipt))
  }

  /** What one reconcile run can leave behind, wherever it is interrupted. */
  ghost predicate ReconcileRun(before: WriteJournal, after: WriteJournal) {
    after == before || exists id :: Reconciled(before, id) == Some(after)
  }

  /** Any number of reconcile runs, one after the other. */
  ghost predicate ReconcileRuns(history: seq<WriteJournal>) {
    history != [] && forall i :: 0 <= i < |history| - 1 ==> ReconcileRun(history[i], history[i + 1])
  }

  lemma {:induction false} ReconcileRunsAdvance(history: seq<WriteJournal>)
    requires ReconcileRuns(history)
    ensures Advances(history[0], history[|history| - 1])
  {
    if |history| > 1 {
      var n := |history| - 1;
      ReconcileRunsAdvance(history[..n]);
      assert ReconcileRun(history[n - 1], history[n]);
    }
  }
}
