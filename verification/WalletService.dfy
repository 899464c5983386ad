/** The wallet service over one connection: the code of an attempt and of a batch, statement by
    statement, proved against `Wallet.Process` and `Batch.RunBatch`. */
module WalletService {
  import opened Domain
  import opened Wallet
  import opened Database
  import opened Sorting
  import opened Batch

  /** What the caller gets: an answer, or the failure of the rejection's own audit row. */
  datatype Reply = Answered(outcome: Outcome) | Unaudited(error: Error)

  /** Grows the list of reasons check by check, as `Validate` does. */
  method Validate(r: ProcessRequest) returns (reasons: seq<string>)
    ensures reasons == RequestReasons(r)
    ensures reasons == [] <==> WellFormed(r)
  {
    NoReasonsIffValid(r);
    ValidMeans(r);
    reasons := [];
    if r.ref == "" {
      reasons := reasons + ["Ref is required"];
    }
    if r.accountID == "" {
      reasons := reasons + ["AccountID is required"];
    }
    if r.userID == "" {
      reasons := reasons + ["UserID is required"];
    }
    if r.kind == KIND_EARN || r.kind == KIND_SPEND {
      if r.points <= 0 {
        reasons := reasons + ["Points must be greater than 0 for earn and spend"];
      }
    } else {
      reasons := reasons + ["Kind must be 'earn' or 'spend'"];
    }
  }

  /** No rejection the service can produce has an empty reason. */
  lemma ReasonsAreWords(e: Error)
    ensures ReasonFor(e) != ""
  {
    match Root(e)
    case _ => MessageIsWords(e);
  }

  lemma MessageIsWords(e: Error)
    ensures Message(e) != ""
  {
    assert "could not roll back transaction: "[0] == 'c';
    match e
    case Invalid(operation, reasons) => assert Message(e)[0] == 'i';
    case Storage(operation, cause) => assert Message(e)[0] == 'c';
    case RollbackFailed(cause, original) => assert Message(e)[0] == 'c';
    case _ =>
  }

  // ---------------------------------------------------------------- a batch under failures

  /** What one attempt did, as its reply tells it: an answer means what it says, and anything else left the
      books alone. */
  ghost predicate Happened(b: Books, call: Call, reply: Reply, b': Books) {
    match reply
    case Answered(Rejected(error)) => b' == b && RejectedFor(b, call, Root(error))
    case Answered(outcome) => WellFormed(call.request) && Means(b, call, b', outcome)
    case Unaudited(_) => WellFormed(call.request) && b' == b
  }

  /** Only a request that cannot be acted on fails validation; one that can is rejected on its ground, or
      because storage failed. */
  ghost predicate RejectedFor(b: Books, call: Call, error: Error) {
    if error.Invalid? then !WellFormed(call.request)
    else WellFormed(call.request) && (error.Storage? || Grounded(b, call, error))
  }

  /** The outcome an element reports for a reply: an attempt whose rejection could not be recorded counts as
      rejected. */
  function OutcomeOf(reply: Reply): Outcome {
    match reply
    case Answered(outcome) => outcome
    case Unaudited(error) => Rejected(error)
  }

  /** A batch as it went: the books between the attempts, what each did, and what its element says. */
  ghost predicate Went(books: seq<Books>, calls: seq<Call>, replies: seq<Reply>, results: seq<Element>) {
    && |books| == |calls| + 1 && |replies| == |calls| == |results|
    && forall k: nat {:trigger WentAt(books, calls, replies, results, k)} :: WentAt(books, calls, replies, results, k)
  }

  ghost predicate WentAt(books: seq<Books>, calls: seq<Call>, replies: seq<Reply>, results: seq<Element>, k: nat)
    requires |books| == |calls| + 1 && |replies| == |calls| == |results|
  {
    k < |calls| ==>
      Happened(books[k], calls[k], replies[k], books[k + 1]) && Marked(results[k], calls[k], OutcomeOf(replies[k]))
  }

  lemma WentOn(
    books: seq<Books>, calls: seq<Call>, replies: seq<Reply>, results: seq<Element>,
    b': Books, call: Call, reply: Reply, element: Element)
    requires Went(books, calls, replies, results)
    requires Happened(books[|calls|], call, reply, b') && Marked(element, call, OutcomeOf(reply))
    ensures Went(books + [b'], calls + [call], replies + [reply], results + [element])
  {
    forall k: nat
      ensures WentAt(books + [b'], calls + [call], replies + [reply], results + [element], k)
    {
      assert WentAt(books, calls, replies, results, k);
    }
  }

  /** The rows a batch added are those of its elements marked accepted, in order. */
  ghost predicate RowsAdded(before: seq<Transaction>, after: seq<Transaction>, results: seq<Element>) {
    before <= after && RefsOf(after[|before|..]) == RefsMarked(results, BatchAccepted)
  }

  lemma RowsAddedStep(
    before: seq<Transaction>, b: Books, call: Call, reply: Reply, b': Books, results: seq<Element>, element: Element)
    requires RowsAdded(before, b.ledger, results) && Happened(b, call, reply, b') && Marked(element, call, OutcomeOf(reply))
    ensures RowsAdded(before, b'.ledger, results + [element])
  {
    assert (results + [element])[..|results|] == results;
    if b'.ledger != b.ledger {
      var row := b'.ledger[|b.ledger|];
      assert b'.ledger[|before|..] == b.ledger[|before|..] + [row];
      assert (b.ledger[|before|..] + [row])[..|b.ledger| - |before|] == b.ledger[|before|..];
    }
  }

  lemma {:induction false} RefsOfLength(rows: seq<Transaction>)
    ensures |RefsOf(rows)| == |rows|
  {
    if rows != [] {
      RefsOfLength(rows[..|rows| - 1]);
    }
  }

  /** The batch so far: how it went from the books it found to those it leaves, and the rows it added. */
  ghost predicate SoFar(
    before: Books, books: seq<Books>, calls: seq<Call>, replies: seq<Reply>, results: seq<Element>, b: Books)
  {
    && Went(books, calls, replies, results) && books[0] == before && books[|calls|] == b
    && RowsAdded(before.ledger, b.ledger, results)
  }

  lemma SoFarStep(
    before: Books, books: seq<Books>, calls: seq<Call>, replies: seq<Reply>, results: seq<Element>, b: Books,
    i: nat, reply: Reply, element: Element, b': Books)
    requires i < |calls| && SoFar(before, books, calls[..i], replies, results, b)
    requires Happened(b, calls[i], reply, b') && Marked(element, calls[i], OutcomeOf(reply))
    ensures SoFar(before, books + [b'], calls[..i + 1], replies + [reply], results + [element], b')
  {
    WentOn(books, calls[..i], replies, results, b', calls[i], reply, element);
    RowsAddedStep(before.ledger, b, calls[i], reply, b', results, element);
    assert calls[..i + 1] == calls[..i] + [calls[i]];
  }

  /** Its counters count its elements, and those accepted are the rows it added. */
  lemma CountersAgree(before: seq<Transaction>, after: seq<Transaction>, results: seq<Element>)
    requires RowsAdded(before, after, results)
    ensures var r := ResponseOf(results);
            && r.accepted == |RefsMarked(results, BatchAccepted)| == |after| - |before|
            && r.duplicate == |RefsMarked(results, BatchDuplicate)|
            && r.rejected == |RefsMarked(results, BatchRejected)|
            && r.accepted + r.duplicate + r.rejected == |results|
  {
    TallyAll(results);
    TallyCounts(results, BatchAccepted);
    TallyCounts(results, BatchDuplicate);
    TallyCounts(results, BatchRejected);
    RefsOfLength(after[|before|..]);
  }

  /** The calls of a batch: its requests by business time, for one caller, under the clock. */
  ghost predicate CallsOf(
    calls: seq<Call>, claims: seq<string>, requests: seq<ProcessRequest>, clock: nat -> Stamp, ordered: seq<ProcessRequest>)
  {
    && InTimeOrder(ordered, requests) && |calls| == |ordered| == |requests|
    && forall k :: 0 <= k < |calls| ==> calls[k] == Call(claims, ordered[k], clock(k).now, clock(k).uuid)
  }

  /** The first `i` calls have been run: these are the books and the elements so far. */
  ghost predicate RunSoFar(before: Books, calls: seq<Call>, i: nat, books: Books, results: seq<Element>) {
    && i <= |calls|
    && books == RunAll(before, calls[..i]).books
    && results == ElementsOf(calls[..i], RunAll(before, calls[..i]).outcomes)
  }

  lemma RunSoFarStep(before: Books, calls: seq<Call>, i: nat, b: Books, results: seq<Element>, b': Books, element: Element)
    requires i < |calls| && RunSoFar(before, calls, i, b, results)
    requires var p := Attempt(b, calls[i]); b' == p.books && element == ElementOf(calls[i].request.ref, p.outcome)
    ensures RunSoFar(before, calls, i + 1, b', results + [element])
  {
    assert calls[..i + 1][..i] == calls[..i];
  }

  lemma TallyAppend(results: seq<Element>, element: Element)
    ensures var before, after := ResponseOf(results), ResponseOf(results + [element]);
            && after.accepted == before.accepted + (if element.verdict.BatchAccepted? then 1 else 0)
            && after.duplicate == before.duplicate + (if element.verdict.BatchDuplicate? then 1 else 0)
            && after.rejected == before.rejected + (if element.verdict.BatchRejected? then 1 else 0)
  {
    assert (results + [element])[..|results|] == results;
  }

  class Service {
    const db: Store

    constructor (db: Store)
      ensures this.db == db
    {
      this.db := db;
    }

    /** What runs inside the unit of work. It either succeeds with the outcome of `Process`, its
        audit row written, or fails and leaves the rollback to its caller. */
    method UnitOfWork(call: Call, ownerID: string) returns (r: Result<Outcome>)
      requires db.Valid() && db.saved.Some? && !db.aborted && ValidRequest(call.request)
      requires Visible(db.accounts, call.request.accountID, call.claims, call.request.userID)
      requires db.accounts[call.request.accountID].ownerID == ownerID
      modifies db
      ensures db.Valid() && db.saved == old(db.saved)
      ensures r.Ok? ==>
                && Process(old(db.Books()), call) == Processed(db.Books(), r.value) && !r.value.Rejected? && !db.aborted
                && |db.audit| == |old(db.audit)| + 1 && db.audit[..|old(db.audit)|] == old(db.audit)
                && EntryOf(db.audit[|old(db.audit)|], call, r.value) && db.audit[|old(db.audit)|].ownerID == Some(ownerID)
      ensures r.Err? ==>
                match r.error
                case NotFound => Process(old(db.Books()), call).outcome == Rejected(NotFound)
                case InsufficientBalance => Process(old(db.Books()), call).outcome == Rejected(InsufficientBalance)
                case OutOfRange => Process(old(db.Books()), call).outcome == Rejected(OutOfRange)
                case Unreadable => Process(old(db.Books()), call).outcome == Rejected(Unreadable)
                case Storage(_, _) => !old(db.Healthy())
                case _ => false
      ensures old(db.Healthy()) ==> Calm(db.faults) && (r.Ok? ==> db.Healthy())
    {
      var request := call.request;
      var delta := SignedDelta(request.kind, request.points);
      ReasonsAreWords(NotFound);

      var created := db.CreateTransaction(NewRow(call, ownerID));
      if created.Err? && created.error.DuplicateRef? {
        r := Repeat(call, ownerID);
        return;
      }
      if created.Err? {
        return Err(created.error);
      }

      var updated := db.UpdateAccountBalance(call.claims, request.accountID, delta, ownerID);
      if updated.Err? {
        return Err(updated.error);
      }

      var entry := db.CreateEntry(NewEntry(call, Some(ownerID), AuditAccepted, "ok"));
      if entry.Err? {
        return Err(entry.error);
      }
      return Ok(Accepted(created.value, updated.value));
    }

    /** A ref that is on record: the recorded row and the account as it is now, with an audit row. */
    method Repeat(call: Call, ownerID: string) returns (r: Result<Outcome>)
      requires db.Valid() && db.saved.Some? && !db.aborted && ValidRequest(call.request)
      requires Visible(db.accounts, call.request.accountID, call.claims, call.request.userID)
      requires Recorded(db.ledger, call.request.ref)
      modifies db`faults, db`aborted, db`audit, db`nextEntry
      ensures db.Valid()
      ensures r.Ok? ==>
                && Process(db.Books(), call) == Processed(db.Books(), r.value) && r.value.Duplicate? && !db.aborted
                && |db.audit| == |old(db.audit)| + 1 && db.audit[..|old(db.audit)|] == old(db.audit)
                && EntryOf(db.audit[|old(db.audit)|], call, r.value) && db.audit[|old(db.audit)|].ownerID == Some(ownerID)
      ensures r.Err? ==>
                match r.error
                case NotFound => Process(db.Books(), call).outcome == Rejected(NotFound)
                case Unreadable => Process(db.Books(), call).outcome == Rejected(Unreadable)
                case Storage(_, _) => !old(db.Healthy())
                case _ => false
      ensures old(db.Healthy()) ==> db.Healthy()
    {
      var request := call.request;
      var original := db.GetTransaction(call.claims, request.ref, request.userID);
      if original.Err? {
        return Err(original.error);
      }
      var account := db.GetAccount(call.claims, request.accountID, request.userID);
      if account.Err? {
        return Err(account.error);
      }
      var entry := db.CreateEntry(NewEntry(call, Some(ownerID), AuditDuplicate, "duplicate"));
      if entry.Err? {
        return Err(entry.error);
      }
      return Ok(Duplicate(original.value, account.value.balance));
    }

    /** The unit of work between begin and commit: on any failure nothing it wrote is kept. */
    method RunInTx(call: Call, ownerID: string) returns (r: Result<Outcome>)
      requires db.Valid() && db.saved.None? && ValidRequest(call.request)
      requires Visible(db.accounts, call.request.accountID, call.claims, call.request.userID)
      requires db.accounts[call.request.accountID].ownerID == ownerID
      modifies db
      ensures db.Valid() && db.saved.None?
      ensures r.Ok? ==>
                && Process(old(db.Books()), call) == Processed(db.Books(), r.value) && !r.value.Rejected?
                && |db.audit| == |old(db.audit)| + 1 && db.audit[..|old(db.audit)|] == old(db.audit)
                && EntryOf(db.audit[|old(db.audit)|], call, r.value) && db.audit[|old(db.audit)|].ownerID == Some(ownerID)
      ensures r.Err? ==>
                && db.Books() == old(db.Books()) && db.audit == old(db.audit)
                && match Root(r.error)
                   case Storage(_, _) => !old(db.Healthy())
                   case Invalid(_, _) => false
                   case _ => Process(old(db.Books()), call).outcome == Rejected(Root(r.error))
      ensures old(db.Healthy()) ==> db.Healthy() && (r.Err? ==> !r.error.RollbackFailed?)
    {
      var begun := db.Begin();
      if begun.Err? {
        assert Root(begun.error) == begun.error;
        return Err(begun.error);
      }
      var worked := UnitOfWork(call, ownerID);
      if worked.Err? {
        var undone := db.Rollback();
        assert Root(worked.error) == worked.error;
        if undone.Err? {
          assert Root(RollbackFailed(undone.error.cause, worked.error)) == worked.error;
          return Err(RollbackFailed(undone.error.cause, worked.error));
        }
        return Err(worked.error);
      }
      var kept := db.Commit();
      if kept.Err? {
        assert Root(kept.error) == kept.error;
        return Err(kept.error);
      }
      return Ok(worked.value);
    }

    /** Records the rejection outside any transaction and hands the error back. */
    method Reject(call: Call, ownerID: Option<string>, error: Error) returns (reply: Reply)
      requires db.Valid() && db.saved.None? && ValidRequest(call.request)
      modifies db`faults, db`aborted, db`audit, db`nextEntry
      ensures db.Valid()
      ensures reply == Answered(Rejected(error)) ==>
                |db.audit| == |old(db.audit)| + 1 && db.audit[..|old(db.audit)|] == old(db.audit)
                && EntryOf(db.audit[|old(db.audit)|], call, Rejected(error)) && db.audit[|old(db.audit)|].ownerID == ownerID
      ensures reply != Answered(Rejected(error)) ==>
                reply.Unaudited? && reply.error.Storage? && db.audit == old(db.audit) && !old(db.Healthy())
      ensures old(db.Healthy()) ==> db.Healthy()
    {
      ReasonsAreWords(error);
      var entry := db.CreateEntry(NewEntry(call, ownerID, AuditRejected, ReasonFor(error)));
      if entry.Err? {
        return Unaudited(entry.error);
      }
      return Answered(Rejected(error));
    }

    /** One attempt. Whatever storage does, it is all or nothing: an accepted attempt is `Process`, any
        other leaves accounts and ledger as they were; and unless validation refused it or its audit
        failed, exactly one audit row says what it returned. When storage works it is `Attempt`. */
    method ProcessTransaction(call: Call) returns (reply: Reply)
      requires db.Valid() && db.saved.None?
      modifies db
      ensures db.Valid() && db.saved.None?
      ensures reply.Answered? && reply.outcome.Accepted? ==>
                Process(old(db.Books()), call) == Processed(db.Books(), reply.outcome)
      ensures reply.Answered? && reply.outcome.Duplicate? ==> Process(old(db.Books()), call).outcome == reply.outcome
      ensures reply.Answered? && reply.outcome.Rejected? ==>
                match Root(reply.outcome.error)
                case Invalid(_, _) => !WellFormed(call.request)
                case Storage(_, _) => !old(db.Healthy())
                case _ => Process(old(db.Books()), call).outcome == Rejected(Root(reply.outcome.error))
      ensures !(reply.Answered? && reply.outcome.Accepted?) ==> db.Books() == old(db.Books())
      ensures Happened(old(db.Books()), call, reply, db.Books())
      ensures reply.Answered? && WellFormed(call.request) ==>
                |db.audit| == |old(db.audit)| + 1 && db.audit[..|old(db.audit)|] == old(db.audit)
                && EntryOf(db.audit[|old(db.audit)|], call, reply.outcome)
      ensures reply.Answered? && WellFormed(call.request) ==>
                var owner := db.audit[|old(db.audit)|].ownerID;
                && (owner.Some? ==> Reaches(old(db.Books()), call)
                                    && owner.value == old(db.accounts)[call.request.accountID].ownerID)
                && (old(db.Healthy()) && Reaches(old(db.Books()), call) ==> owner.Some?)
      ensures reply.Unaudited? || !WellFormed(call.request) ==> db.audit == old(db.audit)
      ensures old(db.Healthy()) ==>
                && reply.Answered? && db.Healthy()
                && Attempt(old(db.Books()), call) == Processed(db.Books(), reply.outcome)
    {
      var request := call.request;
      ValidMeans(request);
      if WellFormed(request) {
        ProcessMeans(db.Books(), call);
      }
      var reasons := Validate(request);
      if reasons != [] {
        return Answered(Rejected(Invalid("ProcessTransaction", reasons)));
      }

      var account := db.GetAccount(call.claims, request.accountID, request.userID);
      if account.Err? {
        reply := Reject(call, None, account.error);
        return;
      }
      var ownerID := account.value.ownerID;

      var worked := RunInTx(call, ownerID);
      if worked.Err? {
        reply := Reject(call, Some(ownerID), worked.error);
        return;
      }
      return Answered(worked.value);
    }

    /** The batch: sort a copy, run each element, count. Every element is answered and counted
        whatever storage does; when it works, the reply and the books are those of `RunBatch`. */
    method ProcessTransactionBatch(claims: seq<string>, requests: seq<ProcessRequest>, clock: nat -> Stamp)
      returns (r: Result<Response>)
      requires db.Valid() && db.saved.None?
      modifies db
      ensures db.Valid() && db.saved.None?
      ensures r.Err? <==> requests == [] || |requests| > 1000
      ensures r.Err? ==> r.error.Invalid? && db.Books() == old(db.Books()) && db.audit == old(db.audit)
      ensures r.Ok? ==>
                exists books: seq<Books>, calls: seq<Call>, replies: seq<Reply>, ordered: seq<ProcessRequest> ::
                  && CallsOf(calls, claims, requests, clock, ordered)
                  && SoFar(old(db.Books()), books, calls, replies, r.value.results, db.Books())
      ensures r.Ok? ==>
                && |r.value.results| == |requests|
                && r.value.accepted == |RefsMarked(r.value.results, BatchAccepted)| == |db.ledger| - |old(db.ledger)|
                && r.value.duplicate == |RefsMarked(r.value.results, BatchDuplicate)|
                && r.value.rejected == |RefsMarked(r.value.results, BatchRejected)|
                && r.value.accepted + r.value.duplicate + r.value.rejected == |requests|
      ensures r.Ok? && old(db.Healthy()) ==>
                db.Healthy() && (db.Books(), r.value) == RunBatch(old(db.Books()), claims, requests, clock)
    {
      if |requests| == 0 {
        return Err(Invalid("ProcessTransactionBatch", ["batch must contain at least one transaction"]));
      } else if |requests| > MAX_BATCH_SIZE {
        return Err(Invalid("ProcessTransactionBatch", ["batch exceeds maximum of 1000 transactions"]));
      }

      var ordered := StableSort(requests, ByTime);
      SortIsStable(requests, ByTime);
      AppliedInTimeOrder(requests);
      ghost var before := db.Books();
      ghost var calls := CallsFor(claims, ordered, clock);
      ghost var books, replies;
      var response;
      response, books, replies := RunOrdered(claims, ordered, clock);
      assert calls[..|ordered|] == calls;
      assert CallsOf(calls, claims, requests, clock, ordered);
      CountersAgree(before.ledger, db.ledger, response.results);
      return Ok(response);
    }

    /** The requests one after the other, counted as they go. */
    method RunOrdered(claims: seq<string>, ordered: seq<ProcessRequest>, clock: nat -> Stamp)
      returns (response: Response, ghost books: seq<Books>, ghost replies: seq<Reply>)
      requires db.Valid() && db.saved.None?
      modifies db
      ensures db.Valid() && db.saved.None?
      ensures SoFar(old(db.Books()), books, CallsFor(claims, ordered, clock), replies, response.results, db.Books())
      ensures response == ResponseOf(response.results)
      ensures old(db.Healthy()) ==>
                db.Healthy()
                && RunSoFar(old(db.Books()), CallsFor(claims, ordered, clock), |ordered|, db.Books(), response.results)
    {
      var results: seq<Element> := [];
      var accepted, duplicate, rejected := 0, 0, 0;
      ghost var healthy, before := db.Healthy(), db.Books();
      ghost var calls := CallsFor(claims, ordered, clock);
      books, replies := [before], [];
      assert calls[..0] == [];
      for i := 0 to |ordered|
        invariant db.Valid() && db.saved.None?
        invariant SoFar(before, books, calls[..i], replies, results, db.Books())
        invariant Response(results, accepted, duplicate, rejected) == ResponseOf(results)
        invariant healthy ==> db.Healthy() && RunSoFar(before, calls, i, db.Books(), results)
      {
        ghost var earlier := db.Books();
        var call := Call(claims, ordered[i], clock(i).now, clock(i).uuid);
        assert call == calls[i];
        var element, reply := ProcessElement(call);
        match element.verdict {
          case BatchDuplicate => duplicate := duplicate + 1;
          case BatchAccepted => accepted := accepted + 1;
          case BatchRejected => rejected := rejected + 1;
        }
        TallyAppend(results, element);
        SoFarStep(before, books, calls, replies, results, earlier, i, reply, element, db.Books());
        books, replies := books + [db.Books()], replies + [reply];
        if healthy {
          RunSoFarStep(before, calls, i, earlier, results, db.Books(), element);
        }
        results := results + [element];
      }
      assert calls[..|ordered|] == calls;
      response := Response(results, accepted, duplicate, rejected);
    }

    /** One element: an error is captured in the result, whichever it is. */
    method ProcessElement(call: Call) returns (element: Element, ghost reply: Reply)
      requires db.Valid() && db.saved.None?
      modifies db
      ensures db.Valid() && db.saved.None?
      ensures Happened(old(db.Books()), call, reply, db.Books()) && Marked(element, call, OutcomeOf(reply))
      ensures old(db.Healthy()) ==>
                && db.Healthy()
                && var p := Attempt(old(db.Books()), call);
                   db.Books() == p.books && element == ElementOf(call.request.ref, p.outcome)
    {
      var result := ProcessTransaction(call);
      reply := result;
      match result {
        case Answered(Duplicate(_, balance)) => element := Element(call.request.ref, BatchDuplicate, "", balance);
        case Answered(Accepted(_, balance)) => element := Element(call.request.ref, BatchAccepted, "", balance);
        case Answered(Rejected(error)) => element := Element(call.request.ref, BatchRejected, ReasonFor(error), 0);
        case Unaudited(error) => element := Element(call.request.ref, BatchRejected, ReasonFor(error), 0);
      }
    }
  }
}
