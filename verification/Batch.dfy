/** A batch: the submitted requests, stably sorted by business time, run one after the other. */
module Batch {
  import opened Domain
  import opened Wallet
  import opened Sorting

  const MAX_BATCH_SIZE := 1000

  // ---------------------------------------------------------------- one attempt

  /** The reasons `Validate` gives for refusing a request, in order. */
  function RequestReasons(r: ProcessRequest): seq<string> {
    (if r.ref == "" then ["Ref is required"] else [])
    + (if r.accountID == "" then ["AccountID is required"] else [])
    + (if r.userID == "" then ["UserID is required"] else [])
    + (if r.kind == KIND_EARN || r.kind == KIND_SPEND
       then if r.points <= 0 then ["Points must be greater than 0 for earn and spend"] else []
       else ["Kind must be 'earn' or 'spend'"])
  }

  lemma NoReasonsIffValid(r: ProcessRequest)
    ensures RequestReasons(r) == [] <==> ValidRequest(r)
  {
    if RequestReasons(r) == [] {
      assert |RequestReasons(r)| == 0;
    }
  }

  /** An attempt from the very start: a request that fails validation reaches no table. */
  function Attempt(b: Books, call: Call): Processed {
    if RequestReasons(call.request) != []
    then Processed(b, Rejected(Invalid("ProcessTransaction", RequestReasons(call.request))))
    else Process(b, call)
  }

  /** What an attempt comes to means what it says; one that cannot be acted on is refused and changes
      nothing. */
  lemma AttemptMeans(b: Books, call: Call)
    ensures var p := Attempt(b, call);
            if WellFormed(call.request) then Means(b, call, p.books, p.outcome)
            else p.books == b && p.outcome.Rejected? && p.outcome.error.Invalid?
  {
    NoReasonsIffValid(call.request);
    ValidMeans(call.request);
    if WellFormed(call.request) {
      ProcessMeans(b, call);
    }
  }

  // ---------------------------------------------------------------- a run of attempts

  datatype Fold = Fold(books: Books, outcomes: seq<Outcome>)

  function RunAll(b: Books, calls: seq<Call>): (f: Fold)
    ensures |f.outcomes| == |calls|
  {
    if calls == [] then Fold(b, [])
    else
      var before := RunAll(b, calls[..|calls| - 1]);
      var p := Attempt(before.books, calls[|calls| - 1]);
      Fold(p.books, before.outcomes + [p.outcome])
  }

  datatype Verdict = BatchAccepted | BatchDuplicate | BatchRejected

  datatype Element = Element(ref: string, verdict: Verdict, reason: string, balance: int)

  datatype Response = Response(results: seq<Element>, accepted: nat, duplicate: nat, rejected: nat)

  function ElementOf(ref: string, outcome: Outcome): Element {
    match outcome
    case Accepted(_, balance) => Element(ref, BatchAccepted, "", balance)
    case Duplicate(_, balance) => Element(ref, BatchDuplicate, "", balance)
    case Rejected(error) => Element(ref, BatchRejected, ReasonFor(error), 0)
  }

  function ElementsOf(calls: seq<Call>, outcomes: seq<Outcome>): (r: seq<Element>)
    requires |calls| == |outcomes|
    ensures |r| == |calls|
    ensures forall k :: 0 <= k < |r| ==> r[k] == ElementOf(calls[k].request.ref, outcomes[k])
  {
    seq(|calls|, k requires 0 <= k < |calls| => ElementOf(calls[k].request.ref, outcomes[k]))
  }

  function Tally(results: seq<Element>, verdict: Verdict): nat {
    if results == [] then 0
    else Tally(results[..|results| - 1], verdict) + if results[|results| - 1].verdict == verdict then 1 else 0
  }

  function ResponseOf(results: seq<Element>): Response {
    Response(results, Tally(results, BatchAccepted), Tally(results, BatchDuplicate), Tally(results, BatchRejected))
  }

  /** The clock and the id source: what the n-th attempt of the batch reads from them. */
  datatype Stamp = Stamp(now: Time, uuid: string)

  function ByTime(r: ProcessRequest): Key { Key(r.occurredAt, 0) }

  function CallsFor(claims: seq<string>, ordered: seq<ProcessRequest>, clock: nat -> Stamp): (calls: seq<Call>)
    ensures |calls| == |ordered|
    ensures forall k :: 0 <= k < |calls| ==> calls[k] == Call(claims, ordered[k], clock(k).now, clock(k).uuid)
  {
    seq(|ordered|, k requires 0 <= k < |ordered| => Call(claims, ordered[k], clock(k).now, clock(k).uuid))
  }

  /** The whole batch as a function: sort, run in order, tally. */
  function RunBatch(b: Books, claims: seq<string>, requests: seq<ProcessRequest>, clock: nat -> Stamp): (Books, Response) {
    var calls := CallsFor(claims, StableSort(requests, ByTime), clock);
    var f := RunAll(b, calls);
    (f.books, ResponseOf(ElementsOf(calls, f.outcomes)))
  }

  /** The requests of `ordered` are those of `requests`, by business time, and in the order they were
      submitted where the times are equal. */
  ghost predicate InTimeOrder(ordered: seq<ProcessRequest>, requests: seq<ProcessRequest>) {
    && multiset(ordered) == multiset(requests)
    && (forall i, j :: 0 <= i < j < |ordered| ==> ordered[i].occurredAt <= ordered[j].occurredAt)
    && (forall t :: AtTime(ordered, t) == AtTime(requests, t))
  }

  /** The requests with business time `t`, in their order. */
  function AtTime(requests: seq<ProcessRequest>, t: Time): seq<ProcessRequest> {
    if requests == [] then []
    else (if requests[0].occurredAt == t then [requests[0]] else []) + AtTime(requests[1..], t)
  }

  lemma {:induction false} AtTimeIsClass(requests: seq<ProcessRequest>, t: Time)
    ensures AtTime(requests, t) == Class(requests, ByTime, Key(t, 0))
  {
    if requests != [] {
      AtTimeIsClass(requests[1..], t);
    }
  }

  /** A batch is applied in the order of business time. */
  lemma AppliedInTimeOrder(requests: seq<ProcessRequest>)
    ensures InTimeOrder(StableSort(requests, ByTime), requests)
  {
    var ordered := StableSort(requests, ByTime);
    SortIsStable(requests, ByTime);
    forall i, j | 0 <= i < j < |ordered|
      ensures ordered[i].occurredAt <= ordered[j].occurredAt
    {
      assert Below(ByTime(ordered[i]), ByTime(ordered[j]));
    }
    forall t
      ensures AtTime(ordered, t) == AtTime(requests, t)
    {
      AtTimeIsClass(ordered, t);
      AtTimeIsClass(requests, t);
    }
  }

  /** An element says of its attempt: accepted or duplicate, each with the balance that was reported, or
      rejected, with the reason. */
  ghost predicate Marked(e: Element, call: Call, outcome: Outcome) {
    && e.ref == call.request.ref
    && match outcome
       case Accepted(_, balance) => e.verdict == BatchAccepted && e.balance == balance && e.reason == ""
       case Duplicate(_, balance) => e.verdict == BatchDuplicate && e.balance == balance && e.reason == ""
       case Rejected(error) => e.verdict == BatchRejected && e.balance == 0 && Explains(e.reason, error)
  }

  lemma ElementIsMarked(call: Call, outcome: Outcome)
    ensures Marked(ElementOf(call.request.ref, outcome), call, outcome)
  {
  }

  /** The refs of the elements with a verdict, in order. */
  function RefsMarked(results: seq<Element>, verdict: Verdict): seq<string> {
    if results == [] then []
    else
      var last := results[|results| - 1];
      RefsMarked(results[..|results| - 1], verdict) + if last.verdict == verdict then [last.ref] else []
  }

  lemma {:induction false} TallyCounts(results: seq<Element>, verdict: Verdict)
    ensures Tally(results, verdict) == |RefsMarked(results, verdict)|
  {
    if results != [] {
      TallyCounts(results[..|results| - 1], verdict);
    }
  }

  function RefsOf(rows: seq<Transaction>): seq<string> {
    if rows == [] then [] else RefsOf(rows[..|rows| - 1]) + [rows[|rows| - 1].ref]
  }

  /** Without failures: the elements of a batch, in the order of business time, say of each attempt what it
      was told, and its counters count them. */
  lemma BatchSays(b: Books, claims: seq<string>, requests: seq<ProcessRequest>, clock: nat -> Stamp)
    returns (calls: seq<Call>)
    ensures |calls| == |requests|
    ensures exists ordered :: InTimeOrder(ordered, requests) && |ordered| == |calls|
              && forall k :: 0 <= k < |calls| ==> calls[k] == Call(claims, ordered[k], clock(k).now, clock(k).uuid)
    ensures var (books, response) := RunBatch(b, claims, requests, clock);
            && books == RunAll(b, calls).books && |response.results| == |calls|
            && (forall k :: 0 <= k < |calls| ==> Marked(response.results[k], calls[k], RunAll(b, calls).outcomes[k]))
            && response.accepted == |RefsMarked(response.results, BatchAccepted)|
            && response.duplicate == |RefsMarked(response.results, BatchDuplicate)|
            && response.rejected == |RefsMarked(response.results, BatchRejected)|
  {
    var ordered := StableSort(requests, ByTime);
    AppliedInTimeOrder(requests);
    SortIsStable(requests, ByTime);
    calls := CallsFor(claims, ordered, clock);
    var results := RunBatch(b, claims, requests, clock).1.results;
    forall k | 0 <= k < |calls|
      ensures Marked(results[k], calls[k], RunAll(b, calls).outcomes[k])
    {
      ElementIsMarked(calls[k], RunAll(b, calls).outcomes[k]);
    }
    TallyCounts(results, BatchAccepted);
    TallyCounts(results, BatchDuplicate);
    TallyCounts(results, BatchRejected);
  }

  // ---------------------------------------------------------------- counts and order

  lemma {:induction false} TallyAll(results: seq<Element>)
    ensures Tally(results, BatchAccepted) + Tally(results, BatchDuplicate) + Tally(results, BatchRejected) == |results|
  {
    if results != [] {
      TallyAll(results[..|results| - 1]);
    }
  }

  /** Every submitted element is counted once. */
  lemma BatchCounts(b: Books, claims: seq<string>, requests: seq<ProcessRequest>, clock: nat -> Stamp)
    ensures var r := RunBatch(b, claims, requests, clock).1;
            |r.results| == |requests| && r.accepted + r.duplicate + r.rejected == |requests|
  {
    SortIsStable(requests, ByTime);
    TallyAll(RunBatch(b, claims, requests, clock).1.results);
  }

  /** With distinct business times the order of submission changes neither results nor books. */
  lemma SubmissionOrderIrrelevant(
    b: Books, claims: seq<string>, requests: seq<ProcessRequest>, shuffled: seq<ProcessRequest>, clock: nat -> Stamp)
    requires multiset(requests) == multiset(shuffled) && DistinctKeys(requests, ByTime)
    ensures RunBatch(b, claims, requests, clock) == RunBatch(b, claims, shuffled, clock)
  {
    OrderOfDistinct(requests, shuffled, ByTime);
  }

  // ---------------------------------------------------------------- what attempts leave in place

  /** Later books: accounts keep their owners, recorded refs keep their rows. */
  ghost predicate Later(b: Books, b': Books) {
    && (forall a :: a in b.accounts ==> a in b'.accounts && b'.accounts[a].ownerID == b.accounts[a].ownerID)
    && (forall ref :: Recorded(b.ledger, ref) ==> FindRef(b'.ledger, ref) == FindRef(b.ledger, ref))
  }

  lemma AttemptLater(b: Books, call: Call)
    ensures Later(b, Attempt(b, call).books)
  {
    var b' := Attempt(b, call).books;
    if b'.ledger != b.ledger {
      var row := b'.ledger[|b.ledger|];
      forall ref | Recorded(b.ledger, ref)
        ensures FindRef(b'.ledger, ref) == FindRef(b.ledger, ref)
      {
        FindRefAppend(b.ledger, row, ref);
      }
    }
  }

  lemma {:induction false} RunAllLater(b: Books, calls: seq<Call>)
    ensures Later(b, RunAll(b, calls).books)
  {
    if calls != [] {
      RunAllLater(b, calls[..|calls| - 1]);
      AttemptLater(RunAll(b, calls[..|calls| - 1]).books, calls[|calls| - 1]);
    }
  }

  // ---------------------------------------------------------------- replay

  /** The request would be answered as a duplicate. */
  predicate Replayed(b: Books, claims: seq<string>, r: ProcessRequest) {
    && ValidRequest(r) && Visible(b.accounts, r.accountID, claims, r.userID)
    && Recorded(b.ledger, r.ref) && Readable(FindRef(b.ledger, r.ref).value, claims, r.userID)
    && Scannable(FindRef(b.ledger, r.ref).value)
  }

  /** Whoever reads every account reads every transaction: true of both roles, not of any claim. */
  predicate CoherentReads(claims: seq<string>) {
    IsGranted(claims, PERM_ACCOUNT_READ_ALL) ==> IsGranted(claims, PERM_TRANSACTION_READ_ALL)
  }

  lemma RolesReadCoherently(role: Role)
    ensures CoherentReads(PermissionsForRole(role))
  {
    RoleScopes();
  }

  lemma AttemptReplays(b: Books, call: Call)
    ensures Attempt(b, call).outcome.Duplicate? <==> Replayed(b, call.claims, call.request)
    ensures Replayed(b, call.claims, call.request) ==> Attempt(b, call).books == b
  {
    NoReasonsIffValid(call.request);
  }

  /** Resubmitting an accepted request is answered as a duplicate exactly when the caller may read
      the row, which its owner always may, and its times lie in years that read back; it never moves
      anything. */
  lemma ReplayOfAccepted(b: Books, call: Call, again: Call)
    requires Attempt(b, call).outcome.Accepted? && again.claims == call.claims && again.request == call.request
    ensures var p := Attempt(b, call);
            && (Attempt(p.books, again).outcome.Duplicate? <==>
                  && (IsGranted(call.claims, PERM_TRANSACTION_READ_ALL)
                      || b.accounts[call.request.accountID].ownerID == call.request.userID)
                  && InTime(call))
            && Attempt(p.books, again).books == p.books
  {
    AcceptedIsRecorded(b, call);
    AttemptReplays(Attempt(b, call).books, again);
    OnlyAcceptedMoves(Attempt(b, call).books, again);
  }

  /** What an acceptance leaves on record. */
  lemma AcceptedIsRecorded(b: Books, call: Call)
    requires Attempt(b, call).outcome.Accepted?
    ensures ValidRequest(call.request) && call.request.accountID in b.accounts
    ensures var b' := Attempt(b, call).books;
            && FindRef(b'.ledger, call.request.ref) == Some(NewRow(call, b.accounts[call.request.accountID].ownerID))
            && Visible(b'.accounts, call.request.accountID, call.claims, call.request.userID)
  {
    NoReasonsIffValid(call.request);
    FindRefAppend(b.ledger, Attempt(b, call).outcome.transaction, call.request.ref);
  }

  lemma OnlyAcceptedMoves(b: Books, call: Call)
    ensures Recorded(b.ledger, call.request.ref) ==> Attempt(b, call).books == b && !Attempt(b, call).outcome.Accepted?
  {
  }

  /** A member earns on their own account at 9999-12-31T23:59:59-01:00, which is in UTC year 10000: the
      request is accepted, and its retry is rejected. */
  lemma LateReplayIsRejected() returns (b: Books, call: Call)
    ensures call.claims == PermissionsForRole(Member) && call.request.occurredAt == YEAR_TEN_THOUSAND + 3599 * 1_000_000_000
    ensures call.request.accountID in b.accounts && b.accounts[call.request.accountID].ownerID == call.request.userID
    ensures Attempt(b, call).outcome.Accepted?
    ensures Attempt(Attempt(b, call).books, call) == Processed(Attempt(b, call).books, Rejected(Unreadable))
  {
    b := Books(map["a" := Account("owner", "wallet", 0)], []);
    var late := YEAR_TEN_THOUSAND + 3599 * 1_000_000_000;
    call := Call(PermissionsForRole(Member), ProcessRequest("owner", "r", "a", KIND_EARN, 1, late), 1, "id");
    NoReasonsIffValid(call.request);
    assert FindRef([], "r").None?;
    FindRefAppend([], NewRow(call, "owner"), "r");
    assert Process(b, call).books.ledger == [] + [NewRow(call, "owner")];
  }

  /** A ref recorded for somebody else's account reads as not found to a member who submits it, on
      their own account and in good order. */
  lemma TakenRefReadsAsNotFound(b: Books, call: Call)
    requires call.claims == PermissionsForRole(Member) && ValidRequest(call.request)
    requires Recorded(b.ledger, call.request.ref)
    requires FindRef(b.ledger, call.request.ref).value.ownerID != call.request.userID
    ensures Attempt(b, call) == Processed(b, Rejected(NotFound))
  {
    RoleScopes();
    NoReasonsIffValid(call.request);
  }

  /** Two members, each on their own account, submit the same ref: the second is told not found. */
  lemma TakenRefOccurs() returns (b: Books, first: Call, second: Call)
    ensures first.claims == PermissionsForRole(Member) && second.claims == PermissionsForRole(Member)
    ensures first.request.accountID in b.accounts && second.request.accountID in b.accounts
    ensures b.accounts[first.request.accountID].ownerID == first.request.userID
    ensures b.accounts[second.request.accountID].ownerID == second.request.userID
    ensures Attempt(b, first).outcome.Accepted?
    ensures Attempt(Attempt(b, first).books, second).outcome == Rejected(NotFound)
  {
    var member := PermissionsForRole(Member);
    b := Books(map["a" := Account("x", "wallet", 0), "b" := Account("y", "wallet", 0)], []);
    first := Call(member, ProcessRequest("x", "r", "a", KIND_EARN, 1, NO_TIME), 1, "1");
    second := Call(member, ProcessRequest("y", "r", "b", KIND_EARN, 1, NO_TIME), 2, "2");
    NoReasonsIffValid(first.request);
    assert FindRef([], "r").None?;
    FindRefAppend([], NewRow(first, "x"), "r");
    assert Process(b, first).books.ledger == [] + [NewRow(first, "x")];
    assert "x"[0] != "y"[0];
    TakenRefReadsAsNotFound(Attempt(b, first).books, second);
  }

  /** Whether or not its row reads back, a request that was not rejected is on record, and its caller
      may see the account and the row. */
  predicate OnRecord(b: Books, claims: seq<string>, r: ProcessRequest) {
    && ValidRequest(r) && Visible(b.accounts, r.accountID, claims, r.userID)
    && Recorded(b.ledger, r.ref) && Readable(FindRef(b.ledger, r.ref).value, claims, r.userID)
  }

  lemma OnRecordLater(b: Books, b': Books, claims: seq<string>, r: ProcessRequest)
    requires Later(b, b') && OnRecord(b, claims, r)
    ensures OnRecord(b', claims, r)
  {
  }

  lemma SettledIsOnRecord(b: Books, call: Call)
    requires CoherentReads(call.claims) && !Attempt(b, call).outcome.Rejected?
    ensures OnRecord(Attempt(b, call).books, call.claims, call.request)
    ensures var row := FindRef(Attempt(b, call).books.ledger, call.request.ref).value;
            Scannable(row) <==> Attempt(b, call).outcome.Duplicate? || InTime(call)
  {
    NoReasonsIffValid(call.request);
    if Attempt(b, call).outcome.Accepted? {
      FindRefAppend(b.ledger, Attempt(b, call).outcome.transaction, call.request.ref);
    }
  }

  ghost predicate NoneRejected(outcomes: seq<Outcome>) {
    forall k :: 0 <= k < |outcomes| ==> !outcomes[k].Rejected?
  }

  /** The batch itself recorded the ref, at a time that does not read back. */
  ghost predicate OutOfTime(calls: seq<Call>, outcomes: seq<Outcome>, ref: string)
    requires |calls| == |outcomes|
  {
    exists k :: 0 <= k < |calls| && calls[k].request.ref == ref && outcomes[k].Accepted? && !InTime(calls[k])
  }

  lemma OutOfTimeAppend(calls: seq<Call>, outcomes: seq<Outcome>, call: Call, outcome: Outcome, ref: string)
    requires |calls| == |outcomes|
    ensures OutOfTime(calls + [call], outcomes + [outcome], ref) <==>
              OutOfTime(calls, outcomes, ref) || (call.request.ref == ref && outcome.Accepted? && !InTime(call))
  {
    var calls', outcomes' := calls + [call], outcomes + [outcome];
    if OutOfTime(calls, outcomes, ref) {
      var k :| 0 <= k < |calls| && calls[k].request.ref == ref && outcomes[k].Accepted? && !InTime(calls[k]);
      assert calls'[k].request.ref == ref && outcomes'[k].Accepted? && !InTime(calls'[k]);
    } else if call.request.ref == ref && outcome.Accepted? && !InTime(call) {
      assert calls'[|calls|] == call && outcomes'[|calls|] == outcome;
    }
  }

  lemma RunAllStep(b: Books, calls: seq<Call>)
    requires calls != []
    ensures var last := |calls| - 1;
            var before, after := RunAll(b, calls[..last]), RunAll(b, calls);
            && after.outcomes[..last] == before.outcomes
            && Processed(after.books, after.outcomes[last]) == Attempt(before.books, calls[last])
  {
  }

  /** The request is on record, and its row reads back unless the batch recorded it out of time. */
  ghost predicate Remembered(b: Books, calls: seq<Call>, outcomes: seq<Outcome>, claims: seq<string>, r: ProcessRequest)
    requires |calls| == |outcomes|
  {
    && OnRecord(b, claims, r)
    && (Scannable(FindRef(b.ledger, r.ref).value) <==> !OutOfTime(calls, outcomes, r.ref))
  }

  lemma StaysRemembered(
    b: Books, calls: seq<Call>, outcomes: seq<Outcome>, call: Call, claims: seq<string>, r: ProcessRequest)
    requires |calls| == |outcomes| && Remembered(b, calls, outcomes, claims, r)
    ensures var p := Attempt(b, call); Remembered(p.books, calls + [call], outcomes + [p.outcome], claims, r)
  {
    AttemptLater(b, call);
    OnRecordLater(b, Attempt(b, call).books, claims, r);
    if call.request.ref == r.ref {
      OnlyFirstAccepted(b, call, r.ref);
    }
    OutOfTimeAppend(calls, outcomes, call, Attempt(b, call).outcome, r.ref);
  }

  lemma SettledIsRemembered(b: Books, calls: seq<Call>, outcomes: seq<Outcome>, call: Call)
    requires |calls| == |outcomes| && CoherentReads(call.claims) && !Attempt(b, call).outcome.Rejected?
    requires !OutOfTime(calls, outcomes, call.request.ref)
    ensures var p := Attempt(b, call);
            Remembered(p.books, calls + [call], outcomes + [p.outcome], call.claims, call.request)
  {
    SettledIsOnRecord(b, call);
    OutOfTimeAppend(calls, outcomes, call, Attempt(b, call).outcome, call.request.ref);
  }

  /** A duplicate of a request the batch settled before is remembered as that one is. */
  lemma RepeatIsRemembered(b: Books, calls: seq<Call>, outcomes: seq<Outcome>, call: Call, claims: seq<string>, r: ProcessRequest)
    requires |calls| == |outcomes| && CoherentReads(call.claims) && !Attempt(b, call).outcome.Rejected?
    requires Remembered(b, calls, outcomes, claims, r) && call.request.ref == r.ref
    ensures !OutOfTime(calls, outcomes, r.ref)
  {
    SettledIsOnRecord(b, call);
    OnlyFirstAccepted(b, call, r.ref);
  }

  ghost predicate EachRemembered(b: Books, calls: seq<Call>, outcomes: seq<Outcome>)
    requires |calls| == |outcomes|
  {
    forall k :: 0 <= k < |calls| ==> Remembered(b, calls, outcomes, calls[k].claims, calls[k].request)
  }

  lemma EachRememberedStep(b: Books, calls: seq<Call>, outcomes: seq<Outcome>, call: Call)
    requires |calls| == |outcomes| && EachRemembered(b, calls, outcomes)
    requires CoherentReads(call.claims) && !Attempt(b, call).outcome.Rejected?
    ensures var p := Attempt(b, call); EachRemembered(p.books, calls + [call], outcomes + [p.outcome])
  {
    forall j | 0 <= j < |calls| && calls[j].request.ref == call.request.ref
      ensures !OutOfTime(calls, outcomes, call.request.ref)
    {
      RepeatIsRemembered(b, calls, outcomes, call, calls[j].claims, calls[j].request);
    }
    SettledIsRemembered(b, calls, outcomes, call);
    forall k | 0 <= k < |calls|
      ensures var p := Attempt(b, call);
              Remembered(p.books, calls + [call], outcomes + [p.outcome], calls[k].claims, calls[k].request)
    {
      StaysRemembered(b, calls, outcomes, call, calls[k].claims, calls[k].request);
    }
  }

  lemma LastRemembered(b: Books, b': Books, calls: seq<Call>, outcomes: seq<Outcome>)
    requires |calls| == |outcomes| > 0
    requires var last := |calls| - 1;
             && EachRemembered(b, calls[..last], outcomes[..last])
             && CoherentReads(calls[last].claims) && !outcomes[last].Rejected?
             && Attempt(b, calls[last]) == Processed(b', outcomes[last])
    ensures EachRemembered(b', calls, outcomes)
  {
    var last := |calls| - 1;
    EachRememberedStep(b, calls[..last], outcomes[..last], calls[last]);
    assert calls == calls[..last] + [calls[last]] && outcomes == outcomes[..last] + [outcomes[last]];
  }

  lemma {:induction false} AllRemembered(b: Books, calls: seq<Call>)
    requires forall j :: 0 <= j < |calls| ==> CoherentReads(calls[j].claims)
    requires NoneRejected(RunAll(b, calls).outcomes)
    ensures EachRemembered(RunAll(b, calls).books, calls, RunAll(b, calls).outcomes)
  {
    if calls != [] {
      var last := |calls| - 1;
      RunAllStep(b, calls);
      EarlierNotRejected(RunAll(b, calls).outcomes);
      AllRemembered(b, calls[..last]);
      LastRemembered(RunAll(b, calls[..last]).books, RunAll(b, calls).books, calls, RunAll(b, calls).outcomes);
    }
  }

  lemma EarlierNotRejected(outcomes: seq<Outcome>)
    requires NoneRejected(outcomes) && outcomes != []
    ensures NoneRejected(outcomes[..|outcomes| - 1]) && !outcomes[|outcomes| - 1].Rejected?
  {
  }

  /** A ref is accepted once. */
  lemma OnlyFirstAccepted(b: Books, call: Call, ref: string)
    requires Recorded(b.ledger, ref) && call.request.ref == ref
    ensures !Attempt(b, call).outcome.Accepted?
  {
  }

  /** `again` resubmits, in any order and as often as it likes, requests of `calls`. */
  ghost predicate Resubmits(again: seq<Call>, calls: seq<Call>) {
    forall m :: 0 <= m < |again| ==> Repeats(again[m], calls)
  }

  ghost predicate Repeats(call: Call, calls: seq<Call>) {
    exists k :: 0 <= k < |calls| && calls[k].request == call.request && calls[k].claims == call.claims
  }

  lemma OnRecordAgain(b: Books, call: Call)
    requires OnRecord(b, call.claims, call.request)
    ensures Attempt(b, call).books == b
    ensures var row := FindRef(b.ledger, call.request.ref).value;
            if Scannable(row) then Attempt(b, call).outcome.Duplicate? && Attempt(b, call).outcome.transaction == row
            else Attempt(b, call).outcome == Rejected(Unreadable)
  {
    NoReasonsIffValid(call.request);
  }

  /** A resubmitted element after a settled batch: its row given back, or rejected as unreadable. */
  ghost predicate AnsweredAgain(b: Books, calls: seq<Call>, outcomes: seq<Outcome>, call: Call, outcome: Outcome)
    requires |calls| == |outcomes|
  {
    if OutOfTime(calls, outcomes, call.request.ref) then outcome == Rejected(Unreadable)
    else outcome.Duplicate? && FindRef(b.ledger, call.request.ref) == Some(outcome.transaction)
  }

  lemma RememberedAnswer(b: Books, calls: seq<Call>, outcomes: seq<Outcome>, call: Call)
    requires |calls| == |outcomes| && Repeats(call, calls) && EachRemembered(b, calls, outcomes)
    ensures Attempt(b, call).books == b && AnsweredAgain(b, calls, outcomes, call, Attempt(b, call).outcome)
  {
    var k :| 0 <= k < |calls| && calls[k].request == call.request && calls[k].claims == call.claims;
    assert Remembered(b, calls, outcomes, calls[k].claims, calls[k].request);
    OnRecordAgain(b, call);
  }

  /** Attempts none of which changes the books are answered each as if it came first. */
  lemma {:induction false} StandingStill(b: Books, again: seq<Call>)
    requires forall m :: 0 <= m < |again| ==> Attempt(b, again[m]).books == b
    ensures RunAll(b, again).books == b
    ensures forall m :: 0 <= m < |again| ==> RunAll(b, again).outcomes[m] == Attempt(b, again[m]).outcome
  {
    if again != [] {
      StandingStill(b, again[..|again| - 1]);
    }
  }

  /** Safe replay: once every element of a batch was accepted or duplicate, resubmitting them in any
      order and any number of times leaves the books alone; and an element gets the recorded row back
      as a duplicate exactly when the batch did not accept its ref at a time that does not read
      back, otherwise it is rejected. */
  lemma SafeReplay(b: Books, calls: seq<Call>, again: seq<Call>)
    requires forall k :: 0 <= k < |calls| ==> CoherentReads(calls[k].claims)
    requires NoneRejected(RunAll(b, calls).outcomes) && Resubmits(again, calls)
    ensures var f := RunAll(b, calls);
            var g := RunAll(f.books, again);
            && g.books == f.books
            && forall m :: 0 <= m < |again| ==> AnsweredAgain(f.books, calls, f.outcomes, again[m], g.outcomes[m])
  {
    var f := RunAll(b, calls);
    AllRemembered(b, calls);
    forall m | 0 <= m < |again|
      ensures Attempt(f.books, again[m]).books == f.books
      ensures AnsweredAgain(f.books, calls, f.outcomes, again[m], Attempt(f.books, again[m]).outcome)
    {
      RememberedAnswer(f.books, calls, f.outcomes, again[m]);
    }
    StandingStill(f.books, again);
  }

  /** In years that read back, and for the callers the roles make, everything resubmitted is a
      duplicate. */
  lemma SafeReplayInTime(b: Books, calls: seq<Call>, again: seq<Call>, role: Role)
    requires forall k :: 0 <= k < |calls| ==> calls[k].claims == PermissionsForRole(role) && InTime(calls[k])
    requires NoneRejected(RunAll(b, calls).outcomes) && Resubmits(again, calls)
    ensures RunAll(RunAll(b, calls).books, again).books == RunAll(b, calls).books
    ensures forall m :: 0 <= m < |again| ==> RunAll(RunAll(b, calls).books, again).outcomes[m].Duplicate?
  {
    RolesReadCoherently(role);
    SafeReplay(b, calls, again);
    var f := RunAll(b, calls);
    var g := RunAll(f.books, again);
    forall m | 0 <= m < |again|
      ensures g.outcomes[m].Duplicate?
    {
      assert AnsweredAgain(f.books, calls, f.outcomes, again[m], g.outcomes[m]);
    }
  }

  // ---------------------------------------------------------------- recorded refs never move a balance

  function Unrecorded(ledger: seq<Transaction>, calls: seq<Call>): seq<Call> {
    if calls == [] then []
    else
      var last := calls[|calls| - 1];
      Unrecorded(ledger, calls[..|calls| - 1]) + if Recorded(ledger, last.request.ref) then [] else [last]
  }

  /** In any batch, elements whose ref was recorded before it leave no trace in the books: the batch
      ends as it would without them. */
  lemma {:induction false} RecordedLeaveNoTrace(b: Books, calls: seq<Call>)
    ensures RunAll(b, calls).books == RunAll(b, Unrecorded(b.ledger, calls)).books
  {
    if calls != [] {
      var last := calls[|calls| - 1];
      var rest := calls[..|calls| - 1];
      RecordedLeaveNoTrace(b, rest);
      RunAllLater(b, rest);
      var kept := Unrecorded(b.ledger, rest);
      if Recorded(b.ledger, last.request.ref) {
        assert Recorded(RunAll(b, rest).books.ledger, last.request.ref);
        assert kept + [] == kept;
      } else {
        assert (kept + [last])[..|kept|] == kept;
      }
    }
  }
}
