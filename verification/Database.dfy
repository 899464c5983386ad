/** The database as one connection sees it: tables updated in place, at most one open transaction,
    and statements that may fail. */
module Database {
  import opened Domain
  import opened Wallet

  datatype Tables = Tables(accounts: map<string, Account>, ledger: seq<Transaction>, audit: seq<AuditEntry>)

  /** Storage lets every statement it has been told about pass. */
  ghost predicate Calm(faults: seq<Option<string>>) {
    forall k :: 0 <= k < |faults| ==> faults[k].None?
  }

  class Store {
    var accounts: map<string, Account>
    var ledger: seq<Transaction>
    var audit: seq<AuditEntry>
    var nextEntry: nat                   // the identity sequence, which no rollback turns back
    var saved: Option<Tables>            // while a transaction is open: the tables it began with
    var aborted: bool                    // a statement of the open transaction raised an error
    var faults: seq<Option<string>>      // what storage does to the next statements; none left: it works

    constructor ()
      ensures Valid() && accounts == map[] && ledger == [] && audit == [] && saved.None? && faults == []
    {
      accounts, ledger, audit, nextEntry := map[], [], [], 1;
      saved, aborted, faults := None, false, [];
    }

    ghost predicate Valid()
      reads this
    {
      && (saved.None? ==> !aborted)
      && (forall a :: a in accounts ==> accounts[a].ownerID != "" && 0 <= accounts[a].balance <= MAX_INT64)
    }

    /** No statement will fail. */
    ghost predicate Healthy()
      reads this
    {
      Calm(faults) && !aborted
    }

    /** The next statement fails, because storage does or because the transaction is aborted. */
    ghost predicate Fails()
      reads this
    {
      aborted || (faults != [] && faults[0].Some?)
    }

    /** What storage does after one more statement; in an aborted transaction it is not asked. */
    ghost function Later(): seq<Option<string>>
      reads this
    {
      if aborted || faults == [] then faults else faults[1..]
    }

    function Books(): Books
      reads this
    {
      Wallet.Books(accounts, ledger)
    }

    // -------------------------------------------------------------- statements and transactions

    /** Every statement starts here: it may fail, and in an aborted transaction it always does. */
    method Statement() returns (fault: Option<string>)
      requires Valid()
      modifies this`faults, this`aborted
      ensures Valid()
      ensures (fault.Some? <==> old(Fails())) && faults == old(Later())
      ensures aborted == (fault.Some? && saved.Some?)
      ensures old(Healthy()) ==> fault.None? && Healthy()
    {
      if aborted {
        return Some("current transaction is aborted");
      }
      fault := None;
      if faults != [] {
        fault, faults := faults[0], faults[1..];
      }
      if fault.Some? && saved.Some? {
        aborted := true;
      }
    }

    method Begin() returns (r: Result<()>)
      requires Valid() && saved.None?
      modifies this`faults, this`aborted, this`saved
      ensures Valid() && !aborted
      ensures r.Ok? ==> saved == Some(Tables(accounts, ledger, audit))
      ensures r.Err? ==> r.error.Storage? && saved.None?
      ensures (r.Err? <==> old(Fails())) && faults == old(Later())
      ensures old(Healthy()) ==> r.Ok? && Healthy()
    {
      var fault := Statement();
      if fault.Some? {
        return Err(Storage("begin transaction", fault.value));
      }
      saved := Some(Tables(accounts, ledger, audit));
      return Ok(());
    }

    method Restore()
      requires saved.Some?
      modifies this
      ensures accounts == old(saved.value.accounts) && ledger == old(saved.value.ledger)
      ensures audit == old(saved.value.audit) && nextEntry == old(nextEntry)
      ensures saved.None? && !aborted && faults == old(faults)
    {
      accounts, ledger, audit := saved.value.accounts, saved.value.ledger, saved.value.audit;
      saved, aborted := None, false;
    }

    /** Keeps everything the transaction wrote, or, when it fails, nothing. */
    method Commit() returns (r: Result<()>)
      requires Valid() && saved.Some?
      requires forall a :: a in saved.value.accounts ==>
                 saved.value.accounts[a].ownerID != "" && 0 <= saved.value.accounts[a].balance <= MAX_INT64
      modifies this
      ensures Valid() && saved.None? && nextEntry == old(nextEntry)
      ensures r.Ok? ==> accounts == old(accounts) && ledger == old(ledger) && audit == old(audit)
      ensures r.Err? ==> r.error.Storage? && accounts == old(saved.value.accounts)
                         && ledger == old(saved.value.ledger) && audit == old(saved.value.audit)
      ensures (r.Err? <==> old(Fails())) && faults == old(Later())
      ensures old(Healthy()) ==> r.Ok? && Healthy()
    {
      var fault := Statement();
      if fault.Some? {
        Restore();
        return Err(Storage("commit transaction", fault.value));
      }
      saved := None;
      return Ok(());
    }

    /** Keeps nothing the transaction wrote; a failing rollback loses the connection and with it the
        transaction. */
    method Rollback() returns (r: Result<()>)
      requires Valid() && saved.Some?
      requires forall a :: a in saved.value.accounts ==>
                 saved.value.accounts[a].ownerID != "" && 0 <= saved.value.accounts[a].balance <= MAX_INT64
      modifies this
      ensures Valid() && saved.None? && nextEntry == old(nextEntry)
      ensures accounts == old(saved.value.accounts)
      ensures ledger == old(saved.value.ledger) && audit == old(saved.value.audit)
      ensures r.Err? ==> r.error.Storage?
      ensures r.Err? <==> old(faults) != [] && old(faults)[0].Some?
      ensures faults == if old(faults) == [] then [] else old(faults)[1..]
    {
      r := Ok(());
      if faults != [] {
        if faults[0].Some? {
          r := Err(Storage("roll back transaction", faults[0].value));
        }
        faults := faults[1..];
      }
      Restore();
    }

    // -------------------------------------------------------------- accounts

    method GetAccount(claims: seq<string>, accountID: string, userID: string) returns (r: Result<Account>)
      requires Valid()
      modifies this`faults, this`aborted
      ensures Valid()
      ensures r.Ok? ==> Visible(accounts, accountID, claims, userID) && r.value == accounts[accountID] && !aborted
      ensures r.Err? ==> match r.error
                         case NotFound => !Visible(accounts, accountID, claims, userID) && !aborted
                         case Invalid(_, _) => aborted == old(aborted) && faults == old(faults)
                         case Storage(_, _) => !old(Healthy()) && aborted == saved.Some?
                         case _ => false
      ensures r.Err? && r.error.Invalid? <==> accountID == "" || userID == ""
      ensures !(r.Err? && r.error.Invalid?) ==> (r.Err? && r.error.Storage? <==> old(Fails())) && faults == old(Later())
      ensures old(Healthy()) ==> Healthy()
    {
      var reasons := [];
      if accountID == "" {
        reasons := reasons + ["AccountID is required"];
      }
      if userID == "" {
        reasons := reasons + ["UserID is required"];
      }
      if reasons != [] {
        return Err(Invalid("GetByID", reasons));
      }
      var fault := Statement();
      if fault.Some? {
        return Err(Storage("scan account", fault.value));
      }
      if !Visible(accounts, accountID, claims, userID) {
        return Err(NotFound);
      }
      return Ok(accounts[accountID]);
    }

    /** The guarded update: the row moves by `delta` if it may and stays within bounds; otherwise a
        second read tells a missing row from an overdrawn one. */
    method UpdateAccountBalance(claims: seq<string>, accountID: string, delta: int, userID: string) returns (r: Result<int>)
      requires Valid()
      modifies this`faults, this`aborted, this`accounts
      ensures Valid()
      ensures accounts == old(accounts)
              || (accountID in old(accounts) && MayWrite(old(accounts)[accountID], claims, userID)
                  && accounts == SetBalance(old(accounts), accountID, old(accounts)[accountID].balance + delta))
      ensures r.Ok? ==> accountID in old(accounts) && MayWrite(old(accounts)[accountID], claims, userID) && !aborted
                        && r.value == old(accounts)[accountID].balance + delta
                        && accounts == SetBalance(old(accounts), accountID, r.value)
                        && 0 <= r.value <= MAX_INT64
      ensures r.Err? ==>
                match r.error
                case NotFound =>
                  accounts == old(accounts) && !aborted
                  && (accountID in accounts ==> !MayWrite(accounts[accountID], claims, userID))
                case InsufficientBalance =>
                  accounts == old(accounts) && !aborted && accountID in accounts
                  && MayWrite(accounts[accountID], claims, userID) && accounts[accountID].balance + delta < 0
                case OutOfRange =>
                  accounts == old(accounts) && aborted == saved.Some?
                  && accountID in accounts && accounts[accountID].balance + delta > MAX_INT64
                case Invalid(_, _) => accounts == old(accounts) && aborted == old(aborted) && faults == old(faults)
                case Storage(_, _) => !old(Healthy())
                case _ => false
      ensures r.Err? && r.error.Invalid? <==> accountID == "" || delta == 0 || userID == ""
      ensures r.Ok? ==> !old(Fails()) && (|old(faults)| > 1 ==> old(faults)[1].None?)
      ensures old(Fails()) && !(r.Err? && r.error.Invalid?) ==> r.Err? && r.error.Storage? && accounts == old(accounts)
      ensures old(Healthy()) ==> Calm(faults) && (aborted ==> r.Err? && r.error.OutOfRange?)
    {
      var reasons := [];
      if accountID == "" {
        reasons := reasons + ["AccountID is required"];
      }
      if delta == 0 {
        reasons := reasons + ["Delta must be non-zero"];
      }
      if userID == "" {
        reasons := reasons + ["UserID is required"];
      }
      if reasons != [] {
        return Err(Invalid("UpdateAccountBalance", reasons));
      }

      var fault := Statement();
      if fault.Some? {
        return Err(Storage("update account balance", fault.value));
      }
      var scoped := accountID in accounts && MayWrite(accounts[accountID], claims, userID);
      if scoped && accounts[accountID].balance + delta > MAX_INT64 {
        aborted := saved.Some?;
        return Err(OutOfRange);
      }
      var affected := 0;
      if scoped && accounts[accountID].balance + delta >= 0 {
        accounts := SetBalance(accounts, accountID, accounts[accountID].balance + delta);
        affected := 1;
      }

      fault := Statement();
      if affected == 0 {
        if fault.Some? {
          return Err(Storage("read account balance", fault.value));
        }
        return Err(if scoped then InsufficientBalance else NotFound);
      }
      if fault.Some? {
        return Err(Storage("read updated account balance", fault.value));
      }
      return Ok(accounts[accountID].balance);
    }

    // -------------------------------------------------------------- ledger

    /** The insert that is also the claim on the ref: a recorded ref inserts nothing and raises
        nothing. */
    method CreateTransaction(t: Transaction) returns (r: Result<Transaction>)
      requires Valid()
      modifies this`faults, this`aborted, this`ledger
      ensures Valid()
      ensures r.Ok? ==> r.value == t && ledger == old(ledger) + [t] && !Recorded(old(ledger), t.ref)
                        && t.accountID in accounts && !aborted
      ensures r.Err? ==> ledger == old(ledger)
      ensures r.Err? ==> match r.error
                         case DuplicateRef => Recorded(ledger, t.ref) && !aborted
                         case NotFound => t.accountID !in accounts && aborted == saved.Some?
                         case Invalid(_, _) => aborted == old(aborted) && faults == old(faults)
                         case Storage(_, _) => !old(Healthy()) && aborted == saved.Some?
                         case _ => false
      ensures r.Err? && r.error.Invalid? <==>
                t.ref == "" || t.accountID == "" || t.createdBy == "" || t.points == 0
                || (t.kind != KIND_EARN && t.kind != KIND_SPEND)
      ensures !(r.Err? && r.error.Invalid?) ==> (r.Err? && r.error.Storage? <==> old(Fails())) && faults == old(Later())
      ensures old(Healthy()) && t.accountID in accounts ==> Healthy()
    {
      var reasons := [];
      if t.ref == "" {
        reasons := reasons + ["Ref is required"];
      }
      if t.accountID == "" {
        reasons := reasons + ["AccountID is required"];
      }
      if t.createdBy == "" {
        reasons := reasons + ["CreatedBy is required"];
      }
      if t.kind != KIND_EARN && t.kind != KIND_SPEND {
        reasons := reasons + ["Kind must be 'earn' or 'spend'"];
      }
      if t.points == 0 {
        reasons := reasons + ["Points must be non-zero"];
      }
      if reasons != [] {
        return Err(Invalid("Create", reasons));
      }

      var fault := Statement();
      if fault.Some? {
        return Err(Storage("insert transaction", fault.value));
      }
      if Recorded(ledger, t.ref) {
        return Err(DuplicateRef);
      }
      if t.accountID !in accounts {
        aborted := saved.Some?;
        return Err(NotFound);
      }
      ledger := ledger + [t];
      return Ok(t);
    }

    method GetTransaction(claims: seq<string>, ref: string, userID: string) returns (r: Result<Transaction>)
      requires Valid()
      modifies this`faults, this`aborted
      ensures Valid()
      ensures r.Ok? ==> FindRef(ledger, ref) == Some(r.value) && !aborted
                        && Readable(r.value, claims, userID) && Scannable(r.value)
      ensures r.Err? ==> match r.error
                         case NotFound =>
                           !aborted
                           && (Recorded(ledger, ref) ==> !Readable(FindRef(ledger, ref).value, claims, userID))
                         case Unreadable =>
                           !aborted && Recorded(ledger, ref)
                           && Readable(FindRef(ledger, ref).value, claims, userID)
                           && !Scannable(FindRef(ledger, ref).value)
                         case Invalid(_, _) => aborted == old(aborted) && faults == old(faults)
                         case Storage(_, _) => !old(Healthy()) && aborted == saved.Some?
                         case _ => false
      ensures r.Err? && r.error.Invalid? <==> ref == "" || userID == ""
      ensures !(r.Err? && r.error.Invalid?) ==> (r.Err? && r.error.Storage? <==> old(Fails())) && faults == old(Later())
      ensures old(Healthy()) ==> Healthy()
    {
      var reasons := [];
      if ref == "" {
        reasons := reasons + ["Ref is required"];
      }
      if userID == "" {
        reasons := reasons + ["UserID is required"];
      }
      if reasons != [] {
        return Err(Invalid("GetByID", reasons));
      }
      var fault := Statement();
      if fault.Some? {
        return Err(Storage("scan transaction", fault.value));
      }
      var found := FindRef(ledger, ref);
      if found.None? || !Readable(found.value, claims, userID) {
        return Err(NotFound);
      }
      if !InYears(found.value.occurredAt) {
        return Err(Unreadable);
      }
      if !InYears(found.value.recordedAt) {
        return Err(Unreadable);
      }
      return Ok(found.value);
    }

    // -------------------------------------------------------------- audit trail

    method CreateEntry(e: AuditEntry) returns (r: Result<AuditEntry>)
      requires Valid()
      modifies this`faults, this`aborted, this`audit, this`nextEntry
      ensures Valid()
      ensures r.Ok? ==> r.value == e.(id := old(nextEntry)) && audit == old(audit) + [r.value]
                        && nextEntry == old(nextEntry) + 1 && !aborted
      ensures r.Err? ==> audit == old(audit) && nextEntry == old(nextEntry)
      ensures r.Err? ==> match r.error
                         case Invalid(_, _) => aborted == old(aborted) && faults == old(faults)
                         case Storage(_, _) => !old(Healthy()) && aborted == saved.Some?
                         case _ => false
      ensures r.Err? && r.error.Invalid? <==> e.reason == "" || e.userID == ""
      ensures !(r.Err? && r.error.Invalid?) ==> (r.Err? && r.error.Storage? <==> old(Fails())) && faults == old(Later())
      ensures old(Healthy()) ==> Healthy()
    {
      var reasons := [];
      if e.reason == "" {
        reasons := reasons + ["Reason is required"];
      }
      if e.userID == "" {
        reasons := reasons + ["UserID is required"];
      }
      if reasons != [] {
        return Err(Invalid("Create", reasons));
      }
      var fault := Statement();
      if fault.Some? {
        return Err(Storage("insert audit entry", fault.value));
      }
      var entry := e.(id := nextEntry);
      nextEntry := nextEntry + 1;
      audit := audit + [entry];
      return Ok(entry);
    }
  }
}
