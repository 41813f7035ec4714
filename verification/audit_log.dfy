/** `AuditLog`: records are only ever appended, and an append may fail. */
module AuditLogs {
  import opened Protocol

  /** How an append ends: it may raise before the line is written, or after. */
  datatype Append = Kept | LostAndRaised | KeptAndRaised

  class AuditLog {
    /** How each append ends, by the number of appends before it. */
    const appends: nat -> Append
    var attempts: nat
    var records: seq<AuditRecord>

    constructor (appends: nat -> Append)
      ensures this.appends == appends && attempts == 0 && records == []
    {
      this.appends := appends;
      attempts, records := 0, [];
    }

    method Record(r: AuditRecord) returns (append: Append)
      modifies this
      ensures append == appends(old(attempts)) && attempts == old(attempts) + 1
      ensures records == old(records) + (if append.LostAndRaised? then [] else [r])
    {
      append := appends(attempts);
      attempts := attempts + 1;
      if !append.LostAndRaised? {
        records := records + [r];
      }
    }

    /** The records in write order. */
    method ReadAll() returns (all: seq<AuditRecord>)
      ensures all == records
    {
      all := records;
    }
  }
}
