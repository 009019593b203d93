/**
  The audit log and what its hash chain does and does not detect
  (apps/backend/src/modules/audit/domain/audit-log.ts:34-168). SHA-256 of the
  serialised body is a function of the body, taken to be injective where that matters.
 */
module AuditLogs {
  import opened Numerals

  datatype Role = Admin | RiskManager | Auditor | Support | User

  datatype Actor = Actor(actorId: string, role: Role)

  datatype EventType =
    | ActionRequested | ActionApproved | ActionApplied | ActionRejected
    | CompensationApplied | ReconciliationExecuted | SecurityEvent

  datatype Scalar = Text(text: string) | Number(number: int) | Flag(flag: bool) | Null

  /** The hashed fields, details in the order they are serialised. */
  datatype Body = Body(
    sequence: int, occurredAt: string, actor: Actor, eventType: EventType, actionType: string, commandId: string,
    targetId: string, details: seq<(string, Scalar)>, previousHash: string)

  datatype AuditRecord = AuditRecord(id: string, body: Body, hash: string)

  type Hasher = Body -> string

  const GENESIS := "GENESIS"

  function LastHash(records: seq<AuditRecord>): string {
    if records == [] then GENESIS else records[|records| - 1].hash
  }

  /** What verifyIntegrity asks of the record at one place. */
  predicate Linked(h: Hasher, records: seq<AuditRecord>, i: nat)
    requires i < |records|
  {
    var r := records[i];
    r.body.sequence == i + 1 && r.body.previousHash == LastHash(records[..i]) && r.hash == h(r.body)
  }

  predicate Intact(h: Hasher, records: seq<AuditRecord>) {
    forall i :: 0 <= i < |records| ==> Linked(h, records, i)
  }

  ghost predicate Injective(h: Hasher) {
    forall x, y :: h(x) == h(y) ==> x == y
  }

  class AuditLog {
    const hasher: Hasher
    var records: seq<AuditRecord>

    constructor (hasher: Hasher)
      ensures this.hasher == hasher && records == [] && Intact(hasher, records)
    {
      this.hasher := hasher;
      records := [];
    }

    /** A log built by appending alone is always intact. */
    method Append(actor: Actor, eventType: EventType, actionType: string, commandId: string, targetId: string,
                  details: seq<(string, Scalar)>, occurredAt: string)
      returns (record: AuditRecord)
      modifies `records
      ensures records == old(records) + [record]
      ensures var body := record.body;
              && body.actor == actor && body.eventType == eventType && body.actionType == actionType
              && body.commandId == commandId && body.targetId == targetId && body.details == details
              && body.occurredAt == occurredAt && record.id == "audit-" + NatToString(|records|)
      ensures Linked(hasher, records, |records| - 1)
      ensures Intact(hasher, old(records)) ==> Intact(hasher, records)
    {
      var sequence := |records| + 1;
      var previousHash := if |records| > 0 then records[|records| - 1].hash else "GENESIS";
      var body := Body(sequence, occurredAt, actor, eventType, actionType, commandId, targetId, details, previousHash);
      record := AuditRecord("audit-" + NatToString(sequence), body, hasher(body));
      AppendLinks(hasher, records, record);
      records := records + [record];
    }

    method VerifyIntegrity(records: seq<AuditRecord>) returns (ok: bool)
      ensures ok <==> Intact(hasher, records)
    {
      var previousHash := "GENESIS";
      for index := 0 to |records|
        invariant previousHash == LastHash(records[..index])
        invariant forall i :: 0 <= i < index ==> Linked(hasher, records, i)
      {
        var record := records[index];
        if record.body.sequence != index + 1 || record.body.previousHash != previousHash {
          assert !Linked(hasher, records, index);
          return false;
        }
        if record.hash != hasher(record.body) {
          assert !Linked(hasher, records, index);
          return false;
        }
        previousHash := record.hash;
      }
      ok := true;
    }
  }

  lemma AppendLinks(h: Hasher, records: seq<AuditRecord>, r: AuditRecord)
    requires r.body.sequence == |records| + 1 && r.body.previousHash == LastHash(records) && r.hash == h(r.body)
    ensures Linked(h, records + [r], |records|)
    ensures Intact(h, records) ==> Intact(h, records + [r])
  {
    var after := records + [r];
    assert after[..|records|] == records;
    forall i | 0 <= i < |records| && Intact(h, records)
      ensures Linked(h, after, i)
    {
      assert Linked(h, records, i) && after[..i] == records[..i];
    }
  }

  // ---- What the chain pins down ----

  /** Two logs with the same last hash are the same log in every hashed field of every record. */
  lemma {:induction false} LastHashPinsTheLog(h: Hasher, a: seq<AuditRecord>, b: seq<AuditRecord>)
    requires Injective(h) && Intact(h, a) && Intact(h, b) && a != [] && b != [] && LastHash(a) == LastHash(b)
    ensures |a| == |b| && forall i :: 0 <= i < |a| ==> a[i].body == b[i].body && a[i].hash == b[i].hash
    decreases |a|
  {
    var m, n := |a| - 1, |b| - 1;
    assert Linked(h, a, m) && Linked(h, b, n);
    assert a[m].body == b[n].body;
    if m > 0 {
      PrefixIntact(h, a, m);
      PrefixIntact(h, b, n);
      LastHashPinsTheLog(h, a[..m], b[..n]);
      forall i | 0 <= i < m
        ensures a[i].body == b[i].body && a[i].hash == b[i].hash
      {
        assert a[..m][i] == a[i] && b[..n][i] == b[i];
      }
    }
  }

  /** Deleting records from the end is never noticed: every prefix of an intact log is intact. */
  lemma PrefixIntact(h: Hasher, records: seq<AuditRecord>, n: nat)
    requires Intact(h, records) && n <= |records|
    ensures Intact(h, records[..n])
  {
    forall i | 0 <= i < n
      ensures Linked(h, records[..n], i)
    {
      assert Linked(h, records, i) && records[..n][..i] == records[..i];
    }
  }

  /** Deleting any other record is noticed. */
  lemma DeletionNoticedUnlessLast(h: Hasher, records: seq<AuditRecord>, i: nat)
    requires Intact(h, records) && i < |records|
    ensures Intact(h, records[..i] + records[i + 1..]) <==> i == |records| - 1
  {
    var after := records[..i] + records[i + 1..];
    if i == |records| - 1 {
      assert after == records[..i];
      PrefixIntact(h, records, i);
    } else {
      assert Linked(h, records, i + 1) && after[i] == records[i + 1];
      assert !Linked(h, after, i);
    }
  }

  /** Exchanging two records is always noticed. */
  lemma ExchangeNoticed(h: Hasher, records: seq<AuditRecord>, i: nat, j: nat)
    requires Intact(h, records) && i < j < |records|
    ensures !Intact(h, records[i := records[j]][j := records[i]])
  {
    var after := records[i := records[j]][j := records[i]];
    assert Linked(h, records, j) && after[i] == records[j];
    assert !Linked(h, after, i);
  }

  /** Putting a record in front of or between others is noticed; only at the end can one be added. */
  lemma InsertionNoticedUnlessLast(h: Hasher, records: seq<AuditRecord>, i: nat, r: AuditRecord)
    requires Intact(h, records) && i < |records|
    ensures !Intact(h, records[..i] + [r] + records[i..])
  {
    var after := records[..i] + [r] + records[i..];
    assert Linked(h, records, i) && after[i + 1] == records[i];
    assert !Linked(h, after, i + 1);
  }

  /** Before the end only a record equal in every hashed field can stand in; the id is not hashed. */
  lemma EditNoticedUnlessIdOnly(h: Hasher, records: seq<AuditRecord>, i: nat, r: AuditRecord)
    requires Injective(h) && Intact(h, records) && i < |records| - 1
    ensures Intact(h, records[i := r]) <==> r.body == records[i].body && r.hash == records[i].hash
  {
    var after := records[i := r];
    assert Linked(h, records, i) && Linked(h, records, i + 1);
    assert LastHash(records[..i + 1]) == records[i].hash && LastHash(after[..i + 1]) == r.hash;
    assert after[i + 1] == records[i + 1];
    assert Intact(h, after) ==> Linked(h, after, i) && Linked(h, after, i + 1);
    if r.body == records[i].body && r.hash == records[i].hash {
      forall k | 0 <= k < |after|
        ensures Linked(h, after, k)
      {
        assert Linked(h, records, k);
        assert k > 0 ==> LastHash(after[..k]) == LastHash(records[..k]);
      }
    }
  }

  /** The last record can be replaced by any other that is linked in its place. */
  lemma LastEditNoticedIff(h: Hasher, records: seq<AuditRecord>, r: AuditRecord)
    requires Intact(h, records) && records != []
    ensures Intact(h, records[|records| - 1 := r])
            <==> r.body.sequence == |records| && r.body.previousHash == records[|records| - 1].body.previousHash
                 && r.hash == h(r.body)
  {
    var n := |records| - 1;
    var after := records[n := r];
    assert Linked(h, records, n);
    assert after[..n] == records[..n];
    PrefixIntact(h, records, n);
    if r.body.sequence == |records| && r.body.previousHash == records[n].body.previousHash && r.hash == h(r.body) {
      AppendLinks(h, records[..n], r);
      assert after == records[..n] + [r];
    } else {
      assert !Linked(h, after, n);
    }
  }
}
