/**
 The state of the last local-sync transaction, rebuilt from journal records
 (internal/localsync/txnstate.go), and one durable append as local sync uses it
 (internal/localsync/journal_session.go).
 */
module TxnState {
  import opened Bytes
  import opened RecordCodec
  import opened JournalScan
  import opened JournalWriter
  import opened JournalPayload

  const ZERO_ID: TxnId := [0, 0, 0, 0, 0, 0, 0, 0, 0, 0, 0, 0, 0, 0, 0, 0]

  datatype Txn = Txn(
    id: TxnId, roots: Roots, planDigest: Digest, hasPlan: bool, opCount: u32, nextOp: nat, bytesCum: u64,
    confirmed: bool, cancelled: bool, authorized: bool)

  datatype Cursor = Cursor(found: bool, txn: Txn)

  function NewTxn(id: TxnId, roots: Roots): Txn
  {
    Txn(id, roots, GENESIS, false, 0, 0, 0, false, false, false)
  }

  const START := Cursor(false, NewTxn(ZERO_ID, Roots([], [])))

  function Observe(c: Cursor, r: Record): Cursor
  {
    var t := c.txn;
    if r.rtype == TYPE_OBSERVATION then
      match DecodeObservation(r.payload)
      case None => c
      case Some(roots) => Cursor(true, NewTxn(r.txid, roots))
    else if r.txid != t.id then c
    else if r.rtype == TYPE_PLAN_DIGEST then
      match DecodePlanDigest(r.payload)
      case None => c
      case Some((d, n)) =>
        c.(txn := t.(planDigest := d, opCount := n, hasPlan := true, nextOp := 0, bytesCum := 0,
                     confirmed := false, cancelled := false))
    else if r.rtype == TYPE_AUTHORIZATION then c.(txn := t.(authorized := true))
    else if r.rtype == TYPE_PROGRESS then
      match DecodeProgress(r.payload)
      case None => c
      case Some(p) => c.(txn := t.(nextOp := p.index + 1, bytesCum := p.bytesCum))
    else if r.rtype == TYPE_CONFIRMATION then c.(txn := t.(confirmed := true))
    else if r.rtype == TYPE_CANCELLATION then c.(txn := t.(cancelled := true))
    else c
  }

  function ObserveAll(rs: seq<Record>): Cursor
  {
    if rs == [] then START else Observe(ObserveAll(rs[..|rs| - 1]), rs[|rs| - 1])
  }

  function Inspect(rs: seq<Record>): Option<Txn>
  {
    var c := ObserveAll(rs);
    if !c.found || c.txn.cancelled then None else Some(c.txn)
  }

  /** inspectPrefix: the loop over the records. */
  method InspectPrefix(rs: seq<Record>) returns (r: Option<Txn>)
    ensures r == Inspect(rs)
  {
    hide Observe;
    var cur := START;
    for i := 0 to |rs|
      invariant cur == ObserveAll(rs[..i])
    {
      assert rs[..i + 1][..i] == rs[..i];
      cur := Observe(cur, rs[i]);
    }
    assert rs[..|rs|] == rs;
    if !cur.found || cur.txn.cancelled { return None; }
    return Some(cur.txn);
  }

  // ---------- counting confirmations ----------

  function Confirms(r: Record, id: TxnId): nat
  {
    if r.rtype == TYPE_CONFIRMATION && r.txid == id then 1 else 0
  }

  function Confirmations(rs: seq<Record>, id: TxnId): nat
  {
    if rs == [] then 0 else Confirmations(rs[..|rs| - 1], id) + Confirms(rs[|rs| - 1], id)
  }

  function Ids(rs: seq<Record>): set<TxnId>
  {
    set r | r in rs :: r.txid
  }

  lemma {:induction false} FreshHasNoConfirmation(rs: seq<Record>, id: TxnId)
    requires id !in Ids(rs)
    ensures Confirmations(rs, id) == 0
  {
    if rs != [] {
      var n := |rs| - 1;
      assert rs[n] in rs;
      assert forall r | r in rs[..n] :: r in rs;
      FreshHasNoConfirmation(rs[..n], id);
    }
  }

  lemma ObserveNames(c: Cursor, r: Record)
    ensures var c' := Observe(c, r); c'.found ==> (c.found && c'.txn.id == c.txn.id) || c'.txn.id == r.txid
  {
    hide DecodeObservation, DecodePlanDigest, DecodeProgress;
  }

  /** The transaction a scan ends with was named by some record. */
  lemma {:induction false} FoundIsNamed(rs: seq<Record>)
    ensures ObserveAll(rs).found ==> ObserveAll(rs).txn.id in Ids(rs)
  {
    hide Observe;
    if rs != [] {
      var n := |rs| - 1;
      FoundIsNamed(rs[..n]);
      ObserveNames(ObserveAll(rs[..n]), rs[n]);
      assert rs == rs[..n] + [rs[n]];
      assert Ids(rs) == Ids(rs[..n]) + {rs[n].txid};
    }
  }

  // ---------- one durable append ----------

  /** rs' is rs with one more record, of this transaction, type and payload. */
  predicate Grows(rs: seq<Record>, rs': seq<Record>, id: TxnId, rtype: u16, payload: Bytes)
  {
    && |rs'| == |rs| + 1 && rs'[..|rs|] == rs
    && rs'[|rs|].txid == id && rs'[|rs|].rtype == rtype && rs'[|rs|].payload == payload
  }

  lemma GrowsMeaning(rs: seq<Record>, rs': seq<Record>, id: TxnId, rtype: u16, payload: Bytes)
    requires Grows(rs, rs', id, rtype, payload)
    ensures ObserveAll(rs') == Observe(ObserveAll(rs), rs'[|rs|])
    ensures forall k ::
      Confirmations(rs', k) == Confirmations(rs, k) + if rtype == TYPE_CONFIRMATION && k == id then 1 else 0
    ensures Ids(rs') == Ids(rs) + {id}
  {
    hide Observe;
    var n := |rs|;
    assert rs' == rs + [rs'[n]];
    assert rs'[..|rs'| - 1] == rs;
  }

  datatype Appended = Ack | Cutoff | Full

  /**
   One append to an open journal, stopped after any byte or not at all. If it is acknowledged
   the record is there; if it is cut off the record is there or it is not; if it is refused
   for lack of room nothing changed. A calm append is not cut off.
   */
  method AppendRecord(H: Hash, l: Log, id: TxnId, rtype: u16, payload: Bytes, calm: bool) returns (l': Log, r: Appended)
    requires Ready(H, l)
    requires ValidRecordType(rtype) && |payload| <= MAX_PAYLOAD_BYTES
    ensures Sane(H, l')
    ensures r.Ack? ==> Ready(H, l') && Grows(Accepted(H, l.buf), Accepted(H, l'.buf), id, rtype, payload)
    ensures r.Cutoff? && Accepted(H, l'.buf) != Accepted(H, l.buf) ==>
      Grows(Accepted(H, l.buf), Accepted(H, l'.buf), id, rtype, payload)
    ensures r.Full? ==> l' == l
    ensures calm ==> !r.Cutoff?
  {
    hide AppendStep, Scan, RecordOf, CommitmentOf, Sane;
    var fault: Fault := *;
    if calm { fault := NoFault; }
    AppendFromReady(H, l, id, rtype, payload, fault);
    var (l1, out) := AppendStep(H, l, id, rtype, payload, fault);
    NextRecordFields(H, l, id, rtype, payload);
    ReadyIsSane(H, l);
    match out {
      case Done(rec) => return l1, Ack;
      case Stopped => return l1, Cutoff;
      case _ => return l1, Full;
    }
  }

  lemma ReadyIsSane(H: Hash, l: Log)
    requires Ready(H, l)
    ensures Sane(H, l)
  {
    hide Scan;
  }

  lemma NextRecordFields(H: Hash, l: Log, id: TxnId, rtype: u16, payload: Bytes)
    requires Ready(H, l) && ValidRecordType(rtype) && |payload| <= MAX_PAYLOAD_BYTES
    ensures var f := NextFields(l, id, rtype, payload); var r := RecordOf(H, f);
      Encodable(f) && r.txid == id && r.rtype == rtype && r.payload == payload
  {
    hide Scan, CommitmentOf;
  }
}
