/**
 The recovery kernel (internal/recovery/recover.go, persist.go, types.go).

 `Recover` rebuilds a transaction's verdict from the journal prefix and an observation of
 the file system, and performs at most one effect through the injected persistence. A fault
 at a checkpoint stops it there. `Recovered` is its meaning on values; the theorems are about
 every sequence of recoveries with faults at any checkpoint.
 */
module Recovery {
  import opened Bytes
  import opened RecordCodec
  import opened JournalPayload

  // ---------- inputs ----------

  /** What recovery reads of a journal record. */
  datatype Rec = Rec(txid: TxnId, rtype: u16, payload: Bytes)

  datatype Binding = Binding(
    planDigest: Digest, configuration: Digest, capabilities: Digest, root: Digest, volume: Digest, auth: Digest)

  const AUTHORIZATION_SIZE := 192

  function DecodeAuthorization(p: Bytes): Option<Binding>
  {
    if |p| != AUTHORIZATION_SIZE then None
    else Some(Binding(p[0..32], p[32..64], p[64..96], p[96..128], p[128..160], p[160..192]))
  }

  function EncodeAuthorization(b: Binding): Bytes
  {
    b.planDigest + b.configuration + b.capabilities + b.root + b.volume + b.auth
  }

  lemma AuthorizationRoundTrip(b: Binding)
    ensures DecodeAuthorization(EncodeAuthorization(b)) == Some(b)
  {
    var p := EncodeAuthorization(b);
    assert p[0..32] == b.planDigest && p[32..64] == b.configuration && p[64..96] == b.capabilities;
    assert p[96..128] == b.root && p[128..160] == b.volume && p[160..192] == b.auth;
  }

  /** What is observed of the destination besides staging. */
  datatype Observation = Observation(root: Digest, volume: Digest, seen: Publication)

  /** Whether publication started, whether it linearized, and whether what it published matches. */
  datatype Publication = Publication(started: bool, linearized: bool, matches: bool)

  datatype Policy = Policy(allowCleanup: bool, allowConfirm: bool)

  const CODE_RECEIVED: u16 := 1
  const CODE_PREPARED: u16 := 2
  const CODE_VERIFIED: u16 := 3
  const CODE_PUBLISHING: u16 := 4

  // ---------- scanning the prefix ----------

  datatype Marks = Marks(
    planSeen: bool, authorized: bool, received: bool, prepared: bool, verified: bool,
    started: bool, cancelled: bool, quarantined: bool, confirmations: nat)

  /** What the records seen so far say: whose they are, the authorization's binding, and the rest. */
  datatype Flags = Flags(txid: TxnId, hasTx: bool, binding: Option<Binding>, m: Marks)

  const NO_ID: TxnId := [0, 0, 0, 0, 0, 0, 0, 0, 0, 0, 0, 0, 0, 0, 0, 0]
  const NO_MARKS := Marks(false, false, false, false, false, false, false, false, 0)
  const NO_FLAGS := Flags(NO_ID, false, None, NO_MARKS)

  /** Scanning goes on, or stopped at a contradiction, or at an authorization that does not decode. */
  datatype Scan = Going(flags: Flags) | Contradiction(flags: Flags) | Undecodable

  function ProgressCode(payload: Bytes): Option<u16>
  {
    if |payload| < 2 then None else Some(U16LE(payload[..2]))
  }

  /** A record the scan stops at: an unknown type or progress code, or a second authorization. */
  predicate Contradicts(m: Marks, rtype: u16, code: Option<u16>)
  {
    || !ValidRecordType(rtype)
    || (rtype == TYPE_AUTHORIZATION && m.authorized)
    || (rtype == TYPE_PROGRESS && !(code.Some? && CODE_RECEIVED <= code.value <= CODE_PUBLISHING))
  }

  /** What a record adds to the marks. */
  function Mark(m: Marks, rtype: u16, code: Option<u16>): Marks
  {
    Marks(
      m.planSeen || rtype == TYPE_PLAN_DIGEST,
      m.authorized || rtype == TYPE_AUTHORIZATION,
      m.received || (rtype == TYPE_PROGRESS && code == Some(CODE_RECEIVED)),
      m.prepared || (rtype == TYPE_PROGRESS && code == Some(CODE_PREPARED)),
      m.verified || (rtype == TYPE_PROGRESS && code == Some(CODE_VERIFIED)),
      m.started || (rtype == TYPE_PROGRESS && code == Some(CODE_PUBLISHING)),
      m.cancelled || rtype == TYPE_CANCELLATION,
      m.quarantined || rtype == TYPE_QUARANTINE,
      m.confirmations + if rtype == TYPE_CONFIRMATION then 1 else 0)
  }

  function ScanOne(f: Flags, r: Rec): Scan
  {
    var code := ProgressCode(r.payload);
    if f.hasTx && r.txid != f.txid then Contradiction(f)
    else if Contradicts(f.m, r.rtype, code) then Contradiction(Flags(r.txid, true, f.binding, f.m))
    else if r.rtype == TYPE_AUTHORIZATION then
      var b := DecodeAuthorization(r.payload);
      if b.None? then Undecodable else Going(Flags(r.txid, true, b, Mark(f.m, r.rtype, code)))
    else Going(Flags(r.txid, true, f.binding, Mark(f.m, r.rtype, code)))
  }

  function ScanAll(rs: seq<Rec>): Scan
  {
    if rs == [] then Going(NO_FLAGS)
    else
      match ScanAll(rs[..|rs| - 1])
      case Going(f) => ScanOne(f, rs[|rs| - 1])
      case stopped => stopped
  }

  /** The checks made after the last record. */
  predicate Coherent(f: Flags)
  {
    && !(f.m.authorized && f.binding.Some? && !f.m.planSeen && f.binding.value.planDigest == GENESIS)
    && (f.m.prepared ==> f.m.received)
    && (f.m.verified ==> f.m.prepared && f.m.received)
    && (f.m.started ==> f.m.authorized && f.m.verified)
  }

  function ScanPrefix(rs: seq<Rec>): Scan
  {
    match ScanAll(rs)
    case Going(f) => if Coherent(f) then Going(f) else Contradiction(f)
    case stopped => stopped
  }

  lemma {:induction false} StoppedStays(rs: seq<Rec>, n: nat)
    requires n <= |rs| && !ScanAll(rs[..n]).Going?
    ensures ScanAll(rs) == ScanAll(rs[..n])
    decreases |rs|
  {
    hide ScanOne;
    if n == |rs| {
      assert rs[..n] == rs;
    } else {
      assert rs[..|rs| - 1][..n] == rs[..n];
      StoppedStays(rs[..|rs| - 1], n);
    }
  }

  /** The progress case of the switch. */
  method MarkProgress(m: Marks, payload: Bytes) returns (r: Option<Marks>)
    ensures r == if Contradicts(m, TYPE_PROGRESS, ProgressCode(payload)) then None
                 else Some(Mark(m, TYPE_PROGRESS, ProgressCode(payload)))
  {
    hide U16LE, LE16;
    if |payload| < 2 { return None; }
    var code := U16LE(payload[..2]);
    var received, prepared, verified, started := m.received, m.prepared, m.verified, m.started;
    if code == CODE_RECEIVED { received := true; }
    else if code == CODE_PREPARED { prepared := true; }
    else if code == CODE_VERIFIED { verified := true; }
    else if code == CODE_PUBLISHING { started := true; }
    else { return None; }
    return Some(Marks(m.planSeen, m.authorized, received, prepared, verified, started, m.cancelled, m.quarantined,
      m.confirmations));
  }

  /** The switch on the record type, as far as it concerns the marks. */
  method MarkRecord(m: Marks, r: Rec) returns (n: Option<Marks>)
    ensures n == if Contradicts(m, r.rtype, ProgressCode(r.payload)) then None
                 else Some(Mark(m, r.rtype, ProgressCode(r.payload)))
  {
    hide ProgressCode;
    if r.rtype == TYPE_PLAN_DIGEST {
      return Some(m.(planSeen := true));
    } else if r.rtype == TYPE_AUTHORIZATION {
      return if m.authorized then None else Some(m.(authorized := true));
    } else if r.rtype == TYPE_PROGRESS {
      n := MarkProgress(m, r.payload);
      return;
    } else if r.rtype == TYPE_CONFIRMATION {
      return Some(m.(confirmations := m.confirmations + 1));
    } else if r.rtype == TYPE_CANCELLATION {
      return Some(m.(cancelled := true));
    } else if r.rtype == TYPE_QUARANTINE {
      return Some(m.(quarantined := true));
    }
    return if ValidRecordType(r.rtype) then Some(m) else None;
  }

  /** The same switch, with the authorization's payload decoded. */
  method ScanRecord(f: Flags, r: Rec) returns (s: Scan)
    requires f.hasTx ==> r.txid == f.txid
    ensures s == ScanOne(f, r)
  {
    hide DecodeAuthorization, ProgressCode, Contradicts, Mark;
    var m := MarkRecord(f.m, r);
    if m.None? { return Contradiction(Flags(r.txid, true, f.binding, f.m)); }
    var b := f.binding;
    if r.rtype == TYPE_AUTHORIZATION {
      b := DecodeAuthorization(r.payload);
      if b.None? { return Undecodable; }
    }
    return Going(Flags(r.txid, true, b, m.value));
  }

  /** scanPrefix: the loop, with its early returns. */
  method ScanRecords(rs: seq<Rec>) returns (s: Scan)
    ensures s == ScanPrefix(rs)
  {
    hide Coherent, Contradicts, Mark, DecodeAuthorization;
    var f := NO_FLAGS;
    for i := 0 to |rs|
      invariant ScanAll(rs[..i]) == Going(f)
    {
      assert rs[..i + 1][..i] == rs[..i];
      var next;
      if f.hasTx && rs[i].txid != f.txid {
        next := Contradiction(f);
      } else {
        next := ScanRecord(f, rs[i]);
      }
      if !next.Going? {
        StoppedStays(rs, i + 1);
        return next;
      }
      f := next.flags;
    }
    assert rs[..|rs|] == rs;
    return if Coherent(f) then Going(f) else Contradiction(f);
  }

  // ---------- the verdict ----------

  datatype State = NoVerdict | Created | Recovering | Published | Confirmed | Cancelled | Quarantined | Irrecoverable

  /** A checkpoint; Nowhere stands for no fault. */
  datatype Label = Nowhere | StageCreate | StageSync | PublishRename | PublishDirSync | ConfirmPre | ConfirmPost

  datatype Effect = NoEffect | CleanupStaging | QuarantineStaging | AppendConfirmation

  datatype Error =
    | NoError | BadAuthorization | IdentityMismatch | ContradictoryRecords | ManyConfirmations
    | UnauthorizedPublication | ConfirmedUnpublished | Faulted(at: Label)

  /** What one helper of Recover did, and the fault it met. */
  datatype Step = Step(effect: Effect, error: Error)

  datatype Verdict = Verdict(state: State, effect: Effect, error: Error, confirmations: nat, published: bool)

  /** The journal records, whether its tail is torn, and whether staging exists. */
  datatype World = World(records: seq<Rec>, torn: bool, staging: bool)

  /** Publication is observed, never taken from the journal alone. */
  predicate Linearized(p: Publication)
  {
    p.linearized && p.matches
  }

  predicate Chain(m: Marks)
  {
    m.authorized && m.prepared && m.verified && m.received
  }

  predicate Terminal(m: Marks, published: bool, started: bool)
  {
    || (m.confirmations == 1 && published)
    || (m.cancelled && !started)
    || (m.quarantined && !published && !started)
  }

  function StateOf(m: Marks, published: bool): State
  {
    if m.confirmations == 1 && published then Confirmed
    else if m.cancelled then Cancelled
    else if m.quarantined then Quarantined
    else if published then Published
    else Quarantined
  }

  /** maybeCleanup: fault before the effect, after it, or not at all. */
  function Cleanup(pol: Policy, io: bool, staging: bool, fault: Label): Step
  {
    if !pol.allowCleanup || !io || !staging then Step(NoEffect, NoError)
    else if fault == StageCreate then Step(NoEffect, Faulted(StageCreate))
    else if fault == StageSync then Step(CleanupStaging, Faulted(StageSync))
    else Step(CleanupStaging, NoError)
  }

  function Quarantine(pol: Policy, io: bool, staging: bool, p: Publication, fault: Label): Step
  {
    if !pol.allowCleanup || !io then Step(NoEffect, NoError)
    else if !staging && !p.started then Step(NoEffect, NoError)
    else if fault == PublishRename then Step(NoEffect, Faulted(PublishRename))
    else if fault == PublishDirSync then Step(QuarantineStaging, Faulted(PublishDirSync))
    else Step(QuarantineStaging, NoError)
  }

  function Confirm(fault: Label): Step
  {
    if fault == ConfirmPre then Step(NoEffect, Faulted(ConfirmPre))
    else if fault == ConfirmPost then Step(AppendConfirmation, Faulted(ConfirmPost))
    else Step(AppendConfirmation, NoError)
  }

  function Stuck(e: Error, n: nat, published: bool): Verdict
  {
    Verdict(Irrecoverable, NoEffect, e, n, published)
  }

  /** What Recover looks at once the prefix was scanned without error. */
  datatype View = View(m: Marks, empty: bool, torn: bool, staging: bool, p: Publication)

  /** The branch Recover takes after a clean scan. */
  datatype Case =
    | Unauthorized        // published without the authorization chain
    | Nothing             // nothing durable at all
    | Finished            // terminal, nothing to do
    | Unpublished         // confirmed without evidence of publication
    | AlreadyConfirmed
    | ToCancel
    | ToQuarantine
    | ToConfirm

  predicate Started(v: View)
  {
    Linearized(v.p) || v.p.started || v.m.started
  }

  function CaseOf(v: View): Case
  {
    var published := Linearized(v.p);
    if published && !Chain(v.m) then Unauthorized
    else if v.empty && !v.torn && !v.staging && !v.p.started && !v.p.linearized then Nothing
    else if Terminal(v.m, published, Started(v)) && !v.torn && (v.staging || Started(v) ==> published) then Finished
    else if v.m.confirmations == 1 then if published then AlreadyConfirmed else Unpublished
    else if v.m.cancelled && !Started(v) && !published then ToCancel
    else if v.m.quarantined && !published then ToQuarantine
    else if published then ToConfirm
    else ToQuarantine
  }

  /** Recover after a clean scan. */
  function Decide(v: View, pol: Policy, io: bool, fault: Label): Verdict
  {
    var n, published := v.m.confirmations, Linearized(v.p);
    match CaseOf(v)
    case Unauthorized => Stuck(UnauthorizedPublication, n, false)
    case Nothing => Verdict(Created, NoEffect, NoError, n, published)
    case Finished => Verdict(StateOf(v.m, published), NoEffect, NoError, n, published)
    case Unpublished => Stuck(ConfirmedUnpublished, n, published)
    case AlreadyConfirmed => Verdict(Confirmed, NoEffect, NoError, n, published)
    case ToCancel => Conclude(Cancelled, Recovering, Cleanup(pol, io, v.staging, fault), n, published)
    case ToQuarantine => Conclude(Quarantined, Recovering, Quarantine(pol, io, v.staging, v.p, fault), n, published)
    case ToConfirm =>
      if pol.allowConfirm && io then
        var st := Confirm(fault);
        Conclude(Confirmed, Published, st, if st.error.NoError? then 1 else n, published)
      else Verdict(Published, NoEffect, NoError, n, published)
  }

  /** The verdict after a helper returned, with or without a fault. */
  function Conclude(done: State, faulted: State, st: Step, n: nat, published: bool): Verdict
  {
    Verdict(if st.error.NoError? then done else faulted, st.effect, st.error, n, published)
  }

  function ViewOf(f: Flags, w: World, o: Observation): View
  {
    View(f.m, w.records == [], w.torn, w.staging, o.seen)
  }

  /** Recover. */
  function Recovered(w: World, o: Observation, pol: Policy, io: bool, fault: Label): Verdict
  {
    match ScanPrefix(w.records)
    case Undecodable => Verdict(NoVerdict, NoEffect, BadAuthorization, 0, false)
    case Contradiction(f) =>
      if Mismatch(f, o) then Stuck(IdentityMismatch, f.m.confirmations, false)
      else Stuck(ContradictoryRecords, f.m.confirmations, false)
    case Going(f) =>
      if Mismatch(f, o) then Stuck(IdentityMismatch, f.m.confirmations, false)
      else if f.m.confirmations > 1 then Stuck(ManyConfirmations, f.m.confirmations, false)
      else Decide(ViewOf(f, w, o), pol, io, fault)
  }

  predicate Mismatch(f: Flags, o: Observation)
  {
    f.binding.Some? && (f.binding.value.root != o.root || f.binding.value.volume != o.volume)
  }

  /** What an effect leaves for the next recovery to find. */
  function After(w: World, effect: Effect): World
  {
    match effect
    case NoEffect => w
    case AppendConfirmation => w.(records := w.records + [ConfirmationOf(w.records)])
    case _ => w.(staging := false)
  }

  /** The confirmation record carries the id of the prefix. */
  function ConfirmationOf(rs: seq<Rec>): Rec
  {
    var s := ScanAll(rs);
    Rec(if s.Undecodable? then NO_ID else s.flags.txid, TYPE_CONFIRMATION, [])
  }

  // ---------- what the flags mean ----------

  predicate IsProgress(r: Rec, code: u16)
  {
    r.rtype == TYPE_PROGRESS && ProgressCode(r.payload) == Some(code)
  }

  predicate HasProgress(rs: seq<Rec>, code: u16)
  {
    exists i | 0 <= i < |rs| :: IsProgress(rs[i], code)
  }

  predicate HasType(rs: seq<Rec>, rtype: u16)
  {
    exists i | 0 <= i < |rs| :: rs[i].rtype == rtype
  }

  function Confirmations(rs: seq<Rec>): nat
  {
    if rs == [] then 0
    else Confirmations(rs[..|rs| - 1]) + if rs[|rs| - 1].rtype == TYPE_CONFIRMATION then 1 else 0
  }

  /** m says of rs exactly what its records say. */
  predicate Counts(m: Marks, rs: seq<Rec>)
  {
    && (m.authorized <==> HasType(rs, TYPE_AUTHORIZATION))
    && (m.received <==> HasProgress(rs, CODE_RECEIVED))
    && (m.prepared <==> HasProgress(rs, CODE_PREPARED))
    && (m.verified <==> HasProgress(rs, CODE_VERIFIED))
    && (m.started <==> HasProgress(rs, CODE_PUBLISHING))
    && (m.cancelled <==> HasType(rs, TYPE_CANCELLATION))
    && (m.quarantined <==> HasType(rs, TYPE_QUARANTINE))
    && m.confirmations == Confirmations(rs)
  }

  predicate Describes(f: Flags, rs: seq<Rec>)
  {
    && Counts(f.m, rs)
    && (f.hasTx <==> rs != []) && (forall i | 0 <= i < |rs| :: rs[i].txid == f.txid)
    && (f.binding.Some? <==> f.m.authorized)
  }

  lemma ProgressSnoc(rs: seq<Rec>, r: Rec, code: u16)
    ensures HasProgress(rs + [r], code) <==> HasProgress(rs, code) || IsProgress(r, code)
  {
    hide IsProgress;
    var all := rs + [r];
    if HasProgress(rs, code) {
      var i :| 0 <= i < |rs| && IsProgress(rs[i], code);
      assert IsProgress(all[i], code);
    }
    if IsProgress(r, code) {
      assert IsProgress(all[|rs|], code);
    }
  }

  lemma TypeSnoc(rs: seq<Rec>, r: Rec, t: u16)
    ensures HasType(rs + [r], t) <==> HasType(rs, t) || r.rtype == t
  {
    var all := rs + [r];
    if HasType(rs, t) {
      var i :| 0 <= i < |rs| && rs[i].rtype == t;
      assert all[i].rtype == t;
    }
    if r.rtype == t {
      assert all[|rs|].rtype == t;
    }
  }

  lemma ConfirmationsSnoc(rs: seq<Rec>, r: Rec)
    ensures Confirmations(rs + [r]) == Confirmations(rs) + if r.rtype == TYPE_CONFIRMATION then 1 else 0
  {
    assert (rs + [r])[..|rs|] == rs;
  }

  lemma CountsStep(m: Marks, rs: seq<Rec>, r: Rec)
    requires Counts(m, rs)
    ensures Counts(Mark(m, r.rtype, ProgressCode(r.payload)), rs + [r])
  {
    hide HasProgress, HasType, Confirmations, ProgressCode;
    TypeSnoc(rs, r, TYPE_AUTHORIZATION);
    TypeSnoc(rs, r, TYPE_CANCELLATION);
    TypeSnoc(rs, r, TYPE_QUARANTINE);
    ProgressSnoc(rs, r, CODE_RECEIVED);
    ProgressSnoc(rs, r, CODE_PREPARED);
    ProgressSnoc(rs, r, CODE_VERIFIED);
    ProgressSnoc(rs, r, CODE_PUBLISHING);
    ConfirmationsSnoc(rs, r);
  }

  lemma DescribesStep(f: Flags, rs: seq<Rec>, r: Rec)
    requires Describes(f, rs) && ScanOne(f, r).Going?
    ensures Describes(ScanOne(f, r).flags, rs + [r])
  {
    hide Counts, DecodeAuthorization, ProgressCode, Contradicts;
    CountsStep(f.m, rs, r);
  }

  /** As long as scanning goes on, the flags describe exactly the records seen. */
  lemma {:induction false} FlagsDescribe(rs: seq<Rec>)
    ensures ScanAll(rs).Going? ==> Describes(ScanAll(rs).flags, rs)
  {
    hide ScanOne;
    if rs != [] {
      var n := |rs| - 1;
      FlagsDescribe(rs[..n]);
      assert rs == rs[..n] + [rs[n]];
      if ScanAll(rs).Going? {
        DescribesStep(ScanAll(rs[..n]).flags, rs[..n], rs[n]);
      }
    }
  }

  // ---------- never inventing success ----------

  /**
   PUBLISHED or CONFIRMED is reported only when publication was observed, linearized and with
   matching content, and the journal holds authorization, content received, prepared and
   verified; CONFIRMED besides only with exactly one confirmation record, already there or
   appended by this very call.
   */
  lemma NeverInventsSuccess(w: World, o: Observation, pol: Policy, io: bool, fault: Label)
    ensures var v := Recovered(w, o, pol, io, fault);
      v.state.Published? || v.state.Confirmed? ==>
        && o.seen.linearized && o.seen.matches && v.published
        && HasType(w.records, TYPE_AUTHORIZATION) && HasProgress(w.records, CODE_RECEIVED)
        && HasProgress(w.records, CODE_PREPARED) && HasProgress(w.records, CODE_VERIFIED)
        && (v.state.Confirmed? ==> Confirmations(After(w, v.effect).records) == 1)
  {
    hide HasType, HasProgress, Confirmations, ScanAll, Decide, Coherent, Mismatch;
    FlagsDescribe(w.records);
    ConfirmationsSnoc(w.records, ConfirmationOf(w.records));
    var s := ScanPrefix(w.records);
    if s.Going? && s.flags.m.confirmations <= 1 {
      SuccessNeedsEvidence(ViewOf(s.flags, w, o), pol, io, fault);
    }
  }

  /** The same on the view alone. */
  lemma SuccessNeedsEvidence(v: View, pol: Policy, io: bool, fault: Label)
    requires v.m.confirmations <= 1
    ensures var d := Decide(v, pol, io, fault);
      && (d.state.Published? || d.state.Confirmed? ==> Linearized(v.p) && Chain(v.m) && d.published)
      && (d.state.Confirmed? ==> d.effect == if v.m.confirmations == 1 then NoEffect else AppendConfirmation)
      && (d.effect == AppendConfirmation ==> v.m.confirmations == 0)
  {
  }

  // ---------- every sequence of recoveries ----------

  /** The world after one recovery. */
  function Next(w: World, o: Observation, pol: Policy, fault: Label): World
  {
    After(w, Recovered(w, o, pol, true, fault).effect)
  }

  function Run(w: World, o: Observation, pol: Policy, faults: seq<Label>): World
    decreases |faults|
  {
    if faults == [] then w else Run(Next(w, o, pol, faults[0]), o, pol, faults[1..])
  }

  lemma NextConfirmations(w: World, o: Observation, pol: Policy, io: bool, fault: Label)
    ensures var v := Recovered(w, o, pol, io, fault); var w' := After(w, v.effect);
      Confirmations(w'.records) == Confirmations(w.records) ||
        (Confirmations(w.records) == 0 && Confirmations(w'.records) == 1)
  {
    hide HasType, HasProgress, Confirmations, ScanAll, Decide, Coherent, Mismatch;
    FlagsDescribe(w.records);
    ConfirmationsSnoc(w.records, ConfirmationOf(w.records));
    var s := ScanPrefix(w.records);
    if s.Going? && s.flags.m.confirmations <= 1 {
      SuccessNeedsEvidence(ViewOf(s.flags, w, o), pol, io, fault);
    }
  }

  /** Over any recoveries with faults at any checkpoint, at most one confirmation is ever appended. */
  lemma {:induction false} AtMostOneConfirmation(w: World, o: Observation, pol: Policy, faults: seq<Label>)
    ensures var n, n' := Confirmations(w.records), Confirmations(Run(w, o, pol, faults).records);
      n' == n || (n == 0 && n' == 1)
    decreases |faults|
  {
    hide Recovered, After, Confirmations;
    if faults != [] {
      NextConfirmations(w, o, pol, true, faults[0]);
      AtMostOneConfirmation(Next(w, o, pol, faults[0]), o, pol, faults[1..]);
    }
  }

  // ---------- convergence ----------

  /** Nothing is in the journal, and the staging found will be removed: the one case that forgets. */
  predicate Forgets(w: World, o: Observation, pol: Policy)
  {
    w.records == [] && !w.torn && w.staging && !o.seen.started && !o.seen.linearized && pol.allowCleanup
  }

  function Confirmed'(f: Flags): Flags
  {
    f.(m := f.m.(confirmations := f.m.confirmations + 1))
  }

  /** A confirmation record of the prefix's own transaction only raises the count. */
  lemma ScanAfterConfirmation(rs: seq<Rec>)
    requires ScanPrefix(rs).Going? && ScanPrefix(rs).flags.hasTx
    ensures ScanPrefix(rs + [ConfirmationOf(rs)]) == Going(Confirmed'(ScanPrefix(rs).flags))
  {
    var all := rs + [ConfirmationOf(rs)];
    assert all[..|all| - 1] == rs;
  }

  /** The state and the world a fault-free recovery ends in. */
  function Settles(w: World, o: Observation, pol: Policy): (State, World)
  {
    var v := Recovered(w, o, pol, true, Nowhere);
    (v.state, After(w, v.effect))
  }

  /** Where removing staging leads the next recovery. */
  lemma CaseWithoutStaging(v: View)
    requires CaseOf(v).ToCancel? || CaseOf(v).ToQuarantine?
    requires v.m.confirmations == 0 && !(v.empty && !v.torn && v.staging && !v.p.started && !v.p.linearized)
    ensures var v' := v.(staging := false);
      && (CaseOf(v).ToCancel? ==>
            CaseOf(v').ToCancel? || (CaseOf(v').Finished? && StateOf(v.m, Linearized(v.p)) == Cancelled))
      && (CaseOf(v).ToQuarantine? ==>
            CaseOf(v').ToQuarantine? || (CaseOf(v').Finished? && StateOf(v.m, Linearized(v.p)) == Quarantined))
  {
  }

  /** On the view alone: removing staging does not change where a fault-free recovery ends. */
  lemma StagingIsInvisible(v: View, pol: Policy, fault: Label)
    requires v.m.confirmations <= 1
    requires !(v.empty && !v.torn && v.staging && !v.p.started && !v.p.linearized && pol.allowCleanup)
    requires var e := Decide(v, pol, true, fault).effect; e == CleanupStaging || e == QuarantineStaging
    ensures var d, d' := Decide(v, pol, true, Nowhere), Decide(v.(staging := false), pol, true, Nowhere);
      && d'.state == d.state
      && (d.effect == CleanupStaging || d.effect == QuarantineStaging) && d'.effect != AppendConfirmation
  {
    CaseActs(v);
    hide CaseOf, StateOf, Linearized;
    CaseWithoutStaging(v);
  }

  /** Confirmed already: finished, or found so. */
  predicate Concluded(v: View)
  {
    CaseOf(v).Finished? || CaseOf(v).AlreadyConfirmed?
  }

  lemma CaseActs(v: View)
    requires v.m.confirmations <= 1
    ensures CaseOf(v).ToCancel? || CaseOf(v).ToQuarantine? || CaseOf(v).ToConfirm? ==> v.m.confirmations == 0
    ensures CaseOf(v).ToConfirm? ==> Linearized(v.p) && Chain(v.m)
    ensures CaseOf(v).ToConfirm? ==> forall torn ::
      Concluded(View(v.m.(confirmations := 1), false, torn, v.staging, v.p))
  {
  }

  /** On the view alone: a confirmation just appended is found, and the verdict is CONFIRMED either way. */
  lemma ConfirmationIsInvisible(v: View, pol: Policy, fault: Label)
    requires v.m.confirmations <= 1
    requires Decide(v, pol, true, fault).effect == AppendConfirmation
    ensures var v' := v.(m := v.m.(confirmations := v.m.confirmations + 1), empty := false);
      && Decide(v, pol, true, Nowhere).state == Confirmed && Decide(v, pol, true, Nowhere).effect == AppendConfirmation
      && Decide(v', pol, true, Nowhere).state == Confirmed && Decide(v', pol, true, Nowhere).effect == NoEffect
      && Chain(v.m) && v.m.confirmations == 0
  {
    CaseActs(v);
    hide CaseOf;
  }

  /** After one recovery, faulted anywhere or not, a fault-free one ends where it would have ended at once. */
  lemma OneFaultIsInvisible(w: World, o: Observation, pol: Policy, fault: Label)
    requires !Forgets(w, o, pol)
    ensures !Forgets(Next(w, o, pol, fault), o, pol)
    ensures Settles(Next(w, o, pol, fault), o, pol) == Settles(w, o, pol)
  {
    hide ScanPrefix, Decide, Mismatch;
    var effect := Recovered(w, o, pol, true, fault).effect;
    if !effect.NoEffect? {
      var f := ScanPrefix(w.records).flags;
      var v := ViewOf(f, w, o);
      EmptyHasNoMarks(w.records);
      if effect == AppendConfirmation {
        ConfirmationIsInvisible(v, pol, fault);
        ChainHasRecords(w.records);
        ScanAfterConfirmation(w.records);
        MismatchIgnoresMarks(f, o);
        var w' := After(w, AppendConfirmation);
        assert ViewOf(Confirmed'(f), w', o) == v.(m := Confirmed'(f).m, empty := false);
      } else {
        StagingIsInvisible(v, pol, fault);
      }
    }
  }

  lemma MismatchIgnoresMarks(f: Flags, o: Observation)
    ensures Mismatch(Confirmed'(f), o) == Mismatch(f, o)
  {
  }

  lemma EmptyHasNoMarks(rs: seq<Rec>)
    ensures rs == [] ==> ScanPrefix(rs) == Going(NO_FLAGS)
  {
  }

  lemma ChainHasRecords(rs: seq<Rec>)
    ensures ScanPrefix(rs).Going? && ScanPrefix(rs).flags.m.authorized ==> ScanPrefix(rs).flags.hasTx
  {
    hide HasProgress, Confirmations;
    FlagsDescribe(rs);
  }

  /** Convergence: any number of interrupted recoveries, then a complete one, equal one complete recovery. */
  lemma {:induction false} Converges(w: World, o: Observation, pol: Policy, faults: seq<Label>)
    requires !Forgets(w, o, pol)
    ensures Settles(Run(w, o, pol, faults), o, pol) == Settles(w, o, pol)
    ensures !Forgets(Run(w, o, pol, faults), o, pol)
    decreases |faults|
  {
    hide Settles, Next, Forgets;
    if faults != [] {
      OneFaultIsInvisible(w, o, pol, faults[0]);
      Converges(Next(w, o, pol, faults[0]), o, pol, faults[1..]);
    }
  }

  /**
   Convergence exactly: every sequence of interrupted recoveries is invisible if and only if the
   journal holds a record or a torn tail, or there is no staging that recovery would remove
   unrecorded. In the one remaining case the verdict turns from QUARANTINED to CREATED.
   */
  lemma ConvergesExactlyWhen(w: World, o: Observation, pol: Policy)
    ensures (forall faults :: Settles(Run(w, o, pol, faults), o, pol) == Settles(w, o, pol)) <==> !Forgets(w, o, pol)
  {
    hide Settles, Run;
    if Forgets(w, o, pol) {
      ForgetfulRun(w, o, pol);
      assert Settles(Run(w, o, pol, [PublishDirSync]), o, pol) != Settles(w, o, pol);
    } else {
      forall faults
        ensures Settles(Run(w, o, pol, faults), o, pol) == Settles(w, o, pol)
      {
        Converges(w, o, pol, faults);
      }
    }
  }

  lemma ForgetfulRun(w: World, o: Observation, pol: Policy)
    requires Forgets(w, o, pol)
    ensures Settles(w, o, pol).0 == Quarantined
    ensures Settles(Run(w, o, pol, [PublishDirSync]), o, pol).0 == Created
  {
    assert ScanPrefix([]) == Going(NO_FLAGS);
    var faults := [PublishDirSync];
    assert faults[1..] == [];
    assert Run(w, o, pol, faults) == Next(w, o, pol, PublishDirSync);
  }

  /** The journal and the observation call for a confirmation that is not there yet. */
  predicate Confirmable(rs: seq<Rec>, o: Observation, pol: Policy)
  {
    var s := ScanPrefix(rs);
    s.Going? && !Mismatch(s.flags, o) && s.flags.m.confirmations == 0 && Linearized(o.seen) && Chain(s.flags.m) &&
      pol.allowConfirm
  }

  /** A confirmation is appended exactly when one is called for and no fault precedes it. */
  lemma ConfirmsExactlyWhen(w: World, o: Observation, pol: Policy, fault: Label)
    ensures Recovered(w, o, pol, true, fault).effect == AppendConfirmation
       <==> Confirmable(w.records, o, pol) && fault != ConfirmPre
  {
    hide ScanAll, Coherent;
    if Confirmable(w.records, o, pol) {
      ChainHasRecords(w.records);
      NonEmptyWhenTx(w.records);
    }
  }

  lemma NonEmptyWhenTx(rs: seq<Rec>)
    requires ScanPrefix(rs).Going? && ScanPrefix(rs).flags.hasTx
    ensures rs != []
  {
  }

  /** After a complete recovery a further one, whatever its faults, confirms nothing and changes no record. */
  lemma FurtherRecoveryIsQuiet(w: World, o: Observation, pol: Policy, fault: Label)
    ensures var w1 := Settles(w, o, pol).1;
      Next(w1, o, pol, fault).records == w1.records
  {
    hide ScanAll, Coherent, Recovered, Mismatch;
    var w1 := Settles(w, o, pol).1;
    ConfirmsExactlyWhen(w, o, pol, Nowhere);
    ConfirmsExactlyWhen(w1, o, pol, fault);
    if Confirmable(w.records, o, pol) {
      ChainHasRecords(w.records);
      ScanAfterConfirmation(w.records);
    }
  }

  // ---------- Recover with its persistence object ----------

  /** An in-memory PersistIO that fails at one checkpoint. */
  class MemPersist {
    const failAt: Label
    var checkpoints: seq<Label>
    var cleanups: nat
    var quarantines: nat
    var confirms: nat
    var confirmTx: TxnId
    var stagingGone: bool
    var quarantined: bool

    constructor (at: Label)
      ensures failAt == at && checkpoints == [] && cleanups == quarantines == confirms == 0
      ensures !stagingGone && !quarantined
    {
      failAt := at;
      checkpoints, cleanups, quarantines, confirms, confirmTx, stagingGone, quarantined := [], 0, 0, 0, NO_ID, false,
        false;
    }

    /** The counters after an effect of transaction txid. */
    twostate predicate Performed(effect: Effect, txid: TxnId)
      reads this
    {
      && cleanups == old(cleanups) + (if effect == CleanupStaging then 1 else 0)
      && quarantines == old(quarantines) + (if effect == QuarantineStaging then 1 else 0)
      && confirms == old(confirms) + (if effect == AppendConfirmation then 1 else 0)
      && confirmTx == (if effect == AppendConfirmation then txid else old(confirmTx))
      && stagingGone == (old(stagingGone) || effect == CleanupStaging || effect == QuarantineStaging)
      && quarantined == (old(quarantined) || effect == QuarantineStaging)
    }

    method Checkpoint(at: Label) returns (ok: bool)
      modifies this`checkpoints
      ensures checkpoints == old(checkpoints) + [at]
      ensures ok <==> failAt != at
    {
      checkpoints := checkpoints + [at];
      return failAt != at;
    }

    method DoCleanup(staging: bool, pol: Policy) returns (st: Step)
      modifies this
      ensures st == Cleanup(pol, true, staging, failAt)
      ensures Performed(st.effect, NO_ID)
    {
      if !pol.allowCleanup || !staging { return Step(NoEffect, NoError); }
      var ok := Checkpoint(StageCreate);
      if !ok { return Step(NoEffect, Faulted(StageCreate)); }
      cleanups, stagingGone := cleanups + 1, true;
      ok := Checkpoint(StageSync);
      if !ok { return Step(CleanupStaging, Faulted(StageSync)); }
      return Step(CleanupStaging, NoError);
    }

    method DoQuarantine(staging: bool, p: Publication, pol: Policy) returns (st: Step)
      modifies this
      ensures st == Quarantine(pol, true, staging, p, failAt)
      ensures Performed(st.effect, NO_ID)
    {
      if !pol.allowCleanup { return Step(NoEffect, NoError); }
      if !staging && !p.started { return Step(NoEffect, NoError); }
      var ok := Checkpoint(PublishRename);
      if !ok { return Step(NoEffect, Faulted(PublishRename)); }
      quarantines, quarantined, stagingGone := quarantines + 1, true, true;
      ok := Checkpoint(PublishDirSync);
      if !ok { return Step(QuarantineStaging, Faulted(PublishDirSync)); }
      return Step(QuarantineStaging, NoError);
    }

    method ConfirmOnce(txid: TxnId) returns (st: Step)
      modifies this
      ensures st == Confirm(failAt)
      ensures Performed(st.effect, txid)
    {
      var ok := Checkpoint(ConfirmPre);
      if !ok { return Step(NoEffect, Faulted(ConfirmPre)); }
      confirms, confirmTx := confirms + 1, txid;
      ok := Checkpoint(ConfirmPost);
      if !ok { return Step(AppendConfirmation, Faulted(ConfirmPost)); }
      return Step(AppendConfirmation, NoError);
    }
  }

  /** Recover, branch by branch, performing its effects on io: exactly the verdict of Recovered. */
  method Recover(w: World, o: Observation, pol: Policy, io: MemPersist?) returns (v: Verdict)
    modifies if io == null then {} else {io}
    ensures v == Recovered(w, o, pol, io != null, if io == null then Nowhere else io.failAt)
    ensures io != null ==> io.Performed(v.effect, ConfirmationOf(w.records).txid)
  {
    hide ScanAll, Coherent, Confirmations;
    var s := ScanRecords(w.records);
    if s.Undecodable? { return Verdict(NoVerdict, NoEffect, BadAuthorization, 0, false); }
    var f := s.flags;
    if Mismatch(f, o) { return Stuck(IdentityMismatch, f.m.confirmations, false); }
    if s.Contradiction? { return Stuck(ContradictoryRecords, f.m.confirmations, false); }
    if f.m.confirmations > 1 { return Stuck(ManyConfirmations, f.m.confirmations, false); }
    v := DecideAndAct(ViewOf(f, w, o), f.txid, pol, io);
  }

  method DecideAndAct(v: View, txid: TxnId, pol: Policy, io: MemPersist?) returns (d: Verdict)
    requires v.m.confirmations <= 1
    modifies if io == null then {} else {io}
    ensures d == Decide(v, pol, io != null, if io == null then Nowhere else io.failAt)
    ensures io != null ==> io.Performed(d.effect, txid)
  {
    var published := v.p.linearized && v.p.matches;
    var n := v.m.confirmations;
    if published && !(v.m.authorized && v.m.prepared && v.m.verified && v.m.received) {
      return Stuck(UnauthorizedPublication, n, false);
    }
    var started := published || v.p.started || v.m.started;
    if v.empty && !v.torn && !v.staging && !v.p.started && !v.p.linearized {
      return Verdict(Created, NoEffect, NoError, n, published);
    }
    var terminal := Terminal(v.m, published, started);
    var needsRecovery := !terminal || v.torn || (v.staging && !published) || (started && !published);
    if !needsRecovery { return Verdict(StateOf(v.m, published), NoEffect, NoError, n, published); }
    if n == 1 {
      if !published { return Stuck(ConfirmedUnpublished, n, published); }
      return Verdict(Confirmed, NoEffect, NoError, n, published);
    }
    var st := Step(NoEffect, NoError);
    if v.m.cancelled && !started && !published {
      if io != null { st := io.DoCleanup(v.staging, pol); }
      return Conclude(Cancelled, Recovering, st, n, published);
    }
    if published {
      if !pol.allowConfirm || io == null { return Verdict(Published, NoEffect, NoError, n, published); }
      st := io.ConfirmOnce(txid);
      return Conclude(Confirmed, Published, st, if st.error.NoError? then 1 else n, published);
    }
    if io != null { st := io.DoQuarantine(v.staging, v.p, pol); }
    return Conclude(Quarantined, Recovering, st, n, published);
  }
}
