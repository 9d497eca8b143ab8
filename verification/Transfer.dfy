/**
 Resumable transfer of one file (internal/remotesync/store.go, transfer.go): the staged
 file, the partial file and its metadata on disk, the receiver's open state, and an
 honest sender of some content, with a stop possible at every step.

 Any file operation may fail; `Io` says which does. A process that stops keeps what was
 written and loses what was open.
 */
module Transfer {
  import opened Bytes
  import opened JournalPayload

  const CHUNK_SIZE := 0x4_0000
  const META_EVERY := CHUNK_SIZE * 4
  const MAX_USEFUL := 0x10_0000 - 256
  const CHUNK_OVERHEAD := 13

  /** partialMeta, for the one path it is stored under. */
  datatype Meta = Meta(size: nat, digest: Digest, offset: nat)

  datatype Begin = Begin(size: nat, digest: Digest)

  datatype Disk = Disk(staged: Option<Bytes>, part: Option<Bytes>, meta: Option<Meta>)

  /** localStore: `open` is whether the partial's handle is held. */
  datatype Store = Store(disk: Disk, active: bool, open: bool, begin: Begin, off: nat)

  /** How the last move of a partial into the stage goes. */
  datatype Publish = Renamed | Copied | Torn(k: nat) | NotMoved | NotMarked

  /** Which file operations fail. */
  datatype Io = Io(keepMeta: bool, keepPart: bool, loseMeta: bool, unreadable: bool, unopened: bool,
                   short: Option<nat>, unsynced: bool, unhashed: bool, publish: Publish)

  const ALL_WELL := Io(false, false, false, false, false, None, false, false, Renamed)

  datatype Answer<T> = Yes(value: T) | No

  datatype Done<T> = Done(s: Store, r: Answer<T>)

  // ---------- the store ----------

  /** clearPartial: either removal may fail. */
  function Cleared(d: Disk, io: Io): Disk
  {
    Disk(d.staged, if io.keepPart then d.part else None, if io.keepMeta then d.meta else None)
  }

  predicate Complete(H: Hash, d: Disk, b: Begin)
  {
    d.staged.Some? && |d.staged.value| == b.size && H(d.staged.value) == b.digest
  }

  predicate Resumable(d: Disk, b: Begin)
  {
    && d.meta.Some? && d.meta.value.digest == b.digest && d.meta.value.size == b.size
    && d.part.Some? && |d.part.value| == d.meta.value.offset
  }

  /** Open for writing at `start`; a start of zero truncates. */
  function Opened(d: Disk, b: Begin, start: nat): Store
  {
    Store(if start == 0 then d.(part := Some([])) else d, true, true, b, start)
  }

  /** beginFile: the offset acknowledged to the sender. */
  function BeginFile(H: Hash, s: Store, b: Begin, io: Io): Done<nat>
  {
    if s.active then Done(s, No)
    else if !io.unhashed && Complete(H, s.disk, b) then Done(s.(disk := Cleared(s.disk, io)), Yes(b.size))
    else if io.unreadable then Done(s, No)
    else if Resumable(s.disk, b) then
      var start := s.disk.meta.value.offset;
      if io.unopened then Done(s, No) else Done(Opened(s.disk, b, start), Yes(start))
    else
      var d := Cleared(s.disk, io);
      if io.unopened then Done(s.(disk := d), No) else Done(Opened(d, b, 0), Yes(0))
  }

  function Overlay(b: Bytes, at: nat, data: Bytes): Bytes
    requires at <= |b|
  {
    b[..at] + data + if at + |data| <= |b| then b[at + |data|..] else []
  }

  /** The partial with data written at the current offset. */
  function Written(s: Store, data: Bytes): Option<Bytes>
  {
    var part := s.disk.part;
    if part.Some? && s.off <= |part.value| then Some(Overlay(part.value, s.off, data)) else part
  }

  function Noted(d: Disk, b: Begin, off: nat, io: Io): Disk
  {
    if io.loseMeta then d else d.(meta := Some(Meta(b.size, b.digest, off)))
  }

  /** writeChunk: contiguous data only; metadata at every fourth default chunk. */
  function WriteChunk(s: Store, coff: nat, data: Bytes, io: Io): Done<()>
  {
    if !s.active || !s.open || coff != s.off then Done(s, No)
    else if io.short.Some? && io.short.value <= |data| then
      Done(s.(disk := s.disk.(part := Written(s, data[..io.short.value]))), No)
    else
      var d := s.disk.(part := Written(s, data));
      var off := s.off + |data|;
      Done(s.(disk := if off % META_EVERY == 0 then Noted(d, s.begin, off, io) else d, off := off), Yes(()))
  }

  /** persistActive */
  function PersistActive(s: Store, io: Io): Store
  {
    if !s.active || !s.open then s else s.(disk := Noted(s.disk, s.begin, s.off, io))
  }

  /** close, and what a stopped process leaves. */
  function Closed(s: Store): Store
  {
    s.(active := false, open := false)
  }

  /** Moving the partial into the stage. */
  function MoveIntoStage(s: Store, content: Bytes, io: Io): Done<()>
  {
    match io.publish
    case Renamed => Done(s.(disk := Cleared(Disk(Some(content), None, s.disk.meta), io), active := false), Yes(()))
    case Copied => Done(s.(disk := Cleared(Disk(Some(content), s.disk.part, s.disk.meta), io), active := false),
      Yes(()))
    case Torn(k) => Done(if k <= |content| then s.(disk := s.disk.(staged := Some(content[..k]))) else s, No)
    case NotMoved => Done(s, No)
    case NotMarked => Done(s.(disk := Disk(Some(content), None, s.disk.meta)), No)
  }

  /** endFile: complete, synced, and with the digest announced; then staged. */
  function EndFile(H: Hash, s: Store, digest: Digest, io: Io): Done<()>
  {
    if !s.active || !s.open || digest != s.begin.digest || s.off != s.begin.size || io.unsynced then Done(s, No)
    else
      var t := s.(open := false);
      if s.disk.part.None? || io.unhashed || H(s.disk.part.value) != s.begin.digest then Done(t, No)
      else MoveIntoStage(t, s.disk.part.value, io)
  }

  // ---------- one sender ----------

  function BeginOf(H: Hash, c: Bytes): Begin
  {
    Begin(|c|, H(c))
  }

  /** The metadata announces c. */
  predicate Names(H: Hash, meta: Option<Meta>, c: Bytes)
  {
    meta.Some? && meta.value.digest == H(c) && meta.value.size == |c|
  }

  /**
   A partial that c's metadata vouches for, by its length, is a beginning of c. A partial or
   metadata left by another version of the file may be anything.
   */
  predicate Trusted(H: Hash, d: Disk, c: Bytes)
  {
    Names(H, d.meta, c) && d.part.Some? && |d.part.value| == d.meta.value.offset ==> d.part.value <= c
  }

  /** The stage holds what was there before, or a beginning of c. */
  predicate StageOf(staged: Option<Bytes>, c: Bytes, before: Option<Bytes>)
  {
    staged == before || (staged.Some? && staged.value <= c)
  }

  /** An open transfer of c: exactly the first `off` bytes are in the partial. */
  predicate InStep(H: Hash, s: Store, c: Bytes)
  {
    s.active && s.open ==> s.begin == BeginOf(H, c) && s.off <= |c| && s.disk.part == Some(c[..s.off])
  }

  /** What holds between and during all attempts to send c. */
  predicate Inv(H: Hash, s: Store, c: Bytes, before: Option<Bytes>)
  {
    Trusted(H, s.disk, c) && StageOf(s.disk.staged, c, before) && InStep(H, s, c)
  }

  lemma BeginKeeps(H: Hash, s: Store, c: Bytes, before: Option<Bytes>, io: Io)
    requires Inv(H, s, c, before)
    ensures var d := BeginFile(H, s, BeginOf(H, c), io);
            && Inv(H, d.s, c, before)
            && (!s.open && !d.s.active ==> !d.s.open)
            && (d.r.Yes? ==> d.r.value <= |c| && (d.s.active ==> d.s.open && d.r.value == d.s.off))
            && (d.r.Yes? && !d.s.active ==> d.r.value == |c| && Complete(H, d.s.disk, BeginOf(H, c)))
  {
    if !s.active && Resumable(s.disk, BeginOf(H, c)) {
      assert s.disk.part.value == c[..|s.disk.part.value|];
    }
    assert c[..0] == [];
  }

  /** Appending c's next bytes to its first `off` bytes. */
  lemma NextBytes(c: Bytes, off: nat, n: nat)
    requires off + n <= |c|
    ensures Overlay(c[..off], off, c[off..off + n]) == c[..off + n]
  {
    assert c[..off + n] == c[..off] + c[off..off + n];
  }

  lemma WrittenNext(H: Hash, s: Store, c: Bytes, n: nat)
    requires InStep(H, s, c) && s.active && s.open && s.off + n <= |c|
    ensures Written(s, c[s.off..s.off + n]) == Some(c[..s.off + n])
  {
    NextBytes(c, s.off, n);
  }

  lemma WrittenShort(H: Hash, s: Store, c: Bytes, n: nat, k: nat)
    requires InStep(H, s, c) && s.active && s.open && s.off + n <= |c| && k <= n
    ensures Written(s, c[s.off..s.off + n][..k]) == Some(c[..s.off + k])
  {
    WrittenNext(H, s, c, k);
    assert c[s.off..s.off + n][..k] == c[s.off..s.off + k];
  }

  lemma ChunkKeeps(H: Hash, s: Store, c: Bytes, before: Option<Bytes>, n: nat, io: Io)
    requires Inv(H, s, c, before) && s.active && s.open && s.off + n <= |c|
    ensures var d := WriteChunk(s, s.off, c[s.off..s.off + n], io);
            && Inv(H, Closed(d.s), c, before)
            && (d.r.Yes? ==> Inv(H, d.s, c, before) && d.s.active && d.s.open && d.s.off == s.off + n)
  {
    hide Written;
    WrittenNext(H, s, c, n);
    if io.short.Some? && io.short.value <= n {
      WrittenShort(H, s, c, n, io.short.value);
    }
  }

  lemma PersistKeeps(H: Hash, s: Store, c: Bytes, before: Option<Bytes>, io: Io)
    requires Inv(H, s, c, before)
    ensures Inv(H, PersistActive(s, io), c, before) && Inv(H, Closed(s), c, before)
  {
  }

  lemma EndKeeps(H: Hash, s: Store, c: Bytes, before: Option<Bytes>, io: Io)
    requires Inv(H, s, c, before)
    ensures var d := EndFile(H, s, H(c), io);
            && Inv(H, Closed(d.s), c, before)
            && (d.r.Yes? ==> Inv(H, d.s, c, before) && d.s.disk.staged == Some(c) && !d.s.active)
  {
    if s.active && s.open && s.off == s.begin.size {
      assert c[..|c|] == c;
    }
  }

  // ---------- any number of attempts ----------

  /** What can happen on the receiving side while someone keeps trying to send c. */
  datatype Move = Start(io: Io) | Receive(n: nat, io: Io) | Lost(io: Io) | Stop | Finish(io: Io)

  /** After a failed step the store is closed. */
  function Settle<T>(d: Done<T>): Store
  {
    if d.r.Yes? then d.s else Closed(d.s)
  }

  function Next(H: Hash, c: Bytes, s: Store, m: Move): Store
  {
    match m
    case Start(io) => Settle(BeginFile(H, s, BeginOf(H, c), io))
    case Receive(n, io) =>
      if s.off + n <= |c| then Settle(WriteChunk(s, s.off, c[s.off..s.off + n], io)) else Closed(s)
    case Lost(io) => Closed(PersistActive(s, io))
    case Stop => Closed(s)
    case Finish(io) => Settle(EndFile(H, s, H(c), io))
  }

  function Run(H: Hash, c: Bytes, s: Store, ms: seq<Move>): Store
  {
    if ms == [] then s else Next(H, c, Run(H, c, s, ms[..|ms| - 1]), ms[|ms| - 1])
  }

  /** Between attempts or healthy: an active store holds its handle. */
  predicate Healthy(s: Store)
  {
    s.active <==> s.open
  }

  lemma NextKeeps(H: Hash, c: Bytes, s: Store, m: Move, before: Option<Bytes>)
    requires Inv(H, s, c, before) && Healthy(s)
    ensures Inv(H, Next(H, c, s, m), c, before) && Healthy(Next(H, c, s, m))
  {
    hide Inv;
    match m
    case Start(io) =>
      BeginKeeps(H, s, c, before, io);
      PersistKeeps(H, BeginFile(H, s, BeginOf(H, c), io).s, c, before, io);
    case Receive(n, io) =>
      PersistKeeps(H, s, c, before, io);
      if s.active && s.off + n <= |c| { ChunkKeeps(H, s, c, before, n, io); }
    case Lost(io) =>
      PersistKeeps(H, s, c, before, io);
      PersistKeeps(H, PersistActive(s, io), c, before, io);
    case Stop => PersistKeeps(H, s, c, before, ALL_WELL);
    case Finish(io) => EndKeeps(H, s, c, before, io);
  }

  /**
   Over any interruptions, failures and resumes, from any trusted disk: a partial that will be
   resumed is a beginning of c, and while open it is exactly the first `off` bytes.
   */
  lemma {:induction false} RunKeeps(H: Hash, c: Bytes, s: Store, ms: seq<Move>, before: Option<Bytes>)
    requires Inv(H, s, c, before) && Healthy(s)
    ensures Inv(H, Run(H, c, s, ms), c, before) && Healthy(Run(H, c, s, ms))
  {
    hide Inv, Healthy, Next;
    if ms != [] {
      RunKeeps(H, c, s, ms[..|ms| - 1], before);
      NextKeeps(H, c, Run(H, c, s, ms[..|ms| - 1]), ms[|ms| - 1], before);
    }
  }

  /** A successful end stages exactly the sender's content, whatever the trusted disk held before. */
  lemma FinishIsExact(H: Hash, c: Bytes, s: Store, ms: seq<Move>, before: Option<Bytes>, io: Io)
    requires Inv(H, s, c, before) && Healthy(s)
    requires EndFile(H, Run(H, c, s, ms), H(c), io).r.Yes?
    ensures EndFile(H, Run(H, c, s, ms), H(c), io).s.disk.staged == Some(c)
  {
    hide Inv, Healthy, Run;
    RunKeeps(H, c, s, ms, before);
    EndKeeps(H, Run(H, c, s, ms), c, before, io);
  }

  /** c is staged; or what was there before is, and collides with c. */
  predicate Exact(H: Hash, staged: Option<Bytes>, c: Bytes, before: Option<Bytes>)
  {
    staged == Some(c) || (staged == before && before.Some? && IsCollision(H, before.value, c))
  }

  /** A begin answered "already complete": c is staged, or what was there before collides with it. */
  lemma CompleteIsExact(H: Hash, c: Bytes, s: Store, before: Option<Bytes>)
    requires Inv(H, s, c, before) && Complete(H, s.disk, BeginOf(H, c))
    ensures Exact(H, s.disk.staged, c, before)
  {
    if s.disk.staged != before {
      var x := s.disk.staged.value;
      assert x == c[..|x|] && c[..|c|] == c;
    }
  }

  /** Even if the partial came from other contents, what an end stages has the announced digest. */
  lemma FinishIsChecked(H: Hash, s: Store, c: Bytes, io: Io)
    requires EndFile(H, s, H(c), io).r.Yes?
    ensures var staged := EndFile(H, s, H(c), io).s.disk.staged;
            staged.Some? && (staged.value == c || IsCollision(H, staged.value, c))
  {
  }

  // ---------- completion ----------

  function Sum(ns: seq<nat>): nat
  {
    if ns == [] then 0 else Sum(ns[..|ns| - 1]) + ns[|ns| - 1]
  }

  /** Chunks of these sizes, with nothing failing. */
  function Chunks(ns: seq<nat>): seq<Move>
  {
    if ns == [] then [] else Chunks(ns[..|ns| - 1]) + [Receive(ns[|ns| - 1], ALL_WELL)]
  }

  lemma RunSnoc(H: Hash, c: Bytes, s: Store, ms: seq<Move>, m: Move)
    ensures Run(H, c, s, ms + [m]) == Next(H, c, Run(H, c, s, ms), m)
  {
    assert (ms + [m])[..|ms|] == ms;
  }

  lemma {:induction false} ChunksAdvance(H: Hash, c: Bytes, s: Store, ns: seq<nat>, before: Option<Bytes>)
    requires Inv(H, s, c, before) && s.active && s.open && s.off + Sum(ns) <= |c|
    ensures var t := Run(H, c, s, Chunks(ns)); Inv(H, t, c, before) && t.active && t.open && t.off == s.off + Sum(ns)
  {
    hide Inv, Next;
    if ns != [] {
      var n := |ns| - 1;
      ChunksAdvance(H, c, s, ns[..n], before);
      var t := Run(H, c, s, Chunks(ns[..n]));
      RunSnoc(H, c, s, Chunks(ns[..n]), Receive(ns[n], ALL_WELL));
      ReceiveAdvances(H, c, t, ns[n], before);
    }
  }

  lemma ReceiveAdvances(H: Hash, c: Bytes, t: Store, n: nat, before: Option<Bytes>)
    requires Inv(H, t, c, before) && t.active && t.open && t.off + n <= |c|
    ensures var u := Next(H, c, t, Receive(n, ALL_WELL));
      Inv(H, u, c, before) && u.active && u.open && u.off == t.off + n
  {
    hide Inv;
    ChunkKeeps(H, t, c, before, n, ALL_WELL);
  }

  /** Begin, chunks that sum to what is missing, end, with nothing failing. */
  function Attempt(H: Hash, c: Bytes, s: Store, ns: seq<nat>): Done<()>
  {
    EndFile(H, Run(H, c, BeginFile(H, s, BeginOf(H, c), ALL_WELL).s, Chunks(ns)), H(c), ALL_WELL)
  }

  /** One undisturbed attempt completes: exactly the bytes past the acknowledged offset are sent, and c is staged. */
  lemma AttemptCompletes(H: Hash, c: Bytes, s: Store, ns: seq<nat>, before: Option<Bytes>)
    requires Inv(H, s, c, before) && Healthy(s) && !s.active && !Complete(H, s.disk, BeginOf(H, c))
    requires Sum(ns) == |c| - BeginFile(H, s, BeginOf(H, c), ALL_WELL).s.off
    ensures Attempt(H, c, s, ns).r.Yes? && Attempt(H, c, s, ns).s.disk.staged == Some(c)
  {
    hide Inv;
    BeginKeeps(H, s, c, before, ALL_WELL);
    var b := BeginFile(H, s, BeginOf(H, c), ALL_WELL).s;
    ChunksAdvance(H, c, b, ns, before);
    var t := Run(H, c, b, Chunks(ns));
    EndSucceeds(H, t, c, before);
  }

  lemma EndSucceeds(H: Hash, t: Store, c: Bytes, before: Option<Bytes>)
    requires Inv(H, t, c, before) && t.active && t.open && t.off == |c|
    ensures EndFile(H, t, H(c), ALL_WELL).r.Yes? && EndFile(H, t, H(c), ALL_WELL).s.disk.staged == Some(c)
  {
    assert c[..|c|] == c;
  }

  // ---------- a disk that is not trusted ----------

  /** An open transfer over a partial that began as x: what follows is c's. */
  predicate Grafted(H: Hash, s: Store, c: Bytes, x: Bytes)
  {
    s.active && s.open && s.begin == BeginOf(H, c) && |x| <= s.off <= |c| && s.disk.part == Some(x + c[|x|..s.off])
  }

  lemma GraftedNext(H: Hash, c: Bytes, s: Store, x: Bytes, n: nat)
    requires Grafted(H, s, c, x) && s.off + n <= |c|
    ensures Grafted(H, Next(H, c, s, Receive(n, ALL_WELL)), c, x) &&
      Next(H, c, s, Receive(n, ALL_WELL)).off == s.off + n
  {
    var part, data := x + c[|x|..s.off], c[s.off..s.off + n];
    assert part[..s.off] == part && s.off + |data| >= |part|;
    assert c[|x|..s.off + n] == c[|x|..s.off] + data;
    assert Overlay(part, s.off, data) == x + c[|x|..s.off + n];
  }

  lemma {:induction false} GraftedChunks(H: Hash, c: Bytes, s: Store, x: Bytes, ns: seq<nat>)
    requires Grafted(H, s, c, x) && s.off + Sum(ns) <= |c|
    ensures var t := Run(H, c, s, Chunks(ns)); Grafted(H, t, c, x) && t.off == s.off + Sum(ns)
  {
    hide Grafted, Next;
    if ns != [] {
      var n := |ns| - 1;
      GraftedChunks(H, c, s, x, ns[..n]);
      RunSnoc(H, c, s, Chunks(ns[..n]), Receive(ns[n], ALL_WELL));
      GraftedNext(H, c, Run(H, c, s, Chunks(ns[..n])), x, ns[n]);
    }
  }

  /** What an attempt at c assembles: c itself, unless the metadata vouches for a partial of other content. */
  function Assembled(H: Hash, d: Disk, c: Bytes): Bytes
  {
    if Trusted(H, d, c) || |d.part.value| > |c| then c else d.part.value + c[|d.part.value|..]
  }

  /**
   From any closed store whatever: an undisturbed attempt completes if and only if the disk is
   trusted, or what it assembles collides with c.
   */
  lemma CompletesExactlyWhen(H: Hash, c: Bytes, s: Store, ns: seq<nat>)
    requires !s.active && !s.open && !Complete(H, s.disk, BeginOf(H, c))
    requires BeginFile(H, s, BeginOf(H, c), ALL_WELL).s.off + Sum(ns) == |c|
    ensures Attempt(H, c, s, ns).r.Yes? <==> Trusted(H, s.disk, c) || IsCollision(H, Assembled(H, s.disk, c), c)
  {
    if Trusted(H, s.disk, c) {
      BeginKeeps(H, s, c, s.disk.staged, ALL_WELL);
      AttemptCompletes(H, c, s, ns, s.disk.staged);
    } else {
      var x := s.disk.part.value;
      var b := BeginFile(H, s, BeginOf(H, c), ALL_WELL).s;
      assert x + c[|x|..|x|] == x;
      GraftedChunks(H, c, b, x, ns);
      GraftedEnd(H, c, Run(H, c, b, Chunks(ns)), x);
    }
  }

  lemma GraftedEnd(H: Hash, c: Bytes, t: Store, x: Bytes)
    requires Grafted(H, t, c, x) && t.off == |c| && !(x <= c)
    ensures EndFile(H, t, H(c), ALL_WELL).r.Yes? <==> IsCollision(H, x + c[|x|..], c)
  {
    assert c[|x|..|c|] == c[|x|..];
    var y := x + c[|x|..];
    assert y[..|x|] == x;
  }

  const OLD_CONTENT: Bytes := [0, 0]
  const NEW_CONTENT: Bytes := [1, 1]

  /** A first byte of one version is lost, a first byte of the next is cut off with the old metadata still there. */
  function Misled(H: Hash, s: Store): Store
  {
    var kept := ALL_WELL.(keepMeta := true);
    Run(H, NEW_CONTENT, Run(H, OLD_CONTENT, s, [Start(ALL_WELL), Receive(1, ALL_WELL), Lost(ALL_WELL)]),
        [Start(kept), Receive(1, ALL_WELL), Stop])
  }

  /** If removing the metadata fails, the disk can end up not trusted for the version it still names. */
  lemma KeptMetadataMisleads(H: Hash, s: Store)
    requires s == Store(Disk(None, None, None), false, false, Begin(0, GENESIS), 0) && H(OLD_CONTENT) != H(NEW_CONTENT)
    ensures !Trusted(H, Misled(H, s).disk, OLD_CONTENT)
  {
    var kept := ALL_WELL.(keepMeta := true);
    var g, c := OLD_CONTENT, NEW_CONTENT;
    assert g[0..1] == [0] && c[0..1] == [1] && Overlay([], 0, [0]) == [0] && Overlay([], 0, [1]) == [1];
    var s1 := Next(H, g, s, Start(ALL_WELL));
    assert s1 == Store(Disk(None, Some([]), None), true, true, BeginOf(H, g), 0);
    var s2 := Next(H, g, s1, Receive(1, ALL_WELL));
    var s3 := Next(H, g, s2, Lost(ALL_WELL));
    RunThree(H, g, s, Start(ALL_WELL), Receive(1, ALL_WELL), Lost(ALL_WELL));
    assert s3.disk == Disk(None, Some([0]), Some(Meta(2, H(g), 1)));
    var t1 := Next(H, c, s3, Start(kept));
    assert t1 == Store(Disk(None, Some([]), s3.disk.meta), true, true, BeginOf(H, c), 0);
    var t2 := Next(H, c, t1, Receive(1, ALL_WELL));
    RunThree(H, c, s3, Start(kept), Receive(1, ALL_WELL), Stop);
    assert t2.disk == Disk(None, Some([1]), Some(Meta(2, H(g), 1)));
    assert Misled(H, s).disk == t2.disk;
    var x: Bytes := [1];
    assert x[0] != g[0];
  }

  lemma RunThree(H: Hash, c: Bytes, s: Store, l: Move, m: Move, n: Move)
    ensures Run(H, c, s, [l, m, n]) == Next(H, c, Next(H, c, Next(H, c, s, l), m), n)
  {
    assert [l, m, n][..2] == [l, m] && [l, m][..1] == [l] && [l][..0] == [];
    assert Run(H, c, s, []) == s;
    assert Run(H, c, s, [l]) == Next(H, c, s, l);
    assert Run(H, c, s, [l, m]) == Next(H, c, Next(H, c, s, l), m);
  }

  // ---------- a history of versions ----------

  /** Attempts at one version of the file. */
  datatype Visit = Visit(content: Bytes, moves: seq<Move>)

  /** Removing metadata works. */
  predicate Careful(m: Move)
  {
    m.Start? ==> !m.io.keepMeta
  }

  function History(H: Hash, s: Store, vs: seq<Visit>): Store
  {
    if vs == [] then s
    else Closed(Run(H, vs[|vs| - 1].content, History(H, s, vs[..|vs| - 1]), vs[|vs| - 1].moves))
  }

  /** Metadata and partial, closed, are version g's. */
  predicate OwnedBy(H: Hash, s: Store, g: Bytes)
  {
    !s.active && !s.open && (s.disk.meta.Some? ==> Names(H, s.disk.meta, g)) && Trusted(H, s.disk, g)
  }

  /** While c is tried: still g's and closed, or c's. */
  predicate Between(H: Hash, s: Store, g: Bytes, c: Bytes)
  {
    || OwnedBy(H, s, g)
    || (Healthy(s) && (s.disk.meta.Some? ==> Names(H, s.disk.meta, c)) && Trusted(H, s.disk, c) && InStep(H, s, c))
  }

  lemma TakesOver(H: Hash, s: Store, g: Bytes, c: Bytes, io: Io)
    requires OwnedBy(H, s, g) && !io.keepMeta
    ensures IsCollision(H, g, c) || Between(H, Next(H, c, s, Start(io)), g, c)
  {
    if Resumable(s.disk, BeginOf(H, c)) && g == c {
      assert s.disk.part.value == c[..|s.disk.part.value|];
    }
    assert c[..0] == [];
  }

  lemma StaysClosed(H: Hash, s: Store, g: Bytes, c: Bytes, m: Move)
    requires OwnedBy(H, s, g) && !m.Start?
    ensures OwnedBy(H, Next(H, c, s, m), g)
  {
  }

  /** c's own steps write no metadata but c's. */
  lemma KeepsNames(H: Hash, s: Store, c: Bytes, m: Move)
    requires Healthy(s) && InStep(H, s, c) && (s.disk.meta.Some? ==> Names(H, s.disk.meta, c))
    ensures Next(H, c, s, m).disk.meta.Some? ==> Names(H, Next(H, c, s, m).disk.meta, c)
  {
    hide Written, Overlay;
  }

  lemma BetweenNext(H: Hash, s: Store, g: Bytes, c: Bytes, m: Move)
    requires Between(H, s, g, c) && Careful(m)
    ensures IsCollision(H, g, c) || Between(H, Next(H, c, s, m), g, c)
  {
    hide Next, Trusted, InStep;
    if OwnedBy(H, s, g) {
      if m.Start? { TakesOver(H, s, g, c, m.io); } else { StaysClosed(H, s, g, c, m); }
    } else {
      InvMeaning(H, s, c);
      NextKeeps(H, c, s, m, s.disk.staged);
      InvMeaning(H, Next(H, c, s, m), c);
      KeepsNames(H, s, c, m);
    }
  }

  lemma InvMeaning(H: Hash, s: Store, c: Bytes)
    ensures Trusted(H, s.disk, c) && InStep(H, s, c) <==> Inv(H, s, c, s.disk.staged)
    ensures forall b | Inv(H, s, c, b) :: Trusted(H, s.disk, c) && InStep(H, s, c)
  {
  }

  lemma {:induction false} BetweenRun(H: Hash, s: Store, g: Bytes, c: Bytes, ms: seq<Move>)
    requires OwnedBy(H, s, g) && forall i | 0 <= i < |ms| :: Careful(ms[i])
    ensures IsCollision(H, g, c) || Between(H, Run(H, c, s, ms), g, c)
  {
    hide OwnedBy, Between, Next, Careful, IsCollision;
    if ms == [] {
      StartsBetween(H, s, g, c);
    } else {
      BetweenRun(H, s, g, c, ms[..|ms| - 1]);
      if !IsCollision(H, g, c) {
        BetweenNext(H, Run(H, c, s, ms[..|ms| - 1]), g, c, ms[|ms| - 1]);
      }
    }
  }

  lemma StartsBetween(H: Hash, s: Store, g: Bytes, c: Bytes)
    requires OwnedBy(H, s, g)
    ensures Between(H, s, g, c)
  {
  }

  lemma ClosedBetween(H: Hash, s: Store, g: Bytes, c: Bytes)
    requires Between(H, s, g, c)
    ensures OwnedBy(H, Closed(s), g) || OwnedBy(H, Closed(s), c)
  {
  }

  /** x is g or one of the versions tried. */
  predicate Tried(vs: seq<Visit>, g: Bytes, x: Bytes)
  {
    x == g || exists i | 0 <= i < |vs| :: vs[i].content == x
  }

  predicate AllCareful(vs: seq<Visit>)
  {
    forall i, j | 0 <= i < |vs| && 0 <= j < |vs[i].moves| :: Careful(vs[i].moves[j])
  }

  lemma TriedMore(vs: seq<Visit>, v: Visit, g: Bytes, x: Bytes)
    requires Tried(vs, g, x)
    ensures Tried(vs + [v], g, x) && Tried(vs + [v], g, v.content)
  {
    if x != g {
      var i :| 0 <= i < |vs| && vs[i].content == x;
      assert (vs + [v])[i].content == x;
    }
    assert (vs + [v])[|vs|] == v;
  }

  /** After any history of versions the disk is one version's, or two versions tried collide. */
  lemma {:induction false} HistoryHasAnOwner(H: Hash, s: Store, g: Bytes, vs: seq<Visit>)
    returns (owner: Bytes, x: Bytes, y: Bytes)
    requires OwnedBy(H, s, g) && AllCareful(vs)
    ensures Tried(vs, g, owner) && Tried(vs, g, x) && Tried(vs, g, y)
    ensures OwnedBy(H, History(H, s, vs), owner) || IsCollision(H, x, y)
    decreases |vs|
  {
    hide OwnedBy, Tried, Careful, IsCollision;
    if vs == [] {
      OwnTried(vs, g);
      return g, g, g;
    }
    var n := |vs| - 1;
    var v := vs[n];
    assert vs == vs[..n] + [v];
    owner, x, y := HistoryHasAnOwner(H, s, g, vs[..n]);
    TriedMore(vs[..n], v, g, owner);
    TriedMore(vs[..n], v, g, x);
    TriedMore(vs[..n], v, g, y);
    if !IsCollision(H, x, y) {
      BetweenRun(H, History(H, s, vs[..n]), owner, v.content, v.moves);
      if IsCollision(H, owner, v.content) {
        return owner, owner, v.content;
      }
      ClosedBetween(H, Run(H, v.content, History(H, s, vs[..n]), v.moves), owner, v.content);
      if !OwnedBy(H, History(H, s, vs), owner) {
        owner := v.content;
      }
    }
  }

  lemma OwnTried(vs: seq<Visit>, g: Bytes)
    ensures Tried(vs, g, g)
  {
  }

  lemma OwnedIsTrusted(H: Hash, s: Store, g: Bytes, c: Bytes)
    requires OwnedBy(H, s, g)
    ensures Trusted(H, s.disk, c) || IsCollision(H, g, c)
  {
  }

  /**
   After any history of versions, interrupted anywhere, an undisturbed attempt at c completes
   and stages c; or two of the versions and c collide.
   */
  lemma AnyHistoryCompletes(H: Hash, s: Store, g: Bytes, vs: seq<Visit>, c: Bytes, ns: seq<nat>)
    returns (x: Bytes, y: Bytes)
    requires OwnedBy(H, s, g) && AllCareful(vs) && !Complete(H, History(H, s, vs).disk, BeginOf(H, c))
    requires BeginFile(H, History(H, s, vs), BeginOf(H, c), ALL_WELL).s.off + Sum(ns) == |c|
    ensures (Tried(vs, g, x) || x == c) && (Tried(vs, g, y) || y == c)
    ensures var a := Attempt(H, c, History(H, s, vs), ns);
      (a.r.Yes? && a.s.disk.staged == Some(c)) || IsCollision(H, x, y)
  {
    hide Attempt, History, AllCareful, Tried, Trusted;
    var owner;
    owner, x, y := HistoryHasAnOwner(H, s, g, vs);
    if !IsCollision(H, x, y) {
      var t := History(H, s, vs);
      OwnedIsTrusted(H, t, owner, c);
      if IsCollision(H, owner, c) {
        return owner, c;
      }
      AttemptCompletes(H, c, t, ns, t.disk.staged);
    }
  }
}
