/**
 The receiving store as an object, and an attempt to send one file: the sender's and the
 receiver's loops over one connection.
 */
module LiveTransfer {
  import opened Bytes
  import opened JournalPayload
  import opened T = Transfer

  class LocalStore {
    var staged: Option<Bytes>
    var part: Option<Bytes>
    var meta: Option<Meta>
    var active: bool
    var open: bool
    var begin: Begin
    var off: nat

    function View(): Store
      reads this
    {
      Store(Disk(staged, part, meta), active, open, begin, off)
    }

    method ClearPartial(io: Io)
      modifies this`part, this`meta
      ensures View() == old(View()).(disk := Cleared(old(View()).disk, io))
    {
      if !io.keepMeta { meta := None; }
      if !io.keepPart { part := None; }
    }

    method BeginFile(H: Hash, b: Begin, io: Io) returns (ack: Answer<nat>)
      modifies this
      ensures Done(View(), ack) == T.BeginFile(H, old(View()), b, io)
    {
      if active { return No; }
      if staged.Some? && |staged.value| == b.size && !io.unhashed && H(staged.value) == b.digest {
        ClearPartial(io);
        return Yes(b.size);
      }
      if io.unreadable { return No; }
      var start := 0;
      if meta.Some? && meta.value.digest == b.digest && meta.value.size == b.size
         && part.Some? && |part.value| == meta.value.offset {
        start := meta.value.offset;
      } else {
        ClearPartial(io);
      }
      if io.unopened { return No; }
      if start == 0 { part := Some([]); }
      active, open, begin, off := true, true, b, start;
      return Yes(start);
    }

    method WriteMeta(io: Io)
      modifies this`meta
      ensures View() == old(View()).(disk := Noted(old(View()).disk, begin, off, io))
    {
      if !io.loseMeta { meta := Some(Meta(begin.size, begin.digest, off)); }
    }

    method WriteChunk(coff: nat, data: Bytes, io: Io) returns (r: Answer<()>)
      modifies this
      ensures Done(View(), r) == T.WriteChunk(old(View()), coff, data, io)
    {
      hide Overlay;
      if !active || !open { return No; }
      if coff != off { return No; }
      if io.short.Some? && io.short.value <= |data| {
        part := Written(View(), data[..io.short.value]);
        return No;
      }
      part := Written(View(), data);
      off := off + |data|;
      if off % META_EVERY == 0 {
        WriteMeta(io);
      }
      return Yes(());
    }

    method PersistActive(io: Io)
      modifies this`meta
      ensures View() == T.PersistActive(old(View()), io)
    {
      if !active || !open { return; }
      WriteMeta(io);
    }

    method EndFile(H: Hash, digest: Digest, io: Io) returns (r: Answer<()>)
      modifies this
      ensures Done(View(), r) == T.EndFile(H, old(View()), digest, io)
    {
      if !active || !open { return No; }
      if digest != begin.digest { return No; }
      if off != begin.size { return No; }
      if io.unsynced { return No; }
      open := false;
      if part.None? || io.unhashed || H(part.value) != begin.digest { return No; }
      match io.publish
      case NotMoved => return No;
      case Torn(k) =>
        if k <= |part.value| { staged := Some(part.value[..k]); }
        return No;
      case NotMarked =>
        staged, part := part, None;
        return No;
      case Renamed =>
        staged, part := part, None;
        ClearPartial(io);
        active := false;
        return Yes(());
      case Copied =>
        staged := part;
        ClearPartial(io);
        active := false;
        return Yes(());
    }

    method Close()
      modifies this`active, this`open
      ensures View() == Closed(old(View()))
    {
      active, open := false, false;
    }
  }

  /** What the sender returns: it knows that it sent the end, not that the end succeeded. */
  datatype Ended = Completed(acked: nat, sent: nat) | Broken

  /**
   sendFileChunked against recvFileChunked: begin and acknowledge, then chunks as the
   sender reads them, then end. The connection may drop, either process may stop and any
   file operation may fail at each step. `staged` is what the receiver returns.
   */
  method SendFile(H: Hash, c: Bytes, store: LocalStore, chunkSize: int, ghost before: Option<Bytes>)
    returns (e: Ended, staged: bool)
    requires Inv(H, store.View(), c, before) && !store.active && !store.open
    modifies store
    ensures Inv(H, store.View(), c, before) && !store.active && !store.open
    ensures e.Completed? ==> e.sent == |c| - e.acked
    ensures staged ==> e.Completed? && Exact(H, store.staged, c, before)
    ensures staged && e.acked < |c| ==> store.staged == Some(c)
  {
    hide Inv, Complete, T.BeginFile, T.WriteChunk, T.EndFile;
    var io: Io := *;
    BeginKeeps(H, store.View(), c, before, io);
    var size := if chunkSize <= 0 then CHUNK_SIZE else chunkSize;
    var ack := store.BeginFile(H, BeginOf(H, c), io);
    var dropped: bool := *;
    if ack.No? || dropped {
      Drop(H, c, store, before);
      return Broken, false;
    }
    if !store.active {
      CompleteIsExact(H, c, store.View(), before);
      if * { return Broken, false; }
      return Completed(ack.value, 0), true;
    }
    var sent := 0;
    while store.off < |c|
      invariant Inv(H, store.View(), c, before) && store.active && store.open
      invariant ack.value <= store.off <= |c| && sent == store.off - ack.value
      decreases |c| - store.off
    {
      var n := ChunkRead(|c| - store.off, size);
      dropped := *;
      if n + CHUNK_OVERHEAD > MAX_USEFUL || dropped {
        Drop(H, c, store, before);
        return Broken, false;
      }
      io := *;
      ChunkKeeps(H, store.View(), c, before, n, io);
      var r := store.WriteChunk(store.off, c[store.off..store.off + n], io);
      if r.No? {
        store.Close();
        e := InFlight(|c|, ack.value);
        return e, false;
      }
      sent := sent + n;
    }
    if * {
      Drop(H, c, store, before);
      e := InFlight(|c|, ack.value);
      return e, false;
    }
    io := *;
    EndKeeps(H, store.View(), c, before, io);
    var done := store.EndFile(H, H(c), io);
    store.Close();
    return Completed(ack.value, sent), done.Yes?;
  }

  /** The receiver gave up: the sender may have noticed, or have put the rest and the end on the wire already. */
  method InFlight(size: nat, acked: nat) returns (e: Ended)
    requires acked <= size
    ensures e.Completed? ==> e == Completed(acked, size - acked)
  {
    if * { return Broken; }
    return Completed(acked, size - acked);
  }

  /** A read of the sender's file: at least one byte, at most a buffer, never past the end. */
  method ChunkRead(left: nat, size: nat) returns (n: nat)
    requires left > 0 && size > 0
    ensures 0 < n <= left && n <= size
  {
    n := if left < size then left else size;
    if * { n := 1; }
  }

  /** The receiver loses the connection: persist what is open, then close; or the process stops first. */
  method Drop(H: Hash, c: Bytes, store: LocalStore, ghost before: Option<Bytes>)
    requires Inv(H, store.View(), c, before)
    modifies store
    ensures Inv(H, store.View(), c, before) && !store.active && !store.open
  {
    hide Inv;
    if * {
      var io: Io := *;
      PersistKeeps(H, store.View(), c, before, io);
      store.PersistActive(io);
    }
    PersistKeeps(H, store.View(), c, before, ALL_WELL);
    store.Close();
  }

  /** Try again and again: whenever the receiver first reports the file staged, the content is there. */
  method SendUntilComplete(H: Hash, c: Bytes, store: LocalStore, chunkSize: int, tries: nat)
    returns (e: Ended, staged: bool)
    requires Trusted(H, store.View().disk, c) && !store.active && !store.open
    modifies store
    ensures e.Completed? ==> e.sent == |c| - e.acked
    ensures staged ==> e.Completed? && Exact(H, store.staged, c, old(store.staged))
    ensures Trusted(H, store.View().disk, c) && StageOf(store.staged, c, old(store.staged))
  {
    hide Trusted;
    ghost var before := store.staged;
    e, staged := Broken, false;
    var left := tries;
    while left > 0 && !staged
      invariant Inv(H, store.View(), c, before) && !store.active && !store.open
      invariant e.Completed? ==> e.sent == |c| - e.acked
      invariant staged ==> e.Completed? && Exact(H, store.staged, c, before)
      decreases left
    {
      e, staged := SendFile(H, c, store, chunkSize, before);
      left := left - 1;
    }
  }
}
