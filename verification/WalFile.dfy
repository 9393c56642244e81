/** The log file object and its byte-level loops. */
module WalFile {
  import opened Values
  import opened WalCodec

  lemma LEAt(n: nat, w: nat, k: nat)
    requires k < w
    ensures LE(n, w)[k] == Shifted(n, k) % 256
    decreases w
  {
    if k > 0 { LEAt(n / 256, w - 1, k - 1); }
  }

  function Shifted(n: nat, k: nat): nat
    decreases k
  {
    if k == 0 then n else Shifted(n / 256, k - 1)
  }

  lemma ShiftedStep(n: nat, k: nat)
    ensures Shifted(n, k) / 256 == Shifted(n, k + 1)
    decreases k
  {
    if k > 0 { ShiftedStep(n / 256, k - 1); }
  }

  /** `binary.LittleEndian.PutUint32/64` into a buffer. */
  method PutLE(buf: array<byte>, at: nat, n: nat, w: nat)
    requires at + w <= buf.Length
    modifies buf
    ensures buf[at..at + w] == LE(n, w)
    ensures buf[..at] == old(buf[..at]) && buf[at + w..] == old(buf[at + w..])
  {
    var m := n;
    for k := 0 to w
      invariant m == Shifted(n, k)
      invariant forall j :: 0 <= j < k ==> buf[at + j] == LE(n, w)[j]
      invariant forall j :: 0 <= j < at || at + k <= j < buf.Length ==> buf[j] == old(buf[j])
    {
      buf[at + k] := m % 256;
      LEAt(n, w, k);
      ShiftedStep(n, k);
      m := m / 256;
    }
  }

  method CopyInto(buf: array<byte>, at: nat, src: seq<byte>)
    requires at + |src| <= buf.Length
    modifies buf
    ensures buf[at..at + |src|] == src
    ensures buf[..at] == old(buf[..at]) && buf[at + |src|..] == old(buf[at + |src|..])
  {
    for k := 0 to |src|
      invariant forall j :: 0 <= j < k ==> buf[at + j] == src[j]
      invariant forall j :: 0 <= j < at || at + k <= j < buf.Length ==> buf[j] == old(buf[j])
    {
      buf[at + k] := src[k];
    }
  }

  method PutHeader(buf: array<byte>, g: Library, r: Record)
    requires buf.Length >= 13
    modifies buf
    ensures buf[..13] == Header(g, r)
  {
    buf[0] := Tag(r);
    PutLE(buf, 1, r.txn, 8);
    assert buf[..9] == [Tag(r)] + LE(r.txn, 8);
    PutLE(buf, 9, |Payload(g, r)|, 4);
    assert buf[..13] == buf[..9] + buf[9..13];
  }

  /** `encodeRecord`: fills one buffer front to back. */
  method EncodeRecord(g: Library, r: Record) returns (buf: array<byte>)
    ensures fresh(buf) && buf[..] == Encode(g, r)
  {
    var payload := Payload(g, r);
    var n := 13 + |payload|;
    buf := new byte[n + 4];
    PutHeader(buf, g, r);
    CopyInto(buf, 13, payload);
    assert buf[..n] == Body(g, r) by { assert buf[..n] == buf[..13] + buf[13..n]; }
    PutLE(buf, n, g.crc(buf[..n]), 4);
    assert buf[..] == buf[..n] + buf[n..n + 4];
  }

  /** The loop over the file: read at the position, remember, move on; stop at the first failure. */
  method ReadLoop(rd: Reader, b: seq<byte>) returns (recs: seq<Record>, off: nat)
    ensures Scan(recs, off) == ReadWith(rd, b)
  {
    recs, off := [], 0;
    var unread := b;
    JoinLaws(ReadWith(rd, b), Scan([], 0), Scan([], 0));
    while true
      invariant ReadWith(rd, b) == Join(Scan(recs, off), ReadWith(rd, unread))
      decreases |unread|
    {
      match rd(unread)
      case None =>
        JoinLaws(Scan(recs, off), Scan([], 0), Scan([], 0));
        return;
      case Some((rec, size)) =>
        JoinLaws(Scan(recs, off), Scan([rec], size), ReadWith(rd, unread[size..]));
        recs, off := recs + [rec], off + size;
        unread := unread[size..];
    }
  }

  /** `ReadRecords`. */
  method ReadRecords(g: Library, b: seq<byte>) returns (recs: seq<Record>, off: nat)
    ensures Scan(recs, off) == ReadAll(g, b)
  {
    recs, off := ReadLoop(RecordReader(g), b);
  }

  /** What the operating system makes of an append: everything is written, only the first n bytes are,
      or the sync after the write fails. */
  datatype Io = Written | Cut(n: nat) | SyncFails

  /** What becomes of emptying the file: the sync or the truncation in front of it fails, the seek behind
      it does, or all goes well. */
  datatype EmptyingIo = Emptied | FlushFails | SeekFails

  /** A record cut short leaves the readable records as they were. */
  lemma TornTailIsIgnored(g: Library, file: seq<byte>, r: Record, n: nat)
    requires ReadAll(g, file).size == |file| && |Payload(g, r)| <= MAX_PAYLOAD && n < |Encode(g, r)|
    ensures ReadAll(g, file + Encode(g, r)[..n]) == ReadAll(g, file)
  {
    var found := ReadAll(g, file);
    RecordsAreLocal(g);
    TornRecordStops(g, r, n);
    ReadAfterTruncation(RecordReader(g), file, Encode(g, r)[..n]);
    assert file[..|file|] == file;
    JoinLaws(found, found, found);
  }

  class Wal {
    const lib: Library
    var file: seq<byte>
    var count: nat    // records counted since the file was opened or emptied
    var broken: bool  // a write has failed: the buffered writer refuses everything from then on

    ghost function Records(): seq<Record>
      reads this
    {
      ReadAll(lib, file).recs
    }

    /** Up to a failed write the whole file is readable; the counter is never ahead of the records. */
    ghost predicate Valid()
      reads this
    {
      && RoundTrips(lib)
      && (!broken ==> ReadAll(lib, file).size == |file|)
      && count <= |Records()|
    }

    constructor (lib: Library, file: seq<byte>, count: nat)
      ensures this.lib == lib && this.file == file && this.count == count && !broken
    {
      this.lib := lib;
      this.file := file;
      this.count := count;
      broken := false;
    }

    /** `OpenWAL`: whatever bytes are on disk, the readable prefix is kept and the rest cut off. */
    static method Open(lib: Library, bytes: seq<byte>) returns (w: Wal, recs: seq<Record>)
      requires RoundTrips(lib)
      ensures fresh(w) && w.Valid() && w.lib == lib && !w.broken && w.count == |recs|
      ensures recs == ReadAll(lib, bytes).recs && w.Records() == recs
      ensures w.file == bytes[..ReadAll(lib, bytes).size]
    {
      var off;
      recs, off := ReadRecords(lib, bytes);
      RecordsAreLocal(lib);
      RereadTruncated(RecordReader(lib), bytes);
      w := new Wal(lib, bytes[..off], |recs|);
    }

    /** `Append`. A record within the bound is readable afterwards if it was written in full, synced or
        not; otherwise the readable records are those from before. Only a full success is counted. */
    method Append(r: Record, durable: bool, io: Io) returns (seqNo: Option<nat>)
      requires Valid() && (io.Cut? ==> io.n < |Encode(lib, r)|)
      modifies this`file, this`count, this`broken
      ensures seqNo.Some? <==> !old(broken) && !io.Cut? && !(durable && io.SyncFails?)
      ensures count == (if seqNo.Some? then old(count) + 1 else old(count)) && (seqNo.Some? ==> seqNo.value == count)
      ensures broken == (old(broken) || io.Cut?)
      ensures file == old(file) +
        if old(broken) then [] else if io.Cut? then Encode(lib, r)[..io.n] else Encode(lib, r)
      ensures |Payload(lib, r)| <= MAX_PAYLOAD ==>
        Valid() && Records() == old(Records()) + if old(broken) || io.Cut? then [] else [r]
    {
      assert Records() + [] == Records() && file + [] == file;
      if broken { return None; }
      var buf := EncodeRecord(lib, r);
      if io.Cut? {
        if |Payload(lib, r)| <= MAX_PAYLOAD { TornTailIsIgnored(lib, file, r, io.n); }
        file := file + buf[..io.n];
        broken := true;
        return None;
      }
      if |Payload(lib, r)| <= MAX_PAYLOAD {
        TruncationIsStable(lib, file, r);
        assert file[..|file|] == file;
      }
      file := file + buf[..];
      if durable && io.SyncFails? { return None; }
      count := count + 1;
      return Some(count);
    }

    /** `Truncate`; false if an earlier write has failed or a step of it fails. A failing seek comes after
        the file has been emptied, and leaves the counter. */
    method Truncate(io: EmptyingIo) returns (ok: bool)
      requires Valid()
      modifies this`file, this`count
      ensures ok == (!broken && io.Emptied?) && (ok || broken || !io.SeekFails? ==> Valid())
      ensures file == (if !broken && (io.Emptied? || io.SeekFails?) then [] else old(file))
      ensures count == if ok then 0 else old(count)
    {
      if broken || io.FlushFails? { return false; }
      file := [];
      if io.SeekFails? { return false; }
      count := 0;
      return true;
    }
  }
}
