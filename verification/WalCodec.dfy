/** The write-ahead log file: record encoding, and reading back a possibly damaged file. */
module WalCodec {
  import opened Values
  import opened Schema

  type byte = b: int | 0 <= b < 256
  type uint32 = n: int | 0 <= n < 0x1_0000_0000
  type uint64 = n: int | 0 <= n < 0x1_0000_0000_0000_0000

  datatype SchemaChange = SchemaChange(create: bool, name: string, cols: seq<Column>)

  datatype Record =
    | Begin(txn: uint64)
    | Put(txn: uint64, table: uint32, id: int64, row: Row)
    | Delete(txn: uint64, table: uint32, id: int64)
    | Commit(txn: uint64)
    | Create(txn: uint64, ddl: SchemaChange)
    | Drop(txn: uint64, ddl: SchemaChange)

  const MAX_PAYLOAD: nat := 0x400_0000  // 64 MiB

  // --- library functions, taken as arbitrary ------------------------------------------

  /** gob and CRC-32. Decoding inverts encoding; on other input it may answer anything, and the
      checksum is any function of the bytes. */
  datatype Library = Library(
    encRow: Row -> seq<byte>, decRow: seq<byte> -> Option<Row>,
    encDdl: SchemaChange -> seq<byte>, decDdl: seq<byte> -> Option<SchemaChange>,
    crc: seq<byte> -> uint32)

  ghost predicate RoundTrips(g: Library) {
    && (forall r :: g.decRow(g.encRow(r)) == Some(r))
    && (forall d :: g.decDdl(g.encDdl(d)) == Some(d))
  }

  // --- little-endian integers --------------------------------------------------------------

  function Pow256(w: nat): nat { if w == 0 then 1 else 256 * Pow256(w - 1) }

  /** The low w bytes of n, least significant first. */
  function LE(n: nat, w: nat): (s: seq<byte>)
    ensures |s| == w
  {
    if w == 0 then [] else [n % 256] + LE(n / 256, w - 1)
  }

  function LEValue(s: seq<byte>): nat {
    if s == [] then 0 else s[0] + 256 * LEValue(s[1..])
  }

  lemma {:induction false} LERoundTrip(n: nat, w: nat)
    ensures n < Pow256(w) ==> LEValue(LE(n, w)) == n
    ensures LEValue(LE(n, w)) < Pow256(w)
  {
    if w > 0 {
      assert LE(n, w)[1..] == LE(n / 256, w - 1);
      LERoundTrip(n / 256, w - 1);
    }
  }

  lemma Widths()
    ensures Pow256(1) == 0x100 && Pow256(2) == 0x1_0000
    ensures Pow256(4) == 0x1_0000_0000 && Pow256(8) == 0x1_0000_0000_0000_0000
  {
    assert Pow256(4) == 256 * (256 * Pow256(2));
    assert Pow256(6) == 256 * (256 * Pow256(4));
    assert Pow256(8) == 256 * (256 * Pow256(6));
  }

  lemma Int32RoundTrip(n: uint32)
    ensures LEValue(LE(n, 4)) == n
  {
    Widths();
    LERoundTrip(n, 4);
  }

  lemma Int64RoundTrip(n: uint64)
    ensures LEValue(LE(n, 8)) == n
  {
    Widths();
    LERoundTrip(n, 8);
  }

  lemma LEBound(s: seq<byte>)
    ensures LEValue(s) < Pow256(|s|)
  {
    if s != [] { LEBound(s[1..]); }
  }

  function Unsigned(i: int64): uint64 { if i >= 0 then i else i + TWO_64 }

  function Signed(n: uint64): int64 { if n <= MAX_INT64 then n else n - TWO_64 }

  // --- one record ------------------------------------------------------------------------------

  function Tag(r: Record): byte {
    match r
    case Begin(_) => 1
    case Put(_, _, _, _) => 2
    case Delete(_, _, _) => 3
    case Commit(_) => 4
    case Create(_, _) => 5
    case Drop(_, _) => 6
  }

  function Payload(g: Library, r: Record): seq<byte> {
    match r
    case Begin(_) => []
    case Commit(_) => []
    case Put(_, table, id, row) => LE(table, 4) + LE(Unsigned(id), 8) + g.encRow(row)
    case Delete(_, table, id) => LE(table, 4) + LE(Unsigned(id), 8)
    case Create(_, ddl) => g.encDdl(ddl)
    case Drop(_, ddl) => g.encDdl(ddl)
  }

  /** Type, transaction and payload length: the first 13 bytes. The length is cut to 32 bits. */
  function Header(g: Library, r: Record): (h: seq<byte>)
    ensures |h| == 13
  {
    [Tag(r)] + LE(r.txn, 8) + LE(|Payload(g, r)|, 4)
  }

  function Body(g: Library, r: Record): seq<byte> { Header(g, r) + Payload(g, r) }

  function Encode(g: Library, r: Record): (s: seq<byte>)
    ensures |s| == 17 + |Payload(g, r)|
  {
    Body(g, r) + LE(g.crc(Body(g, r)), 4)
  }

  /** `decodeRecord`: None for a malformed record. */
  function Decode(g: Library, tag: byte, txn: uint64, payload: seq<byte>): Option<Record> {
    if tag == 1 then Some(Begin(txn))
    else if tag == 4 then Some(Commit(txn))
    else if tag == 2 || tag == 3 then
      if |payload| < 12 then None
      else
        LEBound(payload[..4]); LEBound(payload[4..12]); Widths();
        var table, id := LEValue(payload[..4]), Signed(LEValue(payload[4..12]));
        if tag == 3 then Some(Delete(txn, table, id))
        else match g.decRow(payload[12..])
          case Some(row) => Some(Put(txn, table, id, row))
          case None => None
    else if tag == 5 || tag == 6 then
      match g.decDdl(payload)
      case Some(ddl) => Some(if tag == 5 then Create(txn, ddl) else Drop(txn, ddl))
      case None => None
    else None
  }

  lemma DecodeEncode(g: Library, r: Record)
    requires RoundTrips(g)
    ensures Decode(g, Tag(r), r.txn, Payload(g, r)) == Some(r)
  {
    if r.Put? || r.Delete? {
      var p := Payload(g, r);
      assert p[..4] == LE(r.table, 4) && p[4..12] == LE(Unsigned(r.id), 8);
      Int32RoundTrip(r.table);
      Int64RoundTrip(Unsigned(r.id));
      if r.Put? { assert p[12..] == g.encRow(r.row); }
    }
  }

  // --- reading ----------------------------------------------------------------------------------

  /** One turn of the reading loop: the record at the front and its size, or None where reading stops. */
  function ReadOne(g: Library, b: seq<byte>): (r: Option<(Record, nat)>)
    ensures r.Some? ==> 17 <= r.value.1 <= |b|
  {
    if |b| < 13 then None
    else
      var plen := LEValue(b[9..13]);
      if plen > MAX_PAYLOAD || |b| < 17 + plen then None
      else if g.crc(b[..13 + plen]) != LEValue(b[13 + plen..17 + plen]) then None
      else
        LEBound(b[1..9]); Widths();
        match Decode(g, b[0], LEValue(b[1..9]), b[13..13 + plen])
        case Some(rec) => Some((rec, 17 + plen))
        case None => None
  }

  ghost predicate Advances(rd: seq<byte> -> Option<(Record, nat)>) {
    forall b :: rd(b).Some? ==> 0 < rd(b).value.1 <= |b|
  }

  type Reader = rd: seq<byte> -> Option<(Record, nat)> | Advances(rd)
    witness ((b: seq<byte>) => None)

  function RecordReader(g: Library): Reader { (b: seq<byte>) => ReadOne(g, b) }

  /** The records found and the length they occupy. */
  datatype Scan = Scan(recs: seq<Record>, size: nat)

  /** One scan behind another. */
  function Join(a: Scan, b: Scan): Scan { Scan(a.recs + b.recs, a.size + b.size) }

  /** All records up to the first torn or corrupt one. */
  function ReadWith(rd: Reader, b: seq<byte>): (r: Scan)
    ensures r.size <= |b|
    decreases |b|
  {
    match rd(b)
    case None => Scan([], 0)
    case Some((rec, n)) => Join(Scan([rec], n), ReadWith(rd, b[n..]))
  }

  /** `ReadRecords` on the bytes of a file. */
  function ReadAll(g: Library, b: seq<byte>): Scan { ReadWith(RecordReader(g), b) }

  lemma JoinLaws(a: Scan, b: Scan, c: Scan)
    ensures Join(Join(a, b), c) == Join(a, Join(b, c))
    ensures Join(Scan([], 0), a) == a && Join(a, Scan([], 0)) == a
  {
    assert (a.recs + b.recs) + c.recs == a.recs + (b.recs + c.recs);
    assert [] + a.recs == a.recs && a.recs + [] == a.recs;
  }

  lemma JoinFirst(rs: seq<Record>, a: nat, b: nat)
    requires rs != []
    ensures Join(Scan([rs[0]], a), Scan(rs[1..], b)) == Scan(rs, a + b)
  {
    assert rs == [rs[0]] + rs[1..];
  }

  /** Reading a sequence whose first record is known. */
  lemma ReadCons(rd: Reader, e: seq<byte>, rest: seq<byte>, rec: Record)
    requires rd(e + rest) == Some((rec, |e|))
    ensures ReadWith(rd, e + rest) == Join(Scan([rec], |e|), ReadWith(rd, rest))
  {
    assert (e + rest)[|e|..] == rest;
  }

  /** What a reader finds does not depend on what follows it. */
  ghost predicate Local(rd: Reader) {
    forall b, tail :: rd(b).Some? ==> rd(b[..rd(b).value.1] + tail) == rd(b)
  }

  /** Arbitrary bytes cut to their valid length, then anything: the old records, then the new. */
  lemma {:induction false} ReadAfterTruncation(rd: Reader, b: seq<byte>, tail: seq<byte>)
    requires Local(rd)
    ensures ReadWith(rd, b[..ReadWith(rd, b).size] + tail) == Join(ReadWith(rd, b), ReadWith(rd, tail))
    decreases |b|
  {
    var old_ := ReadWith(rd, b);
    match rd(b)
    case None =>
      assert b[..old_.size] + tail == tail;
      JoinLaws(ReadWith(rd, tail), old_, old_);
    case Some((rec, k)) =>
      var rest := ReadWith(rd, b[k..]);
      var c := b[k..][..rest.size] + tail;
      assert b[..old_.size] + tail == b[..k] + c;
      ReadCons(rd, b[..k], c, rec);
      ReadAfterTruncation(rd, b[k..], tail);
      JoinLaws(Scan([rec], k), rest, ReadWith(rd, tail));
  }

  lemma HeaderFields(g: Library, r: Record, b: seq<byte>)
    requires |b| >= 13 && b[..13] == Header(g, r)
    ensures b[0] == Tag(r) && LEValue(b[1..9]) == r.txn && b[9..13] == LE(|Payload(g, r)|, 4)
  {
    var h := Header(g, r);
    assert b[0] == b[..13][0] && b[1..9] == b[..13][1..9] && b[9..13] == b[..13][9..13];
    assert h[1..9] == LE(r.txn, 8) && h[9..13] == LE(|Payload(g, r)|, 4);
    Int64RoundTrip(r.txn);
  }

  /** A record followed by anything reads back as itself if and only if its payload is within the
      bound, which the writer does not check. */
  lemma ReadEncodedIff(g: Library, r: Record, tail: seq<byte>)
    requires RoundTrips(g)
    ensures ReadOne(g, Encode(g, r) + tail) == Some((r, |Encode(g, r)|)) <==>
            |Payload(g, r)| <= MAX_PAYLOAD
  {
    var p, e := Payload(g, r), Encode(g, r);
    var b := e + tail;
    assert b[..13] == Header(g, r);
    HeaderFields(g, r, b);
    if |p| <= MAX_PAYLOAD {
      Int32RoundTrip(|p|);
      assert b[..13 + |p|] == Body(g, r);
      assert b[13..13 + |p|] == p;
      assert b[13 + |p|..17 + |p|] == LE(g.crc(Body(g, r)), 4);
      Int32RoundTrip(g.crc(Body(g, r)));
      DecodeEncode(g, r);
    }
  }

  /** A record cut short anywhere stops the reader. */
  lemma TornRecordStops(g: Library, r: Record, n: nat)
    requires |Payload(g, r)| <= MAX_PAYLOAD && n < |Encode(g, r)|
    ensures ReadOne(g, Encode(g, r)[..n]) == None
  {
    var b := Encode(g, r)[..n];
    if n >= 13 {
      assert b[..13] == Header(g, r);
      HeaderFields(g, r, b);
      Int32RoundTrip(|Payload(g, r)|);
    }
  }

  /** What was read does not depend on what follows it. */
  lemma ReadOneIsLocal(g: Library, b: seq<byte>, tail: seq<byte>)
    requires ReadOne(g, b).Some?
    ensures ReadOne(g, b[..ReadOne(g, b).value.1] + tail) == ReadOne(g, b)
  {
    var n := ReadOne(g, b).value.1;
    var c := b[..n] + tail;
    assert c[9..13] == b[9..13] && c[1..9] == b[1..9] && c[0] == b[0];
    assert c[..n - 4] == b[..n - 4] && c[n - 4..n] == b[n - 4..n] && c[13..n - 4] == b[13..n - 4];
  }

  lemma RecordsAreLocal(g: Library)
    ensures Local(RecordReader(g))
  {
    var rd := RecordReader(g);
    forall b, tail | rd(b).Some? ensures rd(b[..rd(b).value.1] + tail) == rd(b) {
      ReadOneIsLocal(g, b, tail);
    }
  }

  lemma ReadEncodedThen(g: Library, r: Record, rest: seq<byte>)
    requires RoundTrips(g) && |Payload(g, r)| <= MAX_PAYLOAD
    ensures ReadAll(g, Encode(g, r) + rest) == Join(Scan([r], |Encode(g, r)|), ReadAll(g, rest))
  {
    ReadEncodedIff(g, r, rest);
    ReadCons(RecordReader(g), Encode(g, r), rest, r);
  }

  function Encoder(g: Library): Record -> seq<byte> { (r: Record) => Encode(g, r) }

  function EncodeWith(enc: Record -> seq<byte>, rs: seq<Record>): seq<byte> {
    if rs == [] then [] else enc(rs[0]) + EncodeWith(enc, rs[1..])
  }

  function EncodeAll(g: Library, rs: seq<Record>): seq<byte> { EncodeWith(Encoder(g), rs) }

  ghost predicate Readable(g: Library, rs: seq<Record>) {
    forall r :: r in rs ==> |Payload(g, r)| <= MAX_PAYLOAD
  }

  /** `rd` reads back each record of rs as `enc` wrote it, whatever follows. */
  ghost predicate ReadsBack(rd: Reader, enc: Record -> seq<byte>, rs: seq<Record>) {
    forall r, rest :: r in rs ==> rd(enc(r) + rest) == Some((r, |enc(r)|))
  }

  lemma {:induction false} ReadAllThen(rd: Reader, enc: Record -> seq<byte>, rs: seq<Record>, tail: seq<byte>)
    requires ReadsBack(rd, enc, rs)
    ensures ReadWith(rd, EncodeWith(enc, rs) + tail) ==
            Join(Scan(rs, |EncodeWith(enc, rs)|), ReadWith(rd, tail))
    decreases |rs|
  {
    var more := ReadWith(rd, tail);
    if rs == [] {
      assert [] + tail == tail;
      JoinLaws(more, more, more);
    } else {
      var e, rest := enc(rs[0]), EncodeWith(enc, rs[1..]);
      assert (e + rest) + tail == e + (rest + tail);
      ReadAllThen(rd, enc, rs[1..], tail);
      ReadCons(rd, e, rest + tail, rs[0]);
      JoinLaws(Scan([rs[0]], |e|), Scan(rs[1..], |rest|), more);
      JoinFirst(rs, |e|, |rest|);
    }
  }

  lemma EncodedReadsBack(g: Library, rs: seq<Record>)
    requires RoundTrips(g) && Readable(g, rs)
    ensures ReadsBack(RecordReader(g), Encoder(g), rs)
  {
    forall r, rest | r in rs
      ensures RecordReader(g)(Encoder(g)(r) + rest) == Some((r, |Encoder(g)(r)|))
    {
      ReadEncodedIff(g, r, rest);
    }
  }

  /** A log of complete records followed by a torn one reads back as exactly the complete records. */
  lemma ReadTornLog(g: Library, rs: seq<Record>, last: Record, n: nat)
    requires RoundTrips(g) && Readable(g, rs) && |Payload(g, last)| <= MAX_PAYLOAD
    requires n < |Encode(g, last)|
    ensures ReadAll(g, EncodeAll(g, rs) + Encode(g, last)[..n]) == Scan(rs, |EncodeAll(g, rs)|)
  {
    TornRecordStops(g, last, n);
    EncodedReadsBack(g, rs);
    ReadAllThen(RecordReader(g), Encoder(g), rs, Encode(g, last)[..n]);
    var s := Scan(rs, |EncodeAll(g, rs)|);
    JoinLaws(s, s, s);
  }

  /** A part of a record reads as nothing. */
  ghost predicate Tears(rd: Reader, enc: Record -> seq<byte>, rs: seq<Record>) {
    forall r, n: nat :: r in rs && n < |enc(r)| ==> rd(enc(r)[..n]).None?
  }

  lemma EncodedHead(enc: Record -> seq<byte>, rs: seq<Record>, k: nat)
    requires 0 < k <= |rs|
    ensures EncodeWith(enc, rs[..k]) == enc(rs[0]) + EncodeWith(enc, rs[1..][..k - 1])
  {
    assert rs[..k][1..] == rs[1..][..k - 1];
  }

  lemma CutInFirst(rd: Reader, enc: Record -> seq<byte>, rs: seq<Record>, n: nat)
    requires Tears(rd, enc, rs) && rs != [] && n < |enc(rs[0])|
    ensures ReadWith(rd, EncodeWith(enc, rs)[..n]) == Scan([], 0)
  {
    assert rs[0] in rs && EncodeWith(enc, rs)[..n] == enc(rs[0])[..n];
  }

  lemma CutBehindFirst(rd: Reader, enc: Record -> seq<byte>, rs: seq<Record>, n: nat, k: nat)
    requires ReadsBack(rd, enc, rs) && rs != [] && |enc(rs[0])| <= n <= |EncodeWith(enc, rs)| && k < |rs|
    requires ReadWith(rd, EncodeWith(enc, rs[1..])[..n - |enc(rs[0])|]) ==
             Scan(rs[1..][..k], |EncodeWith(enc, rs[1..][..k])|)
    ensures ReadWith(rd, EncodeWith(enc, rs)[..n]) == Scan(rs[..k + 1], |EncodeWith(enc, rs[..k + 1])|)
  {
    var e, rest := enc(rs[0]), EncodeWith(enc, rs[1..])[..n - |enc(rs[0])|];
    assert rs[0] in rs && EncodeWith(enc, rs)[..n] == e + rest;
    ReadCons(rd, e, rest, rs[0]);
    EncodedHead(enc, rs, k + 1);
    assert rs[..k + 1][0] == rs[0] && rs[..k + 1][1..] == rs[1..][..k];
    JoinFirst(rs[..k + 1], |e|, |EncodeWith(enc, rs[1..][..k])|);
  }

  lemma {:induction false} ReadCutWith(rd: Reader, enc: Record -> seq<byte>, rs: seq<Record>, n: nat, m: nat)
    returns (k: nat)
    requires ReadsBack(rd, enc, rs) && Tears(rd, enc, rs) && rd([]).None?
    requires n <= |EncodeWith(enc, rs)| && m <= |rs| && |EncodeWith(enc, rs[..m])| <= n
    ensures m <= k <= |rs|
    ensures ReadWith(rd, EncodeWith(enc, rs)[..n]) == Scan(rs[..k], |EncodeWith(enc, rs[..k])|)
    ensures |EncodeWith(enc, rs[..k])| <= n && (k < |rs| ==> n < |EncodeWith(enc, rs[..k + 1])|)
    decreases |rs|
  {
    if rs == [] {
      k := 0;
    } else {
      if m > 0 { EncodedHead(enc, rs, m); }
      EncodedHead(enc, rs, 1);
      if n < |enc(rs[0])| {
        k := 0;
        CutInFirst(rd, enc, rs, n);
      } else {
        k := ReadCutWith(rd, enc, rs[1..], n - |enc(rs[0])|, if m == 0 then 0 else m - 1);
        CutBehindFirst(rd, enc, rs, n, k);
        k := k + 1;
        EncodedHead(enc, rs, k);
        if k < |rs| { EncodedHead(enc, rs, k + 1); }
      }
    }
  }

  lemma EncodedTears(g: Library, rs: seq<Record>)
    requires Readable(g, rs)
    ensures Tears(RecordReader(g), Encoder(g), rs)
  {
    forall r, n: nat | r in rs && n < |Encoder(g)(r)| ensures RecordReader(g)(Encoder(g)(r)[..n]).None? {
      TornRecordStops(g, r, n);
    }
  }

  lemma NothingReadsAsNothing(g: Library)
    ensures RecordReader(g)([]).None?
  {
  }

  /** A log cut at any byte reads back as its first k records, those that lie in front of the cut as a
      whole; so a cut behind the first m records leaves at least these. */
  lemma ReadCutLog(g: Library, rs: seq<Record>, n: nat, m: nat) returns (k: nat)
    requires RoundTrips(g) && Readable(g, rs) && n <= |EncodeAll(g, rs)|
    requires m <= |rs| && |EncodeAll(g, rs[..m])| <= n
    ensures m <= k <= |rs| && ReadAll(g, EncodeAll(g, rs)[..n]) == Scan(rs[..k], |EncodeAll(g, rs[..k])|)
    ensures |EncodeAll(g, rs[..k])| <= n && (k < |rs| ==> n < |EncodeAll(g, rs[..k + 1])|)
  {
    EncodedReadsBack(g, rs);
    EncodedTears(g, rs);
    NothingReadsAsNothing(g);
    k := ReadCutWith(RecordReader(g), Encoder(g), rs, n, m);
  }

  lemma RereadTruncated(rd: Reader, b: seq<byte>)
    requires Local(rd)
    ensures ReadWith(rd, b[..ReadWith(rd, b).size]) == ReadWith(rd, b)
  {
    var found := ReadWith(rd, b);
    assert rd([]).None?;
    ReadAfterTruncation(rd, b, []);
    assert b[..found.size] + [] == b[..found.size];
    JoinLaws(found, found, found);
  }

  /** For arbitrary file bytes: reading again after truncation to the valid length gives the same
      records and length, and an appended record then reads back behind them. */
  lemma TruncationIsStable(g: Library, b: seq<byte>, r: Record)
    requires RoundTrips(g) && |Payload(g, r)| <= MAX_PAYLOAD
    ensures
      var found := ReadAll(g, b);
      && ReadAll(g, b[..found.size]) == found
      && ReadAll(g, b[..found.size] + Encode(g, r)) == Join(found, Scan([r], |Encode(g, r)|))
  {
    RecordsAreLocal(g);
    RereadTruncated(RecordReader(g), b);
    ReadAfterTruncation(RecordReader(g), b, Encode(g, r));
    OneRecordFile(g, r);
  }

  lemma OneRecordFile(g: Library, r: Record)
    requires RoundTrips(g) && |Payload(g, r)| <= MAX_PAYLOAD
    ensures ReadAll(g, Encode(g, r)) == Scan([r], |Encode(g, r)|)
  {
    var one := Scan([r], |Encode(g, r)|);
    ReadEncodedThen(g, r, []);
    assert Encode(g, r) + [] == Encode(g, r);
    JoinLaws(one, one, one);
  }

  /** A record over the bound (and below 4 GiB) hides itself and everything logged after it. */
  lemma OversizedRecordHidesTheRest(g: Library, b: seq<byte>, r: Record, after: seq<byte>)
    requires MAX_PAYLOAD < |Payload(g, r)| < 0x1_0000_0000
    ensures ReadAll(g, b[..ReadAll(g, b).size] + (Encode(g, r) + after)) == ReadAll(g, b)
  {
    var c := Encode(g, r) + after;
    assert c[..13] == Header(g, r);
    HeaderFields(g, r, c);
    Int32RoundTrip(|Payload(g, r)|);
    RecordsAreLocal(g);
    ReadAfterTruncation(RecordReader(g), b, c);
    JoinLaws(ReadAll(g, b), ReadAll(g, b), ReadAll(g, b));
  }
}
