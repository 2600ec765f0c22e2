/**
 Writing and loading a snapshot (lib/persist/snapshot.go): a header, one checksummed
 segment per non-empty (db, shard), and a trailing checksum of the whole file.  The
 checksum is any function into 64 bits, and compression any pair of functions of which
 the second undoes the first.
 */
module Snapshot {
  import opened Basics
  import opened Decimal
  import opened SetEncoding
  import opened Commands
  import opened Resp
  import opened AofRewrite
  import opened SnapshotFormat

  datatype Codec = Codec(crc: string -> nat, compress: string -> string, decompress: string -> string)

  ghost predicate GoodCodec(c: Codec) {
    && (forall x :: c.crc(x) < TWO64)
    && (forall x :: c.decompress(c.compress(x)) == x)
  }

  /** The live entries of one DB on one shard, as the dump walks over them. */
  datatype Seg = Seg(db: nat, shard: nat, ds: seq<Dumped>)

  const MAGIC: string := "ULTIMA01"
  const VERSION := 1

  // -------------------------------------------------------------------------- writing

  predicate AllSmall(ds: seq<Dumped>) {
    forall i :: 0 <= i < |ds| ==> Small(ds[i])
  }

  function Payload(ds: seq<Dumped>): string
    requires AllSmall(ds)
  {
    if ds == [] then [] else EntryBytes(ds[0]) + Payload(ds[1..])
  }

  function Packed(c: Codec, zip: bool, payload: string): string {
    if zip then c.compress(payload) else payload
  }

  function SegHead(db: nat, shard: nat, entries: nat, len: nat, crc: nat): (h: string)
    ensures |h| == 24
  {
    U32(db) + (U32(shard) + (U32(entries) + (U32(len) + U64(crc))))
  }

  function SegBytes(c: Codec, zip: bool, g: Seg): string
    requires AllSmall(g.ds)
  {
    var p := Payload(g.ds);
    var body := Packed(c, zip, p);
    SegHead(g.db, g.shard, |g.ds|, |body|, c.crc(p)) + body
  }

  predicate SegsSmall(gs: seq<Seg>) {
    forall i :: 0 <= i < |gs| ==> AllSmall(gs[i].ds)
  }

  function SegsBytes(c: Codec, zip: bool, gs: seq<Seg>): string
    requires SegsSmall(gs)
  {
    if gs == [] then [] else SegBytes(c, zip, gs[0]) + SegsBytes(c, zip, gs[1..])
  }

  function FileHead(shards: nat, dbs: nat, savedAt: int, zip: bool): (h: string)
    requires IsInt64(savedAt)
    ensures |h| == 32
  {
    MAGIC + (U32(VERSION) + (U32(shards) + (U32(dbs) + (U64(Unsigned(savedAt)) + U32(if zip then 1 else 0)))))
  }

  function FileBytes(c: Codec, shards: nat, dbs: nat, savedAt: int, zip: bool, gs: seq<Seg>): string
    requires IsInt64(savedAt) && SegsSmall(gs)
  {
    var body := FileHead(shards, dbs, savedAt, zip) + SegsBytes(c, zip, gs);
    body + U64(c.crc(body))
  }

  /** What the dump of every (db, shard) found, DB by DB: walks[db][shard]. */
  function Segments(walks: seq<seq<seq<Dumped>>>, db: nat): seq<Seg>
    requires db <= |walks|
    decreases |walks| - db
  {
    if db == |walks| then [] else SegmentsOf(walks[db], db, 0) + Segments(walks, db + 1)
  }

  /** The non-empty segments of one DB, from shard sh on. */
  function SegmentsOf(row: seq<seq<Dumped>>, db: nat, sh: nat): seq<Seg>
    requires sh <= |row|
    decreases |row| - sh
  {
    if sh == |row| then []
    else (if row[sh] == [] then [] else [Seg(db, sh, row[sh])]) + SegmentsOf(row, db, sh + 1)
  }

  // -------------------------------------------------------------------------- loading

  datatype LoadError = BadMagic | BadVersion | Truncated | BadCrc | OutOfRange | BadEntry

  /** Where the load puts an entry: the shard named by its segment. */
  datatype Place = Place(shard: nat, slot: Slot)

  type Stored = map<Place, Item>

  function LoadEntries(p: string, cur: Cursor, n: nat, db: nat, sh: nat, now: int, acc: Stored): Result<Stored,
                       LoadError>
    requires cur.off <= |p|
    decreases n
  {
    if n == 0 then Ok(acc)
    else
      var (key, item, next) := Decoded(p, cur);
      if next.err.Some? then Fail(BadEntry)
      else
        var acc' := if Alive(item.value, now) then acc[Place(sh, Slot(db, key)) := item.value] else acc;
        LoadEntries(p, next, n - 1, db, sh, now, acc')
  }

  datatype Preamble = Preamble(db: nat, shard: nat, entries: nat, len: nat, crc: nat, next: Cursor)

  function GetPreamble(raw: string, d: Cursor): (r: Preamble)
    requires d.off <= |raw|
    ensures d.off <= r.next.off <= |raw|
    ensures r.next.err.None? ==> r.next.off == d.off + 24
  {
    var (db, d1) := GetU32(raw, d);
    var (sh, d2) := GetU32(raw, d1);
    var (n, d3) := GetU32(raw, d2);
    var (len, d4) := GetU32(raw, d3);
    var (crc, d5) := GetU64(raw, d4);
    Preamble(db, sh, n, len, crc, d5)
  }

  datatype Engine = Engine(shards: nat, dbs: nat)

  /** The segments from offset d on; `end` is where the trailer starts. */
  function LoadSegs(c: Codec, zip: bool, raw: string, end: nat, d: Cursor, eng: Engine, now: int, acc: Stored)
    : Result<Stored, LoadError>
    requires d.off <= |raw|
    decreases |raw| - d.off
  {
    if d.off >= end then Ok(acc)
    else
      var h := GetPreamble(raw, d);
      var (body, next) := Take(raw, h.next, h.len);
      if h.next.err.Some? || next.err.Some? then Fail(Truncated)
      else
        var p := if zip then c.decompress(body) else body;
        if c.crc(p) != h.crc then Fail(BadCrc)
        else if h.shard >= eng.shards || h.db >= eng.dbs then Fail(OutOfRange)
        else
          var r := LoadEntries(p, Reading(0), h.entries, h.db, h.shard, now, acc);
          if r.Fail? then r else LoadSegs(c, zip, raw, end, next, eng, now, r.value)
  }

  /** `LoadSnapshot`, into an engine that holds acc. */
  function Load(c: Codec, raw: string, eng: Engine, now: int, acc: Stored): Result<Stored, LoadError> {
    var (magic, d0) := Take(raw, Reading(0), |MAGIC|);
    if magic != MAGIC then Fail(BadMagic)
    else
      var (version, d1) := GetU32(raw, d0);
      if version != VERSION then Fail(BadVersion)
      else
        var (_, d2) := GetU32(raw, d1);
        var (_, d3) := GetU32(raw, d2);
        var (_, d4) := GetU64(raw, d3);
        var (flags, d5) := GetU32(raw, d4);
        if d5.err.Some? then Fail(Truncated)
        else
          var end := |raw| - 8;
          if c.crc(raw[..end]) != Denoted(raw[end..]) then Fail(BadCrc)
          else LoadSegs(c, flags % 2 == 1, raw, end, Reading(32), eng, now, acc)
  }

  // --------------------------------------------------------------------- round trips

  /** The entries that are not overdue, stored one after the other. */
  function PlaceAll(ds: seq<Dumped>, db: nat, sh: nat, now: int, acc: Stored): Stored
    decreases |ds|
  {
    if ds == [] then acc
    else
      var d := ds[0];
      var acc' := if Alive(d.item, now) then acc[Place(sh, Slot(db, d.slot.key)) := Reloaded(d)] else acc;
      PlaceAll(ds[1..], db, sh, now, acc')
  }

  function PlaceSegs(gs: seq<Seg>, now: int, acc: Stored): Stored
    decreases |gs|
  {
    if gs == [] then acc else PlaceSegs(gs[1..], now, PlaceAll(gs[0].ds, gs[0].db, gs[0].shard, now, acc))
  }

  lemma SameDeadline(d: Dumped, now: int)
    ensures Alive(Reloaded(d), now) == Alive(d.item, now)
  {
  }

  lemma {:induction false} LoadsEntries(p: string, i: nat, ds: seq<Dumped>, db: nat, sh: nat, now: int, acc: Stored)
    requires AllSmall(ds) && StandsAt(p, i, Payload(ds))
    ensures i <= |p| && LoadEntries(p, Reading(i), |ds|, db, sh, now, acc) == Ok(PlaceAll(ds, db, sh, now, acc))
    decreases |ds|
  {
    hide StandsAt, EntryBytes, Decoded, Small, Alive, Reloaded;
    StandsSlice(p, i, Payload(ds));
    if ds != [] {
      var d, rest := ds[0], ds[1..];
      assert AllSmall(rest) by { assert forall k :: 0 <= k < |rest| ==> rest[k] == ds[k + 1]; }
      StandsSplit(p, i, EntryBytes(d), Payload(rest));
      EntryRoundTrip(p, i, d);
      SameDeadline(d, now);
      var acc' := if Alive(d.item, now) then acc[Place(sh, Slot(db, d.slot.key)) := Reloaded(d)] else acc;
      LoadsEntries(p, i + |EntryBytes(d)|, rest, db, sh, now, acc');
    }
  }

  lemma GetsPreamble(raw: string, i: nat, db: nat, sh: nat, n: nat, len: nat, crc: nat)
    requires StandsAt(raw, i, SegHead(db, sh, n, len, crc))
    requires db < TWO32 && sh < TWO32 && n < TWO32 && len < TWO32 && crc < TWO64
    ensures i + 24 <= |raw|
    ensures GetPreamble(raw, Reading(i)) == Preamble(db, sh, n, len, crc, Reading(i + 24))
  {
    hide StandsAt, U32, U64, GetU32, GetU64;
    StandsSlice(raw, i, SegHead(db, sh, n, len, crc));
    Width8(db); Width8(sh); Width8(n); Width8(len);
    StandsSplit(raw, i, U32(db), U32(sh) + (U32(n) + (U32(len) + U64(crc))));
    StandsSplit(raw, i + 4, U32(sh), U32(n) + (U32(len) + U64(crc)));
    StandsSplit(raw, i + 8, U32(n), U32(len) + U64(crc));
    StandsSplit(raw, i + 12, U32(len), U64(crc));
    GetsU32(raw, i, db);
    GetsU32(raw, i + 4, sh);
    GetsU32(raw, i + 8, n);
    GetsU32(raw, i + 12, len);
    GetsU64(raw, i + 16, crc);
  }

  lemma GetsU64(b: string, i: nat, n: nat)
    requires StandsAt(b, i, U64(n)) && n < TWO64
    ensures i + 8 <= |b| && GetU64(b, Reading(i)) == (n, Reading(i + 8))
  {
    hide StandsAt, Take, LittleEndian, Denoted;
    Widths();
    NumberRoundTrip(n, 8);
    TakesWhatStands(b, i, U64(n));
  }

  /** A segment the engine can take back, with lengths below 2^32. */
  ghost predicate GoodSeg(c: Codec, zip: bool, g: Seg, eng: Engine) {
    && g.db < eng.dbs && g.shard < eng.shards && AllSmall(g.ds)
    && |g.ds| < TWO32 && |Packed(c, zip, Payload(g.ds))| < TWO32
  }

  ghost predicate GoodSegs(c: Codec, zip: bool, gs: seq<Seg>, eng: Engine) {
    && eng.dbs < TWO32 && eng.shards < TWO32
    && forall i :: 0 <= i < |gs| ==> GoodSeg(c, zip, gs[i], eng)
  }

  lemma OneSegment(c: Codec, zip: bool, raw: string, i: nat, g: Seg, eng: Engine)
    requires GoodCodec(c) && eng.dbs < TWO32 && eng.shards < TWO32 && GoodSeg(c, zip, g, eng)
    requires StandsAt(raw, i, SegBytes(c, zip, g))
    ensures var p := Payload(g.ds);
            var body := Packed(c, zip, p);
            && i + |SegBytes(c, zip, g)| <= |raw| && |SegBytes(c, zip, g)| == 24 + |body|
            && GetPreamble(raw, Reading(i)) == Preamble(g.db, g.shard, |g.ds|, |body|, c.crc(p), Reading(i + 24))
            && Take(raw, Reading(i + 24), |body|) == (body, Reading(i + 24 + |body|))
            && (if zip then c.decompress(body) else body) == p
  {
    hide StandsAt, SegHead, Payload, GetPreamble, Take, AllSmall;
    var p := Payload(g.ds);
    var body := Packed(c, zip, p);
    var h := SegHead(g.db, g.shard, |g.ds|, |body|, c.crc(p));
    StandsSlice(raw, i, SegBytes(c, zip, g));
    StandsSplit(raw, i, h, body);
    assert c.crc(p) < TWO64 && c.decompress(c.compress(p)) == p;
    GetsPreamble(raw, i, g.db, g.shard, |g.ds|, |body|, c.crc(p));
    TakesWhatStands(raw, i + 24, body);
  }

  lemma WholePayload(ds: seq<Dumped>, db: nat, sh: nat, now: int, acc: Stored)
    requires AllSmall(ds)
    ensures LoadEntries(Payload(ds), Reading(0), |ds|, db, sh, now, acc) == Ok(PlaceAll(ds, db, sh, now, acc))
  {
    hide Payload, AllSmall, LoadEntries, PlaceAll;
    var p := Payload(ds);
    assert p[0..|p|] == p;
    LoadsEntries(p, 0, ds, db, sh, now, acc);
  }

  lemma {:induction false} LoadsSegs(c: Codec, zip: bool, raw: string, i: nat, gs: seq<Seg>, eng: Engine, now: int,
                                     acc: Stored)
    requires GoodCodec(c) && SegsSmall(gs) && GoodSegs(c, zip, gs, eng)
    requires StandsAt(raw, i, SegsBytes(c, zip, gs))
    ensures var end := i + |SegsBytes(c, zip, gs)|;
            end <= |raw| && LoadSegs(c, zip, raw, end, Reading(i), eng, now, acc) == Ok(PlaceSegs(gs, now, acc))
    decreases |gs|
  {
    hide StandsAt, SegBytes, Payload, GetPreamble, Take, LoadEntries, PlaceAll, AllSmall, GoodCodec, Packed;
    StandsSlice(raw, i, SegsBytes(c, zip, gs));
    if gs != [] {
      var g, rest := gs[0], gs[1..];
      assert forall k :: 0 <= k < |rest| ==> rest[k] == gs[k + 1];
      assert SegsSmall(rest) && GoodSegs(c, zip, rest, eng);
      StandsSplit(raw, i, SegBytes(c, zip, g), SegsBytes(c, zip, rest));
      assert GoodSeg(c, zip, g, eng);
      OneSegment(c, zip, raw, i, g, eng);
      var acc' := PlaceAll(g.ds, g.db, g.shard, now, acc);
      WholePayload(g.ds, g.db, g.shard, now, acc);
      LoadsSegs(c, zip, raw, i + |SegBytes(c, zip, g)|, rest, eng, now, acc');
    }
  }

  lemma GetsFileHead(raw: string, shards: nat, dbs: nat, savedAt: int, zip: bool)
    requires IsInt64(savedAt) && shards < TWO32 && dbs < TWO32
    requires StandsAt(raw, 0, FileHead(shards, dbs, savedAt, zip))
    ensures |raw| >= 32 && Take(raw, Reading(0), |MAGIC|) == (MAGIC, Reading(8))
    ensures GetU32(raw, Reading(8)) == (VERSION, Reading(12))
    ensures GetU32(raw, Reading(12)).1 == Reading(16) && GetU32(raw, Reading(16)).1 == Reading(20)
    ensures GetU64(raw, Reading(20)).1 == Reading(28)
    ensures GetU32(raw, Reading(28)) == (if zip then 1 else 0, Reading(32))
  {
    hide StandsAt, U32, U64, GetU32, GetU64, Unsigned, Take;
    var flags := if zip then 1 else 0;
    StandsSlice(raw, 0, FileHead(shards, dbs, savedAt, zip));
    var tail := U64(Unsigned(savedAt)) + U32(flags);
    StandsSplit(raw, 0, MAGIC, U32(VERSION) + (U32(shards) + (U32(dbs) + tail)));
    TakesWhatStands(raw, 0, MAGIC);
    GetsThree(raw, 8, VERSION, shards, dbs, tail);
    Width8(Unsigned(savedAt));
    StandsSplit(raw, 20, U64(Unsigned(savedAt)), U32(flags));
    GetsI64(raw, 20, savedAt);
    GetsU32(raw, 28, flags);
  }

  lemma GetsThree(raw: string, i: nat, a: nat, b: nat, c: nat, tail: string)
    requires StandsAt(raw, i, U32(a) + (U32(b) + (U32(c) + tail))) && a < TWO32 && b < TWO32 && c < TWO32
    ensures i + 12 <= |raw| && StandsAt(raw, i + 12, tail) && GetU32(raw, Reading(i)) == (a, Reading(i + 4))
    ensures GetU32(raw, Reading(i + 4)) == (b, Reading(i + 8)) && GetU32(raw, Reading(i + 8)) == (c, Reading(i + 12))
  {
    hide StandsAt, U32, GetU32;
    Width8(a); Width8(b); Width8(c);
    StandsSplit(raw, i, U32(a), U32(b) + (U32(c) + tail));
    StandsSplit(raw, i + 4, U32(b), U32(c) + tail);
    StandsSplit(raw, i + 8, U32(c), tail);
    GetsU32(raw, i, a);
    GetsU32(raw, i + 4, b);
    GetsU32(raw, i + 8, c);
  }

  /** The fields of the file header, by offset. */
  lemma HeaderFields(shards: nat, dbs: nat, savedAt: int, zip: bool)
    requires IsInt64(savedAt) && shards < TWO32 && dbs < TWO32
    ensures var h := FileHead(shards, dbs, savedAt, zip);
            && h[..8] == "ULTIMA01" && Denoted(h[8..12]) == 1
            && Denoted(h[12..16]) == shards && Denoted(h[16..20]) == dbs
            && Signed(Denoted(h[20..28])) == savedAt && Denoted(h[28..32]) == if zip then 1 else 0
  {
    hide LittleEndian, Denoted, Unsigned, Signed;
    var flags := if zip then 1 else 0;
    var h := FileHead(shards, dbs, savedAt, zip);
    Widths();
    NumberRoundTrip(VERSION, 4);
    NumberRoundTrip(shards, 4);
    NumberRoundTrip(dbs, 4);
    NumberRoundTrip(Unsigned(savedAt), 8) by { UnsignedFits(savedAt); }
    NumberRoundTrip(flags, 4);
    UnsignedFits(savedAt);
    assert h[8..12] == U32(VERSION) && h[12..16] == U32(shards) && h[16..20] == U32(dbs);
    assert h[20..28] == U64(Unsigned(savedAt)) && h[28..32] == U32(flags);
  }

  lemma UnsignedFits(n: int)
    requires IsInt64(n)
    ensures Unsigned(n) < TWO64 && Signed(Unsigned(n)) == n
  {
  }

  /** Loading what was written stores exactly the written entries that are not overdue
      at the load, as they come back, each on the shard and in the DB it came from. */
  lemma FileRoundTrip(c: Codec, eng: Engine, savedAt: int, zip: bool, gs: seq<Seg>, now: int, acc: Stored)
    requires GoodCodec(c) && IsInt64(savedAt) && SegsSmall(gs) && GoodSegs(c, zip, gs, eng)
    ensures Load(c, FileBytes(c, eng.shards, eng.dbs, savedAt, zip, gs), eng, now, acc) == Ok(PlaceSegs(gs, now, acc))
  {
    hide StandsAt, FileHead, SegsBytes, LoadSegs, GetU32, GetU64, Take, Denoted, U64, SegsSmall, PlaceSegs;
    var h, s := FileHead(eng.shards, eng.dbs, savedAt, zip), SegsBytes(c, zip, gs);
    var body := h + s;
    var t := U64(c.crc(body));
    var raw := body + t;
    Trailer(c, body);
    assert raw == h + (s + t);
    StandsHead(h, s + t);
    GetsFileHead(raw, eng.shards, eng.dbs, savedAt, zip);
    StandsTail(h, s + t);
    StandsSplit(raw, |h|, s, t);
    assert raw[..|raw| - 8] == body && raw[|raw| - 8..] == t;
    LoadsSegs(c, zip, raw, 32, gs, eng, now, acc);
  }

  lemma Trailer(c: Codec, body: string)
    requires GoodCodec(c)
    ensures |U64(c.crc(body))| == 8 && Denoted(U64(c.crc(body))) == c.crc(body)
  {
    Widths();
    NumberRoundTrip(c.crc(body), 8);
  }

  // -------------------------------------------------------------- what is turned away

  lemma TakeAt(b: string, i: nat, n: nat)
    requires i <= |b|
    ensures Take(b, Reading(i), n) == if i + n <= |b| then (b[i..i + n], Reading(i + n))
                                      else ([], Cursor(i, Some(Short)))
  {
  }

  lemma NothingDenoted()
    ensures Denoted([]) == 0
  {
  }

  /** The checks of the whole file, on its bytes: the magic, the version, the size of the
      header, and the checksum of all that precedes the trailer; only then are the segments
      looked at. */
  lemma FileChecks(c: Codec, raw: string, eng: Engine, now: int, acc: Stored)
    ensures var n := |raw|;
            Load(c, raw, eng, now, acc) ==
            if n < 8 || raw[..8] != "ULTIMA01" then Fail(BadMagic)
            else if n < 12 || Denoted(raw[8..12]) != 1 then Fail(BadVersion)
            else if n < 32 then Fail(Truncated)
            else if c.crc(raw[..n - 8]) != Denoted(raw[n - 8..]) then Fail(BadCrc)
            else LoadSegs(c, Denoted(raw[28..32]) % 2 == 1, raw, n - 8, Reading(32), eng, now, acc)
  {
    hide LoadSegs, Take, Denoted;
    NothingDenoted();
    TakeAt(raw, 0, 8);
    if |raw| >= 8 {
      assert raw[0..8] == raw[..8];
      TakeAt(raw, 8, 4);
      if |raw| >= 12 {
        TakeAt(raw, 12, 4);
        if |raw| >= 16 { TakeAt(raw, 16, 4); HeaderTail(raw); }
      }
    }
  }

  lemma HeaderTail(raw: string)
    requires |raw| >= 16
    ensures var (_, d3) := GetU32(raw, Reading(16));
            var (_, d4) := GetU64(raw, d3);
            var (flags, d5) := GetU32(raw, d4);
            if |raw| < 32 then d5.err.Some? else flags == Denoted(raw[28..32]) && d5 == Reading(32)
  {
    hide Denoted, Take;
    TakeAt(raw, 16, 4);
    if |raw| >= 20 {
      TakeAt(raw, 20, 8);
      if |raw| >= 28 { TakeAt(raw, 28, 4); } else { StaysFailed(raw, Cursor(20, Some(Short)), 4); }
    } else {
      StaysFailed(raw, Cursor(16, Some(Short)), 8);
      StaysFailed(raw, Cursor(16, Some(Short)), 4);
    }
  }

  lemma StaysFailed(b: string, d: Cursor, n: nat)
    requires d.off <= |b| && d.err.Some?
    ensures Take(b, d, n) == ([], d)
  {
  }

  /** The checks of one segment, on its bytes: that it is all there, the checksum of its
      payload, its shard and DB, and then its entries. */
  lemma SegmentChecks(c: Codec, zip: bool, raw: string, end: nat, i: nat, eng: Engine, now: int, acc: Stored)
    requires i < end <= |raw|
    ensures var r := LoadSegs(c, zip, raw, end, Reading(i), eng, now, acc);
            if |raw| < i + 24 then r == Fail(Truncated)
            else
              var db, sh, n := Denoted(raw[i..i + 4]), Denoted(raw[i + 4..i + 8]), Denoted(raw[i + 8..i + 12]);
              var len, crc := Denoted(raw[i + 12..i + 16]), Denoted(raw[i + 16..i + 24]);
              if |raw| < i + 24 + len then r == Fail(Truncated)
              else
                var body := raw[i + 24..i + 24 + len];
                var p := if zip then c.decompress(body) else body;
                if c.crc(p) != crc then r == Fail(BadCrc)
                else if sh >= eng.shards || db >= eng.dbs then r == Fail(OutOfRange)
                else
                  var one := LoadEntries(p, Reading(0), n, db, sh, now, acc);
                  r == if one.Fail? then one
                       else LoadSegs(c, zip, raw, end, Reading(i + 24 + len), eng, now, one.value)
  {
    hide Denoted, Take, LoadEntries, GetPreamble;
    PreambleAt(raw, i);
    if |raw| >= i + 24 {
      TakeAt(raw, i + 24, Denoted(raw[i + 12..i + 16]));
    }
  }

  lemma PreambleAt(raw: string, i: nat)
    requires i <= |raw|
    ensures var h := GetPreamble(raw, Reading(i));
            if |raw| < i + 24 then h.next.err.Some?
            else h == Preamble(Denoted(raw[i..i + 4]), Denoted(raw[i + 4..i + 8]), Denoted(raw[i + 8..i + 12]),
                               Denoted(raw[i + 12..i + 16]), Denoted(raw[i + 16..i + 24]), Reading(i + 24))
  {
    hide Denoted;
  }

  /** Entries fail in one way, and never shrink what is stored already. */
  lemma {:induction false} EntriesFailAlike(p: string, cur: Cursor, n: nat, db: nat, sh: nat, now: int, acc: Stored)
    requires cur.off <= |p|
    ensures var r := LoadEntries(p, cur, n, db, sh, now, acc);
            if r.Fail? then r == Fail(BadEntry) else acc.Keys <= r.value.Keys
    decreases n
  {
    hide Decoded, Alive;
    if n > 0 {
      var (key, item, next) := Decoded(p, cur);
      if next.err.None? {
        var acc' := if Alive(item.value, now) then acc[Place(sh, Slot(db, key)) := item.value] else acc;
        EntriesFailAlike(p, next, n - 1, db, sh, now, acc');
      }
    }
  }

  /** A payload that ends inside an entry, or names an unknown type, is refused. */
  lemma EntryChecks(p: string, i: nat)
    requires i <= |p|
    ensures |p| < i + 4 ==> Decoded(p, Reading(i)).2.err.Some?
    ensures |p| >= i + 4 ==>
              var k := i + 4 + Denoted(p[i..i + 4]);
              && (|p| < k + 9 ==> Decoded(p, Reading(i)).2.err.Some?)
              && (|p| >= k + 9 && p[k + 8] > 4 as char ==> Decoded(p, Reading(i)).2.err == Some(BadTag))
  {
    hide Denoted, GetValue, Signed;
    if |p| >= i + 4 {
      var k := i + 4 + Denoted(p[i..i + 4]);
      if |p| >= k + 9 && p[k + 8] > 4 as char {
        assert p[k + 8..k + 9][0] == p[k + 8];
        UnknownTag(p, Reading(k + 9), p[k + 8]);
      }
    }
  }

  lemma UnknownTag(p: string, d: Cursor, tag: char)
    requires d.off <= |p| && tag > 4 as char
    ensures GetValue(p, d, tag) == (None, d.(err := Some(BadTag)))
  {
  }

  // -------------------------------------------------------------------- the keyspace

  ghost predicate Holds(gs: seq<Seg>, k: Slot) {
    exists i, j :: 0 <= i < |gs| && 0 <= j < |gs[i].ds| && gs[i].ds[j].slot == k
  }

  /** The order in which the dump walked over the members of an entry. */
  type Walk = Slot -> seq<string>

  ghost function DumpedAt(ks: Keys, k: Slot, walkOf: Walk): Dumped
    requires k in ks
  {
    Dumped(k, ks[k], walkOf(k))
  }

  /** Every dumped entry is an entry of the keyspace, dumped in its DB and on its shard. */
  ghost predicate FromKeys(ds: seq<Dumped>, db: nat, sh: nat, ks: Keys, shardOf: string -> nat, walkOf: Walk) {
    forall j :: 0 <= j < |ds| ==>
      && ds[j].slot in ks && ds[j] == DumpedAt(ks, ds[j].slot, walkOf) && Ordered(ds[j])
      && ds[j].slot.db == db && shardOf(ds[j].slot.key) == sh
  }

  ghost predicate AllFromKeys(gs: seq<Seg>, ks: Keys, shardOf: string -> nat, walkOf: Walk) {
    forall i :: 0 <= i < |gs| ==> FromKeys(gs[i].ds, gs[i].db, gs[i].shard, ks, shardOf, walkOf)
  }

  /** Stored entries are entries of the keyspace as they come back. */
  ghost predicate Agrees(acc: Stored, ks: Keys, walkOf: Walk) {
    forall p :: p in acc ==>
      p.slot in ks && Ordered(DumpedAt(ks, p.slot, walkOf)) && acc[p] == Reloaded(DumpedAt(ks, p.slot, walkOf))
  }

  lemma {:induction false} PlacedAll(ds: seq<Dumped>, db: nat, sh: nat, now: int, acc: Stored, ks: Keys,
                                     shardOf: string -> nat, walkOf: Walk)
    requires FromKeys(ds, db, sh, ks, shardOf, walkOf) && Agrees(acc, ks, walkOf)
    ensures Agrees(PlaceAll(ds, db, sh, now, acc), ks, walkOf)
    ensures forall p :: p in PlaceAll(ds, db, sh, now, acc) <==>
              p in acc || (p.shard == shardOf(p.slot.key) && p.slot in ks && Alive(ks[p.slot], now)
                           && exists j :: 0 <= j < |ds| && ds[j].slot == p.slot)
    decreases |ds|
  {
    hide Alive;
    if ds != [] {
      var d, rest := ds[0], ds[1..];
      assert forall k :: 0 <= k < |rest| ==> rest[k] == ds[k + 1];
      var acc' := if Alive(d.item, now) then acc[Place(sh, Slot(db, d.slot.key)) := Reloaded(d)] else acc;
      PlacedAll(rest, db, sh, now, acc', ks, shardOf, walkOf);
      assert d.slot == Slot(db, d.slot.key);
      forall p: Place ensures (exists j :: 0 <= j < |ds| && ds[j].slot == p.slot)
                   <==> d.slot == p.slot || (exists j :: 0 <= j < |rest| && rest[j].slot == p.slot) {
        if j :| 0 <= j < |ds| && ds[j].slot == p.slot { if j > 0 { assert rest[j - 1] == ds[j]; } }
        if j :| 0 <= j < |rest| && rest[j].slot == p.slot { assert ds[j + 1] == rest[j]; }
      }
    }
  }

  lemma {:induction false} PlacedSegs(gs: seq<Seg>, now: int, acc: Stored, ks: Keys, shardOf: string -> nat,
                                      walkOf: Walk)
    requires AllFromKeys(gs, ks, shardOf, walkOf) && Agrees(acc, ks, walkOf)
    ensures Agrees(PlaceSegs(gs, now, acc), ks, walkOf)
    ensures forall p :: p in PlaceSegs(gs, now, acc) <==>
              p in acc || (p.shard == shardOf(p.slot.key) && p.slot in ks && Alive(ks[p.slot], now)
                  && Holds(gs, p.slot))
    decreases |gs|
  {
    hide Alive, FromKeys, Agrees, PlaceAll;
    if gs != [] {
      var g, rest := gs[0], gs[1..];
      assert forall k :: 0 <= k < |rest| ==> rest[k] == gs[k + 1];
      PlacedAll(g.ds, g.db, g.shard, now, acc, ks, shardOf, walkOf);
      PlacedSegs(rest, now, PlaceAll(g.ds, g.db, g.shard, now, acc), ks, shardOf, walkOf);
      forall k ensures Holds(gs, k) <==> Holds(rest, k) || exists j :: 0 <= j < |g.ds| && g.ds[j].slot == k {
        HoldsCons(gs, k);
      }
    }
  }

  lemma HoldsCons(gs: seq<Seg>, k: Slot)
    requires gs != []
    ensures Holds(gs, k) <==> Holds(gs[1..], k) || exists j :: 0 <= j < |gs[0].ds| && gs[0].ds[j].slot == k
  {
    var rest := gs[1..];
    if Holds(gs, k) {
      var i, j :| 0 <= i < |gs| && 0 <= j < |gs[i].ds| && gs[i].ds[j].slot == k;
      if i > 0 { assert rest[i - 1] == gs[i]; }
    }
    if Holds(rest, k) {
      var i, j :| 0 <= i < |rest| && 0 <= j < |rest[i].ds| && rest[i].ds[j].slot == k;
      assert gs[i + 1] == rest[i];
    }
  }

  /** The segments hold exactly the entries that are not overdue at the dump. */
  ghost predicate SnapshotOf(gs: seq<Seg>, ks: Keys, shardOf: string -> nat, walkOf: Walk, dumpedAt: int) {
    && AllFromKeys(gs, ks, shardOf, walkOf)
    && forall k :: k in ks ==> (Holds(gs, k) <==> Alive(ks[k], dumpedAt))
  }

  /** Writing a snapshot of a keyspace and loading it into an empty engine with as many
      shards and DBs gives back exactly the entries that are overdue neither at the dump
      nor at the load, each on the shard its key belongs to; an entry is the same if and
      only if, for a set, the walk over its members reloads well. */
  lemma SnapshotRestores(c: Codec, eng: Engine, savedAt: int, zip: bool, gs: seq<Seg>, ks: Keys,
                         shardOf: string -> nat, walkOf: Walk, now: int)
    requires GoodCodec(c) && IsInt64(savedAt) && SegsSmall(gs) && GoodSegs(c, zip, gs, eng)
    requires SnapshotOf(gs, ks, shardOf, walkOf, savedAt)
    ensures var r := Load(c, FileBytes(c, eng.shards, eng.dbs, savedAt, zip, gs), eng, now, map[]);
            && r.Ok?
            && (forall p :: p in r.value <==>
                  p.slot in ks && p.shard == shardOf(p.slot.key) && Alive(ks[p.slot], savedAt)
                      && Alive(ks[p.slot], now))
            && (forall p :: p in r.value ==> r.value[p] == Reloaded(DumpedAt(ks, p.slot, walkOf)))
            && (forall p :: p in r.value ==>
                  (SameItem(r.value[p], ks[p.slot]) <==> ComesBack(DumpedAt(ks, p.slot, walkOf))))
  {
    hide Load, FileBytes, Alive, Holds, AllFromKeys, GoodSegs, SegsSmall, GoodCodec;
    FileRoundTrip(c, eng, savedAt, zip, gs, now, map[]);
    PlacedSegs(gs, now, map[], ks, shardOf, walkOf);
    var got := PlaceSegs(gs, now, map[]);
    forall p | p in got ensures SameItem(got[p], ks[p.slot]) <==> ComesBack(DumpedAt(ks, p.slot, walkOf)) {
      ComesBackIff(DumpedAt(ks, p.slot, walkOf));
    }
  }

  // ------------------------------------------------------------------- the procedures

  /** `writeSnapshot`: loops over DBs and shards; empty segments are left out. */
  method WriteSnapshot(c: Codec, shards: nat, walks: seq<seq<seq<Dumped>>>, savedAt: int, zip: bool)
    returns (out: string)
    requires IsInt64(savedAt)
    requires forall db :: 0 <= db < |walks| ==> |walks[db]| == shards && RowSmall(walks[db])
    ensures SegsSmall(Segments(walks, 0))
    ensures out == FileBytes(c, shards, |walks|, savedAt, zip, Segments(walks, 0))
  {
    hide FileHead, SegBytes, RowSmall, AllSmall, U64;
    out := FileHead(shards, |walks|, savedAt, zip);
    ghost var head := out;
    SegmentsSmall(walks, 0);
    var db := 0;
    while db < |walks|
      invariant 0 <= db <= |walks| && SegsSmall(Segments(walks, db))
      invariant out + SegsBytes(c, zip, Segments(walks, db)) == head + SegsBytes(c, zip, Segments(walks, 0))
    {
      SegmentsSmall(walks, db + 1);
      RowSegmentsSmall(walks[db], db, 0);
      BytesJoin(c, zip, SegmentsOf(walks[db], db, 0), Segments(walks, db + 1));
      var row := WriteRow(c, walks[db], db, zip);
      out := out + row;
      db := db + 1;
    }
    assert SegsBytes(c, zip, Segments(walks, db)) == [];
    assert out == head + SegsBytes(c, zip, Segments(walks, 0));
    out := out + U64(c.crc(out));
  }

  predicate RowSmall(row: seq<seq<Dumped>>) {
    forall sh :: 0 <= sh < |row| ==> AllSmall(row[sh])
  }

  lemma PayloadFrom(ds: seq<Dumped>, i: nat)
    requires i < |ds| && AllSmall(ds)
    ensures AllSmall(ds[i..]) && AllSmall(ds[i + 1..])
    ensures Payload(ds[i..]) == EntryBytes(ds[i]) + Payload(ds[i + 1..])
  {
    hide EntryBytes, Small;
    assert ds[i..][1..] == ds[i + 1..];
  }

  lemma NoPayload(ds: seq<Dumped>)
    requires ds == []
    ensures Payload(ds) == []
  {
  }

  method WriteSegment(c: Codec, g: Seg, zip: bool) returns (out: string)
    requires AllSmall(g.ds)
    ensures out == SegBytes(c, zip, g)
  {
    hide SegHead, Payload, EntryBytes, Small;
    var payload, i := [], 0;
    assert g.ds[0..] == g.ds;
    while i < |g.ds|
      invariant 0 <= i <= |g.ds| && AllSmall(g.ds[i..])
      invariant payload + Payload(g.ds[i..]) == Payload(g.ds)
    {
      PayloadFrom(g.ds, i);
      payload := payload + EntryBytes(g.ds[i]);
      i := i + 1;
    }
    assert payload == Payload(g.ds) by { NoPayload(g.ds[i..]); }
    var body := Packed(c, zip, payload);
    out := SegHead(g.db, g.shard, |g.ds|, |body|, c.crc(payload)) + body;
  }

  /** The inner loop: one DB, shard after shard. */
  method WriteRow(c: Codec, row: seq<seq<Dumped>>, db: nat, zip: bool) returns (out: string)
    requires RowSmall(row)
    ensures SegsSmall(SegmentsOf(row, db, 0)) && out == SegsBytes(c, zip, SegmentsOf(row, db, 0))
  {
    hide SegBytes, AllSmall, RowSmall, SegsBytes, SegmentsOf, SegsSmall;
    out := [];
    RowSegmentsSmall(row, db, 0);
    var sh := 0;
    while sh < |row|
      invariant 0 <= sh <= |row| && SegsSmall(SegmentsOf(row, db, sh))
      invariant out + SegsBytes(c, zip, SegmentsOf(row, db, sh)) == SegsBytes(c, zip, SegmentsOf(row, db, 0))
    {
      RowStep(c, zip, row, db, sh);
      if row[sh] != [] {
        var one := WriteSegment(c, Seg(db, sh, row[sh]), zip);
        out := out + one;
      }
      sh := sh + 1;
    }
    RowDone(c, zip, row, db);
  }

  lemma RowStep(c: Codec, zip: bool, row: seq<seq<Dumped>>, db: nat, sh: nat)
    requires sh < |row| && RowSmall(row) && SegsSmall(SegmentsOf(row, db, sh))
    ensures AllSmall(row[sh]) && SegsSmall(SegmentsOf(row, db, sh + 1))
    ensures var rest := SegsBytes(c, zip, SegmentsOf(row, db, sh + 1));
            SegsBytes(c, zip, SegmentsOf(row, db, sh)) ==
            if row[sh] == [] then rest else SegBytes(c, zip, Seg(db, sh, row[sh])) + rest
  {
    hide SegBytes, AllSmall;
    RowSegmentsSmall(row, db, sh + 1);
    var all := SegmentsOf(row, db, sh);
    if row[sh] != [] {
      assert all[0] == Seg(db, sh, row[sh]) && all[1..] == SegmentsOf(row, db, sh + 1);
    } else {
      assert all == SegmentsOf(row, db, sh + 1);
    }
  }

  lemma RowDone(c: Codec, zip: bool, row: seq<seq<Dumped>>, db: nat)
    ensures SegmentsOf(row, db, |row|) == [] && SegsSmall([]) && SegsBytes(c, zip, []) == []
  {
  }

  lemma {:induction false} RowSegmentsSmall(row: seq<seq<Dumped>>, db: nat, sh: nat)
    requires sh <= |row| && RowSmall(row)
    ensures SegsSmall(SegmentsOf(row, db, sh))
    decreases |row| - sh
  {
    hide AllSmall;
    if sh < |row| { RowSegmentsSmall(row, db, sh + 1); }
  }

  lemma {:induction false} SegmentsSmall(walks: seq<seq<seq<Dumped>>>, db: nat)
    requires db <= |walks| && forall k :: 0 <= k < |walks| ==> RowSmall(walks[k])
    ensures SegsSmall(Segments(walks, db))
    decreases |walks| - db
  {
    hide AllSmall, RowSmall;
    if db < |walks| {
      RowSegmentsSmall(walks[db], db, 0);
      SegmentsSmall(walks, db + 1);
    }
  }

  lemma {:induction false} BytesJoin(c: Codec, zip: bool, a: seq<Seg>, b: seq<Seg>)
    requires SegsSmall(a) && SegsSmall(b)
    ensures SegsSmall(a + b) && SegsBytes(c, zip, a + b) == SegsBytes(c, zip, a) + SegsBytes(c, zip, b)
    decreases |a|
  {
    hide SegBytes, AllSmall;
    if a == [] {
      assert a + b == b;
    } else {
      var rest := a[1..];
      assert forall k :: 0 <= k < |rest| ==> rest[k] == a[k + 1];
      BytesJoin(c, zip, rest, b);
      assert (a + b)[1..] == rest + b;
    }
  }

  method LoadPayload(p: string, n: nat, db: nat, sh: nat, now: int, stored: Stored)
    returns (r: Result<Stored, LoadError>)
    ensures r == LoadEntries(p, Reading(0), n, db, sh, now, stored)
  {
    hide Decoded, Alive;
    var d := new Decoder(p);
    var acc, i := stored, 0;
    while i < n
      invariant 0 <= i <= n && d.Valid() && d.b == p
      invariant LoadEntries(p, d.Now(), n - i, db, sh, now, acc) == LoadEntries(p, Reading(0), n, db, sh, now, stored)
    {
      var key, item := d.DecodeEntry();
      if d.err.Some? { return Fail(BadEntry); }
      if Alive(item.value, now) { acc := acc[Place(sh, Slot(db, key)) := item.value]; }
      i := i + 1;
    }
    return Ok(acc);
  }

  /** `LoadSnapshot`. */
  method LoadSnapshot(c: Codec, raw: string, eng: Engine, now: int) returns (r: Result<Stored, LoadError>)
    ensures r == Load(c, raw, eng, now, map[])
  {
    hide Take, GetU32, GetU64, Denoted, LoadSegs;
    var d := new Decoder(raw);
    var magic := d.TakeN(|MAGIC|);
    if magic != MAGIC { return Fail(BadMagic); }
    var version := d.ReadU32();
    if version != VERSION { return Fail(BadVersion); }
    var _ := d.ReadU32();
    var _ := d.ReadU32();
    var _ := d.ReadU64();
    var flags := d.ReadU32();
    if d.err.Some? { return Fail(Truncated); }
    var end := |raw| - 8;
    if c.crc(raw[..end]) != Denoted(raw[end..]) { return Fail(BadCrc); }
    r := LoadAll(c, flags % 2 == 1, d, end, eng, now);
  }

  method LoadAll(c: Codec, zip: bool, d: Decoder, end: nat, eng: Engine, now: int)
    returns (r: Result<Stored, LoadError>)
    requires |d.b| >= 32
    modifies d
    ensures r == LoadSegs(c, zip, d.b, end, Reading(32), eng, now, map[])
  {
    hide Take, GetU32, GetU64, LoadEntries;
    d.off, d.err := 32, None;
    var acc: Stored := map[];
    while d.off < end
      invariant d.Valid() && d.err.None?
      invariant LoadSegs(c, zip, d.b, end, d.Now(), eng, now, acc) ==
          LoadSegs(c, zip, d.b, end, Reading(32), eng, now, map[])
      decreases |d.b| - d.off
    {
      var h := NextPreamble(d);
      if d.err.Some? { return Fail(Truncated); }
      var body := d.TakeN(h.len);
      if d.err.Some? { return Fail(Truncated); }
      var p := if zip then c.decompress(body) else body;
      if c.crc(p) != h.crc { return Fail(BadCrc); }
      if h.shard >= eng.shards || h.db >= eng.dbs { return Fail(OutOfRange); }
      var one := LoadPayload(p, h.entries, h.db, h.shard, now, acc);
      if one.Fail? { return one; }
      acc := one.value;
    }
    return Ok(acc);
  }

  method NextPreamble(d: Decoder) returns (h: Preamble)
    requires d.Valid()
    modifies d
    ensures d.Valid() && h == GetPreamble(d.b, old(d.Now())) && d.Now() == h.next
  {
    hide GetU32, GetU64;
    var db := d.ReadU32();
    var sh := d.ReadU32();
    var n := d.ReadU32();
    var len := d.ReadU32();
    var crc := d.ReadU64();
    h := Preamble(db, sh, n, len, crc, Cursor(d.off, d.err));
  }

  // ----------------------------------------------------------------- written and loaded

  lemma {:induction false} InRow(row: seq<seq<Dumped>>, db: nat, sh: nat, g: Seg)
    requires sh <= |row|
    ensures g in SegmentsOf(row, db, sh) <==> g.db == db && sh <= g.shard < |row| && g.ds == row[g.shard] && g.ds != []
    decreases |row| - sh
  {
    if sh < |row| { InRow(row, db, sh + 1, g); }
  }

  /** The segments are the non-empty walks, each under its DB and shard. */
  lemma {:induction false} InSegments(walks: seq<seq<seq<Dumped>>>, db: nat, g: Seg)
    requires db <= |walks|
    ensures g in Segments(walks, db) <==>
            db <= g.db < |walks| && g.shard < |walks[g.db]| && g.ds == walks[g.db][g.shard] && g.ds != []
    decreases |walks| - db
  {
    hide SegmentsOf;
    if db < |walks| {
      InRow(walks[db], db, 0, g);
      InSegments(walks, db + 1, g);
    }
  }

  predicate Walked(ds: seq<Dumped>, k: Slot) {
    exists j :: 0 <= j < |ds| && ds[j].slot == k
  }

  /** The walks are a dump of the keyspace: every (db, shard) walks over entries of its
      own, and over all of those that are not overdue. */
  ghost predicate FullDump(walks: seq<seq<seq<Dumped>>>, ks: Keys, shardOf: string -> nat, walkOf: Walk, now: int) {
    && (forall db, sh :: 0 <= db < |walks| && 0 <= sh < |walks[db]| ==>
          FromKeys(walks[db][sh], db, sh, ks, shardOf, walkOf)
          && forall j :: 0 <= j < |walks[db][sh]| ==> Alive(walks[db][sh][j].item, now))
    && (forall k :: k in ks && Alive(ks[k], now) ==>
          k.db < |walks| && shardOf(k.key) < |walks[k.db]| && Walked(walks[k.db][shardOf(k.key)], k))
  }

  /** The segments written for a full dump are a snapshot of the keyspace. */
  lemma DumpIsSnapshot(walks: seq<seq<seq<Dumped>>>, ks: Keys, shardOf: string -> nat, walkOf: Walk, now: int)
    requires FullDump(walks, ks, shardOf, walkOf, now)
    ensures SnapshotOf(Segments(walks, 0), ks, shardOf, walkOf, now)
  {
    hide FromKeys, Alive, Segments;
    var gs := Segments(walks, 0);
    forall i | 0 <= i < |gs|
      ensures FromKeys(gs[i].ds, gs[i].db, gs[i].shard, ks, shardOf, walkOf)
      ensures forall j :: 0 <= j < |gs[i].ds| ==> Alive(gs[i].ds[j].item, now)
    {
      assert gs[i] in gs;
      InSegments(walks, 0, gs[i]);
    }
    forall k | k in ks ensures Holds(gs, k) <==> Alive(ks[k], now) {
      if Holds(gs, k) {
        var i, j :| 0 <= i < |gs| && 0 <= j < |gs[i].ds| && gs[i].ds[j].slot == k;
        EntryOf(gs[i].ds, gs[i].db, gs[i].shard, ks, shardOf, walkOf, j);
      }
      if Alive(ks[k], now) {
        var db, sh := k.db, shardOf(k.key);
        var j :| 0 <= j < |walks[db][sh]| && walks[db][sh][j].slot == k;
        InSegments(walks, 0, Seg(db, sh, walks[db][sh]));
        var i :| 0 <= i < |gs| && gs[i] == Seg(db, sh, walks[db][sh]);
        assert gs[i].ds[j].slot == k;
      }
    }
  }

  lemma EntryOf(ds: seq<Dumped>, db: nat, sh: nat, ks: Keys, shardOf: string -> nat, walkOf: Walk, j: nat)
    requires FromKeys(ds, db, sh, ks, shardOf, walkOf) && j < |ds|
    ensures ds[j].slot in ks && ks[ds[j].slot] == ds[j].item
  {
  }

  /** Every segment and its entries fit their 32-bit counts. */
  ghost predicate CountsFit(c: Codec, zip: bool, gs: seq<Seg>) {
    forall i :: 0 <= i < |gs| ==>
      AllSmall(gs[i].ds) && |gs[i].ds| < TWO32 && |Packed(c, zip, Payload(gs[i].ds))| < TWO32
  }

  lemma SegmentsInRange(c: Codec, zip: bool, walks: seq<seq<seq<Dumped>>>, eng: Engine)
    requires eng.dbs == |walks| < TWO32 && eng.shards < TWO32
    requires forall db :: 0 <= db < |walks| ==> |walks[db]| == eng.shards
    requires CountsFit(c, zip, Segments(walks, 0))
    ensures GoodSegs(c, zip, Segments(walks, 0), eng)
  {
    hide Segments, AllSmall, Payload, Packed;
    var gs := Segments(walks, 0);
    forall i | 0 <= i < |gs| ensures GoodSeg(c, zip, gs[i], eng) {
      assert gs[i] in gs;
      InSegments(walks, 0, gs[i]);
    }
  }

  /** Save and load: the bytes that the write loop produces from a full dump, loaded by
      the load loop into an engine of the same shape, give back exactly the entries that
      are overdue neither at the dump nor at the load, each on the shard of its key and
      the same if and only if it comes back. */
  method SaveThenLoad(c: Codec, shards: nat, walks: seq<seq<seq<Dumped>>>, savedAt: int, zip: bool, now: int,
                      ghost ks: Keys, ghost shardOf: string -> nat, ghost walkOf: Walk)
    returns (r: Result<Stored, LoadError>)
    requires GoodCodec(c) && IsInt64(savedAt) && shards < TWO32 && |walks| < TWO32
    requires forall db :: 0 <= db < |walks| ==> |walks[db]| == shards && RowSmall(walks[db])
    requires FullDump(walks, ks, shardOf, walkOf, savedAt) && CountsFit(c, zip, Segments(walks, 0))
    ensures r.Ok?
    ensures forall p :: p in r.value <==>
              p.slot in ks && p.shard == shardOf(p.slot.key) && Alive(ks[p.slot], savedAt) && Alive(ks[p.slot], now)
    ensures forall p :: p in r.value ==> r.value[p] == Reloaded(DumpedAt(ks, p.slot, walkOf))
    ensures forall p :: p in r.value ==>
              (SameItem(r.value[p], ks[p.slot]) <==> ComesBack(DumpedAt(ks, p.slot, walkOf)))
  {
    hide GoodCodec, RowSmall, FullDump, CountsFit, Segments, FileBytes, Load, Alive, SegsSmall, SnapshotOf, GoodSegs;
    var raw := WriteSnapshot(c, shards, walks, savedAt, zip);
    ghost var eng := Engine(shards, |walks|);
    SegmentsInRange(c, zip, walks, eng);
    DumpIsSnapshot(walks, ks, shardOf, walkOf, savedAt);
    SnapshotRestores(c, eng, savedAt, zip, Segments(walks, 0), ks, shardOf, walkOf, now);
    r := LoadSnapshot(c, raw, Engine(shards, |walks|), now);
  }
}
