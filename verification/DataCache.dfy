/** The content cache: which bundle is active, who owns its buffer, and what a
    crash while /data.bin is replaced can leave behind. */
module DataCache {
  import opened Options
  import opened Bytes
  import opened Bundle

  const SIZE_CAP := 256 * 1024

  // ── FatFS ──

  datatype Disk = Disk(cache: Option<seq<byte>>, tmp: Option<seq<byte>>)

  datatype File = CacheFile | TmpFile

  function Get(d: Disk, f: File): Option<seq<byte>> {
    if f == CacheFile then d.cache else d.tmp
  }

  function Put(d: Disk, f: File, x: Option<seq<byte>>): Disk {
    if f == CacheFile then d.(cache := x) else d.(tmp := x)
  }

  /** An open file: what was written to it, whether or not its directory entry
      says so yet. */
  datatype Handle = Handle(file: File, bytes: seq<byte>)

  /** A file system on which any call may fail. */
  class FatFs {
    /** Whether the n-th call does its work. */
    const works: nat -> bool
    var calls: nat
    var disk: Disk
    /** Every state the disk went through: a crash may leave any of them. */
    var history: seq<Disk>

    constructor (disk: Disk, works: nat -> bool)
      ensures this.disk == disk && this.works == works && calls == 0 && history == [disk]
    {
      this.disk, this.works, calls, history := disk, works, 0, [disk];
    }

    ghost predicate Reliable() {
      forall n: nat :: works(n)
    }

    ghost predicate Valid()
      reads this
    {
      history != [] && history[|history| - 1] == disk
    }

    method Works() returns (ok: bool)
      modifies this`calls
      ensures ok == works(old(calls)) && calls == old(calls) + 1
    {
      ok := works(calls);
      calls := calls + 1;
    }

    method Become(d: Disk)
      requires Valid()
      modifies this`disk, this`history
      ensures Valid() && disk == d && history == old(history) + [d]
    {
      disk := d;
      history := history + [d];
    }

    method Unlink(f: File)
      requires Valid()
      modifies this
      ensures Valid() && calls == old(calls) + 1
      ensures disk == if works(old(calls)) then Put(old(disk), f, None) else old(disk)
      ensures history == old(history) || history == old(history) + [disk]
    {
      var ok := Works();
      if ok { Become(Put(disk, f, None)); }
    }

    /** FA_CREATE_NEW: not when the file exists. The new entry has length 0. */
    method OpenNew(f: File) returns (ok: bool, h: Handle)
      requires Valid()
      modifies this
      ensures Valid() && calls == old(calls) + 1 && h == Handle(f, [])
      ensures ok <==> Get(old(disk), f) == None && works(old(calls))
      ensures disk == if ok then Put(old(disk), f, Some([])) else old(disk)
      ensures history == old(history) || history == old(history) + [disk]
    {
      h := Handle(f, []);
      ok := Works();
      ok := ok && Get(disk, f) == None;
      if ok { Become(Put(disk, f, Some([]))); }
    }

    /** Fills clusters; the length in the directory entry stays what it was. */
    method Write(h: Handle, buf: seq<byte>) returns (ok: bool, written: nat, now: Handle)
      modifies this`calls
      ensures calls == old(calls) + 1 && written <= |buf| && now == h.(bytes := h.bytes + buf[..written])
      ensures ok && written == |buf| <==> works(old(calls))
    {
      ok := Works();
      written := |buf|;
      if !ok {
        written :| 0 <= written <= |buf|;
        if written < |buf| { ok := *; }
      }
      now := h.(bytes := h.bytes + buf[..written]);
    }

    /** f_sync, and f_close once more: brings the directory entry up to date. */
    method Flush(h: Handle) returns (ok: bool)
      requires Valid()
      modifies this
      ensures Valid() && calls == old(calls) + 1 && ok == works(old(calls))
      ensures disk == if ok then Put(old(disk), h.file, Some(h.bytes)) else old(disk)
      ensures history == old(history) || history == old(history) + [disk]
    {
      ok := Works();
      if ok { Become(Put(disk, h.file, Some(h.bytes))); }
    }

    method Rename(from: File, to: File) returns (ok: bool)
      requires Valid() && from != to
      modifies this
      ensures Valid() && calls == old(calls) + 1
      ensures ok <==> Get(old(disk), from).Some? && Get(old(disk), to) == None && works(old(calls))
      ensures disk == if ok then Put(Put(old(disk), to, Get(old(disk), from)), from, None) else old(disk)
      ensures history == old(history) || history == old(history) + [disk]
    {
      ok := Works();
      ok := ok && Get(disk, from).Some? && Get(disk, to) == None;
      if ok { Become(Put(Put(disk, to, Get(disk, from)), from, None)); }
    }
  }

  // ── Replacing /data.bin ──

  /** The calls from n on get a new /data.tmp opened. */
  ghost predicate Creates(works: nat -> bool, n: nat, d: Disk) {
    (d.tmp == None || works(n)) && works(n + 1)
  }

  /** The calls from n on get the new file written as /data.tmp. */
  ghost predicate Writes(works: nat -> bool, n: nat, d: Disk) {
    (d.tmp == None || works(n)) && works(n + 1) && works(n + 2)
  }

  /** They get all the way to the rename. */
  ghost predicate Replaces(works: nat -> bool, n: nat, d: Disk) {
    Writes(works, n, d) && (d.cache == None || works(n + 5)) && works(n + 6)
  }

  /** Whatever of /data.tmp a failure leaves behind is removed. */
  ghost predicate Cleans(works: nat -> bool, n: nat, d: Disk) {
    && Creates(works, n, d)
    && if !Writes(works, n, d) then works(n + 5) else !Replaces(works, n, d) ==> works(n + 7)
  }

  /** One of the two flushes works, which nobody asks. */
  ghost predicate Flushed(works: nat -> bool, n: nat) {
    works(n + 3) || works(n + 4)
  }

  /** What the directory entry makes of a file of these octets. */
  ghost function Kept(works: nat -> bool, n: nat, buf: seq<byte>): seq<byte> {
    if Flushed(works, n) then buf else []
  }

  /** The cache file as it was, gone, or x. */
  ghost predicate WholeCache(before: Disk, now: Disk, x: seq<byte>) {
    now.cache == before.cache || now.cache == None || now.cache == Some(x)
  }

  /** So is every state from h0 on. */
  ghost predicate AlwaysWhole(before: Disk, history: seq<Disk>, h0: nat, x: seq<byte>) {
    forall k :: h0 <= k < |history| ==> WholeCache(before, history[k], x)
  }

  /** /data.bin has not been touched since the history was h0. */
  ghost predicate Untouched(before: Disk, now: Disk, history: seq<Disk>, h0: seq<Disk>) {
    && now.cache == before.cache && h0 <= history
    && forall k :: |h0| <= k < |history| ==> history[k].cache == before.cache
  }

  lemma StillUntouched(before: Disk, was: Disk, now: Disk, history: seq<Disk>, more: seq<Disk>, h0: seq<Disk>)
    requires Untouched(before, was, history, h0) && now.cache == was.cache
    requires more == history || more == history + [now]
    ensures Untouched(before, now, more, h0)
  {}

  /** The first half: /data.tmp, with /data.bin untouched. */
  method WriteTmp(fs: FatFs, buf: seq<byte>) returns (ok: bool)
    requires fs.Valid()
    modifies fs
    ensures fs.Valid() && Untouched(old(fs.disk), fs.disk, fs.history, old(fs.history))
    ensures ok <==> Writes(fs.works, old(fs.calls), old(fs.disk))
    ensures ok ==> fs.disk.tmp == Some(Kept(fs.works, old(fs.calls), buf)) && fs.calls == old(fs.calls) + 5
    ensures !ok && Creates(fs.works, old(fs.calls), old(fs.disk)) && fs.works(old(fs.calls) + 5) ==> fs.disk.tmp == None
  {
    ghost var before, h0 := fs.disk, fs.history;
    CreatesFirst(fs.works, fs.calls, fs.disk);
    hide Untouched, Creates;
    var created, handle := OpenTmp(fs);
    if !created { return false; }
    var res, written;
    res, written, handle := fs.Write(handle, buf);
    assert [] + buf == buf && buf[..|buf|] == buf;
    FlushTwice(fs, handle, before, h0);
    if !res || written != |buf| {
      ghost var d, h := fs.disk, fs.history;
      fs.Unlink(TmpFile);
      StillUntouched(before, d, fs.disk, h, fs.history, h0);
      return false;
    }
    return true;
  }

  /** A new, empty /data.tmp. */
  method OpenTmp(fs: FatFs) returns (created: bool, handle: Handle)
    requires fs.Valid()
    modifies fs
    ensures fs.Valid() && Untouched(old(fs.disk), fs.disk, fs.history, old(fs.history))
    ensures fs.calls == old(fs.calls) + 2 && handle == Handle(TmpFile, [])
    ensures created <==> Creates(fs.works, old(fs.calls), old(fs.disk))
    ensures created ==> fs.disk == old(fs.disk).(tmp := Some([]))
  {
    ghost var before, h0 := fs.disk, fs.history;
    assert Untouched(before, fs.disk, fs.history, h0);
    hide Untouched;
    ghost var d, h := fs.disk, fs.history;
    fs.Unlink(TmpFile);
    StillUntouched(before, d, fs.disk, h, fs.history, h0);
    d, h := fs.disk, fs.history;
    created, handle := fs.OpenNew(TmpFile);
    StillUntouched(before, d, fs.disk, h, fs.history, h0);
  }

  /** f_sync and f_close; nobody looks at what they return. */
  method FlushTwice(fs: FatFs, handle: Handle, ghost before: Disk, ghost h0: seq<Disk>)
    requires fs.Valid() && handle.file == TmpFile && Untouched(before, fs.disk, fs.history, h0)
    modifies fs
    ensures fs.Valid() && fs.calls == old(fs.calls) + 2
    ensures Untouched(before, fs.disk, fs.history, h0)
    ensures fs.disk == if fs.works(old(fs.calls)) || fs.works(old(fs.calls) + 1)
      then old(fs.disk).(tmp := Some(handle.bytes)) else old(fs.disk)
  {
    hide Untouched;
    ghost var d, h := fs.disk, fs.history;
    var ignored := fs.Flush(handle);
    StillUntouched(before, d, fs.disk, h, fs.history, h0);
    d, h := fs.disk, fs.history;
    ignored := fs.Flush(handle);
    StillUntouched(before, d, fs.disk, h, fs.history, h0);
  }

  /** Replaces /data.bin. True means a new file is in place: the whole bundle if
      and only if a flush worked, an empty file otherwise, and at no moment is
      there anything but that, the old bundle or no file. */
  method WriteFatFsAtomic(fs: FatFs, buf: seq<byte>) returns (ok: bool)
    requires fs.Valid()
    modifies fs
    ensures fs.Valid() && old(fs.history) <= fs.history
    ensures ok <==> Replaces(fs.works, old(fs.calls), old(fs.disk))
    ensures var kept := Kept(fs.works, old(fs.calls), buf);
      && AlwaysWhole(old(fs.disk), fs.history, |old(fs.history)|, kept)
      && (ok ==> fs.disk == Disk(Some(kept), None))
    ensures var gone := Writes(fs.works, old(fs.calls), old(fs.disk)) && fs.works(old(fs.calls) + 5);
      !ok ==> fs.disk.cache == if gone then None else old(fs.disk).cache
    ensures Cleans(fs.works, old(fs.calls), old(fs.disk)) ==> fs.disk.tmp == None
  {
    CreatesFirst(fs.works, fs.calls, fs.disk);
    hide Writes, Kept, Creates, Flushed;
    ghost var before, h0, kept := fs.disk, |fs.history|, Kept(fs.works, fs.calls, buf);
    ok := WriteTmp(fs, buf);
    UntouchedWhole(before, fs.disk, fs.history, old(fs.history), kept);
    hide AlwaysWhole, Untouched;
    if !ok { return; }
    ghost var h := fs.history;
    fs.Unlink(CacheFile);
    StillWhole(before, h, fs.history, h0, fs.disk, kept);
    h := fs.history;
    ok := fs.Rename(TmpFile, CacheFile);
    StillWhole(before, h, fs.history, h0, fs.disk, kept);
    h := fs.history;
    if !ok { fs.Unlink(TmpFile); }
    StillWhole(before, h, fs.history, h0, fs.disk, kept);
  }

  lemma UntouchedWhole(before: Disk, now: Disk, history: seq<Disk>, h0: seq<Disk>, x: seq<byte>)
    requires Untouched(before, now, history, h0)
    ensures AlwaysWhole(before, history, |h0|, x) && h0 <= history && now.cache == before.cache
  {}

  lemma StillWhole(before: Disk, history: seq<Disk>, more: seq<Disk>, h0: nat, now: Disk, x: seq<byte>)
    requires AlwaysWhole(before, history, h0, x) && (more == history || more == history + [now])
    requires WholeCache(before, now, x)
    ensures AlwaysWhole(before, more, h0, x) && history <= more
  {}

  lemma CreatesFirst(works: nat -> bool, n: nat, d: Disk)
    ensures Writes(works, n, d) ==> Creates(works, n, d)
  {}

  /** Both flushes fail and everything else works. */
  const FLUSHES_FAIL: nat -> bool := n => n != 3 && n != 4

  /** Then, on any disk and for any bundle, the replacement reports success and
      leaves an empty file. */
  lemma FlushesFail(d: Disk, buf: seq<byte>)
    ensures Replaces(FLUSHES_FAIL, 0, d) && Kept(FLUSHES_FAIL, 0, buf) == []
  {}

  method LostFlush(oldBundle: seq<byte>, buf: seq<byte>) returns (fs: FatFs, ok: bool)
    ensures ok && fs.disk == Disk(Some([]), None)
  {
    hide Replaces, Kept;
    fs := new FatFs(Disk(Some(oldBundle), None), FLUSHES_FAIL);
    FlushesFail(fs.disk, buf);
    ok := WriteFatFsAtomic(fs, buf);
  }

  // ── The cache ──

  datatype Source = NoSource | FromFatFs | Embedded

  datatype Outcome = NoOutcome | Fresh | NotModified | Failed

  /** What a span points into: nothing, a heap buffer, or the firmware image. */
  datatype Base = Null | Heap(id: nat) | Rom

  datatype Span = Span(base: Base, off: nat, len: nat)

  const NULL_SPAN := Span(Null, 0, 0)

  /** What a caller's fetcher hands back. */
  datatype Download = NoFetcher | Fails | NoChange | Body(bytes: seq<byte>)

  /** Three spans as a valid bundle's header has them. */
  ghost predicate Laid(base: Base, b: seq<byte>, sched: Span, speak: Span, floors: Span) {
    && ValidBundle(b)
    && var l := LensOf(b);
       && sched == Span(base, HEADER_SIZE, l.sched)
       && speak == Span(base, HEADER_SIZE + l.sched, l.speak)
       && floors == Span(base, HEADER_SIZE + l.sched + l.speak, l.floors)
  }

  /** Spans that lie one behind the other and fill a buffer after its header. */
  ghost predicate Fills(b: seq<byte>, sched: Span, speak: Span, floors: Span) {
    && sched.off == HEADER_SIZE && speak.off == sched.off + sched.len && floors.off == speak.off + speak.len
    && floors.off + floors.len == |b|
  }

  /** They do exactly when the lengths add up without wrapping. */
  lemma SpansFillIff(base: Base, b: seq<byte>, sched: Span, speak: Span, floors: Span)
    requires Laid(base, b, sched, speak, floors)
    ensures Fills(b, sched, speak, floors) <==> NoWrap(b)
  {
    FillsIff(b);
    hide ValidBundle;
  }

  // ── Buffers ──

  type Buffers = map<nat, seq<byte>>

  function Without(heap: Buffers, id: nat): Buffers { map x | x in heap && x != id :: heap[x] }

  /** Every live buffer is owned, leaked or in the hands of a caller, and only one of these. */
  ghost predicate HeapOk(heap: Buffers, owned: Option<nat>, leaked: set<nat>, handed: set<nat>, nextId: nat) {
    && (forall id :: id in heap ==> id < nextId)
    && (forall id :: id in heap <==> Some(id) == owned || id in leaked || id in handed)
    && (owned.Some? ==> owned.value !in leaked && owned.value !in handed) && leaked !! handed
  }

  lemma Allocated(heap: Buffers, owned: Option<nat>, leaked: set<nat>, nextId: nat, bytes: seq<byte>)
    requires HeapOk(heap, owned, leaked, {}, nextId)
    ensures HeapOk(heap[nextId := bytes], owned, leaked, {nextId}, nextId + 1) && nextId !in heap
  {}

  lemma Freed(heap: Buffers, owned: Option<nat>, leaked: set<nat>, id: nat, nextId: nat)
    requires HeapOk(heap, owned, leaked, {id}, nextId)
    ensures id in heap && owned != Some(id) && HeapOk(Without(heap, id), owned, leaked, {}, nextId)
  {}

  lemma Forgotten(heap: Buffers, owned: Option<nat>, leaked: set<nat>, id: nat, nextId: nat)
    requires HeapOk(heap, owned, leaked, {id}, nextId)
    ensures id !in leaked && HeapOk(heap, owned, leaked + {id}, {}, nextId)
  {}

  lemma Released(heap: Buffers, owned: nat, leaked: set<nat>, handed: set<nat>, nextId: nat)
    requires HeapOk(heap, Some(owned), leaked, handed, nextId)
    ensures owned !in handed && HeapOk(Without(heap, owned), None, leaked, handed, nextId)
  {}

  lemma Adopted(heap: Buffers, leaked: set<nat>, id: nat, nextId: nat)
    requires HeapOk(heap, None, leaked, {id}, nextId)
    ensures id in heap && HeapOk(heap, Some(id), leaked, {}, nextId)
  {}

  lemma LaidMade(base: Base, b: seq<byte>, l: Lens)
    requires ValidBundle(b) && l == LensOf(b)
    ensures Laid(base, b, Span(base, HEADER_SIZE, l.sched), Span(base, HEADER_SIZE + l.sched, l.speak),
                  Span(base, HEADER_SIZE + l.sched + l.speak, l.floors))
  {}

  class Cache {
    const embedded: seq<byte>
    const fs: FatFs
    var source: Source
    var lastOutcome: Outcome
    var owned: Option<nat>
    var schedule: Span
    var speakers: Span
    var floors: Span
    /** Buffers allocated and not freed, and the number of the next one. */
    var heap: map<nat, seq<byte>>
    var nextId: nat
    /** Buffers taken over and forgotten. */
    ghost var leaked: set<nat>

    constructor (embedded: seq<byte>, fs: FatFs)
      requires fs.Valid()
      ensures this.embedded == embedded && this.fs == fs && Valid()
      ensures source == NoSource && heap == map[] && leaked == {}
    {
      this.embedded, this.fs := embedded, fs;
      source, lastOutcome, owned := NoSource, NoOutcome, None;
      schedule, speakers, floors := NULL_SPAN, NULL_SPAN, NULL_SPAN;
      heap, nextId, leaked := map[], 0, {};
    }

    /** Every live buffer is the owned one, a leaked one or one of handed, which
        a caller has passed in; the spans are null or those of a live validated
        bundle, which the source names. */
    ghost predicate Inv(handed: set<nat>)
      reads this, fs
    {
      && fs.Valid()
      && HeapOk(heap, owned, leaked, handed, nextId)
      && SpansOk()
      && (source == FromFatFs ==> schedule.base.Heap?)
      && (source == Embedded ==> schedule.base.Rom?)
    }

    ghost predicate Valid()
      reads this, fs
    {
      Inv({})
    }

    ghost predicate SpansOk()
      reads this
    {
      match schedule.base
      case Null => schedule == speakers == floors == NULL_SPAN && owned == None
      case Heap(id) => owned == Some(id) && id in heap && Laid(Heap(id), heap[id], schedule, speakers, floors)
      case Rom => owned == None && Laid(Rom, embedded, schedule, speakers, floors)
    }

    /** The bundle the spans show. */
    ghost function Active(): Option<seq<byte>>
      requires SpansOk()
      reads this
    {
      match schedule.base
      case Null => None
      case Heap(id) => Some(heap[id])
      case Rom => Some(embedded)
    }

    method Allocate(bytes: seq<byte>) returns (id: nat)
      requires Valid()
      modifies this`heap, this`nextId
      ensures Inv({id}) && id in heap && heap[id] == bytes && Active() == old(Active())
    {
      hide HeapOk, Laid;
      Allocated(heap, owned, leaked, nextId, bytes);
      id := nextId;
      nextId := nextId + 1;
      heap := heap[id := bytes];
    }

    /** Only a live buffer that nobody uses any more may be freed. */
    method Free(id: nat)
      requires Inv({id})
      modifies this`heap
      ensures Valid() && Active() == old(Active())
    {
      hide HeapOk, Laid;
      Freed(heap, owned, leaked, id, nextId);
      heap := Without(heap, id);
    }

    /** Frees the owned buffer; the spans are about to be set anew. */
    method ReleaseOwned(ghost handed: set<nat>)
      requires HeapOk(heap, owned, leaked, handed, nextId)
      modifies this`heap, this`owned
      ensures owned == None && HeapOk(heap, owned, leaked, handed, nextId)
      ensures forall id :: id in handed && id in old(heap) ==> id in heap && heap[id] == old(heap)[id]
    {
      if owned.Some? {
        Released(heap, owned.value, leaked, handed, nextId);
        heap := Without(heap, owned.value);
        owned := None;
      }
    }

    /** Takes over a buffer or, when it holds no bundle, frees it. */
    method AdoptOwned(id: nat) returns (ok: bool)
      requires Inv({id}) && id in heap
      modifies this`heap, this`owned, this`schedule, this`speakers, this`floors, this`source
      ensures Valid() && (ok <==> ValidBundle(old(heap)[id]))
      ensures ok ==> source == FromFatFs && Active() == Some(old(heap)[id])
      ensures !ok ==> source == old(source) && Active() == old(Active()) && schedule.base == old(schedule.base)
    {
      hide ValidBundle, LensOf, Laid, HeapOk;
      var b := heap[id];
      var lens;
      ok, lens := Validate(b);
      if !ok {
        Free(id);
        return;
      }
      ReleaseOwned({id});
      Adopted(heap, leaked, id, nextId);
      owned := Some(id);
      LaidMade(Heap(id), b, lens);
      schedule := Span(Heap(id), HEADER_SIZE, lens.sched);
      speakers := Span(Heap(id), HEADER_SIZE + lens.sched, lens.speak);
      floors := Span(Heap(id), HEADER_SIZE + lens.sched + lens.speak, lens.floors);
      source := FromFatFs;
    }

    /** Falls back to the bundle in the firmware image, if that one is any good. */
    method UseEmbedded() returns (ok: bool)
      requires Valid()
      modifies this`heap, this`owned, this`schedule, this`speakers, this`floors, this`source
      ensures Valid() && (ok <==> ValidBundle(embedded))
      ensures ok ==> source == Embedded && Active() == Some(embedded)
      ensures !ok ==> source == NoSource && Active() == old(Active()) && schedule.base == old(schedule.base)
    {
      hide ValidBundle, LensOf, Laid, HeapOk;
      var lens;
      ok, lens := Validate(embedded);
      if !ok {
        source := NoSource;
        return;
      }
      ReleaseOwned({});
      LaidMade(Rom, embedded, lens);
      schedule := Span(Rom, HEADER_SIZE, lens.sched);
      speakers := Span(Rom, HEADER_SIZE + lens.sched, lens.speak);
      floors := Span(Rom, HEADER_SIZE + lens.sched + lens.speak, lens.floors);
      source := Embedded;
    }

    /** What init would load from a disk on which nothing fails. */
    static ghost predicate Loadable(d: Disk) {
      d.cache.Some? && HEADER_SIZE <= |d.cache.value| <= SIZE_CAP && ValidBundle(d.cache.value)
    }

    /** Loads /data.bin; a file that is no bundle is deleted, an oversized one left alone. */
    method LoadFromFatFs() returns (ok: bool)
      requires Valid()
      modifies this`heap, this`nextId, this`owned, this`schedule, this`speakers, this`floors, this`source, fs
      ensures Valid() && (ok <==> Loadable(old(fs.disk)) && fs.works(old(fs.calls)) && fs.works(old(fs.calls) + 1))
      ensures ok ==> source == FromFatFs && Active() == old(fs.disk).cache && fs.disk == old(fs.disk)
      ensures !ok ==> source == old(source) && Active() == old(Active()) && schedule.base == old(schedule.base)
      ensures fs.disk == old(fs.disk) || (!Loadable(old(fs.disk)) && fs.disk == Put(old(fs.disk), CacheFile, None))
    {
      hide ValidBundle, Laid, HeapOk;
      var works := fs.Works();
      if !works || fs.disk.cache == None { return false; }
      var bytes := fs.disk.cache.value;
      if |bytes| < HEADER_SIZE || |bytes| > SIZE_CAP { return false; }
      var id := Allocate(bytes);
      works := fs.Works();
      if !works {
        Free(id);
        return false;
      }
      ok := AdoptOwned(id);
      if !ok { fs.Unlink(CacheFile); }
    }

    /** Fetch, validate, store, adopt. A valid body always becomes active, even
        when storing it fails; a body of length 0 is taken for "no change" and
        its buffer forgotten. */
    method TryDownload(download: Download) returns (ok: bool)
      requires Valid()
      modifies this`heap, this`nextId, this`owned, this`schedule, this`speakers, this`floors, this`source,
        this`lastOutcome, this`leaked, fs
      ensures Valid() && old(fs.history) <= fs.history
      ensures ok <==> download == NoChange || download == Body([]) || (download.Body? && ValidBundle(download.bytes))
      ensures leaked == old(leaked) <==> download != Body([])
      ensures if download.Body? && ValidBundle(download.bytes) then
          && Active() == Some(download.bytes) && source == FromFatFs && lastOutcome == Fresh
          && StoredAs(old(fs.disk), old(fs.calls), old(fs.history), download.bytes)
        else
          && Active() == old(Active()) && source == old(source) && fs.disk == old(fs.disk)
          && fs.history == old(fs.history)
          && schedule.base == old(schedule.base)
          && lastOutcome == (if download == NoFetcher then old(lastOutcome) else if ok then NotModified else Failed)
    {
      hide ValidBundle, Laid, StoredAs, HeapOk;
      match download {
        case NoFetcher => return false;
        case Fails =>
          lastOutcome := Failed;
          return false;
        case NoChange =>
          lastOutcome := NotModified;
          return true;
        case Body(bytes) =>
          EmptyIsNoBundle();
          var id := Allocate(bytes);
          if |bytes| == 0 {
            Forgotten(heap, owned, leaked, id, nextId);
            leaked := leaked + {id};
            lastOutcome := NotModified;
            return true;
          }
          var valid, lens := Validate(bytes);
          if !valid {
            Free(id);
            lastOutcome := Failed;
            return false;
          }
          ok := StoreAndAdopt(id);
          lastOutcome := if ok then Fresh else Failed;
      }
    }

    /** What storing a bundle did to the disk it found: the cache file was never
        anything but the old one, none, or what the flushes kept of the new one. */
    ghost predicate StoredAs(before: Disk, n: nat, history: seq<Disk>, bundle: seq<byte>)
      reads fs
    {
      var kept := Kept(fs.works, n, bundle);
      && AlwaysWhole(before, fs.history, |history|, kept) && WholeCache(before, fs.disk, kept)
      && (Replaces(fs.works, n, before) ==> fs.disk.cache == Some(kept))
      && (!Replaces(fs.works, n, before) ==> fs.disk.cache == before.cache || fs.disk.cache == None)
    }

    /** Whether or not the file could be written, the new bundle is used. */
    method StoreAndAdopt(id: nat) returns (ok: bool)
      requires Inv({id}) && id in heap && ValidBundle(heap[id])
      modifies this`heap, this`owned, this`schedule, this`speakers, this`floors, this`source, fs
      ensures Valid() && ok && old(fs.history) <= fs.history
      ensures Active() == Some(old(heap)[id]) && source == FromFatFs
      ensures StoredAs(old(fs.disk), old(fs.calls), old(fs.history), old(heap)[id])
    {
      hide ValidBundle, Laid, AlwaysWhole, HeapOk;
      hide Kept, Replaces, Writes;
      var stored := WriteFatFsAtomic(fs, heap[id]);
      assert StoredAs(old(fs.disk), old(fs.calls), old(fs.history), heap[id]);
      ok := AdoptOwned(id);
    }

    /** What is active after init on a disk on which nothing fails: the cache file
        if it can be loaded, else a valid body, else the firmware's bundle, and
        what was active before if there is "no change" or no bundle at all. */
    static ghost function Shows(d: Disk, download: Download, embedded: seq<byte>, before: Option<seq<byte>>)
      : Option<seq<byte>> {
      if Loadable(d) then d.cache
      else if download.Body? && ValidBundle(download.bytes) then Some(download.bytes)
      else if download == NoChange || download == Body([]) then before
      else if ValidBundle(embedded) then Some(embedded)
      else before
    }

    /** The fetcher leaves a current bundle behind: a valid body, or "no change". */
    static ghost predicate Current(download: Download) {
      download == NoChange || download == Body([]) || (download.Body? && ValidBundle(download.bytes))
    }

    /** What the source is said to be when nothing could be loaded. */
    static ghost function Names(download: Download, embedded: seq<byte>, before: Source): Source {
      if download.Body? && ValidBundle(download.bytes) then FromFatFs
      else if Current(download) then before
      else if ValidBundle(embedded) then Embedded
      else NoSource
    }

    /** FatFS, else the fetcher, else the firmware image. It can report success
        with nothing active: exactly when the fetcher says "no change" although
        there was nothing to leave unchanged. */
    method Init(download: Download) returns (ok: bool)
      requires Valid()
      modifies this, fs
      ensures Valid()
      ensures fs.Reliable() ==> Active() == Shows(old(fs.disk), download, embedded, old(Active()))
      ensures var loaded := Loadable(old(fs.disk)) && fs.works(old(fs.calls)) && fs.works(old(fs.calls) + 1);
        && Active() == (if loaded then old(fs.disk).cache
                        else Shows(Disk(None, None), download, embedded, old(Active())))
        && source == (if loaded then FromFatFs else Names(download, embedded, old(source)))
        && (ok <==> loaded || Current(download) || ValidBundle(embedded))
        && (loaded ==> fs.disk == old(fs.disk))
        && (leaked == old(leaked) <==> loaded || download != Body([]))
      ensures ok && Active() == None ==> (download == NoChange || download == Body([])) && old(Active()) == None
    {
      hide ValidBundle, Laid, Loadable, StoredAs, HeapOk;
      EmptyIsNoBundle();
      NotLoadable();
      ok := LoadFromFatFs();
      if ok { return true; }
      ok := TryDownload(download);
      if ok { return true; }
      ok := UseEmbedded();
    }

    method Refresh(download: Download) returns (ok: bool)
      requires Valid()
      modifies this, fs
      ensures Valid()
      ensures ok <==> download == NoChange || download == Body([]) || (download.Body? && ValidBundle(download.bytes))
      ensures leaked == old(leaked) <==> download != Body([])
      ensures Active() == if download.Body? && ValidBundle(download.bytes) then Some(download.bytes) else old(Active())
      ensures download.Body? && ValidBundle(download.bytes) ==>
        StoredAs(old(fs.disk), old(fs.calls), old(fs.history), download.bytes)
    {
      hide ValidBundle, Laid, StoredAs, HeapOk;
      ok := TryDownload(download);
    }
  }

  lemma EmptyIsNoBundle()
    ensures !ValidBundle([])
  {}

  lemma NotLoadable()
    ensures !Cache.Loadable(Disk(None, None))
  {}

  // ── Crashes and restarts ──

  /** Power is lost at some moment while a new bundle is stored. The next start
      shows the bundle stored before, the new one, the one in the firmware, or
      nothing when that one is no good either; an empty file is no bundle. */
  method CrashAndRestart(fs: FatFs, buf: seq<byte>, embedded: seq<byte>, moment: nat, later: nat -> bool)
    returns (cache: Cache)
    requires fs.Valid()
    modifies fs
    ensures cache.Valid()
    ensures || cache.Active() == old(fs.disk).cache
            || cache.Active() == Some(buf)
            || cache.Active() == Some(embedded)
            || (cache.Active() == None && !ValidBundle(embedded))
  {
    hide ValidBundle, Laid;
    EmptyIsNoBundle();
    var disk, begun := fs.disk, |fs.history|;
    var stored := WriteFatFsAtomic(fs, buf);
    if begun <= moment < |fs.history| { disk := fs.history[moment]; }
    var fs' := new FatFs(disk, later);
    cache := new Cache(embedded, fs');
    var ok := cache.Init(NoFetcher);
  }

  /** A bundle refreshed is what the next start on a working disk shows, if and
      only if it reached the cache file and keeps within the cap that only
      loading knows, or is the firmware's own and nothing else can be loaded.
      If the replacement went through without a flush, the bundle stored before
      is lost as well and the firmware's own comes back. */
  method RefreshAndRestart(cache: Cache, bundle: seq<byte>) returns (next: Cache)
    requires cache.Valid() && ValidBundle(bundle)
    modifies cache, cache.fs
    ensures cache.Valid() && cache.Active() == Some(bundle) && next.Valid()
    ensures next.Active() == Some(bundle) <==>
      (cache.fs.disk.cache == Some(bundle) && |bundle| <= SIZE_CAP)
        || (bundle == cache.embedded && !Cache.Loadable(cache.fs.disk))
    ensures var w, n, d := cache.fs.works, old(cache.fs.calls), old(cache.fs.disk);
      && (Replaces(w, n, d) && Flushed(w, n) ==>
          (next.Active() == Some(bundle) <==> |bundle| <= SIZE_CAP || bundle == cache.embedded))
      && (Replaces(w, n, d) && !Flushed(w, n) && ValidBundle(cache.embedded) ==> next.Active() == Some(cache.embedded))
  {
    hide ValidBundle, Laid, Replaces, Flushed, AlwaysWhole, WholeCache;
    BundleSize(bundle);
    var ok := cache.Refresh(Body(bundle));
    var fs' := new FatFs(cache.fs.disk, _ => true);
    next := new Cache(cache.embedded, fs');
    ok := next.Init(NoFetcher);
  }

  lemma BundleSize(b: seq<byte>)
    requires ValidBundle(b)
    ensures |b| >= HEADER_SIZE
  {}
}
