/** The badge's file system as the push scripts see it, behind a link that can
    stall before, during or after any of their steps. */
module BadgeLink {
  import opened Bytes

  type Path = string
  type Files = map<Path, seq<byte>>

  // ── FNV-1a ──

  const FNV_BASIS: bv32 := 0x811C9DC5
  const FNV_PRIME: bv32 := 0x01000193

  function FnvStep(h: bv32, b: byte): bv32 {
    (h ^ Widen(b)) * FNV_PRIME
  }

  function Fnv(data: seq<byte>): bv32 {
    if data == [] then FNV_BASIS else FnvStep(Fnv(data[..|data| - 1]), data[|data| - 1])
  }

  /** One octet more. */
  lemma FnvMore(s: seq<byte>, b: byte, before: bv32, after: bv32) returns (more: seq<byte>)
    requires Fnv(s) == before && FnvStep(before, b) == after
    ensures more == s + [b] && Fnv(more) == after
  {
    hide FnvStep;
    more := s + [b];
    assert more[..|s|] == s;
  }

  lemma FnvSteps()
    ensures FnvStep(0x811c9dc5, 0x66) == 0xe30c2799
    ensures FnvStep(0xe30c2799, 0x6f) == 0x6222e842
    ensures FnvStep(0x6222e842, 0x6f) == 0xa9f37ed7
    ensures FnvStep(0xa9f37ed7, 0x62) == 0x3f5076ef
    ensures FnvStep(0x3f5076ef, 0x61) == 0x39aaa18a
    ensures FnvStep(0x39aaa18a, 0x72) == 0xbf9cf968
  {}

  /** The hash that its authors publish for "foobar". */
  lemma FnvCheck()
    ensures Fnv([0x66, 0x6f, 0x6f, 0x62, 0x61, 0x72]) == 0xBF9CF968
  {
    assert Fnv([]) == 0x811c9dc5;
    FnvSteps();
    hide FnvStep, Fnv;
    var s: seq<byte> := [];
    s := FnvMore(s, 0x66, 0x811c9dc5, 0xe30c2799);
    s := FnvMore(s, 0x6f, 0xe30c2799, 0x6222e842);
    s := FnvMore(s, 0x6f, 0x6222e842, 0xa9f37ed7);
    s := FnvMore(s, 0x62, 0xa9f37ed7, 0x3f5076ef);
    s := FnvMore(s, 0x61, 0x3f5076ef, 0x39aaa18a);
    s := FnvMore(s, 0x72, 0x39aaa18a, 0xbf9cf968);
    assert s == [0x66, 0x6f, 0x6f, 0x62, 0x61, 0x72];
  }

  /** The hash as the badge computes it, reading blocks of 256 octets. */
  method HashInBlocks(data: seq<byte>) returns (n: nat, h: bv32)
    ensures n == |data| && h == Fnv(data)
  {
    hide FnvStep;
    h, n := FNV_BASIS, 0;
    while n < |data|
      invariant n <= |data| && h == Fnv(data[..n])
    {
      var block := data[n..if n + 256 < |data| then n + 256 else |data|];
      var i := 0;
      while i < |block|
        invariant i <= |block| && h == Fnv(data[..n + i])
      {
        assert data[..n + i + 1][..n + i] == data[..n + i];
        h := FnvStep(h, block[i]);
        i := i + 1;
      }
      n := n + |block|;
    }
    assert data[..n] == data;
  }

  // ── Remote scripts ──

  datatype RemoteError = BadContent | OsError

  /** Stall is a lost reply or a script that hung; Raised an exception on the badge. */
  datatype Reply = Ack | Stall | Raised(error: RemoteError)

  datatype Call = Enter | Size | Begin | Chunk | Finish | Clear

  datatype Event = Event(call: Call, reply: Reply)

  function Remove(f: Files, p: Path): Files { map q | q in f && q != p :: f[q] }

  function Appended(f: Files, p: Path, d: seq<byte>): Files {
    f[p := (if p in f then f[p] else []) + d]
  }

  /** rename onto a free name. */
  function Renamed(f: Files, tmp: Path, path: Path): Files
    requires tmp in f
  {
    Remove(f, tmp)[path := f[tmp]]
  }

  /** Removing the old file first makes no difference to the outcome. */
  lemma RenamedOver(f: Files, tmp: Path, path: Path)
    requires tmp in f && tmp != path
    ensures tmp in Remove(f, path) && Renamed(Remove(f, path), tmp, path) == Renamed(f, tmp, path)
    ensures path !in f ==> Remove(f, path) == f
  {}

  class Badge {
    var files: Files
    /** Finish replies the link may still lose after the rename was done. */
    var lossesLeft: nat
    /** Every state the files went through, and every call with its outcome. */
    ghost var history: seq<Files>
    /** Files the latest clear said it could not remove. */
    var skipped: set<Path>
    ghost var events: seq<Event>

    constructor (files: Files, lossesLeft: nat)
      ensures this.files == files && this.lossesLeft == lossesLeft && history == [files] && events == []
    {
      this.files, this.lossesLeft := files, lossesLeft;
      history, events, skipped := [files], [], {};
    }

    ghost predicate Valid()
      reads this
    {
      history != [] && history[|history| - 1] == files
    }

    twostate predicate Logged(call: Call, reply: Reply)
      reads this
    {
      events == old(events) + [Event(call, reply)]
    }

    method Become(f: Files)
      requires Valid()
      modifies this`files, this`history
      ensures Valid() && files == f && history == old(history) + [f]
    {
      files := f;
      history := history + [f];
    }

    method Log(call: Call, reply: Reply)
      modifies this`events
      ensures Logged(call, reply)
    {
      ghost var e := Event(call, reply);
      events := events + [e];
    }

    /** Re-enters the raw REPL. */
    method Enter() returns (r: Reply)
      modifies this`events
      ensures (r == Ack || r == Stall) && Logged(Call.Enter, r)
    {
      r := Stall;
      if * { r := Ack; }
      Log(Call.Enter, r);
    }

    /** PUT_SIZE: the size of the file, -1 when there is none. */
    method Size(tmp: Path) returns (r: Reply, size: int)
      modifies this`events
      ensures r != Raised(BadContent) && Logged(Call.Size, r)
      ensures r == Ack ==> size == if tmp in files then |files[tmp]| else -1
    {
      r := Broken();
      size := 0;
      if * {
        r := Ack;
        size := if tmp in files then |files[tmp]| else -1;
      }
      Log(Call.Size, r);
    }

    /** PUT_BEGIN: removes a left-over file, then creates it empty. */
    method Begin(tmp: Path) returns (r: Reply)
      requires Valid()
      modifies this`files, this`history, this`events
      ensures Valid() && r != Raised(BadContent) && Logged(Call.Begin, r) && old(history) <= history
      ensures forall k :: |old(history)| <= k < |history| ==>
        history[k] == Remove(old(files), tmp) || history[k] == old(files)[tmp := []]
      ensures files == old(files) || files == Remove(old(files), tmp) || files == old(files)[tmp := []]
      ensures r == Ack ==> files == old(files)[tmp := []]
    {
      r := Broken();
      if * { Log(Call.Begin, r); return; }
      if tmp in files { Become(Remove(files, tmp)); }
      if * {
        assert tmp !in old(files) ==> files == Remove(old(files), tmp);
        Log(Call.Begin, r);
        return;
      }
      Become(files[tmp := []]);
      if * { r := Ack; }
      Log(Call.Begin, r);
    }

    /** PUT_CHUNK: appends; a stall may leave any prefix of the chunk behind. */
    method Chunk(tmp: Path, chunk: seq<byte>) returns (r: Reply)
      requires Valid()
      modifies this`files, this`history, this`events
      ensures Valid() && r != Raised(BadContent) && Logged(Call.Chunk, r) && old(history) <= history
      ensures forall k :: |old(history)| <= k < |history| ==> AppendedSome(old(files), history[k], tmp, chunk)
      ensures files == old(files) || AppendedSome(old(files), files, tmp, chunk)
      ensures r == Ack ==> files == Appended(old(files), tmp, chunk)
    {
      r := Broken();
      if * { Log(Call.Chunk, r); return; }
      ghost var before := files;
      var n := 0;
      Become(Appended(files, tmp, []));
      assert chunk[..0] == [];
      while n < |chunk|
        invariant n <= |chunk| && Valid() && events == old(events) && old(history) <= history
        invariant files == Appended(before, tmp, chunk[..n])
        invariant forall k :: |old(history)| <= k < |history| ==> AppendedSome(before, history[k], tmp, chunk)
      {
        if * { Log(Call.Chunk, r); return; }
        assert chunk[..n + 1] == chunk[..n] + [chunk[n]];
        AppendedTwice(before, tmp, chunk[..n], [chunk[n]]);
        Become(Appended(files, tmp, [chunk[n]]));
        n := n + 1;
      }
      assert chunk[..n] == chunk;
      if * { r := Ack; }
      Log(Call.Chunk, r);
    }

    /** PUT_FINISH: checks size and hash, then replaces path by tmp. */
    method Finish(tmp: Path, path: Path, size: nat, fnv: bv32) returns (r: Reply)
      requires Valid() && tmp != path
      modifies this
      ensures Valid() && Logged(Call.Finish, r) && old(history) <= history
      ensures var good := tmp in old(files) && |old(files)[tmp]| == size && Fnv(old(files)[tmp]) == fnv;
        && (r == Raised(BadContent) ==> tmp in old(files) && !good)
        && (!good ==> r != Ack && files == old(files) && history == old(history) && lossesLeft == old(lossesLeft))
        && (good ==> forall k :: |old(history)| <= k < |history| ==>
            history[k] == Remove(old(files), path) || history[k] == Renamed(old(files), tmp, path))
        && (good ==>
            || ((files == old(files) || files == Remove(old(files), path)) && r != Ack && lossesLeft == old(lossesLeft))
            || (files == Renamed(old(files), tmp, path) && r == Ack && lossesLeft == old(lossesLeft))
            || (files == Renamed(old(files), tmp, path) && r != Ack && lossesLeft == old(lossesLeft) - 1))
    {
      hide Fnv, Remove, Renamed;
      r := Broken();
      if * { Log(Call.Finish, r); return; }
      if tmp !in files {
        r := Raised(OsError);
        Log(Call.Finish, r);
        return;
      }
      var n, h := HashInBlocks(files[tmp]);
      if n != size || h != fnv {
        if * { r := Raised(BadContent); }
        Log(Call.Finish, r);
        return;
      }
      ghost var before := files;
      if path in files { Become(Remove(files, path)); }
      if * {
        Log(Call.Finish, r);
        return;
      }
      RenamedOver(before, tmp, path);
      Become(Renamed(files, tmp, path));
      if lossesLeft > 0 {
        if * {
          lossesLeft := lossesLeft - 1;
          Log(Call.Finish, r);
          return;
        }
      }
      r := Ack;
      Log(Call.Finish, r);
    }

    /** CLEAR: removes the files one after the other; one that is missing or
        cannot be removed is skipped, with a line of output and no error. */
    method Clear(paths: seq<Path>) returns (r: Reply)
      requires Valid()
      modifies this`files, this`history, this`events, this`skipped
      ensures Valid() && r != Raised(BadContent) && Logged(Call.Clear, r) && old(history) <= history
      ensures exists n :: ClearedTo(old(files), files, paths, skipped, n)
      ensures r == Ack ==> files == Cleared(old(files), paths, skipped)
    {
      r := Broken();
      ghost var before := files;
      skipped := {};
      var i := 0;
      NothingCleared(files);
      assert paths[..0] == [];
      hide Cleared, Remove;
      while i < |paths|
        invariant i <= |paths| && Valid() && events == old(events) && old(history) <= history
        invariant files == Cleared(before, paths[..i], skipped)
      {
        if * {
          Log(Call.Clear, r);
          assert ClearedTo(before, files, paths, skipped, i);
          return;
        }
        OneMoreCleared(before, paths, i, skipped);
        if paths[i] in files {
          if * {
            skipped := skipped + {paths[i]};
          } else {
            skipped := skipped - {paths[i]};
            Become(Remove(files, paths[i]));
          }
        }
        i := i + 1;
      }
      assert paths[..|paths|] == paths;
      if * { r := Ack; }
      Log(Call.Clear, r);
      assert ClearedTo(before, files, paths, skipped, |paths|);
    }
  }

  /** What is left once the listed paths are gone, but for those skipped. */
  function Cleared(f: Files, paths: seq<Path>, skipped: set<Path>): Files {
    map p | p in f && (p !in paths || p in skipped) :: f[p]
  }

  /** The clear came as far as the n-th path. */
  ghost predicate ClearedTo(f: Files, g: Files, paths: seq<Path>, skipped: set<Path>, n: int) {
    0 <= n <= |paths| && g == Cleared(f, paths[..n], skipped)
  }

  lemma NothingCleared(f: Files)
    ensures Cleared(f, [], {}) == f
  {}

  /** The next path is missing, cannot be removed, or goes. */
  lemma OneMoreCleared(f: Files, paths: seq<Path>, i: nat, skipped: set<Path>)
    requires i < |paths|
    ensures var p, g := paths[i], Cleared(f, paths[..i], skipped);
      && (p !in g ==> Cleared(f, paths[..i + 1], skipped) == g)
      && (p in g ==> Cleared(f, paths[..i + 1], skipped + {p}) == g)
      && Cleared(f, paths[..i + 1], skipped - {p}) == Remove(g, p)
  {
    assert paths[..i + 1] == paths[..i] + [paths[i]];
  }

  /** Any way but success: a stall, or an exception on the badge. */
  method Broken() returns (r: Reply)
    ensures r == Stall || r == Raised(OsError)
  {
    r := Stall;
    if * { r := Raised(OsError); }
  }

  lemma AppendedTwice(f: Files, tmp: Path, a: seq<byte>, b: seq<byte>)
    ensures Appended(Appended(f, tmp, a), tmp, b) == Appended(f, tmp, a + b)
  {
    var c: seq<byte> := if tmp in f then f[tmp] else [];
    assert (c + a) + b == c + (a + b);
  }

  ghost predicate AppendedSome(f: Files, g: Files, tmp: Path, chunk: seq<byte>) {
    exists n :: 0 <= n <= |chunk| && g == Appended(f, tmp, chunk[..n])
  }
}
