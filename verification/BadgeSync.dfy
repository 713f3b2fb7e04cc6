/** list, diff and sync: bringing a badge in line with a manifest. */
module BadgeSync {
  import opened Options
  import opened BadgeLink
  import opened BadgePush
  import opened PushSteps

  /** A file as the badge lists it, and as the manifest wants it. */
  datatype Entry = Entry(path: Path, size: nat, fnv: bv32)

  datatype Plan = Plan(missing: seq<Entry>, stale: seq<Entry>, upToDate: seq<Entry>, extras: seq<Entry>)

  predicate IsClean(plan: Plan) {
    plan.missing == [] && plan.stale == []
  }

  ghost predicate DistinctPaths(s: seq<Entry>) {
    forall i, j :: 0 <= i < j < |s| ==> s[i].path != s[j].path
  }

  // ── What a listing shows ──

  /** A path component starts at i. */
  predicate ComponentAt(p: Path, i: nat) {
    i == 0 || (i <= |p| && p[i - 1] == '/')
  }

  /** A component that ends in .tmp ends at i + 4. */
  predicate TmpAt(p: Path, i: nat) {
    i + 4 <= |p| && p[i..i + 4] == ".tmp" && (i + 4 == |p| || p[i + 4] == '/')
  }

  /** The walk skips names that begin with a dot or end in .tmp. */
  predicate Listable(p: Path) {
    && (forall i :: 0 <= i < |p| && ComponentAt(p, i) ==> p[i] != '.')
    && (forall i :: 0 <= i < |p| ==> !TmpAt(p, i))
  }

  lemma TmpIsHidden(p: Path)
    ensures !Listable(p + ".tmp")
  {
    var q := p + ".tmp";
    assert q[|p|..|p| + 4] == ".tmp";
    assert TmpAt(q, |p|);
  }

  /** A name in a directory. */
  ghost predicate IsName(c: string) {
    c != "" && forall i :: 0 <= i < |c| ==> c[i] != '/'
  }

  ghost predicate EndsInTmp(c: string) {
    |c| >= 4 && c[|c| - 4..] == ".tmp"
  }

  function PathOf(names: seq<string>): Path {
    if names == [] then "" else PathOf(names[..|names| - 1]) + "/" + names[|names| - 1]
  }

  /** The same, character by character. */
  lemma TmpAtIs(p: Path, i: nat)
    ensures TmpAt(p, i) <==>
      i + 4 <= |p| && p[i] == '.' && p[i + 1] == 't' && p[i + 2] == 'm' && p[i + 3] == 'p'
      && (i + 4 == |p| || p[i + 4] == '/')
  {
    if i + 4 <= |p| {
      var four := p[i..i + 4];
      assert four[0] == p[i] && four[1] == p[i + 1] && four[2] == p[i + 2] && four[3] == p[i + 3];
    }
  }

  lemma EndsInTmpIs(c: string)
    ensures EndsInTmp(c) <==> |c| >= 4 && TmpAt(c, |c| - 4)
  {
    if |c| >= 4 { assert c[|c| - 4..] == c[|c| - 4..|c| - 4 + 4]; }
  }

  lemma TmpWithin(p: Path, c: string, i: nat)
    requires IsName(c)
    ensures var q := p + "/" + c;
      TmpAt(q, i) <==> TmpAt(p, i) || (i == |q| - 4 && EndsInTmp(c))
  {
    var q := p + "/" + c;
    TmpAtIs(q, i);
    TmpAtIs(p, i);
    EndsInTmpIs(c);
    if |c| >= 4 { TmpAtIs(c, |c| - 4); }
    hide TmpAt, EndsInTmp;
    assert q[|p|] == '/';
    if i + 4 <= |q| && i > |p| { assert q[i + 3] == c[i + 2 - |p|]; }
    if i + 4 < |q| && i > |p| { assert q[i + 4] == c[i + 3 - |p|]; }
  }

  lemma DotsMore(p: Path, c: string)
    requires IsName(c)
    ensures var q := p + "/" + c;
      (forall i :: 0 <= i < |q| && ComponentAt(q, i) ==> q[i] != '.') <==>
      c[0] != '.' && forall i :: 0 <= i < |p| && ComponentAt(p, i) ==> p[i] != '.'
  {
    var q := p + "/" + c;
    assert q[|p|] == '/' && q[|p| + 1] == c[0] && forall k :: 0 <= k < |p| ==> q[k] == p[k];
    assert forall k :: 0 <= k < |c| ==> q[|p| + 1 + k] == c[k];
    assert ComponentAt(q, |p| + 1);
    forall i: nat | i < |p| ensures ComponentAt(q, i) <==> ComponentAt(p, i) {}
    forall i: nat | |p| + 1 < i < |q| ensures !ComponentAt(q, i) {
      assert q[i - 1] == c[i - |p| - 2];
    }
  }

  lemma TmpsMore(p: Path, c: string)
    requires IsName(c)
    ensures var q := p + "/" + c;
      (forall i :: 0 <= i < |q| ==> !TmpAt(q, i)) <==>
      !EndsInTmp(c) && forall i :: 0 <= i < |p| ==> !TmpAt(p, i)
  {
    var q := p + "/" + c;
    forall i: nat ensures TmpAt(q, i) <==> TmpAt(p, i) || (i == |q| - 4 && EndsInTmp(c)) {
      TmpWithin(p, c, i);
    }
    TmpFits(p);
    assert EndsInTmp(c) ==> 0 <= |q| - 4 < |q| && TmpAt(q, |q| - 4);
  }

  lemma ListableMore(p: Path, c: string)
    requires IsName(c)
    ensures Listable(p + "/" + c) <==> Listable(p) && c[0] != '.' && !EndsInTmp(c)
  {
    hide ComponentAt, TmpAt, EndsInTmp;
    DotsMore(p, c);
    TmpsMore(p, c);
  }

  lemma TmpFits(p: Path)
    ensures forall i: nat :: TmpAt(p, i) ==> i < |p|
  {}

  /** A file is listed if and only if no name on the way to it begins with a dot or
      ends in .tmp, since the walk passes these over. */
  lemma {:induction false} ListableIs(names: seq<string>)
    requires forall i :: 0 <= i < |names| ==> IsName(names[i])
    ensures Listable(PathOf(names)) <==>
      forall i :: 0 <= i < |names| ==> names[i] != "" && names[i][0] != '.' && !EndsInTmp(names[i])
  {
    if names != [] {
      var k := |names| - 1;
      assert PathOf(names) == PathOf(names[..k]) + "/" + names[k];
      assert forall i :: 0 <= i < k ==> names[..k][i] == names[i];
      ListableIs(names[..k]);
      hide Listable, PathOf, EndsInTmp;
      ListableMore(PathOf(names[..k]), names[k]);
    }
  }

  function EntryOf(f: Files, p: Path): Entry
    requires p in f
  {
    Entry(p, |f[p]|, Fnv(f[p]))
  }

  /** Every file the badge would list, as it is. */
  ghost predicate Lists(s: seq<Entry>, f: Files) {
    && DistinctPaths(s)
    && (forall i :: 0 <= i < |s| ==> Listable(s[i].path) && s[i].path in f && s[i] == EntryOf(f, s[i].path))
    && (forall p :: p in f && Listable(p) ==> EntryOf(f, p) in s)
  }

  /** The badge shows m exactly as the manifest has it. */
  ghost predicate Shows(f: Files, m: Entry) {
    Listable(m.path) && m.path in f && EntryOf(f, m.path) == m
  }

  /** The files of which a listing says anything. */
  ghost function Seen(f: Files, hidden: set<Path>): Files {
    map p | p in f && p !in hidden :: f[p]
  }

  /** LIST over the link: None on any failure. A directory that cannot be opened
      and a file that cannot be read are left out without an error. */
  method List(badge: Badge) returns (r: Option<seq<Entry>>, ghost hidden: set<Path>)
    ensures r.Some? ==> Lists(r.value, Seen(badge.files, hidden))
  {
    hide Listable, Fnv;
    var s: seq<Entry> := [];
    hidden := {};
    var todo := badge.files.Keys;
    while todo != {}
      invariant todo !! hidden && todo <= badge.files.Keys && DistinctPaths(s)
      invariant forall i :: 0 <= i < |s| ==>
        Listable(s[i].path) && s[i].path in badge.files && s[i].path !in todo && s[i] == EntryOf(badge.files, s[i].path)
      invariant forall i :: 0 <= i < |s| ==> s[i].path !in hidden
      invariant forall p :: p in badge.files && p !in todo && p !in hidden && Listable(p) ==>
        EntryOf(badge.files, p) in s
      decreases todo
    {
      if * { return None, hidden; }
      var p :| p in todo;
      todo := todo - {p};
      if * {
        hidden := hidden + {p};
      } else if Listable(p) { s := s + [EntryOf(badge.files, p)]; }
    }
    return Some(s), hidden;
  }

  // ── diff ──

  /** badge_by_path */
  function ByPath(s: seq<Entry>): map<Path, Entry> {
    if s == [] then map[] else ByPath(s[..|s| - 1])[s[|s| - 1].path := s[|s| - 1]]
  }

  lemma {:induction false} ByPathAt(s: seq<Entry>, p: Path)
    requires DistinctPaths(s)
    ensures p in ByPath(s) <==> exists i :: 0 <= i < |s| && s[i].path == p
    ensures forall i :: 0 <= i < |s| && s[i].path == p ==> ByPath(s)[p] == s[i]
  {
    if s != [] {
      var k := |s| - 1;
      ByPathAt(s[..k], p);
      if p in ByPath(s[..k]) {
        var i :| 0 <= i < k && s[..k][i].path == p;
        assert s[i].path == p;
      }
      if s[k].path != p {
        forall i | 0 <= i < |s| && s[i].path == p ensures p in ByPath(s[..k]) && ByPath(s)[p] == s[i] {
          assert s[..k][i].path == p;
        }
      }
    }
  }

  datatype Bucket = Absent | Stale | UpToDate

  function BucketOf(m: Entry, badge: map<Path, Entry>): Bucket {
    if m.path !in badge then Absent
    else if badge[m.path].fnv != m.fnv || badge[m.path].size != m.size then Stale
    else UpToDate
  }

  /** The manifest's entries of one bucket, in manifest order. */
  function InBucket(ms: seq<Entry>, badge: map<Path, Entry>, b: Bucket): seq<Entry> {
    if ms == [] then []
    else
      var k := |ms| - 1;
      InBucket(ms[..k], badge, b) + (if BucketOf(ms[k], badge) == b then [ms[k]] else [])
  }

  lemma {:induction false} BucketMembers(ms: seq<Entry>, badge: map<Path, Entry>, b: Bucket, m: Entry)
    ensures m in InBucket(ms, badge, b) <==> m in ms && BucketOf(m, badge) == b
  {
    if ms != [] {
      var k := |ms| - 1;
      BucketMembers(ms[..k], badge, b, m);
      assert ms == ms[..k] + [ms[k]];
    }
  }

  lemma NextInBucket(ms: seq<Entry>, badge: map<Path, Entry>, b: Bucket, k: nat)
    requires k < |ms|
    ensures InBucket(ms[..k + 1], badge, b) ==
      InBucket(ms[..k], badge, b) + if BucketOf(ms[k], badge) == b then [ms[k]] else []
  {
    assert ms[..k + 1][..k] == ms[..k];
  }

  lemma NextByPath(s: seq<Entry>, k: nat)
    requires k < |s|
    ensures ByPath(s[..k + 1]) == ByPath(s[..k])[s[k].path := s[k]]
  {
    assert s[..k + 1][..k] == s[..k];
  }

  lemma {:induction false} KeyOfEntry(s: seq<Entry>, p: Path)
    requires p in ByPath(s)
    ensures ByPath(s)[p].path == p && ByPath(s)[p] in s
  {
    var k := |s| - 1;
    if s[k].path != p { KeyOfEntry(s[..k], p); }
  }

  /** The badge's entry for a path the manifest does not name; of two entries for
      one path the later counts. */
  ghost predicate Extra(e: Entry, badge: map<Path, Entry>, manifest: seq<Entry>) {
    e.path in badge && e == badge[e.path] && forall m :: m in manifest ==> m.path != e.path
  }

  method Buckets(manifest: seq<Entry>, byPath: map<Path, Entry>)
    returns (missing: seq<Entry>, stale: seq<Entry>, upToDate: seq<Entry>, wanted: set<Path>)
    ensures missing == InBucket(manifest, byPath, Absent)
    ensures stale == InBucket(manifest, byPath, Stale)
    ensures upToDate == InBucket(manifest, byPath, UpToDate)
    ensures forall p :: p in wanted <==> exists m :: m in manifest && m.path == p
  {
    missing, stale, upToDate, wanted := [], [], [], {};
    assert forall b :: InBucket(manifest[..0], byPath, b) == [];
    hide InBucket;
    var i := 0;
    while i < |manifest|
      invariant i <= |manifest|
      invariant missing == InBucket(manifest[..i], byPath, Absent)
      invariant stale == InBucket(manifest[..i], byPath, Stale)
      invariant upToDate == InBucket(manifest[..i], byPath, UpToDate)
      invariant forall p :: p in wanted <==> exists k :: 0 <= k < i && manifest[k].path == p
    {
      var m := manifest[i];
      NextInBucket(manifest, byPath, Absent, i);
      NextInBucket(manifest, byPath, Stale, i);
      NextInBucket(manifest, byPath, UpToDate, i);
      if m.path !in byPath {
        missing := missing + [m];
      } else if byPath[m.path].fnv != m.fnv || byPath[m.path].size != m.size {
        stale := stale + [m];
      } else {
        upToDate := upToDate + [m];
      }
      wanted := wanted + {m.path};
      i := i + 1;
    }
    assert manifest[..i] == manifest;
  }

  method Extras(badge: map<Path, Entry>, keys: seq<Path>, wanted: set<Path>) returns (extras: seq<Entry>)
    requires forall p :: p in keys <==> p in badge
    requires forall p :: p in keys ==> badge[p].path == p
    requires forall j, k :: 0 <= j < k < |keys| ==> keys[j] != keys[k]
    ensures forall e :: e in extras <==> e.path in badge && e == badge[e.path] && e.path !in wanted
    ensures DistinctPaths(extras)
  {
    extras := [];
    var i := 0;
    while i < |keys|
      invariant i <= |keys|
      invariant forall e :: e in extras <==> e.path in keys[..i] && e == badge[e.path] && e.path !in wanted
      invariant DistinctPaths(extras)
    {
      assert keys[..i + 1] == keys[..i] + [keys[i]] && keys[i] !in keys[..i];
      if keys[i] !in wanted { extras := extras + [badge[keys[i]]]; }
      i := i + 1;
    }
    assert keys[..i] == keys;
  }

  method Diff(badge: seq<Entry>, manifest: seq<Entry>) returns (plan: Plan)
    ensures plan.missing == InBucket(manifest, ByPath(badge), Absent)
    ensures plan.stale == InBucket(manifest, ByPath(badge), Stale)
    ensures plan.upToDate == InBucket(manifest, ByPath(badge), UpToDate)
    ensures forall e :: e in plan.extras <==> Extra(e, ByPath(badge), manifest)
    ensures DistinctPaths(plan.extras)
  {
    assert ByPath(badge[..0]) == map[];
    hide InBucket, ByPath;
    var byPath: map<Path, Entry> := map[];
    var keys: seq<Path> := [];
    var i := 0;
    while i < |badge|
      invariant i <= |badge| && byPath == ByPath(badge[..i])
      invariant forall p :: p in keys <==> p in byPath
      invariant forall j, k :: 0 <= j < k < |keys| ==> keys[j] != keys[k]
    {
      NextByPath(badge, i);
      if badge[i].path !in byPath { keys := keys + [badge[i].path]; }
      byPath := byPath[badge[i].path := badge[i]];
      i := i + 1;
    }
    assert badge[..i] == badge;
    var missing, stale, upToDate, wanted := Buckets(manifest, byPath);
    forall p | p in keys ensures byPath[p].path == p { KeyOfEntry(badge, p); }
    var extras := Extras(byPath, keys, wanted);
    assert forall e :: e in extras <==> Extra(e, byPath, manifest);
    plan := Plan(missing, stale, upToDate, extras);
  }

  /** The bucket of a manifest entry, said of the files themselves. */
  lemma BucketMeans(s: seq<Entry>, f: Files, m: Entry)
    requires Lists(s, f)
    ensures BucketOf(m, ByPath(s)) == UpToDate <==> Shows(f, m)
    ensures BucketOf(m, ByPath(s)) == Absent <==> !(m.path in f && Listable(m.path))
  {
    hide Fnv, Listable;
    ByPathAt(s, m.path);
    if m.path in f && Listable(m.path) {
      assert EntryOf(f, m.path) in s;
    }
  }

  // ── sync ──

  datatype SyncError = ListFailed | NotOnDisk(path: Path) | PushFailed(path: Path, why: PushResult) | ClearFailed

  datatype SyncResult = SyncResult(plan: Plan, pushed: seq<Path>, cleared: seq<Path>, skipped: seq<Path>,
    errors: seq<SyncError>)

  datatype Flags = Flags(pushMissing: bool, pushStale: bool, clearExtras: bool, clearStale: bool)

  function Paths(s: seq<Entry>): (ps: seq<Path>)
    ensures |ps| == |s| && forall i :: 0 <= i < |s| ==> ps[i] == s[i].path
  {
    seq(|s|, i requires 0 <= i < |s| => s[i].path)
  }

  ghost predicate Clean(f: Files, manifest: seq<Entry>) {
    forall m :: m in manifest ==> Shows(f, m)
  }

  /** The file on disk is the one the manifest describes, under a name the badge lists. */
  ghost predicate Matches(local: Files, m: Entry) {
    Listable(m.path) && m.path in local && EntryOf(local, m.path) == m
  }

  /** When a sync without errors leaves nothing to do, given what its clear
      skipped: a missing file that is not pushed was there all along, hidden from
      the listing. */
  ghost predicate Suffices(o: Flags, plan: Plan, f0: Files, local: Files, skipped: set<Path>) {
    && (forall m :: m in plan.missing ==> if o.pushMissing then Matches(local, m) else Shows(f0, m))
    && (forall m :: m in plan.stale ==> o.pushStale && (o.clearStale ==> m.path in skipped) && Matches(local, m))
  }

  /** Of the files the badge lists, the pushed ones are the local ones and the rest are as before. */
  ghost predicate PushedState(f0: Files, f: Files, pushed: seq<Path>, local: Files) {
    && (forall p :: p in pushed ==> p in local)
    && forall p :: Listable(p) ==> if p in pushed then p in f && f[p] == local[p] else SameFile(f0, f, p)
  }

  lemma OneMorePush(f0: Files, f: Files, g: Files, pushed: seq<Path>, local: Files, path: Path)
    requires PushedState(f0, f, pushed, local) && path in local
    requires Harmless(f, g, path, local[path]) && path in g && g[path] == local[path]
    ensures PushedState(f0, g, pushed + [path], local)
  {
    hide Listable;
    TmpIsHidden(path);
    forall p | Listable(p)
      ensures if p in pushed + [path] then p in g && g[p] == local[p] else SameFile(f0, g, p)
    {
      if p != path { assert p in pushed + [path] <==> p in pushed; }
    }
  }

  ghost predicate Planned(plan: Plan, f0: Files, manifest: seq<Entry>) {
    && DistinctPaths(manifest)
    && (forall m :: m in plan.missing <==> m in manifest && !(m.path in f0 && Listable(m.path)))
    && (forall m :: m in plan.stale <==> m in manifest && m.path in f0 && Listable(m.path) && EntryOf(f0, m.path) != m)
    && (forall m :: m in plan.upToDate <==> m in manifest && Shows(f0, m))
    && (forall e :: e in plan.extras <==> IsExtra(e, f0, manifest))
  }

  /** A file that is listed but not wanted. */
  ghost predicate IsExtra(e: Entry, f0: Files, manifest: seq<Entry>) {
    e.path in f0 && Listable(e.path) && e == EntryOf(f0, e.path) && forall m :: m in manifest ==> m.path != e.path
  }

  ghost predicate Names(s: seq<Entry>, p: Path) {
    exists e :: e in s && e.path == p
  }

  function ToPush(o: Flags, plan: Plan): seq<Path> {
    (if o.pushMissing then Paths(plan.missing) else []) + (if o.pushStale then Paths(plan.stale) else [])
  }

  function ToClear(o: Flags, plan: Plan): seq<Path> {
    (if o.clearExtras then Paths(plan.extras) else []) + (if o.clearStale then Paths(plan.stale) else [])
  }

  lemma InPaths(s: seq<Entry>, p: Path)
    ensures p in Paths(s) <==> Names(s, p)
  {
    if p in Paths(s) {
      var i :| 0 <= i < |s| && Paths(s)[i] == p;
      assert s[i] in s;
    }
    if e :| e in s && e.path == p {
      var i :| 0 <= i < |s| && s[i] == e;
      assert Paths(s)[i] == p;
    }
  }

  lemma OneEntry(s: seq<Entry>, a: Entry, b: Entry)
    requires DistinctPaths(s) && a in s && b in s && a.path == b.path
    ensures a == b
  {}

  lemma NotExtra(plan: Plan, f0: Files, manifest: seq<Entry>, m: Entry)
    requires Planned(plan, f0, manifest) && m in manifest
    ensures m.path !in Paths(plan.extras)
  {
    InPaths(plan.extras, m.path);
  }

  /** One manifest entry at the end of a sync. */
  lemma EntryAfter(o: Flags, plan: Plan, f0: Files, hidden: set<Path>, f: Files, local: Files, manifest: seq<Entry>,
                   skipped: set<Path>, m: Entry)
    requires Planned(plan, Seen(f0, hidden), manifest) && m in manifest
    requires PushedState(f0, f, ToPush(o, plan), local)
    ensures var g := Cleared(f, ToClear(o, plan), skipped);
      Shows(g, m) <==>
        if m in plan.missing then if o.pushMissing then Matches(local, m) else Shows(f0, m)
        else if m in plan.stale then o.pushStale && (o.clearStale ==> m.path in skipped) && Matches(local, m)
        else true
  {
    hide Fnv, Listable;
    var p := m.path;
    InPaths(plan.missing, p);
    InPaths(plan.stale, p);
    InPaths(plan.extras, p);
    forall e | e in plan.missing && e.path == p ensures e == m { OneEntry(manifest, e, m); }
    forall e | e in plan.stale && e.path == p ensures e == m { OneEntry(manifest, e, m); }
    assert p in Paths(plan.missing) <==> m in plan.missing;
    assert p in Paths(plan.stale) <==> m in plan.stale;
    hide IsExtra;
    NotExtra(plan, Seen(f0, hidden), manifest, m);
    assert p in ToPush(o, plan) <==> (o.pushMissing && m in plan.missing) || (o.pushStale && m in plan.stale);
    assert p in ToClear(o, plan) <==> o.clearStale && m in plan.stale;
  }

  lemma CleanIff(o: Flags, plan: Plan, f0: Files, hidden: set<Path>, f: Files, local: Files, manifest: seq<Entry>,
                 skipped: set<Path>)
    requires Planned(plan, Seen(f0, hidden), manifest) && PushedState(f0, f, ToPush(o, plan), local)
    ensures Clean(Cleared(f, ToClear(o, plan), skipped), manifest) <==> Suffices(o, plan, f0, local, skipped)
  {
    hide Matches, Shows, PushedState, Listable;
    forall m | m in manifest
      ensures Shows(Cleared(f, ToClear(o, plan), skipped), m) <==>
        if m in plan.missing then if o.pushMissing then Matches(local, m) else Shows(f0, m)
        else if m in plan.stale then o.pushStale && (o.clearStale ==> m.path in skipped) && Matches(local, m)
        else true
    {
      EntryAfter(o, plan, f0, hidden, f, local, manifest, skipped, m);
    }
  }

  // ── What a sync leaves behind ──

  ghost predicate SameFile(f0: Files, f: Files, p: Path) {
    (p in f <==> p in f0) && (p in f ==> f[p] == f0[p])
  }

  /** The flags say that this path is to be pushed. */
  ghost predicate Comes(o: Flags, plan: Plan, p: Path) {
    (o.pushMissing && Names(plan.missing, p)) || (o.pushStale && Names(plan.stale, p))
  }

  ghost predicate Goes(o: Flags, plan: Plan, p: Path) {
    (o.clearExtras && Names(plan.extras, p)) || (o.clearStale && Names(plan.stale, p))
  }

  ghost predicate Passed(o: Flags, plan: Plan, p: Path) {
    (!o.pushMissing && Names(plan.missing, p)) || (!o.pushStale && !o.clearStale && Names(plan.stale, p))
  }

  /** After a sync without errors: what was to go is gone, unless it was skipped,
      what was to come is there, and everything else is as before. */
  ghost predicate EndsAs(o: Flags, plan: Plan, f0: Files, f: Files, local: Files, skipped: set<Path>) {
    forall p :: Listable(p) ==>
      if Goes(o, plan, p) && p !in skipped then p !in f
      else if Comes(o, plan, p) then p in local && p in f && f[p] == local[p]
      else SameFile(f0, f, p)
  }

  /** After any sync: a file is as before, or the one to come, or one to go that is gone. */
  ghost predicate NothingElse(o: Flags, plan: Plan, f0: Files, f: Files, local: Files) {
    forall p :: Listable(p) && !SameFile(f0, f, p) ==>
      || (p !in f && (Goes(o, plan, p) || Comes(o, plan, p)))
      || (p in f && Comes(o, plan, p) && p in local && f[p] == local[p])
  }

  lemma InToPush(o: Flags, plan: Plan, p: Path)
    ensures p in ToPush(o, plan) <==> Comes(o, plan, p)
    ensures p in ToClear(o, plan) <==> Goes(o, plan, p)
  {
    hide Names, Paths;
    InPaths(plan.missing, p);
    InPaths(plan.stale, p);
    InPaths(plan.extras, p);
  }

  lemma EndsThere(o: Flags, plan: Plan, f0: Files, f: Files, local: Files, skipped: set<Path>)
    requires PushedState(f0, f, ToPush(o, plan), local)
    ensures EndsAs(o, plan, f0, Cleared(f, ToClear(o, plan), skipped), local, skipped)
  {
    hide Listable, ToPush, ToClear, Comes, Goes;
    forall p | Listable(p)
      ensures var g := Cleared(f, ToClear(o, plan), skipped);
        if Goes(o, plan, p) && p !in skipped then p !in g
        else if Comes(o, plan, p) then p in local && p in g && g[p] == local[p]
        else SameFile(f0, g, p)
    {
      InToPush(o, plan, p);
    }
  }

  lemma StaysThere(o: Flags, plan: Plan, f0: Files, f: Files, g: Files, local: Files, skipped: set<Path>, n: int)
    requires PushedOnly(f0, f, ToPush(o, plan), local) && ClearedTo(f, g, ToClear(o, plan), skipped, n)
    ensures NothingElse(o, plan, f0, g, local)
  {
    hide Listable, ToPush, ToClear, Comes, Goes;
    forall p | Listable(p) && !SameFile(f0, g, p)
      ensures || (p !in g && (Goes(o, plan, p) || Comes(o, plan, p)))
              || (p in g && Comes(o, plan, p) && p in local && g[p] == local[p])
    {
      InToPush(o, plan, p);
      assert p in ToClear(o, plan)[..n] ==> p in ToClear(o, plan);
    }
  }

  /** With clearExtras no file is left that is not wanted, but for those the
      listing hid and the clear skipped. */
  lemma NoExtraLeft(o: Flags, plan: Plan, f0: Files, hidden: set<Path>, f: Files, local: Files, manifest: seq<Entry>,
                    skipped: set<Path>, p: Path)
    requires o.clearExtras && Planned(plan, Seen(f0, hidden), manifest) && EndsAs(o, plan, f0, f, local, skipped)
    requires p in f && Listable(p) && forall m :: m in manifest ==> m.path != p
    ensures p in hidden || p in skipped
  {
    hide Listable, Fnv;
    assert !Comes(o, plan, p);
    if p in f0 && p !in hidden {
      ExtraNamed(plan, Seen(f0, hidden), manifest, p);
    }
  }

  lemma ExtraNamed(plan: Plan, f0: Files, manifest: seq<Entry>, p: Path)
    requires Planned(plan, f0, manifest)
    requires p in f0 && Listable(p) && forall m :: m in manifest ==> m.path != p
    ensures Names(plan.extras, p)
  {
    assert IsExtra(EntryOf(f0, p), f0, manifest);
  }

  /** Without a flag that clears, no listed file that is not pushed is touched. */
  lemma NothingLost(o: Flags, plan: Plan, f0: Files, f: Files, local: Files, p: Path)
    requires !o.clearExtras && !o.clearStale && NothingElse(o, plan, f0, f, local)
    requires Listable(p) && !Comes(o, plan, p)
    ensures SameFile(f0, f, p)
  {
    hide Listable;
  }

  /** Connect, list, diff, push, clear. Whatever fails, a listable file is as
      before, the one to come, or gone. With no error reported every file is as
      the flags and the plan say, and the badge shows exactly the manifest if and
      only if every difference was to be pushed (or was none, the file having been
      hidden from the listing), none of it was cleared again (unless that clear
      skipped it), and each pushed file is the one its manifest entry describes. */
  method Sync(badge: Badge, manifest: seq<Entry>, local: Files, o: Flags)
    returns (r: SyncResult, ghost hidden: set<Path>)
    requires badge.Valid() && DistinctPaths(manifest)
    modifies badge
    ensures badge.Valid()
    ensures ListFailed in r.errors ==>
      r == SyncResult(Plan([], [], [], []), [], [], [], [ListFailed]) && badge.files == old(badge.files)
    ensures ListFailed !in r.errors ==>
      && Planned(r.plan, Seen(old(badge.files), hidden), manifest)
      && NothingElse(o, r.plan, old(badge.files), badge.files, local) && Reported(o, local, r)
      && PushesLast(o, r, badge.files, local)
    ensures r.errors == [] ==>
      && EndsAs(o, r.plan, old(badge.files), badge.files, local, badge.skipped)
      && r.pushed == ToPush(o, r.plan) && r.cleared == ToClear(o, r.plan)
      && (Clean(badge.files, manifest) <==> Suffices(o, r.plan, old(badge.files), local, badge.skipped))
  {
    hide PushedState, Listable, Fnv, ByPath, InBucket, Clean, Suffices, ToPush, ToClear, Cleared;
    hide Extra, Planned, Lists, Seen, EndsAs, NothingElse, Reported, PushesLast, Once;
    var listing;
    listing, hidden := List(badge);
    if listing == None {
      return SyncResult(Plan([], [], [], []), [], [], [], [ListFailed]), hidden;
    }
    var plan := Diff(listing.value, manifest);
    ghost var f0 := badge.files;
    PlanMeans(plan, listing.value, Seen(f0, hidden), manifest);
    ToPushOnce(plan, manifest, ByPath(listing.value), o);
    ghost var f;
    r, f := CarryOut(badge, plan, local, o);
    if r.errors == [] {
      CleanIff(o, plan, f0, hidden, f, local, manifest, badge.skipped);
    }
  }

  /** What the result says: each path to push was pushed or has an error, those
      passed over are listed, and cleared paths are those to clear or none. */
  ghost predicate Reported(o: Flags, local: Files, r: SyncResult) {
    && (forall p :: p in r.skipped <==> Passed(o, r.plan, p))
    && (forall p :: NotOnDisk(p) in r.errors <==> Comes(o, r.plan, p) && p !in local)
    && (forall p :: Comes(o, r.plan, p) <==> p in r.pushed || FailedFor(r.errors, p))
    && (r.cleared == if ClearFailed in r.errors then [] else ToClear(o, r.plan))
    && (ClearFailed in r.errors ==> ToClear(o, r.plan) != [])
  }

  /** A file reported as pushed is on the badge, unless its path was to be cleared again. */
  ghost predicate PushesLast(o: Flags, r: SyncResult, f: Files, local: Files) {
    forall p :: p in r.pushed && Listable(p) && !Goes(o, r.plan, p) ==> p in local && p in f && f[p] == local[p]
  }

  lemma PushedStays(o: Flags, r: SyncResult, f: Files, g: Files, local: Files, skipped: set<Path>, n: int)
    requires Held(f, r.pushed, local) && ClearedTo(f, g, ToClear(o, r.plan), skipped, n)
    ensures PushesLast(o, r, g, local)
  {
    hide Listable, ToPush, ToClear, Comes, Goes;
    forall p | p in r.pushed && Listable(p) && !Goes(o, r.plan, p) ensures p in local && p in g && g[p] == local[p] {
      InToPush(o, r.plan, p);
      assert p in ToClear(o, r.plan)[..n] ==> p in ToClear(o, r.plan);
    }
  }

  /** Pushes, then clears; f is what the badge held in between. */
  method CarryOut(badge: Badge, plan: Plan, local: Files, o: Flags) returns (r: SyncResult, ghost f: Files)
    requires badge.Valid() && Once(ToPush(o, plan))
    modifies badge
    ensures badge.Valid() && r.plan == plan && ListFailed !in r.errors
    ensures NothingElse(o, plan, old(badge.files), badge.files, local) && Reported(o, local, r)
    ensures PushesLast(o, r, badge.files, local)
    ensures r.errors == [] ==>
      && EndsAs(o, plan, old(badge.files), badge.files, local, badge.skipped)
      && r.pushed == ToPush(o, plan) && r.cleared == ToClear(o, plan)
      && PushedState(old(badge.files), f, ToPush(o, plan), local)
      && badge.files == Cleared(f, ToClear(o, plan), badge.skipped)
  {
    hide PushedState, PushedOnly, EndsAs, NothingElse, Cleared, ClearedTo, Held, PushesLast, Once;
    hide Paths, Names, Comes, Passed, FailedFor, ToPush, ToClear;
    ghost var f0 := badge.files;
    var toPush, toClear, skipped := Chosen(plan, o);
    var pushed, errors := PushAll(badge, toPush, local);
    forall p ensures p in toPush <==> Comes(o, plan, p) { InToPush(o, plan, p); }
    f := badge.files;
    var cleared, ok;
    ghost var n;
    cleared, ok, n := ClearAll(badge, toClear);
    StaysThere(o, plan, f0, f, badge.files, local, badge.skipped, n);
    if !ok {
      forall p ensures FailedFor(errors + [ClearFailed], p) <==> FailedFor(errors, p) { FailedStill(errors, p); }
      errors := errors + [ClearFailed];
    }
    if errors == [] { EndsThere(o, plan, f0, f, local, badge.skipped); }
    r := SyncResult(plan, pushed, cleared, skipped, errors);
    PushedStays(o, r, f, badge.files, local, badge.skipped, n);
  }

  /** Which paths the flags say to push, to clear and to pass over. */
  method Chosen(plan: Plan, o: Flags) returns (toPush: seq<Path>, toClear: seq<Path>, skipped: seq<Path>)
    ensures toPush == ToPush(o, plan) && toClear == ToClear(o, plan)
    ensures forall p :: p in skipped <==> Passed(o, plan, p)
  {
    hide Paths, Names, Passed;
    toPush, toClear, skipped := [], [], [];
    if o.pushMissing { toPush := toPush + Paths(plan.missing); } else { skipped := skipped + Paths(plan.missing); }
    if o.pushStale {
      toPush := toPush + Paths(plan.stale);
    } else if !o.clearStale {
      skipped := skipped + Paths(plan.stale);
    }
    if o.clearExtras { toClear := toClear + Paths(plan.extras); }
    if o.clearStale { toClear := toClear + Paths(plan.stale); }
    forall p ensures p in skipped <==> Passed(o, plan, p) { InSkipped(o, plan, skipped, p); }
  }

  /** The clear script is only sent when there is something to clear. */
  method ClearAll(badge: Badge, toClear: seq<Path>) returns (cleared: seq<Path>, ok: bool, ghost n: int)
    requires badge.Valid()
    modifies badge
    ensures badge.Valid() && ClearedTo(old(badge.files), badge.files, toClear, badge.skipped, n)
    ensures ok ==> badge.files == Cleared(old(badge.files), toClear, badge.skipped)
    ensures cleared == (if ok then toClear else []) && (toClear == [] ==> ok)
  {
    hide Cleared, ClearedTo;
    ghost var f := badge.files;
    if toClear == [] {
      NothingToClear(f, badge.skipped);
      return [], true, 0;
    }
    var reply := badge.Clear(toClear);
    n :| ClearedTo(f, badge.files, toClear, badge.skipped, n);
    ok := reply == Ack;
    cleared := if ok then toClear else [];
  }

  lemma NothingToClear(f: Files, skipped: set<Path>)
    ensures Cleared(f, [], skipped) == f && ClearedTo(f, f, [], skipped, 0)
  {
    assert Cleared(f, [], skipped) == f;
  }

  lemma InSkipped(o: Flags, plan: Plan, skipped: seq<Path>, p: Path)
    requires skipped == (if o.pushMissing then [] else Paths(plan.missing)) +
      (if o.pushStale || o.clearStale then [] else Paths(plan.stale))
    ensures p in skipped <==> Passed(o, plan, p)
  {
    hide Names, Paths;
    InPaths(plan.missing, p);
    InPaths(plan.stale, p);
  }

  /** Some push of this path was given up. */
  ghost predicate FailedFor(errors: seq<SyncError>, p: Path) {
    NotOnDisk(p) in errors || exists why :: PushFailed(p, why) in errors
  }

  /** Of the files the badge lists only those to push have changed, and they are
      the old one, none, or the local one. */
  ghost predicate PushedOnly(f0: Files, f: Files, toPush: seq<Path>, local: Files) {
    forall p :: Listable(p) && !SameFile(f0, f, p) ==>
      p in toPush && p in local && (p in f ==> f[p] == local[p])
  }

  lemma PushedMore(f0: Files, f: Files, g: Files, toPush: seq<Path>, local: Files, path: Path)
    requires PushedOnly(f0, f, toPush, local) && path in toPush && path in local && Harmless(f, g, path, local[path])
    ensures PushedOnly(f0, g, toPush, local)
  {
    hide Listable;
    TmpIsHidden(path);
  }

  /** No path twice. */
  ghost predicate Once(ps: seq<Path>) {
    forall i, j :: 0 <= i < j < |ps| ==> ps[i] != ps[j]
  }

  /** What was pushed is there. */
  ghost predicate Held(f: Files, pushed: seq<Path>, local: Files) {
    forall p :: p in pushed && Listable(p) ==> p in local && p in f && f[p] == local[p]
  }

  lemma HeldOn(f: Files, g: Files, pushed: seq<Path>, local: Files, path: Path)
    requires Held(f, pushed, local) && path in local && Harmless(f, g, path, local[path]) && path !in pushed
    ensures Held(g, pushed, local)
    ensures path in g && g[path] == local[path] ==> Held(g, pushed + [path], local)
  {
    hide Listable;
    TmpIsHidden(path);
  }

  lemma {:induction false} BucketOnce(ms: seq<Entry>, badge: map<Path, Entry>, b: Bucket)
    requires DistinctPaths(ms)
    ensures DistinctPaths(InBucket(ms, badge, b))
  {
    if ms != [] {
      var k := |ms| - 1;
      BucketOnce(ms[..k], badge, b);
      var less := InBucket(ms[..k], badge, b);
      forall i | 0 <= i < |less| ensures less[i].path != ms[k].path {
        BucketMembers(ms[..k], badge, b, less[i]);
      }
    }
  }

  /** The paths to push all differ: missing and stale ones are of different entries. */
  lemma ToPushOnce(plan: Plan, ms: seq<Entry>, badge: map<Path, Entry>, o: Flags)
    requires DistinctPaths(ms)
    requires plan.missing == InBucket(ms, badge, Absent) && plan.stale == InBucket(ms, badge, Stale)
    ensures Once(ToPush(o, plan))
  {
    BucketOnce(ms, badge, Absent);
    BucketOnce(ms, badge, Stale);
    hide InBucket, BucketOf;
    var a, b := plan.missing, plan.stale;
    forall i, j | 0 <= i < |a| && 0 <= j < |b| ensures a[i].path != b[j].path {
      BucketMembers(ms, badge, Absent, a[i]);
      BucketMembers(ms, badge, Stale, b[j]);
      if a[i].path == b[j].path { OneEntry(ms, a[i], b[j]); }
    }
  }

  lemma OncePrefix(ps: seq<Path>, i: nat)
    requires Once(ps) && i < |ps|
    ensures ps[i] !in ps[..i]
  {}

  ghost predicate OnlyPushErrors(errors: seq<SyncError>) {
    forall e :: e in errors ==> e.NotOnDisk? || e.PushFailed?
  }

  /** The push loop of sync: a failed push is noted and the next one tried. */
  method PushAll(badge: Badge, toPush: seq<Path>, local: Files) returns (pushed: seq<Path>, errors: seq<SyncError>)
    requires badge.Valid() && Once(toPush)
    modifies badge
    ensures badge.Valid() && PushedOnly(old(badge.files), badge.files, toPush, local) && OnlyPushErrors(errors)
    ensures Held(badge.files, pushed, local)
    ensures forall p :: NotOnDisk(p) in errors <==> p in toPush && p !in local
    ensures forall p :: p in toPush <==> p in pushed || FailedFor(errors, p)
    ensures errors == [] ==> pushed == toPush && PushedState(old(badge.files), badge.files, toPush, local)
  {
    hide PushedState, PushedOnly, Listable, Harmless, AllPassable, StallsInARow, Fnv, Held, Once;
    ghost var f0 := badge.files;
    pushed, errors := [], [];
    NothingPushed(f0, toPush, local);
    var i := 0;
    while i < |toPush|
      invariant i <= |toPush| && badge.Valid() && PushedOnly(f0, badge.files, toPush, local) && OnlyPushErrors(errors)
      invariant Held(badge.files, pushed, local) && forall p :: p in pushed ==> p in toPush[..i]
      invariant forall p :: NotOnDisk(p) in errors <==> p in toPush[..i] && p !in local
      invariant forall p :: p in toPush[..i] <==> p in pushed || FailedFor(errors, p)
      invariant errors == [] ==> pushed == toPush[..i] && PushedState(f0, badge.files, pushed, local)
    {
      var p := toPush[i];
      assert toPush[..i + 1] == toPush[..i] + [p];
      ghost var before := errors;
      if p !in local {
        errors := errors + [NotOnDisk(p)];
        forall q ensures FailedFor(errors, q) <==> FailedFor(before, q) || q == p {
          FailedMore(before, NotOnDisk(p), q);
        }
      } else {
        ghost var f := badge.files;
        var result := PushVia(badge, p, local[p]);
        PushedMore(f0, f, badge.files, toPush, local, p);
        OncePrefix(toPush, i);
        HeldOn(f, badge.files, pushed, local, p);
        if result == Pushed {
          if errors == [] { OneMorePush(f0, f, badge.files, pushed, local, p); }
          pushed := pushed + [p];
        } else {
          errors := errors + [PushFailed(p, result)];
          forall q ensures FailedFor(errors, q) <==> FailedFor(before, q) || q == p {
            FailedMore(before, PushFailed(p, result), q);
          }
        }
      }
      i := i + 1;
    }
    assert toPush[..i] == toPush;
  }

  lemma FailedStill(errors: seq<SyncError>, p: Path)
    ensures FailedFor(errors + [ClearFailed], p) <==> FailedFor(errors, p)
  {
    if why :| PushFailed(p, why) in errors { assert PushFailed(p, why) in errors + [ClearFailed]; }
  }

  lemma FailedMore(errors: seq<SyncError>, e: SyncError, p: Path)
    requires e.NotOnDisk? || e.PushFailed?
    ensures FailedFor(errors + [e], p) <==> FailedFor(errors, p) || p == e.path
  {
    if e.path == p && e.PushFailed? { assert PushFailed(p, e.why) in errors + [e]; }
    if why :| PushFailed(p, why) in errors { assert PushFailed(p, why) in errors + [e]; }
  }

  lemma NothingPushed(f0: Files, toPush: seq<Path>, local: Files)
    ensures PushedState(f0, f0, [], local) && PushedOnly(f0, f0, toPush, local) && Held(f0, [], local)
  {}

  lemma PlanMeans(plan: Plan, listing: seq<Entry>, f0: Files, manifest: seq<Entry>)
    requires Lists(listing, f0) && DistinctPaths(manifest)
    requires plan.missing == InBucket(manifest, ByPath(listing), Absent)
      && plan.stale == InBucket(manifest, ByPath(listing), Stale)
      && plan.upToDate == InBucket(manifest, ByPath(listing), UpToDate)
    requires forall e :: e in plan.extras <==> Extra(e, ByPath(listing), manifest)
    ensures Planned(plan, f0, manifest)
  {
    hide Lists, InBucket, Listable, Fnv, BucketOf, Extra, IsExtra, Shows;
    forall m: Entry
      ensures m in plan.missing <==> m in manifest && !(m.path in f0 && Listable(m.path))
      ensures m in plan.stale <==> m in manifest && m.path in f0 && Listable(m.path) && EntryOf(f0, m.path) != m
      ensures m in plan.upToDate <==> m in manifest && Shows(f0, m)
    {
      BucketMembers(manifest, ByPath(listing), Absent, m);
      BucketMembers(manifest, ByPath(listing), Stale, m);
      BucketMembers(manifest, ByPath(listing), UpToDate, m);
      BucketMeans(listing, f0, m);
      ShowsIs(f0, m);
    }
    forall e: Entry ensures e in plan.extras <==> IsExtra(e, f0, manifest) {
      ExtraMeans(listing, f0, manifest, e);
    }
  }

  lemma ShowsIs(f: Files, m: Entry)
    ensures Shows(f, m) <==> m.path in f && Listable(m.path) && EntryOf(f, m.path) == m
  {}

  lemma ExtraMeans(listing: seq<Entry>, f0: Files, manifest: seq<Entry>, e: Entry)
    requires Lists(listing, f0)
    ensures Extra(e, ByPath(listing), manifest) <==> IsExtra(e, f0, manifest)
  {
    hide Listable, Fnv;
    ByPathAt(listing, e.path);
    if e.path in f0 && Listable(e.path) {
      assert EntryOf(f0, e.path) in listing;
    }
  }

  /** A clean plan is a clean badge of whose wanted files none was hidden. */
  lemma RelistIsClean(plan: Plan, listing: seq<Entry>, f: Files, hidden: set<Path>, manifest: seq<Entry>)
    requires Lists(listing, Seen(f, hidden))
    requires plan.missing == InBucket(manifest, ByPath(listing), Absent)
      && plan.stale == InBucket(manifest, ByPath(listing), Stale)
    ensures IsClean(plan) <==> Clean(f, manifest) && forall m :: m in manifest ==> m.path !in hidden
  {
    hide Lists, InBucket, Listable, Fnv;
    forall m | m in manifest
      ensures m !in plan.missing && m !in plan.stale <==> Shows(f, m) && m.path !in hidden
    {
      BucketMeans(listing, Seen(f, hidden), m);
      BucketMembers(manifest, ByPath(listing), Absent, m);
      BucketMembers(manifest, ByPath(listing), Stale, m);
    }
    if plan.missing != [] {
      BucketMembers(manifest, ByPath(listing), Absent, plan.missing[0]);
      assert plan.missing[0] in plan.missing;
    }
    if plan.stale != [] {
      BucketMembers(manifest, ByPath(listing), Stale, plan.stale[0]);
      assert plan.stale[0] in plan.stale;
    }
  }
}
