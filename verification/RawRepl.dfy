/** exec_streaming: reading a raw REPL reply off a port that hands it over in
    arbitrary pieces. */
module RawRepl {
  import opened Bytes

  const LF: byte := 10
  const EOT: byte := 4
  const CAP_O: byte := 79
  const CAP_K: byte := 75

  // ── The reply, seen whole ──

  /** Finished lines and the line still open. */
  function Split(b: seq<byte>): (r: (seq<seq<byte>>, seq<byte>)) {
    if b == [] then ([], [])
    else
      var k := |b| - 1;
      var (lines, open) := Split(b[..k]);
      if b[k] == LF then (lines + [open], []) else (lines, open + [b[k]])
  }

  function Join(lines: seq<seq<byte>>): seq<byte> {
    if lines == [] then [] else Join(lines[..|lines| - 1]) + lines[|lines| - 1] + [LF]
  }

  /** Splitting loses nothing and leaves no newline inside a line. */
  lemma {:induction false} SplitRoundTrip(b: seq<byte>)
    ensures Join(Split(b).0) + Split(b).1 == b
    ensures LF !in Split(b).1 && forall l :: l in Split(b).0 ==> LF !in l
  {
    if b != [] {
      var k := |b| - 1;
      var (lines, open) := Split(b[..k]);
      SplitRoundTrip(b[..k]);
      assert b == b[..k] + [b[k]];
      if b[k] == LF {
        assert (lines + [open])[..|lines|] == lines;
      } else {
        assert Join(lines) + (open + [b[k]]) == (Join(lines) + open) + [b[k]];
      }
    }
  }

  /** What the line callback is given: a last partial line counts unless empty. */
  function Delivered(b: seq<byte>): seq<seq<byte>> {
    Split(b).0 + (if Split(b).1 == [] then [] else [Split(b).1])
  }

  /** "OK" ends at i for the first time. */
  ghost predicate FirstOk(s: seq<byte>, i: nat) {
    EndsOk(s, i) && forall j :: 0 <= j < i ==> !EndsOk(s, j)
  }

  predicate EndsOk(s: seq<byte>, i: nat) {
    2 <= i <= |s| && s[i - 2] == CAP_O && s[i - 1] == CAP_K
  }

  /** The first EOT at or after from is at i. */
  ghost predicate FirstEot(s: seq<byte>, from: nat, i: nat) {
    from <= i < |s| && s[i] == EOT && forall j :: from <= j < i ==> s[j] != EOT
  }

  /** Echo up to i, standard output up to the EOT at j, standard error up to the one at k. */
  ghost predicate Marks(s: seq<byte>, i: nat, j: nat, k: nat) {
    FirstOk(s, i) && FirstEot(s, i, j) && FirstEot(s, j + 1, k)
  }

  ghost predicate ReplyIs(s: seq<byte>, lines: seq<seq<byte>>, err: seq<byte>) {
    exists i: nat, j: nat, k: nat :: Marks(s, i, j, k) && lines == Delivered(s[i..j]) && err == s[j + 1..k]
  }

  lemma FirstOkUnique(s: seq<byte>, i: nat, i': nat)
    requires FirstOk(s, i) && FirstOk(s, i')
    ensures i == i'
  {}

  lemma FirstEotUnique(s: seq<byte>, from: nat, i: nat, i': nat)
    requires FirstEot(s, from, i) && FirstEot(s, from, i')
    ensures i == i'
  {}

  /** A stream of octets is one reply only. */
  lemma ReplyUnique(s: seq<byte>, lines: seq<seq<byte>>, err: seq<byte>, lines': seq<seq<byte>>, err': seq<byte>)
    requires ReplyIs(s, lines, err) && ReplyIs(s, lines', err')
    ensures lines == lines' && err == err'
  {
    hide Delivered;
    var i: nat, j: nat, k: nat :| Marks(s, i, j, k) && lines == Delivered(s[i..j]) && err == s[j + 1..k];
    var i': nat, j': nat, k': nat :| Marks(s, i', j', k') && lines' == Delivered(s[i'..j']) && err' == s[j' + 1..k'];
    hide FirstOk, FirstEot;
    FirstOkUnique(s, i, i');
    FirstEotUnique(s, i, j, j');
    FirstEotUnique(s, j + 1, k, k');
  }

  // ── bytes.strip, bytes.rstrip ──

  predicate IsSpace(b: byte) {
    b == 32 || 9 <= b <= 13
  }

  ghost predicate Blank(s: seq<byte>) {
    forall i :: 0 <= i < |s| ==> IsSpace(s[i])
  }

  method IsBlank(s: seq<byte>) returns (blank: bool)
    ensures blank <==> Blank(s)
  {
    var i := 0;
    while i < |s|
      invariant i <= |s| && forall j :: 0 <= j < i ==> IsSpace(s[j])
    {
      if !IsSpace(s[i]) { return false; }
      i := i + 1;
    }
    return true;
  }

  method StripEot(s: seq<byte>) returns (t: seq<byte>)
    ensures t <= s && (t != [] ==> t[|t| - 1] != EOT)
    ensures forall i :: 0 <= i < |s| && s[i] != EOT ==> i < |t|
  {
    t := s;
    while t != [] && t[|t| - 1] == EOT
      invariant t <= s && forall i :: |t| <= i < |s| ==> s[i] == EOT
      decreases |t|
    {
      t := t[..|t| - 1];
    }
  }

  // ── The port ──

  class Port {
    /** Octets still to come, in order. */
    var pending: seq<byte>
    /** Reads that can still be made before the deadline. */
    var patience: nat

    constructor (pending: seq<byte>, patience: nat)
      ensures this.pending == pending && this.patience == patience
    {
      this.pending, this.patience := pending, patience;
    }

    /** Hands over any number of the next octets up to max, perhaps none. */
    method Read(max: nat) returns (chunk: seq<byte>)
      requires patience > 0
      modifies this
      ensures |chunk| <= max && old(pending) == chunk + pending
      ensures patience == old(patience) - 1
    {
      var n := 0;
      while n < max && n < |pending|
        invariant n <= max && n <= |pending|
      {
        if * { break; }
        n := n + 1;
      }
      chunk := pending[..n];
      pending := pending[n..];
      patience := patience - 1;
    }
  }

  datatype Outcome = Finished | Raised(err: seq<byte>) | TimedOut

  /** Reads one octet at a time up to and including the first EOT. */
  method ReadUntilEot(port: Port) returns (buf: seq<byte>, ok: bool)
    modifies port
    ensures old(port.pending) == buf + port.pending
    ensures ok ==> buf != [] && buf[|buf| - 1] == EOT && forall i :: 0 <= i < |buf| - 1 ==> buf[i] != EOT
    ensures !ok ==> port.patience == 0
  {
    buf := [];
    while buf == [] || buf[|buf| - 1] != EOT
      invariant old(port.pending) == buf + port.pending
      invariant forall i :: 0 <= i < |buf| - 1 ==> buf[i] != EOT
      decreases port.patience
    {
      if port.patience == 0 { return buf, false; }
      var chunk := port.Read(1);
      buf := buf + chunk;
    }
    return buf, true;
  }

  method ReadUntilOk(port: Port) returns (buf: seq<byte>, ok: bool)
    modifies port
    ensures old(port.pending) == buf + port.pending
    ensures ok ==> FirstOk(buf, |buf|)
    ensures !ok ==> port.patience == 0
  {
    buf := [];
    while !EndsOk(buf, |buf|)
      invariant old(port.pending) == buf + port.pending
      invariant forall j :: 0 <= j < |buf| ==> !EndsOk(buf, j)
      decreases port.patience
    {
      if port.patience == 0 { return buf, false; }
      var chunk := port.Read(1);
      ghost var before := buf;
      buf := buf + chunk;
      assert forall j :: 0 <= j <= |before| ==> (EndsOk(buf, j) <==> EndsOk(before, j));
    }
    return buf, true;
  }

  lemma OkInWhole(echo: seq<byte>, rest: seq<byte>)
    requires FirstOk(echo, |echo|)
    ensures FirstOk(echo + rest, |echo|)
  {
    assert forall j :: 0 <= j <= |echo| ==> (EndsOk(echo + rest, j) <==> EndsOk(echo, j));
  }

  lemma SplitMore(b: seq<byte>, x: byte)
    ensures x == LF ==> Split(b + [x]) == (Split(b).0 + [Split(b).1], [])
    ensures x != LF ==> Split(b + [x]) == (Split(b).0, Split(b).1 + [x])
  {
    assert (b + [x])[..|b|] == b;
  }

  /** Goes through one chunk, b being the output before it: stops at an EOT. */
  method TakeChunk(chunk: seq<byte>, lines0: seq<seq<byte>>, buf0: seq<byte>, ghost b: seq<byte>)
    returns (lines: seq<seq<byte>>, buf: seq<byte>, n: nat)
    requires (lines0, buf0) == Split(b)
    ensures n <= |chunk| && (forall i :: 0 <= i < n ==> chunk[i] != EOT) && (n < |chunk| ==> chunk[n] == EOT)
    ensures n == |chunk| ==> (lines, buf) == Split(b + chunk)
    ensures n < |chunk| ==> lines == Delivered(b + chunk[..n])
  {
    hide Split;
    lines, buf, n := lines0, buf0, 0;
    assert b + chunk[..0] == b;
    while n < |chunk|
      invariant n <= |chunk| && (lines, buf) == Split(b + chunk[..n])
      invariant forall i :: 0 <= i < n ==> chunk[i] != EOT
    {
      SplitMore(b + chunk[..n], chunk[n]);
      assert b + chunk[..n + 1] == b + chunk[..n] + [chunk[n]];
      if chunk[n] == EOT {
        if buf != [] { lines := lines + [buf]; }
        return;
      }
      if chunk[n] == LF {
        lines := lines + [buf];
        buf := [];
      } else {
        buf := buf + [chunk[n]];
      }
      n := n + 1;
    }
    assert chunk[..n] == chunk;
  }

  lemma ReplyFrom(s: seq<byte>, i: nat, j: nat, k: nat)
    requires FirstOk(s, i) && FirstEot(s, i, j) && FirstEot(s, j + 1, k)
    ensures ReplyIs(s, Delivered(s[i..j]), s[j + 1..k])
  {
    assert Marks(s, i, j, k);
  }

  lemma {:induction false} SplitPrefix(b: seq<byte>, n: nat)
    requires n <= |b|
    ensures Split(b[..n]).0 <= Split(b).0
  {
    if n < |b| {
      SplitPrefix(b[..|b| - 1], n);
      assert b[..|b| - 1][..n] == b[..n];
    } else {
      assert b[..n] == b;
    }
  }

  /** Lines delivered before the deadline are the first lines of the reply. */
  lemma CutOff(s: seq<byte>, i: nat, c: nat, all: seq<seq<byte>>, err: seq<byte>)
    requires FirstOk(s, i) && i <= c <= |s| && forall j :: i <= j < c ==> s[j] != EOT
    requires ReplyIs(s, all, err)
    ensures Split(s[i..c]).0 <= all
  {
    var i': nat, j: nat, k: nat :| Marks(s, i', j, k) && all == Delivered(s[i'..j]) && err == s[j + 1..k];
    hide Split;
    FirstOkUnique(s, i, i');
    assert c <= j;
    SplitPrefix(s[i..j], c - i);
    assert s[i..j][..c - i] == s[i..c];
  }

  lemma CutOffAtEot(s: seq<byte>, i: nat, c: nat, all: seq<seq<byte>>, err: seq<byte>)
    requires FirstOk(s, i) && FirstEot(s, i, c) && ReplyIs(s, all, err)
    ensures Delivered(s[i..c]) == all
  {
    var i': nat, j: nat, k: nat :| Marks(s, i', j, k) && all == Delivered(s[i'..j]) && err == s[j + 1..k];
    hide Delivered;
    FirstOkUnique(s, i, i');
    FirstEotUnique(s, i, j, c);
  }

  /** partition: the octets before the first EOT, if there is one. */
  method BeforeEot(s: seq<byte>) returns (found: bool, n: nat)
    ensures n <= |s| && forall i :: 0 <= i < n ==> s[i] != EOT
    ensures found <==> n < |s|
    ensures found ==> s[n] == EOT
  {
    n := 0;
    while n < |s| && s[n] != EOT
      invariant n <= |s| && forall i :: 0 <= i < n ==> s[i] != EOT
    {
      n := n + 1;
    }
    found := n < |s|;
  }

  /** After the first EOT, at c of the whole stream s: standard error and its EOT,
      from what is left of the current chunk or from the port. */
  method Trailer(port: Port, rest: seq<byte>, ghost s: seq<byte>, ghost c: nat) returns (outcome: Outcome, ghost k: nat)
    requires c < |s| && s[c + 1..] == rest + port.pending
    modifies port
    ensures outcome == TimedOut ==> port.patience == 0
    ensures outcome != TimedOut ==> FirstEot(s, c + 1, k)
    ensures outcome == Finished ==> Blank(s[c + 1..k])
    ensures outcome.Raised? ==> outcome.err == s[c + 1..k] && !Blank(outcome.err)
  {
    ghost var tail := s[c + 1..];
    var found, n := BeforeEot(rest);
    var err := rest[..n];
    k := c + 1 + n;
    if !found {
      var more, ok := ReadUntilEot(port);
      if !ok { return TimedOut, k; }
      var all := rest + more;
      assert all[|all| - 1] == EOT && forall i :: 0 <= i < |all| - 1 ==> all[i] != EOT;
      err := StripEot(all);
      assert |all| > 1 ==> all[|all| - 2] != EOT;
      k := c + |rest| + |more|;
      if port.patience > 0 { var prompt := port.Read(1); }
      assert tail == rest + more + (s[k + 1..]);
      assert err == all[..|all| - 1];
    }
    assert forall i :: 0 <= i < |tail| ==> tail[i] == s[c + 1 + i];
    assert err == tail[..k - c - 1] == s[c + 1..k];
    var blank := IsBlank(err);
    outcome := if blank then Finished else Raised(err);
  }

  /** However the port splits the octets, a run that is not cut off by the
      deadline delivers the lines and the error of the whole reply. */
  method ExecStreaming(port: Port) returns (lines: seq<seq<byte>>, outcome: Outcome)
    modifies port
    ensures outcome == Finished ==> exists err :: ReplyIs(old(port.pending), lines, err) && Blank(err)
    ensures outcome.Raised? ==> ReplyIs(old(port.pending), lines, outcome.err) && !Blank(outcome.err)
    ensures outcome == TimedOut ==> port.patience == 0
    ensures outcome == TimedOut ==> forall all, err :: ReplyIs(old(port.pending), all, err) ==> lines <= all
  {
    hide Split, FirstOk, ReplyIs, Blank;
    lines := [];
    ghost var s := port.pending;
    var echo, ok := ReadUntilOk(port);
    if !ok { return lines, TimedOut; }
    var buf: seq<byte> := [];
    ghost var i, c := |echo|, |echo|;
    OkInWhole(echo, port.pending);
    NothingSplit();
    assert s[i..c] == [];
    while true
      invariant FirstOk(s, i) && i <= c <= |s| && port.pending == s[c..]
      invariant (lines, buf) == Split(s[i..c])
      invariant forall j :: i <= j < c ==> s[j] != EOT
      decreases port.patience
    {
      if port.patience == 0 {
        forall all, err | ReplyIs(s, all, err) ensures lines <= all { CutOff(s, i, c, all, err); }
        return lines, TimedOut;
      }
      var chunk := port.Read(|port.pending| + 1);
      var n;
      lines, buf, n := TakeChunk(chunk, lines, buf, s[i..c]);
      InWhole(s, i, c, chunk, port.pending, n);
      c := c + n;
      if n < |chunk| {
        ghost var k;
        outcome, k := Trailer(port, chunk[n + 1..], s, c);
        if outcome == TimedOut {
          forall all, err | ReplyIs(s, all, err) ensures lines <= all { CutOffAtEot(s, i, c, all, err); }
        } else {
          ReplyFrom(s, i, c, k);
        }
        return;
      }
    }
  }

  lemma NothingSplit()
    ensures Split([]) == ([], [])
  {}

  /** Where a chunk lies in the whole stream. */
  lemma InWhole(s: seq<byte>, i: nat, c: nat, chunk: seq<byte>, rest: seq<byte>, n: nat)
    requires i <= c <= |s| && s[c..] == chunk + rest && n <= |chunk|
    requires (forall j :: i <= j < c ==> s[j] != EOT) && forall j :: 0 <= j < n ==> chunk[j] != EOT
    ensures c + |chunk| <= |s| && s[i..c] + chunk[..n] == s[i..c + n]
    ensures forall j :: i <= j < c + n ==> s[j] != EOT
    ensures n == |chunk| ==> rest == s[c + n..] && chunk[..n] == chunk
    ensures n < |chunk| ==> s[c + n] == chunk[n] && s[c + n + 1..] == chunk[n + 1..] + rest
  {
    assert forall j :: 0 <= j < |chunk| ==> s[c + j] == s[c..][j] == chunk[j];
    if n < |chunk| { assert s[c + n + 1..] == s[c..][n + 1..]; }
    if n == |chunk| { assert s[c + n..] == s[c..][n..]; }
  }
}
