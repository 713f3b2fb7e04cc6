/** The data bundle: what the builder packs and what the badge accepts. */
module Bundle {
  import opened Options
  import opened Bytes
  import opened Crc32

  const BUNDLE_MAGIC := 0x53444254
  const BUNDLE_VERSION := 1
  const HEADER_SIZE := 28
  /** Where total_sz starts: the CRC covers everything from there on. */
  const COVERED := 12

  function U32At(b: seq<byte>, off: nat): nat
    requires off + 4 <= |b|
  {
    FromLittleEndian(b[off..off + 4])
  }

  function U16At(b: seq<byte>, off: nat): nat
    requires off + 2 <= |b|
  {
    FromLittleEndian(b[off..off + 2])
  }

  /** Lengths of the three payloads behind the header. */
  datatype Lens = Lens(sched: nat, speak: nat, floors: nat)

  function LensOf(b: seq<byte>): Lens
    requires |b| >= HEADER_SIZE
  {
    Lens(U32At(b, 16), U32At(b, 20), U32At(b, 24))
  }

  function Total(l: Lens): nat {
    l.sched + l.speak + l.floors + HEADER_SIZE
  }

  /** What the badge accepts; it adds the lengths up in 32 bits. */
  predicate ValidBundle(b: seq<byte>) {
    && |b| >= HEADER_SIZE
    && U32At(b, 0) == BUNDLE_MAGIC && U16At(b, 4) == BUNDLE_VERSION
    && U32At(b, 12) == |b|
    && U32At(b, 8) == Crc(b[COVERED..]) as int
    && Total(LensOf(b)) % TWO_32 == |b|
  }

  /** The lengths are so small that their sum does not wrap. */
  predicate NoWrap(b: seq<byte>)
    requires |b| >= HEADER_SIZE
  {
    Total(LensOf(b)) < TWO_32
  }

  /** In an accepted bundle the payloads fill it exactly when the sum did not wrap. */
  lemma FillsIff(b: seq<byte>)
    requires ValidBundle(b)
    ensures Total(LensOf(b)) == |b| <==> NoWrap(b)
  {
    hide U32At, U16At, Crc;
  }

  function Sched(b: seq<byte>): seq<byte>
    requires ValidBundle(b) && NoWrap(b)
  {
    b[HEADER_SIZE..HEADER_SIZE + LensOf(b).sched]
  }

  function Speak(b: seq<byte>): seq<byte>
    requires ValidBundle(b) && NoWrap(b)
  {
    b[HEADER_SIZE + LensOf(b).sched..HEADER_SIZE + LensOf(b).sched + LensOf(b).speak]
  }

  function Floors(b: seq<byte>): seq<byte>
    requires ValidBundle(b) && NoWrap(b)
  {
    b[HEADER_SIZE + LensOf(b).sched + LensOf(b).speak..]
  }

  /** validate: the checks in their order, with the badge's CRC loop. */
  method Validate(b: seq<byte>) returns (ok: bool, lens: Lens)
    ensures ok <==> ValidBundle(b)
    ensures ok ==> lens == LensOf(b)
  {
    hide Crc, U32At, U16At;
    lens := Lens(0, 0, 0);
    if |b| < HEADER_SIZE { return false, lens; }
    if U32At(b, 0) != BUNDLE_MAGIC { return false, lens; }
    if U16At(b, 4) != BUNDLE_VERSION { return false, lens; }
    if U32At(b, 12) != |b| { return false, lens; }
    var crc := RomCrc32(0, b[COVERED..]);
    CrcIs(b[COVERED..]);
    if crc as int != U32At(b, 8) { return false, lens; }
    lens := LensOf(b);
    ok := (lens.sched + lens.speak + lens.floors + HEADER_SIZE) % TWO_32 == |b|;
  }

  // ── The builder ──

  /** The part the CRC covers, for any lengths. */
  function BodyOf(l: Lens, payload: seq<byte>): seq<byte> {
    LittleEndian(HEADER_SIZE + |payload|, 4) +
    LittleEndian(l.sched, 4) + LittleEndian(l.speak, 4) + LittleEndian(l.floors, 4) + payload
  }

  function Body(sched: seq<byte>, speak: seq<byte>, floors: seq<byte>): seq<byte> {
    BodyOf(Lens(|sched|, |speak|, |floors|), sched + speak + floors)
  }

  function Front(crc: bv32): seq<byte> {
    LittleEndian(BUNDLE_MAGIC, 4) + LittleEndian(BUNDLE_VERSION, 2) + LittleEndian(0, 2) + LittleEndian(crc as int, 4)
  }

  /** struct.pack refuses a size of 2^32 or more. */
  method Pack(sched: seq<byte>, speak: seq<byte>, floors: seq<byte>) returns (bundle: Option<seq<byte>>)
    ensures bundle.Some? <==> HEADER_SIZE + |sched| + |speak| + |floors| < TWO_32
    ensures bundle.Some? ==> bundle.value == Front(Crc(Body(sched, speak, floors))) + Body(sched, speak, floors)
  {
    var payload := sched + speak + floors;
    var totalSz := HEADER_SIZE + |payload|;
    if totalSz >= TWO_32 { return None; }
    var body := LittleEndian(totalSz, 4) + LittleEndian(|sched|, 4) + LittleEndian(|speak|, 4) +
      LittleEndian(|floors|, 4) + payload;
    var crc := Crc(body);
    return Some(Front(crc) + body);
  }

  lemma FieldAt(b: seq<byte>, a: seq<byte>, v: nat, c: seq<byte>)
    requires b == a + LittleEndian(v, 4) + c && v < TWO_32
    ensures U32At(b, |a|) == v
  {
    hide LittleEndian, FromLittleEndian;
    Capacities();
    LittleEndianRoundTrip(v, 4);
    assert b[|a|..|a| + 4] == LittleEndian(v, 4);
  }

  lemma FrontFields(crc: bv32, rest: seq<byte>)
    ensures var b := Front(crc) + rest;
      |Front(crc)| == COVERED && U32At(b, 0) == BUNDLE_MAGIC && U16At(b, 4) == BUNDLE_VERSION
        && U32At(b, 8) == crc as int
  {
    hide LittleEndian, U32At, U16At;
    CrcRange(crc);
    var magic, ver, flags, sum := LittleEndian(BUNDLE_MAGIC, 4), LittleEndian(BUNDLE_VERSION, 2), LittleEndian(0, 2),
      LittleEndian(crc as int, 4);
    var b := Front(crc) + rest;
    assert b == [] + magic + (ver + flags + sum + rest);
    FieldAt(b, [], BUNDLE_MAGIC, ver + flags + sum + rest);
    assert b == (magic + ver + flags) + sum + rest;
    FieldAt(b, magic + ver + flags, crc as int, rest);
    assert b == magic + ver + (flags + sum + rest);
    VersionField(b, magic, flags + sum + rest);
  }

  lemma BodyFields(front: seq<byte>, l: Lens, payload: seq<byte>)
    requires |front| == COVERED && HEADER_SIZE + |payload| < TWO_32
    requires l.sched < TWO_32 && l.speak < TWO_32 && l.floors < TWO_32
    ensures var b := front + BodyOf(l, payload);
      |b| == HEADER_SIZE + |payload| && U32At(b, 12) == |b| && LensOf(b) == l && b[HEADER_SIZE..] == payload
  {
    hide LittleEndian, U32At;
    var total := HEADER_SIZE + |payload|;
    var t, l1, l2, l3 := LittleEndian(total, 4), LittleEndian(l.sched, 4), LittleEndian(l.speak, 4),
      LittleEndian(l.floors, 4);
    var b := front + BodyOf(l, payload);
    assert b == front + t + (l1 + l2 + l3 + payload);
    FieldAt(b, front, total, l1 + l2 + l3 + payload);
    assert b == (front + t) + l1 + (l2 + l3 + payload);
    FieldAt(b, front + t, l.sched, l2 + l3 + payload);
    assert b == (front + t + l1) + l2 + (l3 + payload);
    FieldAt(b, front + t + l1, l.speak, l3 + payload);
    assert b == (front + t + l1 + l2) + l3 + payload;
    FieldAt(b, front + t + l1 + l2, l.floors, payload);
  }

  /** A bundle of any lengths and payload is accepted when they agree in 32 bits. */
  lemma AcceptedIff(l: Lens, payload: seq<byte>)
    requires HEADER_SIZE + |payload| < TWO_32 && l.sched < TWO_32 && l.speak < TWO_32 && l.floors < TWO_32
    ensures var b := Front(Crc(BodyOf(l, payload))) + BodyOf(l, payload);
      && |b| == HEADER_SIZE + |payload| && LensOf(b) == l && b[HEADER_SIZE..] == payload
      && (ValidBundle(b) <==> Total(l) % TWO_32 == |b|) && (NoWrap(b) <==> Total(l) < TWO_32)
  {
    hide Crc, U32At, U16At, Front, BodyOf;
    var body := BodyOf(l, payload);
    var front := Front(Crc(body));
    FrontFields(Crc(body), body);
    BodyFields(front, l, payload);
    assert (front + body)[COVERED..] == body;
  }

  /** Lengths whose sum wraps are accepted, whatever the payload. */
  lemma WrappedAccepted(payload: seq<byte>) returns (b: seq<byte>)
    requires HEADER_SIZE + |payload| < TWO_32
    ensures ValidBundle(b) && b[HEADER_SIZE..] == payload && !NoWrap(b)
  {
    hide Crc, U32At, U16At, Front, BodyOf, ValidBundle;
    var l := Lens(TWO_32 - 1, 1, |payload|);
    AcceptedIff(l, payload);
    b := Front(Crc(BodyOf(l, payload))) + BodyOf(l, payload);
  }

  lemma PayloadsAre(b: seq<byte>, sched: seq<byte>, speak: seq<byte>, floors: seq<byte>)
    requires ValidBundle(b) && NoWrap(b) && LensOf(b) == Lens(|sched|, |speak|, |floors|)
    requires b[HEADER_SIZE..] == sched + speak + floors
    ensures Sched(b) == sched && Speak(b) == speak && Floors(b) == floors
  {
    FillsIff(b);
    hide ValidBundle, U32At;
    Pieces(b[HEADER_SIZE..], sched, speak, floors);
    var m, n := HEADER_SIZE + |sched|, HEADER_SIZE + |sched| + |speak|;
    assert b[HEADER_SIZE..m] == b[HEADER_SIZE..][..|sched|];
    assert b[m..n] == b[HEADER_SIZE..][|sched|..|sched| + |speak|];
    assert b[n..] == b[HEADER_SIZE..][|sched| + |speak|..];
  }

  /** What the builder packs validates, and gives back the three payloads. */
  lemma PackedIsValid(sched: seq<byte>, speak: seq<byte>, floors: seq<byte>)
    requires HEADER_SIZE + |sched| + |speak| + |floors| < TWO_32
    ensures var b := Front(Crc(Body(sched, speak, floors))) + Body(sched, speak, floors);
      ValidBundle(b) && NoWrap(b) && Sched(b) == sched && Speak(b) == speak && Floors(b) == floors
  {
    hide Crc, U32At, U16At, Front, BodyOf, ValidBundle, NoWrap, LensOf, Sched, Speak, Floors;
    var l := Lens(|sched|, |speak|, |floors|);
    Within32(Total(l));
    AcceptedIff(l, sched + speak + floors);
    PayloadsAre(Front(Crc(Body(sched, speak, floors))) + Body(sched, speak, floors), sched, speak, floors);
  }

  lemma VersionField(b: seq<byte>, a: seq<byte>, c: seq<byte>)
    requires |a| == 4 && b == a + LittleEndian(BUNDLE_VERSION, 2) + c
    ensures U16At(b, 4) == BUNDLE_VERSION
  {
    hide LittleEndian, FromLittleEndian;
    Capacities();
    LittleEndianRoundTrip(BUNDLE_VERSION, 2);
    assert b[4..6] == LittleEndian(BUNDLE_VERSION, 2);
  }
}
