/** The text side of the TREEWALK compiler: passages of a source, and the four
    ways to write a link. */
module Twee {
  import opened Options

  // ── Finding a separator ──

  predicate IsAt(s: string, sep: string, i: int) {
    0 <= i <= |s| - |sep| && s[i..i + |sep|] == sep
  }

  ghost predicate Has(s: string, sep: string) {
    exists i :: IsAt(s, sep, i)
  }

  /** The first place of sep at or after i. */
  function FirstAt(s: string, sep: string, i: nat): (r: Option<nat>)
    requires sep != "" && i <= |s|
    ensures r.Some? ==> i <= r.value && IsAt(s, sep, r.value) && forall j :: i <= j < r.value ==> !IsAt(s, sep, j)
    ensures r.None? ==> forall j :: i <= j ==> !IsAt(s, sep, j)
    decreases |s| - i
  {
    if IsAt(s, sep, i) then Some(i)
    else if i == |s| then None
    else FirstAt(s, sep, i + 1)
  }

  /** The last place of sep before i. */
  function LastAt(s: string, sep: string, i: nat): (r: Option<nat>)
    requires sep != ""
    ensures r.Some? ==> r.value < i && IsAt(s, sep, r.value) && forall j :: r.value < j < i ==> !IsAt(s, sep, j)
    ensures r.None? ==> forall j :: j < i ==> !IsAt(s, sep, j)
  {
    if i == 0 then None
    else if IsAt(s, sep, i - 1) then Some(i - 1)
    else LastAt(s, sep, i - 1)
  }

  /** str.isspace of one character. */
  predicate Blank(c: char) {
    '\t' <= c <= '\r' || '\U{001C}' <= c <= ' ' || c == '\U{0085}' || c == '\U{00A0}' || c == '\U{1680}'
    || '\U{2000}' <= c <= '\U{200A}' || c in ['\U{2028}', '\U{2029}', '\U{202F}', '\U{205F}', '\U{3000}']
  }

  function LeftStrip(s: string): string {
    if s != "" && Blank(s[0]) then LeftStrip(s[1..]) else s
  }

  function RightStrip(s: string): string {
    if s != "" && Blank(s[|s| - 1]) then RightStrip(s[..|s| - 1]) else s
  }

  function Strip(s: string): string { RightStrip(LeftStrip(s)) }

  predicate Trim(s: string) {
    s == "" || (!Blank(s[0]) && !Blank(s[|s| - 1]))
  }

  lemma {:induction false} LeftStripShorter(s: string)
    ensures |LeftStrip(s)| <= |s|
  {
    if s != "" && Blank(s[0]) { LeftStripShorter(s[1..]); }
  }

  lemma {:induction false} RightStripShorter(s: string)
    ensures |RightStrip(s)| <= |s|
  {
    if s != "" && Blank(s[|s| - 1]) { RightStripShorter(s[..|s| - 1]); }
  }

  lemma StripShorter(s: string)
    ensures |Strip(s)| <= |s|
    ensures Trim(s) ==> Strip(s) == s
  {
    LeftStripShorter(s);
    RightStripShorter(LeftStrip(s));
  }

  ghost predicate AllBlank(s: string) {
    forall i :: 0 <= i < |s| ==> Blank(s[i])
  }

  lemma FirstOn(s: string, a: string, b: string)
    requires s != "" && s[1..] == a + b
    ensures s == ([s[0]] + a) + b
  {
    assert s == [s[0]] + s[1..];
  }

  lemma LastOn(s: string, a: string, b: string)
    requires s != "" && s[..|s| - 1] == a + b
    ensures s == a + (b + [s[|s| - 1]])
  {
    assert s == s[..|s| - 1] + [s[|s| - 1]];
  }

  lemma {:induction false} LeftStripIs(s: string) returns (a: string)
    ensures s == a + LeftStrip(s) && AllBlank(a) && (LeftStrip(s) != "" ==> !Blank(LeftStrip(s)[0]))
  {
    hide Blank;
    if s != "" && Blank(s[0]) {
      a := LeftStripIs(s[1..]);
      assert LeftStrip(s) == LeftStrip(s[1..]);
      hide LeftStrip;
      FirstOn(s, a, LeftStrip(s));
      a := [s[0]] + a;
    } else {
      a := "";
    }
  }

  lemma {:induction false} RightStripIs(s: string) returns (b: string)
    ensures s == RightStrip(s) + b && AllBlank(b)
    ensures RightStrip(s) != "" ==> !Blank(RightStrip(s)[|RightStrip(s)| - 1])
  {
    hide Blank;
    if s != "" && Blank(s[|s| - 1]) {
      var k := |s| - 1;
      b := RightStripIs(s[..k]);
      assert RightStrip(s) == RightStrip(s[..k]);
      hide RightStrip;
      LastOn(s, RightStrip(s), b);
      b := b + [s[k]];
    } else {
      b := "";
    }
  }

  /** Stripping takes blanks off both ends, and all there are. */
  lemma StripIs(s: string) returns (a: string, b: string)
    ensures s == a + Strip(s) + b && AllBlank(a) && AllBlank(b) && Trim(Strip(s))
  {
    hide Blank;
    a := LeftStripIs(s);
    b := RightStripIs(LeftStrip(s));
  }

  function Count(c: char, s: string): nat {
    if s == "" then 0 else (if s[0] == c then 1 else 0) + Count(c, s[1..])
  }

  lemma {:induction false} CountConcat(c: char, a: string, b: string)
    ensures Count(c, a + b) == Count(c, a) + Count(c, b)
  {
    if a == "" {
      assert a + b == b;
    } else {
      CountConcat(c, a[1..], b);
      assert (a + b)[1..] == a[1..] + b;
    }
  }

  lemma {:induction false} CountLeftStrip(c: char, s: string)
    requires !Blank(c)
    ensures Count(c, LeftStrip(s)) == Count(c, s)
  {
    if s != "" && Blank(s[0]) { CountLeftStrip(c, s[1..]); }
  }

  lemma {:induction false} CountRightStrip(c: char, s: string)
    requires !Blank(c)
    ensures Count(c, RightStrip(s)) == Count(c, s)
  {
    if s != "" && Blank(s[|s| - 1]) {
      var k := |s| - 1;
      CountRightStrip(c, s[..k]);
      assert s == s[..k] + [s[k]];
      CountConcat(c, s[..k], [s[k]]);
    }
  }

  lemma CountStrip(c: char, s: string)
    requires !Blank(c)
    ensures Count(c, Strip(s)) == Count(c, s)
  {
    CountLeftStrip(c, s);
    CountRightStrip(c, LeftStrip(s));
  }

  // ── Links ──

  datatype Link = Link(words: string, target: string)

  /** parse_link */
  function ParseLink(inner: string): Link {
    var pipe := FirstAt(inner, "|", 0);
    var arrow := LastAt(inner, "->", |inner|);
    var back := FirstAt(inner, "<-", 0);
    if pipe.Some? then Link(Strip(inner[..pipe.value]), Strip(inner[pipe.value + 1..]))
    else if arrow.Some? then Link(Strip(inner[..arrow.value]), Strip(inner[arrow.value + 2..]))
    else if back.Some? then Link(Strip(inner[back.value + 2..]), Strip(inner[..back.value]))
    else Link(Strip(inner), Strip(inner))
  }

  datatype Form = Piped | Arrow | Back | Bare

  /** A link as an author writes it. */
  function Written(f: Form, l: Link): string {
    match f
    case Piped => l.words + "|" + l.target
    case Arrow => l.words + "->" + l.target
    case Back => l.target + "<-" + l.words
    case Bare => l.target
  }

  /** What the words and the target may not hold for a form to be safe. */
  ghost predicate Safe(f: Form, l: Link) {
    match f
    case Piped => !Has(l.words, "|")
    case Arrow => !Has(Written(f, l), "|") && !Has(l.target, "->")
    case Back => !Has(Written(f, l), "|") && !Has(Written(f, l), "->") && !Has(l.target, "<-")
    case Bare => !Has(l.target, "|") && !Has(l.target, "->") && !Has(l.target, "<-")
  }

  lemma Whole(s: string, a: string, sep: string, b: string)
    requires s == a + sep + b
    ensures IsAt(s, sep, |a|) && s[..|a|] == a && s[|a| + |sep|..] == b
  {}

  lemma InPart(s: string, a: string, b: string, sep: string, i: int)
    requires s == a + b
    ensures i + |sep| <= |a| ==> (IsAt(s, sep, i) <==> IsAt(a, sep, i))
    ensures |a| <= i ==> (IsAt(s, sep, i) <==> IsAt(b, sep, i - |a|))
  {
    if 0 <= i && i + |sep| <= |a| { assert s[i..i + |sep|] == a[i..i + |sep|]; }
    if |a| <= i <= |s| - |sep| { assert s[i..i + |sep|] == b[i - |a|..i - |a| + |sep|]; }
  }

  /** Cutting a separator out of a string removes its characters and no others. */
  lemma CutCounts(c: char, s: string, sep: string, i: nat)
    requires IsAt(s, sep, i) && !Blank(c)
    ensures Count(c, Strip(s[..i])) + Count(c, Strip(s[i + |sep|..])) + Count(c, sep) == Count(c, s)
  {
    hide Count, Strip;
    var a, b := s[..i], s[i + |sep|..];
    CountStrip(c, a);
    CountStrip(c, b);
    CountConcat(c, a, sep);
    CountConcat(c, a + sep, b);
    assert s == a + sep + b;
  }

  lemma PipedIsRead(l: Link)
    requires Trim(l.words) && Trim(l.target)
    ensures ParseLink(Written(Piped, l)) == l <==> Safe(Piped, l)
  {
    hide Strip;
    var s := Written(Piped, l);
    Whole(s, l.words, "|", l.target);
    var i := FirstAt(s, "|", 0).value;
    InPart(s, l.words, "|" + l.target, "|", i);
    assert s == l.words + ("|" + l.target);
    StripShorter(s[..i]);
    StripShorter(l.words);
    StripShorter(l.target);
    if Has(l.words, "|") {
      var j :| IsAt(l.words, "|", j);
      InPart(s, l.words, "|" + l.target, "|", j);
    }
  }

  lemma BareIsRead(l: Link)
    requires l.words == l.target && Trim(l.target)
    ensures ParseLink(Written(Bare, l)) == l <==> Safe(Bare, l)
  {
    hide Strip;
    var s := l.target;
    StripShorter(s);
    var pipe, arrow, back := FirstAt(s, "|", 0), LastAt(s, "->", |s|), FirstAt(s, "<-", 0);
    if pipe.Some? { StripShorter(s[..pipe.value]); }
    if arrow.Some? { StripShorter(s[..arrow.value]); }
    if back.Some? { StripShorter(s[..back.value]); }
    assert Has(s, "->") <==> arrow.Some? by {
      if i :| IsAt(s, "->", i) { assert i < |s|; }
    }
  }

  lemma OneSuch(c: char, s: string, a: string, sep: string, b: string)
    requires s == a + sep + b
    ensures Count(c, s) == Count(c, a) + Count(c, sep) + Count(c, b)
  {
    CountConcat(c, a, sep);
    CountConcat(c, a + sep, b);
  }

  lemma ArrowCounts()
    ensures Count('>', "->") == 1 && Count('<', "<-") == 1 && Count('>', "|") == 0 && Count('<', "|") == 0
      && Count('<', "->") == 0
  {
    assert "->"[1..] == ">" && "<-"[1..] == "-";
  }

  lemma LastArrow(w: string, t: string)
    ensures var s := w + "->" + t; var i := LastAt(s, "->", |s|);
      i.Some? && i.value >= |w| && (i.value == |w| <==> !Has(t, "->")) && (i.value > |w| ==> i.value >= |w| + 2)
  {
    var s := w + "->" + t;
    Whole(s, w, "->", t);
    var i := LastAt(s, "->", |s|).value;
    assert s[|w|] == '-' && s[|w| + 1] == '>';
    if i > |w| {
      assert s[i] == '-' by { assert s[i..i + 2][0] == '-'; }
      InPart(s, w + "->", t, "->", i);
      assert IsAt(t, "->", i - |w| - 2);
    } else if j :| IsAt(t, "->", j) {
      InPart(s, w + "->", t, "->", |w| + 2 + j);
      assert false;
    }
  }

  lemma ArrowIsRead(l: Link)
    requires Trim(l.words) && Trim(l.target)
    ensures ParseLink(Written(Arrow, l)) == l <==> Safe(Arrow, l)
  {
    hide Strip, Count, Blank;
    var s := Written(Arrow, l);
    var r := ParseLink(s);
    ArrowCounts();
    NotBlank();
    OneSuch('>', s, l.words, "->", l.target);
    Whole(s, l.words, "->", l.target);
    StripShorter(l.words);
    StripShorter(l.target);
    var pipe := FirstAt(s, "|", 0);
    LastArrow(l.words, l.target);
    if pipe.Some? {
      CutCounts('>', s, "|", pipe.value);
    } else if Has(l.target, "->") {
      ArrowTooMany(l.words, l.target);
    }
  }

  /** What stands before the last of several arrows holds one arrow more than the words. */
  lemma ArrowTooMany(w: string, t: string)
    requires Has(t, "->")
    ensures var s := w + "->" + t; var i := LastAt(s, "->", |s|);
      i.Some? && Count('>', Strip(s[..i.value])) > Count('>', w)
  {
    hide Count, Strip, Blank;
    ArrowCounts();
    NotBlank();
    LastArrow(w, t);
    var s := w + "->" + t;
    var i := LastAt(s, "->", |s|).value;
    assert s[..i] == w + "->" + s[|w| + 2..i];
    OneSuch('>', s[..i], w, "->", s[|w| + 2..i]);
    CountStrip('>', s[..i]);
  }

  lemma NotBlank()
    ensures !Blank('<') && !Blank('>')
  {}

  lemma FirstBack(t: string, w: string)
    ensures var s := t + "<-" + w; var i := FirstAt(s, "<-", 0);
      i.Some? && i.value <= |t| && (i.value == |t| <==> !Has(t, "<-"))
  {
    var s := t + "<-" + w;
    Whole(s, t, "<-", w);
    var i := FirstAt(s, "<-", 0).value;
    assert s[|t|] == '<';
    if i < |t| {
      assert s[i + 1] == '-' by { assert s[i..i + 2][1] == '-'; }
      InPart(s, t, "<-" + w, "<-", i);
      assert s == t + ("<-" + w);
      assert IsAt(t, "<-", i);
    } else if j :| IsAt(t, "<-", j) {
      assert s == t + ("<-" + w);
      InPart(s, t, "<-" + w, "<-", j);
      assert false;
    }
  }

  lemma FoundIff(s: string, sep: string)
    requires sep != ""
    ensures FirstAt(s, sep, 0).Some? <==> Has(s, sep)
    ensures LastAt(s, sep, |s|).Some? <==> Has(s, sep)
  {
    if i :| IsAt(s, sep, i) { assert i < |s|; }
  }

  lemma BackIsRead(l: Link)
    requires Trim(l.words) && Trim(l.target)
    ensures ParseLink(Written(Back, l)) == l <==> Safe(Back, l)
  {
    hide Strip, Count, Blank, Has, FirstAt, LastAt;
    var s := Written(Back, l);
    FoundIff(s, "|");
    FoundIff(s, "->");
    FoundIff(s, "<-");
    ArrowCounts();
    NotBlank();
    OneSuch('<', s, l.target, "<-", l.words);
    Whole(s, l.target, "<-", l.words);
    StripShorter(l.words);
    StripShorter(l.target);
    FirstBack(l.target, l.words);
    var pipe, arrow, back := FirstAt(s, "|", 0), LastAt(s, "->", |s|), FirstAt(s, "<-", 0).value;
    if pipe.Some? {
      CutCounts('<', s, "|", pipe.value);
    } else if arrow.Some? {
      CutCounts('<', s, "->", arrow.value);
    } else if back < |l.target| {
      StripShorter(s[..back]);
    }
  }

  /** A link in any of the four forms is read back as its author meant it if and
      only if nothing in it reads as another separator. */
  lemma LinkRoundTrip(f: Form, l: Link)
    requires Trim(l.words) && Trim(l.target) && (f == Bare ==> l.words == l.target)
    ensures ParseLink(Written(f, l)) == l <==> Safe(f, l)
  {
    hide ParseLink, Written, Safe;
    match f {
      case Piped => PipedIsRead(l);
      case Arrow => ArrowIsRead(l);
      case Back => BackIsRead(l);
      case Bare => BareIsRead(l);
    }
  }

  // ── Passages ──

  /** text.replace("\r\n", "\n").replace("\r", "\n") */
  function Unix(text: string): string {
    if text == "" then ""
    else if text[0] == '\r' then "\n" + Unix(if |text| > 1 && text[1] == '\n' then text[2..] else text[1..])
    else [text[0]] + Unix(text[1..])
  }

  /** text.split("\n") */
  function Lines(text: string): (r: seq<string>)
    ensures r != []
  {
    if text == "" then [""]
    else
      var more := Lines(text[1..]);
      if text[0] == '\n' then [""] + more else [[text[0]] + more[0]] + more[1..]
  }

  function Joined(lines: seq<string>): string
    requires lines != []
  {
    if |lines| == 1 then lines[0] else lines[0] + "\n" + Joined(lines[1..])
  }

  ghost predicate Without(c: char, s: string) {
    forall i :: 0 <= i < |s| ==> s[i] != c
  }

  ghost predicate NoneHolds(c: char, lines: seq<string>) {
    forall i :: 0 <= i < |lines| ==> Without(c, lines[i])
  }

  /** Splitting loses nothing and leaves no newline in a line. */
  lemma {:induction false} LinesJoined(text: string)
    ensures Joined(Lines(text)) == text && NoneHolds('\n', Lines(text))
  {
    if text != "" {
      var more := Lines(text[1..]);
      LinesJoined(text[1..]);
      assert text == [text[0]] + text[1..];
      if text[0] == '\n' {
        assert ([""] + more)[1..] == more;
      } else {
        assert Without('\n', more[0]);
        JoinedLonger(text[0], more);
      }
    }
  }

  lemma JoinedLonger(c: char, lines: seq<string>)
    requires lines != []
    ensures Joined([[c] + lines[0]] + lines[1..]) == [c] + Joined(lines)
  {
    var longer := [[c] + lines[0]] + lines[1..];
    if |lines| > 1 {
      assert longer[1..] == lines[1..];
      assert ([c] + lines[0]) + "\n" + Joined(lines[1..]) == [c] + (lines[0] + "\n" + Joined(lines[1..]));
    }
  }

  /** And that is the only way to split a text into such lines. */
  lemma {:induction false} LinesOfJoined(lines: seq<string>)
    requires lines != [] && NoneHolds('\n', lines)
    ensures Lines(Joined(lines)) == lines
    decreases Joined(lines)
  {
    var s := Joined(lines);
    assert Without('\n', lines[0]);
    if lines[0] != "" {
      var c, less := lines[0][0], [lines[0][1..]] + lines[1..];
      assert lines[0] == [c] + less[0];
      JoinedLonger(c, less);
      assert [[c] + less[0]] + less[1..] == lines;
      assert s[1..] == Joined(less);
      LinesOfJoined(less);
    } else if |lines| > 1 {
      assert s[1..] == Joined(lines[1..]);
      LinesOfJoined(lines[1..]);
    }
  }

  /** A text of these lines, each but the last followed by its ending. */
  function Ended(lines: seq<string>, ends: seq<string>): string
    requires |lines| == |ends| + 1
  {
    if ends == [] then lines[0] else lines[0] + ends[0] + Ended(lines[1..], ends[1..])
  }

  ghost predicate Endings(ends: seq<string>) {
    forall i :: 0 <= i < |ends| ==> ends[i] == "\n" || ends[i] == "\r\n" || ends[i] == "\r"
  }

  /** A carriage return, an empty line and a newline, which together read as one ending. */
  ghost predicate Seam(lines: seq<string>, ends: seq<string>)
    requires |lines| == |ends| + 1
  {
    exists i, j :: 0 <= i && j == i + 1 < |ends| && ends[i] == "\r" && lines[j] == "" && ends[j] == "\n"
  }

  lemma {:induction false} UnixPlain(s: string, more: string)
    requires Without('\r', s)
    ensures Unix(s + more) == s + Unix(more)
  {
    if s == "" {
      assert s + more == more;
    } else {
      assert (s + more)[1..] == s[1..] + more;
      UnixPlain(s[1..], more);
      assert s == [s[0]] + s[1..];
    }
  }

  lemma UnixEnding(end: string, more: string)
    requires end == "\n" || end == "\r\n" || end == "\r"
    ensures end == "\r" && more != "" && more[0] == '\n' ==> Unix(end + more) == "\n" + Unix(more[1..])
    ensures !(end == "\r" && more != "" && more[0] == '\n') ==> Unix(end + more) == "\n" + Unix(more)
  {
    var s := end + more;
    if end == "\r\n" {
      assert s[2..] == more;
    } else {
      assert s[1..] == more;
      if more != "" { assert s[2..] == more[1..]; }
    }
  }

  lemma SeamsOn(lines: seq<string>, ends: seq<string>)
    requires |lines| == |ends| + 1 && ends != []
    ensures Seam(lines, ends) <==>
      Seam(lines[1..], ends[1..]) || (|ends| > 1 && ends[0] == "\r" && lines[1] == "" && ends[1] == "\n")
  {
    if i, j :| 0 <= i && j == i + 1 < |ends| && ends[i] == "\r" && lines[j] == "" && ends[j] == "\n" {
      if i > 0 { assert ends[1..][i - 1] == "\r" && lines[1..][j - 1] == "" && ends[1..][j - 1] == "\n"; }
    }
    if Seam(lines[1..], ends[1..]) {
      var l, e := lines[1..], ends[1..];
      var i, j :| 0 <= i && j == i + 1 < |e| && e[i] == "\r" && l[j] == "" && e[j] == "\n";
      assert ends[i + 1] == "\r" && lines[j + 1] == "" && ends[j + 1] == "\n";
    }
  }

  /** How a text of lines begins: with its first line's ending, if that line is empty. */
  lemma EndedStarts(lines: seq<string>, ends: seq<string>)
    requires |lines| == |ends| + 1 && Endings(ends) && Without('\n', lines[0])
    ensures var s := Ended(lines, ends); s != "" && s[0] == '\n' <==> ends != [] && lines[0] == "" && ends[0] == "\n"
  {
    var s := Ended(lines, ends);
    if lines[0] != "" { assert s[0] == lines[0][0]; }
  }

  lemma EmptyLineOff(lines: seq<string>, ends: seq<string>)
    requires |lines| == |ends| + 1 && ends != [] && lines[0] == "" && ends[0] == "\n"
    ensures Ended(lines, ends) != "" && Ended(lines, ends)[1..] == Ended(lines[1..], ends[1..])
  {
    assert Ended(lines, ends) == "\n" + Ended(lines[1..], ends[1..]);
  }

  /** The first line and its ending are read. */
  lemma FirstEnding(line: string, end: string, more: string)
    requires Without('\r', line) && (end == "\n" || end == "\r\n" || end == "\r")
    ensures var eats := end == "\r" && more != "" && more[0] == '\n';
      Unix(line + end + more) == line + "\n" + Unix(if eats then more[1..] else more)
  {
    hide Unix;
    assert line + end + more == line + (end + more);
    UnixPlain(line, end + more);
    UnixEnding(end, more);
    assert line + ("\n" + Unix(more)) == line + "\n" + Unix(more);
    if more != "" { assert line + ("\n" + Unix(more[1..])) == line + "\n" + Unix(more[1..]); }
  }

  lemma Tails(lines: seq<string>, ends: seq<string>)
    requires |lines| == |ends| + 1 && Endings(ends) && NoneHolds('\r', lines) && NoneHolds('\n', lines)
    ensures Without('\r', lines[0]) && Without('\n', lines[0])
    ensures ends != [] ==>
      && Endings(ends[1..]) && NoneHolds('\r', lines[1..]) && NoneHolds('\n', lines[1..])
      && Without('\n', lines[1]) && (ends[0] == "\n" || ends[0] == "\r\n" || ends[0] == "\r")
  {
    hide Without;
  }

  /** Without a seam every ending counts once; with one, some are lost. */
  lemma {:induction false} UnixEnded(lines: seq<string>, ends: seq<string>)
    requires |lines| == |ends| + 1 && Endings(ends) && NoneHolds('\r', lines) && NoneHolds('\n', lines)
    ensures !Seam(lines, ends) ==> Unix(Ended(lines, ends)) == Joined(lines)
    ensures Count('\n', Unix(Ended(lines, ends))) <= |ends|
    ensures Count('\n', Unix(Ended(lines, ends))) == |ends| ==> !Seam(lines, ends)
    decreases |ends|
  {
    Tails(lines, ends);
    hide NoneHolds, Endings, Without;
    if ends == [] {
      UnixPlain(lines[0], "");
      assert lines[0] + "" == lines[0];
      CountNone('\n', lines[0]);
    } else {
      var lines1, ends1 := lines[1..], ends[1..];
      var more := Ended(lines1, ends1);
      assert Ended(lines, ends) == lines[0] + ends[0] + more;
      assert |lines| > 1 ==> Joined(lines) == lines[0] + "\n" + Joined(lines1);
      hide Ended, Unix, Count, Seam, Joined;
      UnixEnded(lines1, ends1);
      SeamsOn(lines, ends);
      EndedStarts(lines1, ends1);
      FirstEnding(lines[0], ends[0], more);
      OneEnding(lines[0], Unix(more));
      if ends[0] == "\r" && more != "" && more[0] == '\n' {
        Tails(lines1, ends1);
        EmptyLineOff(lines1, ends1);
        OneEnding(lines[0], Unix(more[1..]));
        UnixEnded(lines1[1..], ends1[1..]);
      }
    }
  }

  lemma {:induction false} CountNone(c: char, s: string)
    requires Without(c, s)
    ensures Count(c, s) == 0
  {
    if s != "" { CountNone(c, s[1..]); }
  }

  lemma OneEnding(line: string, more: string)
    requires Without('\n', line)
    ensures Count('\n', line + "\n" + more) == 1 + Count('\n', more)
  {
    CountNone('\n', line);
    OneSuch('\n', line + "\n" + more, line, "\n", more);
    assert "\n"[1..] == "";
  }

  lemma {:induction false} CountJoined(lines: seq<string>)
    requires lines != [] && NoneHolds('\n', lines)
    ensures Count('\n', Joined(lines)) == |lines| - 1
  {
    assert Without('\n', lines[0]);
    if |lines| > 1 {
      CountJoined(lines[1..]);
      OneEnding(lines[0], Joined(lines[1..]));
    } else {
      CountNone('\n', lines[0]);
    }
  }

  /** Lines written with any mix of the three endings are read back if and only if
      no carriage return meets a newline across an empty line. */
  lemma EndingsRoundTrip(lines: seq<string>, ends: seq<string>)
    requires |lines| == |ends| + 1 && Endings(ends) && NoneHolds('\r', lines) && NoneHolds('\n', lines)
    ensures Lines(Unix(Ended(lines, ends))) == lines <==> !Seam(lines, ends)
  {
    hide Lines, Unix, Ended, Seam, Joined, Count, Endings;
    var s := Unix(Ended(lines, ends));
    UnixEnded(lines, ends);
    if Lines(s) == lines {
      LinesJoined(s);
      CountJoined(lines);
    }
    LinesOfJoined(lines);
  }

  predicate IsHeader(line: string) { "::" <= line }

  /** A header line is two colons and anything after them, or nothing. */
  lemma HeaderIs(rest: string)
    ensures IsHeader("::" + rest) && (|rest| < 2 ==> !IsHeader(rest) || rest == "::")
  {}

  /** A header line and the lines under it. */
  datatype Passage = Passage(header: string, lines: seq<string>)

  datatype Document = Document(before: seq<string>, passages: seq<Passage>)

  function Flat(ps: seq<Passage>): seq<string> {
    if ps == [] then []
    else Flat(ps[..|ps| - 1]) + [ps[|ps| - 1].header] + ps[|ps| - 1].lines
  }

  ghost predicate NoHeaders(lines: seq<string>) {
    forall i :: 0 <= i < |lines| ==> !IsHeader(lines[i])
  }

  ghost predicate WellFormed(d: Document) {
    NoHeaders(d.before)
    && forall i :: 0 <= i < |d.passages| ==> IsHeader(d.passages[i].header) && NoHeaders(d.passages[i].lines)
  }

  /** What each line adds. */
  function Read(lines: seq<string>): Document {
    if lines == [] then Document([], [])
    else
      var k := |lines| - 1;
      var d := Read(lines[..k]);
      AddLine(d, lines[k])
  }

  function AddLine(d: Document, line: string): Document {
    var n := |d.passages|;
    if IsHeader(line) then Document(d.before, d.passages + [Passage(line, [])])
    else if n == 0 then Document(d.before + [line], [])
    else
      var p := d.passages[n - 1];
      Document(d.before, d.passages[..n - 1] + [p.(lines := p.lines + [line])])
  }

  lemma AddLineKeeps(d: Document, line: string)
    requires WellFormed(d)
    ensures var e := AddLine(d, line);
      WellFormed(e) && e.before + Flat(e.passages) == d.before + Flat(d.passages) + [line]
  {
    var e := AddLine(d, line);
    var n := |d.passages|;
    if IsHeader(line) {
      assert e.passages[..n] == d.passages;
    } else if n > 0 {
      assert e.passages[..n - 1] == d.passages[..n - 1];
      assert e.passages[n - 1] == d.passages[n - 1].(lines := d.passages[n - 1].lines + [line]);
    }
  }

  /** No line is lost, and each is under the last header before it. */
  lemma {:induction false} ReadLosesNothing(lines: seq<string>)
    ensures var d := Read(lines); WellFormed(d) && d.before + Flat(d.passages) == lines
  {
    hide AddLine, IsHeader, Flat;
    if lines != [] {
      var k := |lines| - 1;
      ReadLosesNothing(lines[..k]);
      AddLineKeeps(Read(lines[..k]), lines[k]);
      assert lines == lines[..k] + [lines[k]];
    } else {
      assert Flat([]) == [] by { FlatNone(); }
    }
  }

  lemma FlatNone()
    ensures Flat([]) == []
  {}

  lemma ReadOneMore(lines: seq<string>, line: string)
    ensures Read(lines + [line]) == AddLine(Read(lines), line)
  {
    assert (lines + [line])[..|lines|] == lines;
  }

  /** The document before its last line came. */
  lemma DropLine(d: Document) returns (less: Document, line: string)
    requires WellFormed(d) && (d.before != [] || d.passages != [])
    ensures WellFormed(less) && AddLine(less, line) == d
    ensures d.before + Flat(d.passages) == less.before + Flat(less.passages) + [line]
  {
    hide IsHeader;
    var n := |d.passages|;
    if n == 0 {
      var m := |d.before| - 1;
      less, line := Document(d.before[..m], []), d.before[m];
      assert d.before == less.before + [line];
    } else {
      var p := d.passages[n - 1];
      var front := d.passages[..n - 1];
      assert d.passages == front + [p];
      var m := |p.lines|;
      if m == 0 {
        less, line := Document(d.before, front), p.header;
      } else {
        var q := p.(lines := p.lines[..m - 1]);
        less, line := Document(d.before, front + [q]), p.lines[m - 1];
        assert less.passages[..n - 1] == front && less.passages[n - 1] == q;
        assert p.lines == q.lines + [line];
      }
    }
    AddLineKeeps(less, line);
  }

  /** Any document written out is read back: the reading is the only one. */
  lemma {:induction false} DocumentRoundTrip(d: Document)
    requires WellFormed(d)
    ensures Read(d.before + Flat(d.passages)) == d
    decreases |d.before + Flat(d.passages)|
  {
    if d.before == [] && d.passages == [] {
      assert [] + Flat([]) == [];
    } else {
      hide WellFormed, AddLine, Flat;
      var less, line := DropLine(d);
      DocumentRoundTrip(less);
      ReadOneMore(less.before + Flat(less.passages), line);
    }
  }

  /** What has been read while the last passage may still grow. */
  function SoFar(before: seq<string>, passages: seq<Passage>, current: Option<Passage>): Document {
    Document(before, passages + (if current.Some? then [current.value] else []))
  }

  lemma SoFarMore(before: seq<string>, passages: seq<Passage>, current: Option<Passage>, line: string)
    requires current.None? ==> passages == []
    ensures AddLine(SoFar(before, passages, current), line) ==
      if IsHeader(line) then
        SoFar(before, if current.Some? then passages + [current.value] else passages, Some(Passage(line, [])))
      else if current.Some? then
        SoFar(before, passages, Some(current.value.(lines := current.value.lines + [line])))
      else SoFar(before + [line], passages, None)
  {
    var d := SoFar(before, passages, current);
    if current.Some? {
      assert d.passages[..|d.passages| - 1] == passages;
    }
  }

  lemma SoFarStarts(lines: seq<string>)
    ensures Read(lines[..0]) == SoFar([], [], None) && lines[..|lines|] == lines
  {}

  lemma ReadNext(lines: seq<string>, i: nat)
    requires i < |lines|
    ensures Read(lines[..i + 1]) == AddLine(Read(lines[..i]), lines[i])
  {
    assert lines[..i + 1] == lines[..i] + [lines[i]];
    ReadOneMore(lines[..i], lines[i]);
  }

  lemma SoFarEnds(before: seq<string>, passages: seq<Passage>, current: Option<Passage>)
    ensures current.Some? ==> SoFar(before, passages, current) == Document(before, passages + [current.value])
    ensures current.None? ==> SoFar(before, passages, current) == Document(before, passages)
  {}

  /** The loop of split_passages. */
  method Group(lines: seq<string>) returns (passages: seq<Passage>, ghost before: seq<string>)
    ensures Read(lines) == Document(before, passages)
  {
    hide IsHeader;
    passages, before := [], [];
    SoFarStarts(lines);
    hide Read, AddLine, SoFar;
    var current: Option<Passage> := None;
    var i := 0;
    while i < |lines|
      invariant i <= |lines| && (current.None? ==> passages == [])
      invariant Read(lines[..i]) == SoFar(before, passages, current)
    {
      var line := lines[i];
      ReadNext(lines, i);
      SoFarMore(before, passages, current, line);
      if IsHeader(line) {
        if current.Some? { passages := passages + [current.value]; }
        current := Some(Passage(line, []));
      } else if current.Some? {
        current := Some(current.value.(lines := current.value.lines + [line]));
      } else {
        before := before + [line];
      }
      i := i + 1;
    }
    SoFarEnds(before, passages, current);
    if current.Some? { passages := passages + [current.value]; }
  }

  /** split_passages, each passage with its header line and its lines. */
  method SplitPassages(text: string) returns (passages: seq<Passage>, ghost before: seq<string>)
    ensures WellFormed(Document(before, passages)) && before + Flat(passages) == Lines(Unix(text))
    ensures before + Flat(passages) != [] && Joined(before + Flat(passages)) == Unix(text)
    ensures NoneHolds('\n', before + Flat(passages))
    ensures before == Read(Lines(Unix(text))).before
    ensures passages == Read(Lines(Unix(text))).passages
  {
    hide WellFormed, Flat, Unix, Lines, Joined, NoneHolds, Read;
    var lines := Lines(Unix(text));
    passages, before := Group(lines);
    ReadLosesNothing(lines);
    LinesJoined(Unix(text));
  }
}
