/** The line protocol of the stream socket: one request line, then raw bytes. */
module RequestLines {
  import opened PacketNumbers
  import opened Packets

  const LINE_MAX := 600
  const CR: byte := 13
  const LF: byte := 10
  const SPACE: byte := 32
  const TAB: byte := 9

  // ---------------------------------------------------------------- Framing

  /** What has been made of the bytes read so far.  `skipLf` says that the line ended in a
      CR that was the last byte read, so that an LF right behind it is still part of it. */
  datatype Intake =
    | Reading(line: seq<byte>)
    | Passing(request: seq<byte>, stream: seq<byte>, skipLf: bool)
    | TooLong

  function LineEnded(line: seq<byte>, end: byte, rest: seq<byte>): Intake {
    if end == CR && rest == [] then Passing(line, [], true)
    else if end == CR && rest[0] == LF then Passing(line, rest[1..], false)
    else Passing(line, rest, false)
  }

  function Scan(line: seq<byte>, chunk: seq<byte>): Intake
    decreases |chunk|
  {
    if chunk == [] then Reading(line)
    else if chunk[0] == CR || chunk[0] == LF then LineEnded(line, chunk[0], chunk[1..])
    else if |line| >= LINE_MAX - 1 then TooLong
    else Scan(line + [chunk[0]], chunk[1..])
  }

  /** The bytes of one read. */
  function Feed(k: Intake, chunk: seq<byte>): Intake {
    if chunk == [] then k else
    match k
    case Reading(line) => Scan(line, chunk)
    case Passing(line, stream, skipLf) =>
      Passing(line, stream + if skipLf && chunk[0] == LF then chunk[1..] else chunk, false)
    case TooLong => TooLong
  }

  function FeedAll(k: Intake, chunks: seq<seq<byte>>): Intake
    decreases |chunks|
  {
    if chunks == [] then k else FeedAll(Feed(k, chunks[0]), chunks[1..])
  }

  function Concat(chunks: seq<seq<byte>>): seq<byte> {
    if chunks == [] then [] else chunks[0] + Concat(chunks[1..])
  }

  lemma {:induction false} ScanAppend(line: seq<byte>, a: seq<byte>, b: seq<byte>)
    ensures Feed(Scan(line, a), b) == Scan(line, a + b)
    decreases |a|
  {
    if a == [] {
      assert a + b == b;
    } else {
      assert (a + b)[0] == a[0] && (a + b)[1..] == a[1..] + b;
      if a[0] != CR && a[0] != LF && |line| < LINE_MAX - 1 {
        ScanAppend(line + [a[0]], a[1..], b);
      } else if b != [] && a[1..] == [] {
        assert [] + b == b && [] + b[1..] == b[1..];
      } else if b != [] {
        assert (a[1..] + b)[1..] == a[1..][1..] + b;
      } else {
        assert a[1..] + b == a[1..];
      }
    }
  }

  /** Two reads do what one read of the same bytes does, wherever the cut falls: inside the
      line, between its CR and LF, or in the stream behind it. */
  lemma FeedAppend(k: Intake, a: seq<byte>, b: seq<byte>)
    ensures Feed(Feed(k, a), b) == Feed(k, a + b)
  {
    if a == [] {
      assert a + b == b;
    } else if b == [] {
      assert a + b == a;
    } else {
      match k
      case Reading(line) => ScanAppend(line, a, b);
      case Passing(_, stream, skipLf) =>
        assert (a + b)[1..] == a[1..] + b;
        assert (stream + a) + b == stream + (a + b);
        assert (stream + a[1..]) + b == stream + (a[1..] + b);
      case TooLong =>
    }
  }

  /** However the client's bytes are cut into reads, the same request and stream result. */
  lemma {:induction false} ChunksDoNotMatter(k: Intake, chunks: seq<seq<byte>>)
    ensures FeedAll(k, chunks) == Feed(k, Concat(chunks))
    decreases |chunks|
  {
    if chunks != [] {
      ChunksDoNotMatter(Feed(k, chunks[0]), chunks[1..]);
      FeedAppend(k, chunks[0], Concat(chunks[1..]));
    }
  }

  predicate Ends(b: byte) { b == CR || b == LF }

  /** What the line protocol means by a request: everything before the first CR, LF or CRLF,
      if that comes within 600 bytes; the stream is everything behind it. */
  ghost predicate Means(s: seq<byte>, k: Intake) {
    match k
    case Reading(line) => line == s && |s| < LINE_MAX && forall b :: b in s ==> !Ends(b)
    case TooLong => |s| >= LINE_MAX && forall b :: b in s[..LINE_MAX] ==> !Ends(b)
    case Passing(line, stream, skipLf) =>
      && |line| < LINE_MAX && (forall b :: b in line ==> !Ends(b))
      && (|| (s == line + [CR, LF] + stream && !skipLf)
          || (s == line + [CR] + stream && skipLf == (stream == []) && (stream != [] ==> stream[0] != LF))
          || (s == line + [LF] + stream && !skipLf))
  }

  lemma {:induction false} ScanMeans(line: seq<byte>, s: seq<byte>)
    requires |line| < LINE_MAX && forall b :: b in line ==> !Ends(b)
    ensures Means(line + s, Scan(line, s))
    decreases |s|
  {
    if s == [] {
      assert line + s == line;
    } else if Ends(s[0]) {
      assert s == [s[0]] + s[1..];
      assert line + s == line + [s[0]] + s[1..];
      if s[0] == CR && s[1..] != [] && s[1] == LF {
        assert s[1..] == [LF] + s[1..][1..];
        assert line + s == line + [CR, LF] + s[1..][1..];
      }
    } else if |line| >= LINE_MAX - 1 {
      assert (line + s)[..LINE_MAX] == line + [s[0]];
    } else {
      assert line + s == (line + [s[0]]) + s[1..];
      ScanMeans(line + [s[0]], s[1..]);
    }
  }

  /** The reader's result is the meaning of all the bytes read. */
  lemma FeedMeans(chunks: seq<seq<byte>>)
    ensures Means(Concat(chunks), FeedAll(Reading([]), chunks))
  {
    ChunksDoNotMatter(Reading([]), chunks);
    var s := Concat(chunks);
    assert [] + s == s;
    ScanMeans([], s);
  }

  // ---------------------------------------------------------------- The request

  datatype Request = NotRfc | Incomplete | Rfc(host: seq<byte>, contact: seq<byte>)

  predicate Blank(b: byte) { b == SPACE || b == TAB }

  predicate Blanks(s: seq<byte>) { forall b :: b in s ==> Blank(b) }
  predicate NoBlanks(s: seq<byte>) { forall b :: b in s ==> !Blank(b) }

  /** How many bytes at the front of s are blank, or are not. */
  function Stretch(s: seq<byte>, blank: bool): (n: nat)
    ensures n <= |s| && (if blank then Blanks(s[..n]) else NoBlanks(s[..n]))
    ensures n < |s| ==> Blank(s[n]) != blank
  {
    if s == [] || Blank(s[0]) != blank then 0
    else
      var n := Stretch(s[1..], blank);
      assert s[..n + 1] == [s[0]] + s[1..][..n];
      n + 1
  }

  function Skip(s: seq<byte>): seq<byte> { s[Stretch(s, true)..] }

  /** s without the blanks at its end. */
  function Trim(s: seq<byte>): seq<byte> {
    if s != [] && Blank(s[|s| - 1]) then Trim(s[..|s| - 1]) else s
  }

  /** A line is a C string: it ends at its first NUL. */
  function CString(s: seq<byte>): seq<byte> {
    if s == [] || s[0] == 0 then [] else [s[0]] + CString(s[1..])
  }

  predicate IsRfc(s: seq<byte>) {
    |s| == 3 && s[0] in {82, 114} && s[1] in {70, 102} && s[2] in {67, 99}
  }

  function Parse(line: seq<byte>): Request {
    var p := Skip(CString(line));
    if |p| < 4 || !IsRfc(p[..3]) || !Blank(p[3]) then NotRfc else Operands(Skip(p[3..]))
  }

  /** What follows the verb: a host and the contact name with its arguments. */
  function Operands(rest: seq<byte>): Request {
    var n := Stretch(rest, false);
    var contact := Trim(Skip(rest[n..]));
    if n == 0 || contact == [] then Incomplete else Rfc(rest[..n], contact)
  }

  /** The grammar of a request. */
  ghost predicate Derives(s: seq<byte>, b0: seq<byte>, verb: seq<byte>, b1: seq<byte>, rest: seq<byte>) {
    s == b0 + (verb + (b1 + rest)) && Blanks(b0) && IsRfc(verb) && Blanks(b1) && b1 != []
  }

  ghost predicate Operate(rest: seq<byte>, host: seq<byte>, b2: seq<byte>, contact: seq<byte>, b3: seq<byte>) {
    && rest == host + (b2 + (contact + b3))
    && host != [] && NoBlanks(host) && Blanks(b2) && b2 != [] && Blanks(b3)
    && contact != [] && !Blank(contact[0]) && !Blank(contact[|contact| - 1])
  }

  ghost predicate IsRequest(s: seq<byte>, host: seq<byte>, contact: seq<byte>) {
    exists b0, verb, b1, rest, b2, b3 :: Derives(s, b0, verb, b1, rest) && Operate(rest, host, b2, contact, b3)
  }

  lemma {:induction false} StretchOfAppend(a: seq<byte>, b: seq<byte>, blank: bool)
    requires forall x :: x in a ==> Blank(x) == blank
    requires b == [] || Blank(b[0]) != blank
    ensures Stretch(a + b, blank) == |a| && (a + b)[..|a|] == a && (a + b)[|a|..] == b
  {
    if a == [] {
      assert a + b == b;
    } else {
      assert (a + b)[1..] == a[1..] + b && (a + b)[0] == a[0];
      StretchOfAppend(a[1..], b, blank);
    }
  }

  lemma {:induction false} TrimOfAppend(a: seq<byte>, b: seq<byte>)
    requires Blanks(b) && a != [] && !Blank(a[|a| - 1])
    ensures Trim(a + b) == a
    decreases |b|
  {
    if b == [] {
      assert a + b == a;
    } else {
      var b1 := b[..|b| - 1];
      assert b[|b| - 1] in b;
      assert (a + b)[..|a + b| - 1] == a + b1;
      forall x | x in b1 ensures Blank(x) { assert x in b; }
      TrimOfAppend(a, b1);
    }
  }

  lemma {:induction false} TrimSplits(s: seq<byte>)
    ensures |Trim(s)| <= |s| && s == Trim(s) + s[|Trim(s)|..] && Blanks(s[|Trim(s)|..])
    ensures Trim(s) != [] ==> !Blank(Trim(s)[|Trim(s)| - 1])
    ensures Trim(s) != [] ==> Trim(s)[0] == s[0]
  {
    if s != [] && Blank(s[|s| - 1]) {
      var s1 := s[..|s| - 1];
      TrimSplits(s1);
      var n := |Trim(s)|;
      assert s[n..] == s1[n..] + [s[|s| - 1]];
      assert s == s[..n] + s[n..];
    }
  }

  lemma SkipSplits(s: seq<byte>) returns (b: seq<byte>)
    ensures s == b + Skip(s) && Blanks(b)
    ensures Skip(s) != [] ==> !Blank(Skip(s)[0])
    ensures s != [] && Blank(s[0]) ==> b != []
  {
    b := s[..Stretch(s, true)];
  }

  lemma OperandsSplit(rest: seq<byte>) returns (b2: seq<byte>, b3: seq<byte>)
    requires Operands(rest).Rfc?
    ensures Operate(rest, Operands(rest).host, b2, Operands(rest).contact, b3)
  {
    hide Skip; hide Trim;
    var n := Stretch(rest, false);
    var r := rest[n..];
    var t := Skip(r);
    b2 := SkipSplits(r);
    TrimSplits(t);
    b3 := t[|Trim(t)|..];
    assert rest == rest[..n] + r;
  }

  lemma IsRequestBy(s: seq<byte>, b0: seq<byte>, verb: seq<byte>, b1: seq<byte>, rest: seq<byte>,
                    host: seq<byte>, b2: seq<byte>, contact: seq<byte>, b3: seq<byte>)
    requires Derives(s, b0, verb, b1, rest) && Operate(rest, host, b2, contact, b3)
    ensures IsRequest(s, host, contact)
  {}

  /** A line that reads as a request has the form of one. */
  lemma ParsedIsRequest(line: seq<byte>)
    requires Parse(line).Rfc?
    ensures IsRequest(CString(line), Parse(line).host, Parse(line).contact)
  {
    hide Operands; hide Operate; hide IsRequest; hide Skip; hide CString; hide IsRfc; hide Blanks;
    var s := CString(line);
    var p := Skip(s);
    var b0 := SkipSplits(s);
    var verb, q := p[..3], p[3..];
    assert q[0] == p[3] && p == verb + q;
    var rest := Skip(q);
    var b1 := SkipSplits(q);
    var b2, b3 := OperandsSplit(rest);
    IsRequestBy(s, b0, verb, b1, rest, Parse(line).host, b2, Parse(line).contact, b3);
  }

  lemma OperandsAreRead(rest: seq<byte>, host: seq<byte>, b2: seq<byte>, contact: seq<byte>, b3: seq<byte>)
    requires Operate(rest, host, b2, contact, b3)
    ensures Operands(rest) == Rfc(host, contact)
  {
    var t := contact + b3;
    var r := b2 + t;
    assert b2[0] in b2;
    StretchOfAppend(host, r, false);
    StretchOfAppend(b2, t, true);
    TrimOfAppend(contact, b3);
  }

  lemma SkipsBlanks(b: seq<byte>, s: seq<byte>)
    requires Blanks(b) && s != [] && !Blank(s[0])
    ensures Skip(b + s) == s
  {
    StretchOfAppend(b, s, true);
  }

  lemma VerbIsRead(p: seq<byte>, verb: seq<byte>, b1: seq<byte>, rest: seq<byte>)
    requires p == verb + (b1 + rest) && IsRfc(verb) && Blanks(b1) && b1 != [] && rest != [] && !Blank(rest[0])
    ensures |p| >= 4 && p[..3] == verb && Blank(p[3]) && Skip(p[3..]) == rest && !Blank(p[0])
  {
    hide Skip;
    assert p[3..] == b1 + rest && b1[0] in b1;
    SkipsBlanks(b1, rest);
  }

  /** A line of that form reads as the request it spells. */
  lemma RequestIsParsed(line: seq<byte>, b0: seq<byte>, verb: seq<byte>, b1: seq<byte>, rest: seq<byte>,
                        host: seq<byte>, b2: seq<byte>, contact: seq<byte>, b3: seq<byte>)
    requires Derives(CString(line), b0, verb, b1, rest) && Operate(rest, host, b2, contact, b3)
    ensures Parse(line) == Rfc(host, contact)
  {
    OperandsAreRead(rest, host, b2, contact, b3);
    assert host[0] in host && rest[0] == host[0];
    hide Operands; hide CString; hide Operate; hide Skip;
    var p := verb + (b1 + rest);
    VerbIsRead(p, verb, b1, rest);
    SkipsBlanks(b0, p);
  }

  /** Requests are exactly the lines of the grammar, and each has one reading. */
  lemma ParseIsExact(line: seq<byte>, host: seq<byte>, contact: seq<byte>)
    ensures Parse(line) == Rfc(host, contact) <==> IsRequest(CString(line), host, contact)
  {
    if Parse(line) == Rfc(host, contact) {
      ParsedIsRequest(line);
    }
    if IsRequest(CString(line), host, contact) {
      var b0, verb, b1, rest, b2, b3 :|
        Derives(CString(line), b0, verb, b1, rest) && Operate(rest, host, b2, contact, b3);
      RequestIsParsed(line, b0, verb, b1, rest, host, b2, contact, b3);
    }
  }

  // ---------------------------------------------------------------- Reading it in place

  /** Steps over blanks, or over anything else, from position i. */
  method StepOver(s: seq<byte>, i: nat, blank: bool) returns (j: nat)
    requires i <= |s|
    ensures i <= j <= |s| && j == i + Stretch(s[i..], blank)
  {
    j := i;
    while j < |s| && Blank(s[j]) == blank
      invariant i <= j <= |s| && i + Stretch(s[i..], blank) == j + Stretch(s[j..], blank)
    {
      assert s[j..][1..] == s[j + 1..];
      j := j + 1;
    }
  }

  method TrimEnd(s: seq<byte>, i: nat) returns (j: nat)
    requires i <= |s|
    ensures i <= j <= |s| && s[i..j] == Trim(s[i..])
  {
    j := |s|;
    assert s[i..j] == s[i..];
    while j > i && Blank(s[j - 1])
      invariant i <= j <= |s| && Trim(s[i..j]) == Trim(s[i..])
    {
      assert s[i..j][..|s[i..j]| - 1] == s[i..j - 1];
      j := j - 1;
    }
  }

  method ReadOperands(s: seq<byte>, h: nat) returns (r: Request)
    requires h <= |s|
    ensures r == Operands(s[h..])
  {
    hide Stretch; hide Trim; hide Blank; hide Blanks; hide NoBlanks;
    ghost var rest := s[h..];
    var e := StepOver(s, h, false);
    assert rest[e - h..] == s[e..] && rest[..e - h] == s[h..e];
    var c := StepOver(s, e, true);
    assert Skip(rest[e - h..]) == s[c..];
    hide Skip;
    var z := TrimEnd(s, c);
    assert s[c..z] == [] <==> c == z;
    if h == e || c == z { return Incomplete; }
    return Rfc(s[h..e], s[c..z]);
  }

  method ReadRequest(line: seq<byte>) returns (r: Request)
    ensures r == Parse(line)
  {
    hide Stretch; hide Operands; hide CString;
    var s := CString(line);
    var i := StepOver(s, 0, true);
    assert s[0..] == s && Skip(s) == s[i..];
    if |s| < i + 4 || !IsRfc(s[i..i + 3]) || !Blank(s[i + 3]) {
      assert |s| >= i + 4 ==> s[i..][..3] == s[i..i + 3];
      return NotRfc;
    }
    assert s[i..][..3] == s[i..i + 3] && s[i..][3..] == s[i + 3..];
    var h := StepOver(s, i + 3, true);
    assert s[i + 3..][h - (i + 3)..] == s[h..];
    r := ReadOperands(s, h);
  }

  // ---------------------------------------------------------------- Host names

  datatype HostEntry = HostEntry(name: seq<byte>, addr: u16)
  datatype Resolved = Unknown | Host(addr: u16)

  predicate IsOctal(s: seq<byte>) { s != [] && forall b :: b in s ==> 48 <= b <= 55 }

  function OctalValue(s: seq<byte>): int {
    if s == [] then 0 else 8 * OctalValue(s[..|s| - 1]) + (s[|s| - 1] as int - 48)
  }

  function Lower(b: byte): byte { if 65 <= b <= 90 then b + 32 else b }

  predicate SameName(a: seq<byte>, b: seq<byte>) {
    |a| == |b| && forall i | 0 <= i < |a| :: Lower(a[i]) == Lower(b[i])
  }

  /** An octal address, or the first host of that name, upper and lower case being the same. */
  function Resolve(hosts: seq<HostEntry>, name: seq<byte>): Resolved {
    if IsOctal(name) then
      var a := OctalValue(name);
      if 0 < a <= 0xFFFF then Host(a) else Unknown
    else if hosts == [] then Unknown
    else if SameName(hosts[0].name, name) then Host(hosts[0].addr)
    else Resolve(hosts[1..], name)
  }

  /** Equal but for the case of letters. */
  lemma SameNameMeans(a: seq<byte>, b: seq<byte>)
    ensures SameName(a, b) <==>
      |a| == |b| && forall i :: 0 <= i < |a| ==>
        a[i] == b[i] || (65 <= a[i] <= 90 && b[i] == a[i] + 32) || (65 <= b[i] <= 90 && a[i] == b[i] + 32)
  {}

  /** A name that is not octal is that of the first host so called, wherever in the table it stands. */
  lemma {:induction false} ResolveFinds(hosts: seq<HostEntry>, name: seq<byte>, i: nat)
    requires !IsOctal(name) && i <= |hosts| && forall j :: 0 <= j < i ==> !SameName(hosts[j].name, name)
    requires i < |hosts| ==> SameName(hosts[i].name, name)
    ensures Resolve(hosts, name) == if i < |hosts| then Host(hosts[i].addr) else Unknown
    decreases i
  {
    if i > 0 { ResolveFinds(hosts[1..], name, i - 1); }
  }

  lemma {:induction false} OctalReadsBack(n: nat)
    ensures IsOctal(Octal(n)) && OctalValue(Octal(n)) == n
  {
    if n < 8 {
      assert Octal(n)[..0] == [];
    } else {
      OctalReadsBack(n / 8);
      var s := Octal(n);
      assert s[..|s| - 1] == Octal(n / 8);
    }
  }

  /** The address that an OPN line shows can be given as a host again. */
  lemma ShownAddressResolves(hosts: seq<HostEntry>, addr: u16)
    requires addr != 0
    ensures Resolve(hosts, Octal(addr)) == Host(addr)
  {
    OctalReadsBack(addr);
  }

  // ---------------------------------------------------------------- Status lines

  const STATUS_MAX := 517

  function Printable(s: seq<byte>): (t: seq<byte>)
    ensures |t| == |s|
  {
    seq(|s|, i requires 0 <= i < |s| => if 0x20 <= s[i] < 0x7F then s[i] else SPACE)
  }

  /** A verb and a text made printable, on one line. */
  function StatusLine(verb: seq<byte>, text: seq<byte>): seq<byte>
    requires |verb| == 3
  {
    var shown := if |text| <= STATUS_MAX - 4 then text else text[..STATUS_MAX - 4];
    Trim(verb + [SPACE] + Printable(shown)) + [CR, LF]
  }

  /** Whatever the peer put into its reason, the client sees a single line. */
  lemma StatusIsOneLine(verb: seq<byte>, text: seq<byte>)
    requires |verb| == 3 && forall b :: b in verb ==> 0x20 < b < 0x7F
    ensures var l := StatusLine(verb, text);
            2 <= |l| <= STATUS_MAX + 2 && l[|l| - 2..] == [CR, LF] &&
            (forall i | 0 <= i < |l| - 2 :: 0x20 <= l[i] < 0x7F) &&
            (|l| > 2 ==> l[|l| - 3] != SPACE)
  {
    var shown := if |text| <= STATUS_MAX - 4 then text else text[..STATUS_MAX - 4];
    var s := verb + [SPACE] + Printable(shown);
    TrimSplits(s);
    hide Trim;
    var t := Trim(s);
    forall i | 0 <= i < |t| ensures 0x20 <= t[i] < 0x7F {
      assert t[i] == s[i];
      if i < 3 {
        assert s[i] == verb[i] && verb[i] in verb;
      } else if i > 3 {
        assert s[i] == Printable(shown)[i - 4];
      }
    }
  }

  /** Nothing but blanks is trimmed, and none before a byte that is not blank. */
  lemma {:induction false} TrimKeeps(s: seq<byte>, i: nat)
    requires i < |s| && !Blank(s[i])
    ensures i < |Trim(s)| <= |s| && Trim(s) == s[..|Trim(s)|] && forall j :: |Trim(s)| <= j < |s| ==> Blank(s[j])
    decreases |s|
  {
    if Blank(s[|s| - 1]) {
      TrimKeeps(s[..|s| - 1], i);
    }
  }

  /** A byte as a status line shows it. */
  function Shown(b: byte): byte { if 0x20 <= b < 0x7F then b else 0x20 }

  /** The line is the verb, a space and what fits of the text, each byte in its place; only blanks at
      its end are left out. */
  lemma StatusShowsText(verb: seq<byte>, text: seq<byte>)
    requires |verb| == 3 && verb[2] > 0x20
    ensures var l := StatusLine(verb, text);
      var k := |l| - 2;
      && k >= 3 && l[..3] == verb && (k > 3 ==> l[3] == 0x20)
      && k <= 4 + |text|
      && forall i :: 0 <= i < |text| && i < 513 ==>
           if 4 + i < k then l[4 + i] == Shown(text[i]) else Shown(text[i]) == 0x20
  {
    var shown := if |text| <= STATUS_MAX - 4 then text else text[..STATUS_MAX - 4];
    var s := verb + [SPACE] + Printable(shown);
    assert s[2] == verb[2];
    TrimKeeps(s, 2);
    var t := Trim(s);
    var l := StatusLine(verb, text);
    assert l == t + [CR, LF];
    hide Trim; hide StatusLine;
    forall i | 0 <= i < |text| && i < 513
      ensures if 4 + i < |t| then l[4 + i] == Shown(text[i]) else Shown(text[i]) == 0x20
    {
      assert s[4 + i] == Printable(shown)[i] == Shown(text[i]);
      if 4 + i < |t| { assert l[4 + i] == t[4 + i] == s[..|t|][4 + i]; } else { assert Blank(s[4 + i]); }
    }
    assert t[..3] == s[..3] == verb;
    assert |t| > 3 ==> t[3] == s[3];
  }

  lemma StatusFits(verb: seq<byte>, text: seq<byte>)
    requires |verb| == 3
    ensures 2 <= |StatusLine(verb, text)| <= STATUS_MAX + 2
  {
    var shown := if |text| <= STATUS_MAX - 4 then text else text[..STATUS_MAX - 4];
    TrimSplits(verb + [SPACE] + Printable(shown));
  }

  function Decimal(n: nat): seq<byte> {
    if n < 10 then [48 + n] else Decimal(n / 10) + [48 + n % 10]
  }

  function DecimalValue(s: seq<byte>): int {
    if s == [] then 0 else 10 * DecimalValue(s[..|s| - 1]) + (s[|s| - 1] as int - 48)
  }

  lemma {:induction false} DecimalReadsBack(n: nat)
    ensures DecimalValue(Decimal(n)) == n && forall b :: b in Decimal(n) ==> 48 <= b <= 57
  {
    if n < 10 {
      assert Decimal(n)[..0] == [];
    } else {
      DecimalReadsBack(n / 10);
      var s := Decimal(n);
      assert s[..|s| - 1] == Decimal(n / 10);
    }
  }

  const LOS_VERB: seq<byte> := [76, 79, 83]
  const CLS_VERB: seq<byte> := [67, 76, 83]

  function OpnLine(addr: u16): seq<byte> {
    Ascii("OPN Connection to host ") + Octal(addr) + [CR, LF]
  }

  function AnsLine(n: nat): seq<byte> {
    Ascii("ANS ") + Decimal(n) + [CR, LF]
  }

  lemma {:induction false} OctalIsShort(n: nat)
    ensures n < 8 ==> |Octal(n)| <= 1
    ensures n < 0x40 ==> |Octal(n)| <= 2
    ensures n < 0x200 ==> |Octal(n)| <= 3
    ensures n < 0x1000 ==> |Octal(n)| <= 4
    ensures n < 0x8000 ==> |Octal(n)| <= 5
    ensures n < 0x4_0000 ==> |Octal(n)| <= 6
  {
    if n >= 8 {
      OctalIsShort(n / 8);
    }
  }

  lemma {:induction false} DecimalIsShort(n: nat)
    ensures n < 10 ==> |Decimal(n)| <= 1
    ensures n < 100 ==> |Decimal(n)| <= 2
    ensures n < 1000 ==> |Decimal(n)| <= 3
  {
    if n >= 10 {
      DecimalIsShort(n / 10);
    }
  }
}
