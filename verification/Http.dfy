/** The HTTP front half of a connection: finding the blank line and reading the header
    lines before it, exactly as leniently as the daemon does. */
module Http {
  import opened Bytes

  const CR: Byte := 13
  const LF: Byte := 10
  const SP: Byte := 32
  const TAB: Byte := 9

  /** The size of the line buffer, of the method buffer and of the text fields. */
  const LINE_SIZE: nat := 1024
  const METHOD_SIZE: nat := 8
  const FIELD_SIZE: nat := 256
  const LONG_MAX: nat := 0x7fff_ffff_ffff_ffff

  datatype Request = Request(verb: seq<Byte>, path: seq<Byte>, origin: seq<Byte>, wsKey: seq<Byte>,
                             upgradeHeader: bool, connectionUpgrade: bool, contentLength: nat)
  {
    predicate IsWsUpgrade() {
      upgradeHeader && connectionUpgrade
    }
  }

  const EMPTY_REQUEST := Request([], [], [], [], false, false, 0)

  datatype Verdict = NeedMore | BadRequest | Parsed(req: Request, consumed: nat)

  // ----- text, as the C library reads it -----

  function Ascii(s: string): seq<Byte> {
    seq(|s|, i requires 0 <= i < |s| => (s[i] as int) % 256)
  }

  function LowerByte(b: Byte): Byte {
    if 65 <= b <= 90 then b + 32 else b
  }

  function Lower(s: seq<Byte>): seq<Byte> {
    seq(|s|, i requires 0 <= i < |s| => LowerByte(s[i]))
  }

  predicate SameIgnoringCase(s: seq<Byte>, word: string) {
    Lower(s) == Lower(Ascii(word))
  }

  predicate ContainsIgnoringCase(s: seq<Byte>, word: string) {
    exists i :: 0 <= i <= |s| - |word| && SameAt(s, i, word)
  }

  predicate SameAt(s: seq<Byte>, i: nat, word: string)
    requires i + |word| <= |s|
  {
    SameIgnoringCase(s[i..i + |word|], word)
  }

  predicate IsSpace(b: Byte) {
    b == SP || 9 <= b <= 13
  }

  /** A C string ends at its first zero byte. */
  function CString(s: seq<Byte>): seq<Byte> {
    if s == [] || s[0] == 0 then [] else [s[0]] + CString(s[1..])
  }

  function RStrip(s: seq<Byte>): seq<Byte> {
    if s != [] && s[|s| - 1] in {CR, LF, SP, TAB} then RStrip(s[..|s| - 1]) else s
  }

  function SkipBlanks(s: seq<Byte>): seq<Byte> {
    if s != [] && s[0] in {SP, TAB} then SkipBlanks(s[1..]) else s
  }

  function SkipSpaces(s: seq<Byte>): seq<Byte> {
    if s != [] && IsSpace(s[0]) then SkipSpaces(s[1..]) else s
  }

  /** A `%Ns` conversion without its leading white space. */
  function Word(s: seq<Byte>, max: nat): (w: seq<Byte>)
    ensures |w| <= max && w <= s
  {
    if max == 0 || s == [] || IsSpace(s[0]) then [] else [s[0]] + Word(s[1..], max - 1)
  }

  function Digits(s: seq<Byte>, acc: nat): nat {
    if s != [] && 48 <= s[0] <= 57 then Digits(s[1..], 10 * acc + (s[0] - 48)) else acc
  }

  /** A Content-Length value: `strtol` in base ten, with anything not positive read as 0. */
  function Length(value: seq<Byte>): nat {
    var s := SkipSpaces(value);
    if s != [] && s[0] == 45 then 0
    else
      var n := Digits(if s != [] && s[0] == 43 then s[1..] else s, 0);
      if n > LONG_MAX then LONG_MAX else n
  }

  /** The first position of a byte from `from` on, or the length if there is none. */
  function IndexFrom(s: seq<Byte>, b: Byte, from: nat): (i: nat)
    requires from <= |s|
    ensures from <= i <= |s| && (forall k :: from <= k < i ==> s[k] != b) && (i < |s| ==> s[i] == b)
    decreases |s| - from
  {
    if from == |s| || s[from] == b then from else IndexFrom(s, b, from + 1)
  }

  // ----- lines -----

  /** A received line as the parser keeps it: cut to the line buffer, ended at a zero byte, stripped. */
  function CleanLine(raw: seq<Byte>): seq<Byte> {
    RStrip(CString(Take(raw, LINE_SIZE - 1)))
  }

  function RequestLine(line: seq<Byte>): Option<Request> {
    var s := SkipSpaces(line);
    var verb := Word(s, METHOD_SIZE - 1);
    var path := Word(SkipSpaces(s[|verb|..]), FIELD_SIZE - 1);
    if verb == [] || path == [] then None else Some(EMPTY_REQUEST.(verb := verb, path := path))
  }

  function HeaderLine(r: Request, line: seq<Byte>): Request {
    var colon := IndexFrom(line, 58, 0);
    if colon == |line| then r
    else
      var name, value := line[..colon], SkipBlanks(line[colon + 1..]);
      if SameIgnoringCase(name, "Origin") then r.(origin := Take(value, FIELD_SIZE - 1))
      else if SameIgnoringCase(name, "Sec-WebSocket-Key") then r.(wsKey := Take(value, FIELD_SIZE - 1))
      else if SameIgnoringCase(name, "Upgrade") then
        r.(upgradeHeader := r.upgradeHeader || SameIgnoringCase(value, "websocket"))
      else if SameIgnoringCase(name, "Connection") then
        r.(connectionUpgrade := r.connectionUpgrade || ContainsIgnoringCase(value, "upgrade"))
      else if SameIgnoringCase(name, "Content-Length") then r.(contentLength := Length(value))
      else r
  }

  function HeaderLines(r: Request, lines: seq<seq<Byte>>): Request
    decreases |lines|
  {
    if lines == [] then r else HeaderLines(HeaderLine(r, lines[0]), lines[1..])
  }

  /** The lines that start before `end`, each running to its LF. */
  function Lines(s: seq<Byte>, p: nat, end: nat): (lines: seq<seq<Byte>>)
    requires p <= |s|
    decreases |s| - p
  {
    if p >= end then []
    else
      var e := IndexFrom(s, LF, p);
      if e == |s| then [] else [CleanLine(s[p..e])] + Lines(s, e + 1, end)
  }

  /** The whole header block: a request line, if there is any line at all, then header lines. */
  function ParseLines(lines: seq<seq<Byte>>): Option<Request> {
    if lines == [] then Some(EMPTY_REQUEST)
    else match RequestLine(lines[0])
         case None => None
         case Some(r) => Some(HeaderLines(r, lines[1..]))
  }

  // ----- the blank line -----

  predicate BlankLineAt(s: seq<Byte>, i: nat) {
    i + 3 < |s| && s[i] == CR && s[i + 1] == LF && s[i + 2] == CR && s[i + 3] == LF
  }

  ghost predicate FirstBlankLine(s: seq<Byte>, e: nat) {
    BlankLineAt(s, e) && forall i: nat :: i < e ==> !BlankLineAt(s, i)
  }

  function FindBlankLine(s: seq<Byte>, from: nat): (r: Option<nat>)
    ensures r.Some? ==> from <= r.value && BlankLineAt(s, r.value)
    ensures forall i: nat :: from <= i && (r.Some? ==> i < r.value) ==> !BlankLineAt(s, i)
    decreases |s| - from
  {
    if from + 3 >= |s| then None else if BlankLineAt(s, from) then Some(from) else FindBlankLine(s, from + 1)
  }

  function Parse(s: seq<Byte>): Verdict {
    match FindBlankLine(s, 0)
    case None => NeedMore
    case Some(e) =>
      match ParseLines(Lines(s[..e + 4], 0, e))
      case None => BadRequest
      case Some(r) => Parsed(r, e + 4)
  }

  lemma SameBlock(s: seq<Byte>, u: seq<Byte>, e: nat)
    requires FirstBlankLine(s, e) && e + 4 <= |u| && s[..e + 4] == u[..e + 4]
    ensures FirstBlankLine(u, e) && Parse(u) == Parse(s) && (Parse(s).Parsed? ==> Parse(s).consumed == e + 4)
  {
    forall i: nat | i <= e
      ensures BlankLineAt(u, i) <==> BlankLineAt(s, i)
    {
      assert forall k :: 0 <= k < e + 4 ==> s[k] == s[..e + 4][k] == u[k];
    }
    OnlyFirst(s, e);
    OnlyFirst(u, e);
  }

  lemma OnlyFirst(s: seq<Byte>, e: nat)
    requires FirstBlankLine(s, e)
    ensures FindBlankLine(s, 0) == Some(e)
  {
  }

  /** The parser stays silent exactly until the first CRLFCRLF is there, and from then on its
      answer is a function of the bytes up to it. */
  lemma VerdictFromBlock(s: seq<Byte>)
    ensures Parse(s) == NeedMore <==> forall e: nat :: !FirstBlankLine(s, e)
    ensures forall e: nat :: FirstBlankLine(s, e) ==>
              Parse(s) == Parse(s[..e + 4]) && (Parse(s).Parsed? ==> Parse(s).consumed == e + 4)
  {
    var r := FindBlankLine(s, 0);
    assert r.Some? ==> FirstBlankLine(s, r.value);
    forall e: nat | FirstBlankLine(s, e)
      ensures Parse(s) == Parse(s[..e + 4]) && (Parse(s).Parsed? ==> Parse(s).consumed == e + 4)
    {
      SameBlock(s, s[..e + 4], e);
    }
  }

  /** An answer, once given, survives any further bytes. */
  lemma VerdictStable(s: seq<Byte>, t: seq<Byte>)
    requires Parse(s) != NeedMore
    ensures Parse(s + t) == Parse(s)
  {
    VerdictFromBlock(s);
    var e: nat :| FirstBlankLine(s, e);
    assert (s + t)[..e + 4] == s[..e + 4];
    SameBlock(s, s + t, e);
  }

  /** A request is an upgrade exactly when one header line says `Upgrade: websocket` and one
      (the same or another) is a Connection line that mentions "upgrade". */
  ghost predicate HasHeader(lines: seq<seq<Byte>>, name: string, ok: seq<Byte> -> bool) {
    exists i :: 0 <= i < |lines| && Names(lines[i], name, ok)
  }

  ghost predicate Names(line: seq<Byte>, name: string, ok: seq<Byte> -> bool) {
    var colon := IndexFrom(line, 58, 0);
    colon < |line| && SameIgnoringCase(line[..colon], name) && ok(SkipBlanks(line[colon + 1..]))
  }

  ghost const WEBSOCKET: seq<Byte> -> bool := v => SameIgnoringCase(v, "websocket")
  ghost const MENTIONS_UPGRADE: seq<Byte> -> bool := v => ContainsIgnoringCase(v, "upgrade")

  lemma {:induction false} UpgradeHeaders(r: Request, lines: seq<seq<Byte>>)
    ensures HeaderLines(r, lines).upgradeHeader <==> r.upgradeHeader || HasHeader(lines, "Upgrade", WEBSOCKET)
    ensures HeaderLines(r, lines).connectionUpgrade <==>
              r.connectionUpgrade || HasHeader(lines, "Connection", MENTIONS_UPGRADE)
    decreases |lines|
  {
    if lines != [] {
      var rest := lines[1..];
      UpgradeHeaders(HeaderLine(r, lines[0]), rest);
      NamesAreDistinct();
      HasHeaderCons(lines, "Upgrade", WEBSOCKET);
      HasHeaderCons(lines, "Connection", MENTIONS_UPGRADE);
    }
  }

  lemma HasHeaderCons(lines: seq<seq<Byte>>, name: string, ok: seq<Byte> -> bool)
    requires lines != []
    ensures HasHeader(lines, name, ok) <==> Names(lines[0], name, ok) || HasHeader(lines[1..], name, ok)
  {
  }

  lemma NamesAreDistinct()
    ensures forall s: seq<Byte> :: SameIgnoringCase(s, "Upgrade") ==>
              !SameIgnoringCase(s, "Origin") && !SameIgnoringCase(s, "Sec-WebSocket-Key")
    ensures forall s: seq<Byte> :: SameIgnoringCase(s, "Connection") ==>
              !SameIgnoringCase(s, "Origin") && !SameIgnoringCase(s, "Sec-WebSocket-Key")
              && !SameIgnoringCase(s, "Upgrade")
  {
  }

  // ----- the parser as the daemon runs it -----

  method FindHeaderEnd(buf: array<Byte>, len: nat) returns (r: Option<nat>)
    requires len <= buf.Length
    ensures r == FindBlankLine(buf[..len], 0)
  {
    ghost var s := buf[..len];
    var i := 0;
    while i + 3 < len
      invariant FindBlankLine(s, 0) == FindBlankLine(s, i)
    {
      if buf[i] == CR && buf[i + 1] == LF && buf[i + 2] == CR && buf[i + 3] == LF {
        assert BlankLineAt(s, i);
        return Some(i);
      }
      assert !BlankLineAt(s, i);
      i := i + 1;
    }
    return None;
  }

  /** `memchr` from `p` on, in the first `end` bytes. */
  method FindLineEnd(buf: array<Byte>, p: nat, end: nat) returns (e: nat)
    requires p <= end <= buf.Length
    ensures e == IndexFrom(buf[..end], LF, p)
  {
    e := p;
    while e < end && buf[e] != LF
      invariant p <= e <= end && IndexFrom(buf[..end], LF, p) == IndexFrom(buf[..end], LF, e)
    {
      e := e + 1;
    }
  }

  /** What the line loop still has to do: `first` until the request line has been read. */
  function Remaining(first: bool, req: Request, lines: seq<seq<Byte>>): Option<Request> {
    if first then ParseLines(lines) else Some(HeaderLines(req, lines))
  }

  /** Copies, cuts and strips the line that starts at `p`, and moves past its LF. */
  method ReadLine(buf: array<Byte>, p: nat, hdrEnd: nat) returns (line: seq<Byte>, next: nat)
    requires p < hdrEnd && hdrEnd + 4 <= buf.Length && BlankLineAt(buf[..hdrEnd + 4], hdrEnd)
    ensures p < next <= hdrEnd + 2
    ensures Lines(buf[..hdrEnd + 4], p, hdrEnd) == [line] + Lines(buf[..hdrEnd + 4], next, hdrEnd)
  {
    ghost var block := buf[..hdrEnd + 4];
    var lineEnd := FindLineEnd(buf, p, hdrEnd + 4);
    assert block[hdrEnd + 1] == LF;
    assert buf[p..lineEnd] == block[p..lineEnd];
    line, next := CleanLine(buf[p..lineEnd]), lineEnd + 1;
  }

  lemma OneLine(first: bool, req: Request, line: seq<Byte>, rest: seq<seq<Byte>>)
    requires first ==> req == EMPTY_REQUEST
    ensures Remaining(first, req, [line] + rest) ==
            if !first then Remaining(false, HeaderLine(req, line), rest)
            else match RequestLine(line) case None => None case Some(r) => Remaining(false, r, rest)
  {
  }

  method ParseRequest(buf: array<Byte>, len: nat) returns (n: int, req: Request)
    requires len <= buf.Length
    ensures match Parse(buf[..len])
            case NeedMore => n == 0
            case BadRequest => n == -1
            case Parsed(r, consumed) => n == consumed && 0 < n <= len && req == r
  {
    req := EMPTY_REQUEST;
    var found := FindHeaderEnd(buf, len);
    if found.None? {
      return 0, req;
    }
    var hdrEnd := found.value;
    ghost var block := buf[..hdrEnd + 4];
    assert block == buf[..len][..hdrEnd + 4] && BlankLineAt(block, hdrEnd);
    ghost var answer := ParseLines(Lines(block, 0, hdrEnd));
    var p, first := 0, true;
    while p < hdrEnd
      invariant p <= hdrEnd + 2
      invariant first ==> req == EMPTY_REQUEST
      invariant answer == Remaining(first, req, Lines(block, p, hdrEnd))
    {
      var line, next := ReadLine(buf, p, hdrEnd);
      OneLine(first, req, line, Lines(block, next, hdrEnd));
      p := next;
      if first {
        first := false;
        var parsed := RequestLine(line);
        if parsed.None? {
          return -1, req;
        }
        req := parsed.value;
      } else {
        req := HeaderLine(req, line);
      }
    }
    n := hdrEnd + 4;
  }
}
