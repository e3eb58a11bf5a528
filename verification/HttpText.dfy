/** Requests as text: what a well-formed request block says is what the parser reads. */
module HttpText {
  import opened Bytes
  import opened Http

  // ----- lines -----

  /** A line that survives the line buffer: no terminator inside, nothing to strip, not too long. */
  ghost predicate Plain(line: seq<Byte>) {
    && 0 < |line| < 1024
    && (forall k :: 0 <= k < |line| ==> line[k] !in {0, 13, 10})
    && line[|line| - 1] !in {32, 9}
  }

  ghost predicate AllPlain(lines: seq<seq<Byte>>) {
    forall k :: 0 <= k < |lines| ==> Plain(lines[k])
  }

  /** The lines, each ended by a carriage return and a line feed. */
  function Block(lines: seq<seq<Byte>>): seq<Byte> {
    if lines == [] then [] else lines[0] + [13, 10] + Block(lines[1..])
  }

  lemma {:induction false} NoZeroInside(s: seq<Byte>)
    requires forall k :: 0 <= k < |s| ==> s[k] != 0
    ensures CString(s) == s
  {
    if s != [] { NoZeroInside(s[1..]); }
  }

  lemma PlainIsClean(line: seq<Byte>)
    requires Plain(line)
    ensures CleanLine(line + [CR]) == line
  {
    var kept := Take(line + [CR], LINE_SIZE - 1);
    NoZeroInside(kept);
    assert kept == if |line| == LINE_SIZE - 1 then line else line + [CR];
    assert (line + [CR])[..|line|] == line;
    assert RStrip(line) == line;
  }

  lemma {:induction false} Strips(s: seq<Byte>) returns (e: nat)
    ensures e <= |s| && RStrip(s) == s[..e] && (e > 0 ==> s[e - 1] !in {13, 10, 32, 9})
    ensures forall k :: e <= k < |s| ==> s[k] in {13, 10, 32, 9}
  {
    e := |s|;
    if s != [] && s[|s| - 1] in {CR, LF, SP, TAB} {
      e := Strips(s[..|s| - 1]);
      assert s[..|s| - 1][..e] == s[..e];
    } else {
      assert s[..e] == s;
    }
  }

  lemma {:induction false} EndsAtZero(s: seq<Byte>) returns (z: nat)
    ensures z <= |s| && CString(s) == s[..z] && (z < |s| ==> s[z] == 0) && forall k :: 0 <= k < z ==> s[k] != 0
  {
    z := 0;
    if s != [] && s[0] != 0 {
      var n := EndsAtZero(s[1..]);
      z := n + 1;
      assert s[..z] == [s[0]] + s[1..][..n];
      forall k | 0 <= k < z ensures s[k] != 0 { if k > 0 { assert s[k] == s[1..][k - 1]; } }
    }
  }

  /** What is kept of a line: at most its first 1023 bytes, up to the first zero byte, without the blanks and line
      ends that come last. */
  lemma CleansLine(raw: seq<Byte>) returns (z: nat, e: nat)
    ensures e <= z <= |raw| && z <= 1023 && CleanLine(raw) == raw[..e]
    ensures (forall k :: 0 <= k < z ==> raw[k] != 0) && (z == |raw| || z == 1023 || raw[z] == 0)
    ensures (forall k :: e <= k < z ==> raw[k] in {13, 10, 32, 9}) && (e > 0 ==> raw[e - 1] !in {13, 10, 32, 9})
  {
    var kept := Take(raw, 1023);
    z := EndsAtZero(kept);
    assert kept[..z] == raw[..z];
    e := Strips(raw[..z]);
    assert raw[..z][..e] == raw[..e];
    forall k | e <= k < z ensures raw[k] in {13, 10, 32, 9} { assert raw[..z][k] == raw[k]; }
  }

  lemma IndexIs(s: seq<Byte>, b: Byte, from: nat, at: nat)
    requires from <= at < |s| && s[at] == b && forall k :: from <= k < at ==> s[k] != b
    ensures IndexFrom(s, b, from) == at
  {
  }

  lemma FirstLine(pre: seq<Byte>, line: seq<Byte>, more: seq<Byte>)
    requires Plain(line)
    ensures var b, at := pre + (line + [CR, LF]) + more, |pre| + |line| + 1;
            IndexFrom(b, LF, |pre|) == at < |b| && b[|pre|..at] == line + [CR]
  {
    var b, at := pre + (line + [CR, LF]) + more, |pre| + |line| + 1;
    forall k | |pre| <= k < at ensures b[k] != LF { assert b[k] == (line + [CR])[k - |pre|]; }
    IndexIs(b, LF, |pre|, at);
  }

  /** The line loop finds exactly the lines. */
  lemma {:induction false} ReadsLines(pre: seq<Byte>, lines: seq<seq<Byte>>, end: nat)
    requires AllPlain(lines) && end + 2 == |pre + Block(lines)|
    ensures Lines(pre + Block(lines) + [CR, LF], |pre|, end) == lines
    decreases |lines|
  {
    hide CleanLine;
    hide IndexFrom;
    if lines != [] {
      assert Plain(lines[0]);
      var line, more := lines[0], Block(lines[1..]) + [CR, LF];
      var next := pre + (line + [CR, LF]);
      assert pre + Block(lines) + [CR, LF] == next + more == next + Block(lines[1..]) + [CR, LF];
      FirstLine(pre, line, more);
      PlainIsClean(line);
      ReadsLines(next, lines[1..], end);
    }
  }

  /** Nothing before the end of the last line looks like the blank line. */
  lemma {:induction false} NoBlankBefore(pre: seq<Byte>, lines: seq<seq<Byte>>, i: nat)
    requires AllPlain(lines) && |pre| <= i < |pre + Block(lines)| - 2
    ensures !BlankLineAt(pre + Block(lines) + [CR, LF], i)
    decreases |lines|
  {
    var b := pre + Block(lines) + [CR, LF];
    assert Plain(lines[0]);
    var line, next := lines[0], pre + (lines[0] + [CR, LF]);
    assert b == next + Block(lines[1..]) + [CR, LF];
    if i >= |next| {
      NoBlankBefore(next, lines[1..], i);
    } else if i < |pre| + |line| {
      assert b[i] == line[i - |pre|];
    } else if i == |pre| + |line| {
      assert Plain(lines[1]);
      assert b[i + 2] == Block(lines[1..])[0] == lines[1][0];
    } else {
      assert b[i] == LF;
    }
  }

  /** A request block followed by anything is parsed as its lines, and exactly it is consumed. */
  lemma ParsesBlock(lines: seq<seq<Byte>>, rest: seq<Byte>)
    requires lines != [] && AllPlain(lines)
    ensures Parse(Block(lines) + [13, 10] + rest) ==
            match ParseLines(lines) case None => BadRequest case Some(r) => Parsed(r, |Block(lines)| + 2)
  {
    hide Lines;
    hide Block;
    hide ParseLines;
    var b := Block(lines) + [CR, LF];
    var e := |b| - 4;
    BlockEnds(lines);
    assert [] + Block(lines) + [CR, LF] == b && [] + Block(lines) == Block(lines);
    ReadsLines([], lines, e);
    forall i: nat | i < e ensures !BlankLineAt(b, i) { NoBlankBefore([], lines, i); }
    assert FirstBlankLine(b, e) && b[..e + 4] == b && (b + rest)[..e + 4] == b;
    OnlyFirst(b, e);
    SameBlock(b, b + rest, e);
  }

  lemma {:induction false} BlockEnds(lines: seq<seq<Byte>>)
    requires lines != [] && AllPlain(lines)
    ensures |Block(lines)| > 2 && Block(lines)[|Block(lines)| - 2..] == [CR, LF]
    decreases |lines|
  {
    assert Plain(lines[0]);
    if |lines| > 1 { BlockEnds(lines[1..]); }
  }

  /** A carriage return, a line feed, and the same again. */
  predicate EndsAt(s: seq<Byte>, e: nat) {
    e + 4 <= |s| && s[e] == 13 && s[e + 1] == 10 && s[e + 2] == 13 && s[e + 3] == 10
  }

  /** The parser is silent exactly as long as these four bytes are missing, and a request ends behind the first of
      them. */
  lemma SilentUntilBlankLine(s: seq<Byte>)
    ensures Parse(s) == NeedMore <==> forall e: nat :: !EndsAt(s, e)
    ensures Parse(s).Parsed? ==>
              var e := Parse(s).consumed - 4;
              e >= 0 && EndsAt(s, e) && forall i: nat :: i < e ==> !EndsAt(s, i)
  {
    hide ParseLines;
    hide Lines;
    forall e: nat ensures BlankLineAt(s, e) <==> EndsAt(s, e) { }
  }

  // ----- the request line -----

  ghost predicate Solid(s: seq<Byte>) {
    s != [] && forall k :: 0 <= k < |s| ==> s[k] != 32 && !(9 <= s[k] <= 13)
  }

  lemma {:induction false} WordEnds(w: seq<Byte>, tail: seq<Byte>, max: nat)
    requires |w| <= max && (forall k :: 0 <= k < |w| ==> !IsSpace(w[k]))
    requires tail == [] || IsSpace(tail[0]) || |w| == max
    ensures Word(w + tail, max) == w
    decreases |w|
  {
    if w != [] {
      assert (w + tail)[1..] == w[1..] + tail;
      WordEnds(w[1..], tail, max - 1);
    } else {
      assert w + tail == tail;
    }
  }

  /** A method, a blank and a path of acceptable lengths are read back, whatever follows the path's end. */
  lemma ReadsRequestLine(verb: seq<Byte>, path: seq<Byte>, tail: seq<Byte>)
    requires Solid(verb) && |verb| <= 7 && Solid(path) && |path| <= 255
    requires tail == [] || tail[0] == 32 || 9 <= tail[0] <= 13
    ensures RequestLine(verb + [32] + path + tail) == Some(EMPTY_REQUEST.(verb := verb, path := path))
  {
    var line := verb + [SP] + path + tail;
    assert line == verb + ([SP] + path + tail);
    WordEnds(verb, [SP] + path + tail, METHOD_SIZE - 1);
    assert SkipSpaces(line) == line;
    assert line[|verb|..] == [SP] + (path + tail) && ([SP] + (path + tail))[1..] == path + tail;
    assert SkipSpaces(path + tail) == path + tail;
    WordEnds(path, tail, FIELD_SIZE - 1);
  }

  predicate White(b: Byte) {
    b == 32 || 9 <= b <= 13
  }

  /** Nothing but white space, or one word of at most 7 bytes with white space around it. */
  ghost predicate OneWord(line: seq<Byte>) {
    exists i, j :: 0 <= i <= j <= |line| && j - i <= 7 && WordAt(line, i, j)
  }

  ghost predicate WordAt(line: seq<Byte>, i: nat, j: nat)
    requires i <= j <= |line|
  {
    && (forall k :: 0 <= k < i ==> White(line[k])) && (forall k :: i <= k < j ==> !White(line[k]))
    && forall k :: j <= k < |line| ==> White(line[k])
  }

  lemma {:induction false} SkipsSpaces(s: seq<Byte>) returns (i: nat)
    ensures i <= |s| && SkipSpaces(s) == s[i..] && (forall k :: 0 <= k < i ==> White(s[k]))
    ensures i < |s| ==> !White(s[i])
  {
    i := 0;
    if s != [] && IsSpace(s[0]) {
      var n := SkipsSpaces(s[1..]);
      i := n + 1;
      assert s[1..][n..] == s[i..];
      forall k | 0 <= k < i ensures White(s[k]) { if k > 0 { assert s[k] == s[1..][k - 1]; } }
    }
  }

  lemma {:induction false} WordIs(s: seq<Byte>, max: nat)
    ensures var w := Word(s, max);
            && (forall k :: 0 <= k < |w| ==> !White(s[k])) && (|w| == |s| || |w| == max || White(s[|w|]))
    decreases max
  {
    if max > 0 && s != [] && !IsSpace(s[0]) {
      WordIs(s[1..], max - 1);
      var w := Word(s[1..], max - 1);
      forall k | 0 <= k < |w| + 1 ensures !White(s[k]) { if k > 0 { assert s[k] == s[1..][k - 1]; } }
    }
  }

  /** The first word of a line is i..j; behind the white space after it, the rest starts at m. */
  ghost predicate Cut(line: seq<Byte>, i: nat, j: nat, m: nat) {
    && i <= j <= m <= |line| && j - i <= 7
    && (forall k :: 0 <= k < i ==> White(line[k])) && (forall k :: i <= k < j ==> !White(line[k]))
    && (forall k :: j <= k < m ==> White(line[k])) && (m < |line| ==> !White(line[m]))
    && (j == |line| || j - i == 7 || White(line[j])) && (i == j ==> j == |line|)
  }

  lemma CutsLine(line: seq<Byte>) returns (i: nat, j: nat, m: nat)
    ensures Cut(line, i, j, m) && (RequestLine(line) == None <==> m == |line|)
  {
    i := SkipsSpaces(line);
    var s := line[i..];
    WordIs(s, 7);
    var verb := Word(s, 7);
    j := i + |verb|;
    var rest := s[|verb|..];
    assert rest == line[j..];
    var n := SkipsSpaces(rest);
    m := j + n;
    WordIs(SkipSpaces(rest), 255);
    forall k | i <= k < j ensures !White(line[k]) { assert line[k] == s[k - i]; }
    forall k | j <= k < m ensures White(line[k]) { assert line[k] == rest[k - j]; }
    assert m < |line| ==> line[m] == rest[n];
    assert j < |line| ==> line[j] == s[|verb|];
  }

  lemma OneWordIs(line: seq<Byte>, i: nat, j: nat, m: nat)
    requires Cut(line, i, j, m)
    ensures OneWord(line) <==> m == |line|
  {
    assert m < |line| ==> i < j && !White(line[i]) && !White(line[m]) && (j < m ==> White(line[j]));
    if m == |line| { assert WordAt(line, i, j); }
  }

  /** A first line is refused exactly when it has no second word. */
  lemma RefusesOneWord(line: seq<Byte>)
    ensures RequestLine(line) == None <==> OneWord(line)
  {
    hide RequestLine;
    hide Cut;
    hide OneWord;
    var i, j, m := CutsLine(line);
    OneWordIs(line, i, j, m);
  }

  // ----- header fields -----

  /** The value, if the line is a header of that name. */
  ghost function Value(line: seq<Byte>, name: string): Option<seq<Byte>> {
    var colon := IndexFrom(line, 58, 0);
    if colon < |line| && SameIgnoringCase(line[..colon], name) then Some(SkipBlanks(line[colon + 1..])) else None
  }

  /** The same letter, whatever its case, or the same byte. */
  predicate Alike(a: nat, b: nat) {
    a == b || (65 <= a <= 90 && b == a + 32) || (65 <= b <= 90 && a == b + 32)
  }

  predicate Spells(s: seq<Byte>, word: string) {
    |s| == |word| && forall i :: 0 <= i < |s| ==> Alike(s[i], word[i] as int)
  }

  ghost predicate AsciiOnly(word: string) {
    forall i :: 0 <= i < |word| ==> word[i] as int < 128
  }

  lemma CaseOnly(a: Byte, b: Byte)
    ensures LowerByte(a) == LowerByte(b) <==> Alike(a, b)
  {
  }

  lemma SameSpells(s: seq<Byte>, word: string)
    requires AsciiOnly(word)
    ensures SameIgnoringCase(s, word) <==> Spells(s, word)
  {
    var w := Ascii(word);
    if |s| == |word| {
      forall i | 0 <= i < |s|
        ensures Lower(s)[i] == Lower(w)[i] <==> Alike(s[i], word[i] as int)
      {
        CaseOnly(s[i], w[i]);
      }
    } else {
      assert |Lower(s)| == |s| && |Lower(w)| == |word|;
    }
  }

  /** A line `name: value`: the name ends at the first colon, the blanks behind that do not count. */
  ghost predicate IsHeader(line: seq<Byte>, name: string, v: seq<Byte>) {
    exists c: nat, k: nat :: c < k <= |line| && HeaderAt(line, name, c, k) && v == line[k..]
  }

  ghost predicate HeaderAt(line: seq<Byte>, name: string, c: nat, k: nat)
    requires c < k <= |line|
  {
    && line[c] == 58 && (forall j :: 0 <= j < c ==> line[j] != 58) && Spells(line[..c], name)
    && (forall j :: c < j < k ==> line[j] in {32, 9}) && (k < |line| ==> line[k] !in {32, 9})
  }

  lemma {:induction false} SkipsBlanks(s: seq<Byte>) returns (n: nat)
    ensures n <= |s| && SkipBlanks(s) == s[n..] && (forall k :: 0 <= k < n ==> s[k] in {32, 9})
    ensures n < |s| ==> s[n] !in {32, 9}
  {
    n := 0;
    if s != [] && s[0] in {SP, TAB} {
      var m := SkipsBlanks(s[1..]);
      n := m + 1;
      assert s[1..][m..] == s[n..];
      forall k | 0 <= k < n ensures s[k] in {32, 9} { if k > 0 { assert s[k] == s[1..][k - 1]; } }
    }
  }

  lemma ValueIsHeader(line: seq<Byte>, name: string, v: seq<Byte>)
    requires AsciiOnly(name)
    ensures Value(line, name) == Some(v) <==> IsHeader(line, name, v)
  {
    hide SameIgnoringCase;
    hide Spells;
    hide SkipBlanks;
    var colon := IndexFrom(line, 58, 0);
    if colon < |line| {
      var rest := line[colon + 1..];
      var n := SkipsBlanks(rest);
      var k := colon + 1 + n;
      assert rest[n..] == line[k..];
      assert forall j :: colon < j <= |line| - 1 ==> line[j] == rest[j - colon - 1];
      SameSpells(line[..colon], name);
      if Value(line, name) == Some(v) { assert HeaderAt(line, name, colon, k); }
    }
  }

  /** The value of the last header line of that name. */
  ghost function LastValue(lines: seq<seq<Byte>>, name: string): Option<seq<Byte>> {
    if lines == [] then None
    else
      var v := Value(lines[|lines| - 1], name);
      if v.Some? then v else LastValue(lines[..|lines| - 1], name)
  }

  /** What a text field holds: the value cut to its size, if there is one. */
  function TextOr(value: Option<seq<Byte>>, otherwise: seq<Byte>): seq<Byte> {
    match value case None => otherwise case Some(v) => if |v| <= 255 then v else v[..255]
  }

  function LengthOr(value: Option<seq<Byte>>, otherwise: nat): nat {
    match value case None => otherwise case Some(v) => Length(v)
  }

  lemma OneHeader(r: Request, line: seq<Byte>)
    ensures var q := HeaderLine(r, line);
            && q.verb == r.verb && q.path == r.path
            && q.origin == TextOr(Value(line, "Origin"), r.origin)
            && q.wsKey == TextOr(Value(line, "Sec-WebSocket-Key"), r.wsKey)
            && q.contentLength == LengthOr(Value(line, "Content-Length"), r.contentLength)
  {
    hide SameIgnoringCase;
    hide ContainsIgnoringCase;
    hide SkipBlanks;
    hide Length;
    hide IndexFrom;
    FieldNamesDiffer();
  }

  lemma {:induction false} HeaderLinesSnoc(r: Request, lines: seq<seq<Byte>>, last: seq<Byte>)
    ensures HeaderLines(r, lines + [last]) == HeaderLine(HeaderLines(r, lines), last)
    decreases |lines|
  {
    if lines == [] {
      assert [] + [last] == [last] && [last][1..] == [];
    } else {
      assert (lines + [last])[1..] == lines[1..] + [last];
      HeaderLinesSnoc(HeaderLine(r, lines[0]), lines[1..], last);
    }
  }

  /** The last Origin, key and length lines win, cut to their fields; other lines do not matter to them,
      and no header line touches the method or the path. */
  lemma {:induction false} LastHeaderWins(r: Request, lines: seq<seq<Byte>>)
    ensures var q := HeaderLines(r, lines);
            && q.verb == r.verb && q.path == r.path
            && q.origin == TextOr(LastValue(lines, "Origin"), r.origin)
            && q.wsKey == TextOr(LastValue(lines, "Sec-WebSocket-Key"), r.wsKey)
            && q.contentLength == LengthOr(LastValue(lines, "Content-Length"), r.contentLength)
    decreases |lines|
  {
    hide HeaderLine;
    hide Value;
    hide Length;
    if lines != [] {
      var front, last := lines[..|lines| - 1], lines[|lines| - 1];
      assert lines == front + [last];
      HeaderLinesSnoc(r, front, last);
      LastHeaderWins(r, front);
      OneHeader(HeaderLines(r, front), last);
    }
  }

  /** The value of the last line that is a header of that name. */
  ghost predicate IsLastHeader(lines: seq<seq<Byte>>, name: string, v: seq<Byte>) {
    exists i :: 0 <= i < |lines| && IsHeader(lines[i], name, v)
                && forall j, u :: i < j < |lines| ==> !IsHeader(lines[j], name, u)
  }

  lemma {:induction false} LastValueIs(lines: seq<seq<Byte>>, name: string)
    requires AsciiOnly(name)
    ensures forall v :: LastValue(lines, name) == Some(v) <==> IsLastHeader(lines, name, v)
    decreases |lines|
  {
    hide IsHeader;
    hide Value;
    hide AsciiOnly;
    if lines != [] {
      var front, last := lines[..|lines| - 1], lines[|lines| - 1];
      LastValueIs(front, name);
      forall u ensures Value(last, name) == Some(u) <==> IsHeader(last, name, u) { ValueIsHeader(last, name, u); }
      forall v ensures LastValue(lines, name) == Some(v) <==> IsLastHeader(lines, name, v) {
        LastHeaderSnoc(front, last, name, v);
        assert lines == front + [last];
      }
    }
  }

  lemma LastHeaderSnoc(front: seq<seq<Byte>>, last: seq<Byte>, name: string, v: seq<Byte>)
    ensures IsLastHeader(front + [last], name, v) <==>
            IsHeader(last, name, v) || (IsLastHeader(front, name, v) && forall u :: !IsHeader(last, name, u))
  {
    hide IsHeader;
    var lines := front + [last];
    assert lines[|front|] == last && forall i :: 0 <= i < |front| ==> lines[i] == front[i];
    if IsLastHeader(front, name, v) && forall u :: !IsHeader(last, name, u) {
      var i :| 0 <= i < |front| && IsHeader(front[i], name, v)
               && forall j, u :: i < j < |front| ==> !IsHeader(front[j], name, u);
      assert IsHeader(lines[i], name, v);
    }
    if IsHeader(last, name, v) { assert IsHeader(lines[|front|], name, v); }
  }

  // ----- a whole request -----

  /** A text field holds the value of the last header of that name, cut to 255 bytes, or nothing. */
  ghost predicate Holds(lines: seq<seq<Byte>>, name: string, field: seq<Byte>) {
    && (forall v :: IsLastHeader(lines, name, v) ==> field == if |v| <= 255 then v else v[..255])
    && ((forall v :: !IsLastHeader(lines, name, v)) ==> field == [])
  }

  ghost predicate SomeHeader(lines: seq<seq<Byte>>, name: string, word: string) {
    exists i, v :: 0 <= i < |lines| && IsHeader(lines[i], name, v) && Spells(v, word)
  }

  ghost predicate SomeMention(lines: seq<seq<Byte>>, name: string, word: string) {
    exists i, v :: 0 <= i < |lines| && IsHeader(lines[i], name, v) && Mentions(v, word)
  }

  ghost predicate Mentions(v: seq<Byte>, word: string) {
    exists at :: 0 <= at <= |v| - |word| && SpellsAt(v, at, word)
  }

  predicate SpellsAt(v: seq<Byte>, at: nat, word: string)
    requires at + |word| <= |v|
  {
    Spells(v[at..at + |word|], word)
  }

  lemma NamesHeader(line: seq<Byte>, name: string, ok: seq<Byte> -> bool)
    requires AsciiOnly(name)
    ensures Names(line, name, ok) <==> exists v :: IsHeader(line, name, v) && ok(v)
  {
    hide IsHeader;
    hide SameIgnoringCase;
    hide SkipBlanks;
    hide AsciiOnly;
    var v := Value(line, name);
    if v.Some? { ValueIsHeader(line, name, v.value); }
    forall u ensures IsHeader(line, name, u) <==> v == Some(u) { ValueIsHeader(line, name, u); }
  }

  lemma MentionIs(v: seq<Byte>, word: string)
    requires AsciiOnly(word)
    ensures ContainsIgnoringCase(v, word) <==> Mentions(v, word)
  {
    hide SameIgnoringCase;
    hide Spells;
    forall at | 0 <= at <= |v| - |word|
      ensures SameAt(v, at, word) <==> SpellsAt(v, at, word)
    {
      SameSpells(v[at..at + |word|], word);
    }
    if ContainsIgnoringCase(v, word) {
      var at :| 0 <= at <= |v| - |word| && SameAt(v, at, word);
      assert SpellsAt(v, at, word);
    }
    if Mentions(v, word) {
      var at :| 0 <= at <= |v| - |word| && SpellsAt(v, at, word);
      assert SameAt(v, at, word);
    }
  }

  lemma UpgradeIs(lines: seq<seq<Byte>>)
    ensures HasHeader(lines, "Upgrade", WEBSOCKET) <==> SomeHeader(lines, "Upgrade", "websocket")
  {
    hide IsHeader;
    hide SameIgnoringCase;
    hide Spells;
    hide Names;
    forall i | 0 <= i < |lines|
      ensures Names(lines[i], "Upgrade", WEBSOCKET) <==>
              exists v :: IsHeader(lines[i], "Upgrade", v) && WEBSOCKET(v)
    {
      NamesHeader(lines[i], "Upgrade", WEBSOCKET);
    }
    forall v ensures WEBSOCKET(v) <==> Spells(v, "websocket") { SameSpells(v, "websocket"); }
  }

  lemma ConnectionIs(lines: seq<seq<Byte>>)
    ensures HasHeader(lines, "Connection", MENTIONS_UPGRADE) <==> SomeMention(lines, "Connection", "upgrade")
  {
    hide IsHeader;
    hide ContainsIgnoringCase;
    hide Mentions;
    hide Names;
    forall i | 0 <= i < |lines|
      ensures Names(lines[i], "Connection", MENTIONS_UPGRADE) <==>
              exists v :: IsHeader(lines[i], "Connection", v) && MENTIONS_UPGRADE(v)
    {
      NamesHeader(lines[i], "Connection", MENTIONS_UPGRADE);
    }
    forall v ensures MENTIONS_UPGRADE(v) <==> Mentions(v, "upgrade") { MentionIs(v, "upgrade"); }
  }

  lemma FieldsRead(r: Request, headers: seq<seq<Byte>>)
    requires r == EMPTY_REQUEST.(verb := r.verb, path := r.path)
    ensures var req := HeaderLines(r, headers);
            && req.verb == r.verb && req.path == r.path
            && Holds(headers, "Origin", req.origin) && Holds(headers, "Sec-WebSocket-Key", req.wsKey)
            && (req.upgradeHeader <==> SomeHeader(headers, "Upgrade", "websocket"))
            && (req.connectionUpgrade <==> SomeMention(headers, "Connection", "upgrade"))
            && (forall v :: IsLastHeader(headers, "Content-Length", v) ==> req.contentLength == Length(v))
            && ((forall v :: !IsLastHeader(headers, "Content-Length", v)) ==> req.contentLength == 0)
  {
    hide HeaderLines;
    hide IsLastHeader;
    hide SomeHeader;
    hide SomeMention;
    hide HasHeader;
    hide LastValue;
    hide Length;
    hide Holds;
    hide TextOr;
    hide LengthOr;
    var req := HeaderLines(r, headers);
    LastHeaderWins(r, headers);
    UpgradeHeaders(r, headers);
    UpgradeIs(headers);
    ConnectionIs(headers);
    HoldsText(headers, "Origin", req.origin);
    HoldsText(headers, "Sec-WebSocket-Key", req.wsKey);
    HoldsLength(headers, req.contentLength);
  }

  lemma HoldsText(headers: seq<seq<Byte>>, name: string, field: seq<Byte>)
    requires AsciiOnly(name) && field == TextOr(LastValue(headers, name), [])
    ensures Holds(headers, name, field)
  {
    hide LastValue;
    hide IsLastHeader;
    LastValueIs(headers, name);
  }

  lemma HoldsLength(headers: seq<seq<Byte>>, length: nat)
    requires length == LengthOr(LastValue(headers, "Content-Length"), 0)
    ensures forall v :: IsLastHeader(headers, "Content-Length", v) ==> length == Length(v)
    ensures (forall v :: !IsLastHeader(headers, "Content-Length", v)) ==> length == 0
  {
    hide LastValue;
    hide IsLastHeader;
    hide Length;
    LastValueIs(headers, "Content-Length");
  }

  /** A request line and header lines, whatever comes behind the blank line: the request says what they say, and
      exactly they are consumed. */
  lemma ReadsRequest(verb: seq<Byte>, path: seq<Byte>, tail: seq<Byte>, headers: seq<seq<Byte>>, rest: seq<Byte>)
    returns (req: Request)
    requires Solid(verb) && |verb| <= 7 && Solid(path) && |path| <= 255
    requires (tail == [] || tail[0] == 32 || 9 <= tail[0] <= 13) && Plain(verb + [32] + path + tail)
    requires AllPlain(headers)
    ensures var block := Block([verb + [32] + path + tail] + headers) + [13, 10];
            Parse(block + rest) == Parsed(req, |block|)
    ensures req.verb == verb && req.path == path
    ensures Holds(headers, "Origin", req.origin) && Holds(headers, "Sec-WebSocket-Key", req.wsKey)
    ensures req.upgradeHeader <==> SomeHeader(headers, "Upgrade", "websocket")
    ensures req.connectionUpgrade <==> SomeMention(headers, "Connection", "upgrade")
    ensures forall v :: IsLastHeader(headers, "Content-Length", v) ==> req.contentLength == Length(v)
    ensures (forall v :: !IsLastHeader(headers, "Content-Length", v)) ==> req.contentLength == 0
  {
    hide Parse;
    hide Block;
    hide RequestLine;
    hide HeaderLines;
    hide IsLastHeader;
    hide SomeHeader;
    hide SomeMention;
    hide HasHeader;
    hide LastValue;
    hide Plain;
    hide Length;
    hide Holds;
    var line := verb + [32] + path + tail;
    var lines := [line] + headers;
    assert lines[0] == line && lines[1..] == headers;
    ParsesBlock(lines, rest);
    ReadsRequestLine(verb, path, tail);
    req := HeaderLines(EMPTY_REQUEST.(verb := verb, path := path), headers);
    FieldsRead(EMPTY_REQUEST.(verb := verb, path := path), headers);
  }

  lemma FieldNamesDiffer()
    ensures forall s: seq<Byte> :: SameIgnoringCase(s, "Content-Length") ==>
              !SameIgnoringCase(s, "Origin") && !SameIgnoringCase(s, "Sec-WebSocket-Key")
              && !SameIgnoringCase(s, "Upgrade") && !SameIgnoringCase(s, "Connection")
    ensures forall s: seq<Byte> :: SameIgnoringCase(s, "Sec-WebSocket-Key") ==> !SameIgnoringCase(s, "Origin")
  {
  }

  // ----- lengths -----

  /** A number in decimal digits. */
  function Decimal(n: nat): (s: seq<Byte>)
    ensures s != [] && forall k :: 0 <= k < |s| ==> 48 <= s[k] <= 57
  {
    if n < 10 then [48 + n] else Decimal(n / 10) + [48 + n % 10]
  }

  lemma {:induction false} DigitsSplit(a: seq<Byte>, b: seq<Byte>, acc: nat)
    requires forall k :: 0 <= k < |a| ==> 48 <= a[k] <= 57
    ensures Digits(a + b, acc) == Digits(b, Digits(a, acc))
    decreases |a|
  {
    if a == [] {
      assert a + b == b;
    } else {
      assert (a + b)[1..] == a[1..] + b;
      DigitsSplit(a[1..], b, 10 * acc + (a[0] - 48));
    }
  }

  lemma {:induction false} DigitsOfDecimal(n: nat)
    ensures Digits(Decimal(n), 0) == n
  {
    if n >= 10 {
      DigitsOfDecimal(n / 10);
      DigitsSplit(Decimal(n / 10), [48 + n % 10], 0);
    }
  }

  /** The number that digits stand for. */
  function Number(digits: seq<Byte>): nat
    requires forall k :: 0 <= k < |digits| ==> 48 <= digits[k] <= 57
  {
    if digits == [] then 0 else 10 * Number(digits[..|digits| - 1]) + (digits[|digits| - 1] - 48)
  }

  lemma {:induction false} DigitsAre(digits: seq<Byte>)
    requires forall k :: 0 <= k < |digits| ==> 48 <= digits[k] <= 57
    ensures Digits(digits, 0) == Number(digits)
    decreases |digits|
  {
    if digits != [] {
      var front, last := digits[..|digits| - 1], digits[|digits| - 1];
      DigitsAre(front);
      DigitsSplit(front, [last], 0);
      assert digits == front + [last];
      assert [last][1..] == [];
    }
  }

  lemma {:induction false} SkipsAll(blanks: seq<Byte>, rest: seq<Byte>)
    requires (forall k :: 0 <= k < |blanks| ==> White(blanks[k])) && (rest != [] ==> !White(rest[0]))
    ensures SkipSpaces(blanks + rest) == rest
    decreases |blanks|
  {
    if blanks == [] {
      assert blanks + rest == rest;
    } else {
      assert (blanks + rest)[1..] == blanks[1..] + rest;
      SkipsAll(blanks[1..], rest);
    }
  }

  lemma LengthOf(value: seq<Byte>, s: seq<Byte>)
    requires SkipSpaces(value) == s
    ensures s != [] && s[0] == 45 ==> Length(value) == 0
    ensures s == [] || s[0] != 45 ==>
              var n := Digits(if s != [] && s[0] == 43 then s[1..] else s, 0);
              Length(value) == if n > 9223372036854775807 then 9223372036854775807 else n
  {
    hide Digits;
    hide SkipSpaces;
  }

  /** A length is white space, perhaps a sign, and digits; a negative one counts as none, as do no digits, and no
      length is more than the largest long. */
  lemma LengthIs(blanks: seq<Byte>, sign: seq<Byte>, digits: seq<Byte>, tail: seq<Byte>)
    requires (forall k :: 0 <= k < |blanks| ==> White(blanks[k])) && sign in {[], [43], [45]}
    requires forall k :: 0 <= k < |digits| ==> 48 <= digits[k] <= 57
    requires tail == [] || !(48 <= tail[0] <= 57)
    requires sign == [] && digits == [] && tail != [] ==> !White(tail[0]) && tail[0] != 43 && tail[0] != 45
    ensures Length(blanks + sign + digits + tail) ==
            if sign == [45] then 0
            else if Number(digits) > 9223372036854775807 then 9223372036854775807
            else Number(digits)
  {
    hide Length;
    hide Number;
    hide SkipSpaces;
    hide Digits;
    hide White;
    var rest := digits + tail;
    FourInTwo(blanks, sign, digits, tail);
    FirstOfDigits(digits, tail);
    SignFirst(sign, rest);
    SkipsAll(blanks, sign + rest);
    LengthOf(blanks + (sign + rest), sign + rest);
    DigitsAre(digits);
    DigitsSplit(digits, tail, 0);
    DigitsEnd(tail, Number(digits));
  }

  lemma FourInTwo(a: seq<Byte>, b: seq<Byte>, c: seq<Byte>, d: seq<Byte>)
    ensures a + b + c + d == a + (b + (c + d))
  {
  }

  lemma SignFirst(sign: seq<Byte>, rest: seq<Byte>)
    requires sign in {[], [43], [45]} && (sign == [] && rest != [] ==> !White(rest[0]))
    ensures sign == [] ==> sign + rest == rest
    ensures sign != [] ==> sign + rest != [] && (sign + rest)[0] == sign[0] && (sign + rest)[1..] == rest
    ensures sign + rest != [] ==> !White((sign + rest)[0])
  {
  }

  lemma FirstOfDigits(digits: seq<Byte>, tail: seq<Byte>)
    requires forall k :: 0 <= k < |digits| ==> 48 <= digits[k] <= 57
    ensures digits != [] ==> digits + tail != [] && 48 <= (digits + tail)[0] <= 57 && !White((digits + tail)[0])
    ensures digits == [] ==> digits + tail == tail
  {
  }

  lemma DigitsEnd(tail: seq<Byte>, n: nat)
    requires tail == [] || !(48 <= tail[0] <= 57)
    ensures Digits(tail, n) == n
  {
  }

  /** A length written in decimal is read back, up to the largest long, whatever non-digit follows. */
  lemma ReadsLength(n: nat, tail: seq<Byte>)
    requires tail == [] || !(48 <= tail[0] <= 57)
    ensures Length(Decimal(n) + tail) == if n > 9223372036854775807 then 9223372036854775807 else n
  {
    var s := Decimal(n) + tail;
    DigitsOfDecimal(n);
    DigitsSplit(Decimal(n), tail, 0);
    assert SkipSpaces(s) == s;
  }
}
