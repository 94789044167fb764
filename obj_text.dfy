/**
 * ObjText: the character-level part of the OBJ loader.  It covers how a
 * line is classified, how the attributes of a line are delimited in the
 * 16-character attribute buffer, how a face corner's three integers are
 * crawled out of that buffer, and atoi.
 */
module ObjText {
  import opened Common

  /** Capacity of the attribute buffer, attrib[attribDigits]. */
  const AttribDigits: nat := 16

  // ---------------------------------------------------------------------
  // atoi
  // ---------------------------------------------------------------------

  /** The characters isspace accepts in the C locale. */
  predicate IsSpace(c: char) {
    c == ' ' || c == '\t' || c == '\n' || c == '\U{000B}' || c == '\U{000C}' || c == '\r'
  }

  predicate IsDigit(c: char) {
    '0' <= c <= '9'
  }

  function DigitValue(c: char): nat
    requires IsDigit(c)
  {
    (c as int) - ('0' as int)
  }

  function DigitChar(d: nat): (c: char)
    requires d < 10
    ensures IsDigit(c) && DigitValue(c) == d
  {
    (('0' as int) + d) as char
  }

  predicate AllDigits(s: seq<char>) {
    forall i :: 0 <= i < |s| ==> IsDigit(s[i])
  }

  /** The value of a run of decimal digits. */
  function Value(d: seq<char>): nat
    requires AllDigits(d)
    decreases |d|
  {
    if d == [] then 0 else Value(d[..|d| - 1]) * 10 + DigitValue(d[|d| - 1])
  }

  /** The number of digits at the front of s. */
  function DigitRun(s: seq<char>): (n: nat)
    ensures n <= |s| && AllDigits(s[..n])
    ensures n < |s| ==> !IsDigit(s[n])
    decreases |s|
  {
    if s == [] || !IsDigit(s[0]) then 0
    else
      var n := 1 + DigitRun(s[1..]);
      assert s[..n] == [s[0]] + s[1..][..n - 1];
      n
  }

  function SkipSpace(s: seq<char>): (t: seq<char>)
    ensures |t| <= |s| && (t == [] || !IsSpace(t[0]))
    decreases |s|
  {
    if s != [] && IsSpace(s[0]) then SkipSpace(s[1..]) else s
  }

  /** atoi: leading white space, an optional sign, then as many decimal
      digits as follow. */
  function Atoi(s: seq<char>): int {
    var t := SkipSpace(s);
    if t != [] && t[0] == '-' then -(Value(t[1..][..DigitRun(t[1..])]) as int)
    else if t != [] && t[0] == '+' then Value(t[1..][..DigitRun(t[1..])])
    else Value(t[..DigitRun(t)])
  }

  /** The shortest decimal numeral of n: the reference atoi inverts. */
  function Numeral(n: nat): (s: seq<char>)
    ensures |s| > 0 && AllDigits(s)
    decreases n
  {
    if n < 10 then [DigitChar(n)] else Numeral(n / 10) + [DigitChar(n % 10)]
  }

  lemma {:induction false} ValueOfNumeral(n: nat)
    ensures Value(Numeral(n)) == n
    decreases n
  {
    if n >= 10 {
      var s := Numeral(n);
      assert s[..|s| - 1] == Numeral(n / 10);
      ValueOfNumeral(n / 10);
    }
  }

  lemma DigitRunOfNumeral(n: nat, rest: seq<char>)
    requires rest == [] || !IsDigit(rest[0])
    ensures DigitRun(Numeral(n) + rest) == |Numeral(n)|
    ensures (Numeral(n) + rest)[..|Numeral(n)|] == Numeral(n)
    decreases |Numeral(n)|
  {
    var s := Numeral(n) + rest;
    var d := Numeral(n);
    if |d| > 1 {
      assert s[1..] == d[1..] + rest;
      DigitRunOfAll(d[1..], rest);
    }
  }

  lemma {:induction false} DigitRunOfAll(d: seq<char>, rest: seq<char>)
    requires AllDigits(d) && (rest == [] || !IsDigit(rest[0]))
    ensures DigitRun(d + rest) == |d|
    decreases |d|
  {
    if d != [] {
      assert (d + rest)[1..] == d[1..] + rest;
      DigitRunOfAll(d[1..], rest);
    } else {
      assert d + rest == rest;
    }
  }

  /** atoi reads back a numeral, with or without a minus sign, whatever
      non-digit follows it. */
  lemma AtoiNumeral(n: nat, rest: seq<char>)
    requires rest == [] || !IsDigit(rest[0])
    ensures Atoi(Numeral(n) + rest) == n
    ensures Atoi(['-'] + Numeral(n) + rest) == -(n as int)
  {
    var s := Numeral(n) + rest;
    NumeralRun(n, rest);
    var m := ['-'] + s;
    assert ['-'] + Numeral(n) + rest == m;
    assert SkipSpace(m) == m;
    assert m[1..] == s;
  }

  /** A numeral followed by a non-digit starts with a digit and its digit
      run spells n. */
  lemma NumeralRun(n: nat, rest: seq<char>)
    requires rest == [] || !IsDigit(rest[0])
    ensures var s := Numeral(n) + rest;
      IsDigit(s[0]) && SkipSpace(s) == s && Value(s[..DigitRun(s)]) == n
  {
    var s := Numeral(n) + rest;
    DigitRunOfAll(Numeral(n), rest);
    assert s[..|Numeral(n)|] == Numeral(n);
    ValueOfNumeral(n);
    assert SkipSpace(s) == s;
  }

  /** The conversion of atoi's int to the uint32 a face corner holds. */
  function Wrap32(x: int): (r: U32)
    ensures 0 <= x < 0x1_0000_0000 ==> r == x
    ensures (r - x) % 0x1_0000_0000 == 0
  {
    x % 0x1_0000_0000
  }

  // ---------------------------------------------------------------------
  // Line classification
  // ---------------------------------------------------------------------

  /** What the first characters of a line select. */
  datatype LineKind = Position | Uv | Normal | Face | Polyline | Curve | Ignored

  /** The zero-filled line buffer: past the line's end it reads NUL. */
  function At(s: seq<char>, i: nat): char {
    if i < |s| then s[i] else '\0'
  }

  predicate Decoded(k: LineKind) {
    k == Position || k == Uv || k == Normal || k == Face
  }

  predicate Fails(k: LineKind) {
    k == Polyline || k == Curve
  }

  /** memcmp(line, "cstype", 7) as written: the seventh byte compared is
      the literal's NUL, so only a line that is exactly "cstype" matches. */
  predicate CstypeExact(line: seq<char>) {
    |line| >= 6 && line[..6] == "cstype" && At(line, 6) == '\0'
  }

  /** A line that starts with the curve keyword. */
  predicate CstypePrefix(line: seq<char>) {
    |line| >= 6 && line[..6] == "cstype"
  }

  function ClassifyWith(line: seq<char>, curve: bool): LineKind {
    if At(line, 0) == 'v' && At(line, 1) == ' ' then Position
    else if At(line, 0) == 'v' && At(line, 1) == 't' then Uv
    else if At(line, 0) == 'v' && At(line, 1) == 'n' then Normal
    else if At(line, 0) == 'f' && At(line, 1) == ' ' then Face
    else if At(line, 0) == 'l' then Polyline
    else if curve then Curve
    else Ignored
  }

  /** The line classification as written. */
  function ClassifyAsWritten(line: seq<char>): LineKind {
    ClassifyWith(line, CstypeExact(line))
  }

  /** A curve declaration always names its curve type after the keyword,
      and then the check as written lets it through. */
  lemma CstypeWithTypeIgnoredAsWritten()
    ensures ClassifyAsWritten("cstype bspline") == Ignored
    ensures Classify("cstype bspline") == Curve
  {
    assert "cstype bspline"[..6] == "cstype";
  }

  /** The line classification with the keyword compared as a prefix. */
  function Classify(line: seq<char>): LineKind {
    ClassifyWith(line, CstypePrefix(line))
  }

  /** A line stops the load exactly when it starts with 'l' or with the
      curve keyword. */
  lemma ClassifyFailsExactly(line: seq<char>)
    ensures Fails(Classify(line)) <==> At(line, 0) == 'l' || CstypePrefix(line)
  {
    if CstypePrefix(line) {
      assert line[0] == "cstype"[0];
    }
  }

  /** Only the first six characters decide a line's kind. */
  lemma ClassifyReadsSixChars(line: seq<char>)
    ensures Classify(line) == Classify(line[..if |line| < 6 then |line| else 6])
  {
    var short := line[..if |line| < 6 then |line| else 6];
    assert At(short, 0) == At(line, 0) && At(short, 1) == At(line, 1);
    if |line| >= 6 {
      assert short[..6] == line[..6];
    }
  }

  /** Where a line's attributes start: past "v " and "f ", past "vt " and
      "vn ". */
  function HeadOffset(k: LineKind): nat {
    if k == Position || k == Face then 2 else 3
  }

  // ---------------------------------------------------------------------
  // Face corners
  // ---------------------------------------------------------------------

  /** The characters that end one of a corner's integers. */
  predicate Ends(c: char) {
    c == '/' || c == '\0'
  }

  /** The corner crawl: starting at buffer position k with the digits of
      the current integer in seg and the integers already read in got,
      every '/' or NUL ends an integer, until three have been read.  The
      crawl goes on past the token's NUL into whatever the buffer still
      holds, and reads NUL past the buffer's end. */
  function Crawl(buf: seq<char>, k: nat, seg: seq<char>, got: seq<int>): (r: seq<int>)
    requires |got| < 3
    ensures |r| == 3 && r[..|got|] == got
    decreases (if k < |buf| then |buf| - k else 0) + 3 - |got|
  {
    if Ends(At(buf, k)) then
      var more := got + [Atoi(seg)];
      if |more| == 3 then more else Crawl(buf, k + 1, [], more)
    else Crawl(buf, k + 1, seg + [At(buf, k)], got)
  }

  /** OBJ_BinaryFace: a corner's position, texture and normal indices. */
  datatype Corner = Corner(pos: U32, uv: U32, normal: U32)

  /** One corner from the attribute buffer: the crawl's three integers,
      each stored as a uint32. */
  function CornerOf(buf: seq<char>): Corner {
    var r := Crawl(buf, 0, [], []);
    Corner(Wrap32(r[0]), Wrap32(r[1]), Wrap32(r[2]))
  }

  /** The index of the first '/' of a token, or its length. */
  function FirstSlash(t: seq<char>): (n: nat)
    ensures n <= |t| && '/' !in t[..n] && (n < |t| ==> t[n] == '/')
    decreases |t|
  {
    if t == [] then 0
    else if t[0] == '/' then 0
    else
      var n := 1 + FirstSlash(t[1..]);
      assert t[..n] == [t[0]] + t[1..][..n - 1];
      n
  }

  /** The slash-separated fields of a token. */
  function NumFields(t: seq<char>): nat
    decreases |t|
  {
    if FirstSlash(t) == |t| then 1 else 1 + NumFields(t[FirstSlash(t) + 1..])
  }

  function Field(t: seq<char>, n: nat): seq<char>
    requires n < NumFields(t)
    decreases |t|
  {
    if n == 0 then t[..FirstSlash(t)] else Field(t[FirstSlash(t) + 1..], n - 1)
  }

  /** Reading one integer: m characters none of which ends it, then one
      that does. */
  lemma {:induction false} ReadSegment(buf: seq<char>, k: nat, seg: seq<char>, got: seq<int>, m: nat)
    requires |got| < 3 && k + m < |buf|
    requires forall i :: k <= i < k + m ==> !Ends(buf[i])
    requires Ends(buf[k + m])
    ensures var more := got + [Atoi(seg + buf[k .. k + m])];
      Crawl(buf, k, seg, got) == if |more| == 3 then more else Crawl(buf, k + m + 1, [], more)
    decreases m
  {
    if m > 0 {
      assert !Ends(At(buf, k));
      assert seg + [buf[k]] + buf[k + 1 .. k + m] == seg + buf[k .. k + m];
      ReadSegment(buf, k + 1, seg + [buf[k]], got, m - 1);
    } else {
      assert seg + buf[k .. k] == seg;
    }
  }

  /** The part of a token after its first '/'. */
  function Rest(t: seq<char>): seq<char>
    requires FirstSlash(t) < |t|
  {
    t[FirstSlash(t) + 1..]
  }

  /** A token t held in the buffer at k and ended there by a NUL. */
  predicate HeldAt(buf: seq<char>, k: nat, t: seq<char>) {
    k + |t| < |buf| && buf[k + |t|] == '\0'
    && forall i :: 0 <= i < |t| ==> buf[k + i] == t[i] && t[i] != '\0'
  }

  /** The crawl reads a held token's first field as its next integer. */
  lemma FirstSegment(buf: seq<char>, k: nat, got: seq<int>, t: seq<char>)
    requires |got| < 3 && HeldAt(buf, k, t)
    ensures var more := got + [Atoi(Field(t, 0))];
      Crawl(buf, k, [], got) == if |more| == 3 then more else Crawl(buf, k + FirstSlash(t) + 1, [], more)
  {
    var m := FirstSlash(t);
    forall i | k <= i < k + m
      ensures !Ends(buf[i])
    {
      assert buf[k + (i - k)] == t[i - k] && t[i - k] in t[..m];
    }
    assert Ends(buf[k + m]) by {
      if m < |t| { assert buf[k + m] == t[m]; }
    }
    ReadSegment(buf, k, [], got, m);
    assert [] + buf[k .. k + m] == t[..m] by {
      forall i | 0 <= i < m ensures buf[k .. k + m][i] == t[i] { }
    }
  }

  /** After a held token's first '/', the rest of it is held too. */
  lemma RestHeld(buf: seq<char>, k: nat, t: seq<char>)
    requires HeldAt(buf, k, t) && FirstSlash(t) < |t|
    ensures HeldAt(buf, k + FirstSlash(t) + 1, Rest(t))
  {
    var m := FirstSlash(t) + 1;
    assert Rest(t) == t[m..];
    SuffixHeld(buf, k, t, m);
  }

  /** Every suffix of a held token is held where it starts. */
  lemma SuffixHeld(buf: seq<char>, k: nat, t: seq<char>, m: nat)
    requires HeldAt(buf, k, t) && m <= |t|
    ensures HeldAt(buf, k + m, t[m..])
  {
    var rest := t[m..];
    forall i | 0 <= i < |rest|
      ensures buf[k + m + i] == rest[i] && rest[i] != '\0'
    {
      assert rest[i] == t[m + i];
      assert buf[k + (m + i)] == t[m + i];
    }
  }

  /** The crawl reads t's first field as the next integer. */
  lemma ReadFirst(buf: seq<char>, k: nat, got: seq<int>, t: seq<char>)
    requires |got| < 3 && HeldAt(buf, k, t)
    ensures Crawl(buf, k, [], got)[|got|] == Atoi(Field(t, 0))
  {
    FirstSegment(buf, k, got, t);
    var more := got + [Atoi(Field(t, 0))];
    var r := Crawl(buf, k, [], got);
    if |more| < 3 {
      var next := Crawl(buf, k + FirstSlash(t) + 1, [], more);
      assert r == next && next[..|more|] == more;
      assert r[|got|] == more[|got|];
    } else {
      assert r == more;
    }
  }

  /** When t has a '/' and more integers are wanted, the crawl carries on
      right after it, where the rest of t is held. */
  lemma ReadPast(buf: seq<char>, k: nat, got: seq<int>, t: seq<char>)
    requires |got| + 1 < 3 && HeldAt(buf, k, t) && FirstSlash(t) < |t|
    ensures Crawl(buf, k, [], got) == Crawl(buf, k + FirstSlash(t) + 1, [], got + [Atoi(Field(t, 0))])
    ensures HeldAt(buf, k + FirstSlash(t) + 1, Rest(t))
  {
    FirstSegment(buf, k, got, t);
    RestHeld(buf, k, t);
  }

  lemma FieldsOfRest(t: seq<char>)
    requires FirstSlash(t) < |t|
    ensures NumFields(t) == 1 + NumFields(Rest(t))
    ensures Field(t, 1) == Field(Rest(t), 0)
    ensures NumFields(t) > 2 ==> Field(t, 2) == Field(Rest(t), 1)
  {
  }

  /** What the loader takes a face token to say: its first field is the
      position index, its second (if any) the texture index, its third (if
      any) the normal index, each read by atoi and stored as a uint32. */
  predicate CornerReads(c: Corner, t: seq<char>) {
    c.pos == Wrap32(Atoi(Field(t, 0)))
    && (NumFields(t) > 1 ==> c.uv == Wrap32(Atoi(Field(t, 1))))
    && (NumFields(t) > 2 ==> c.normal == Wrap32(Atoi(Field(t, 2))))
  }

  /** Past a slash, the crawl reads the next field into the following slot. */
  lemma ReadSecond(buf: seq<char>, k: nat, got: seq<int>, t: seq<char>)
    requires |got| < 2 && HeldAt(buf, k, t) && FirstSlash(t) < |t|
    ensures Crawl(buf, k, [], got)[|got| + 1] == Atoi(Field(Rest(t), 0))
  {
    var more := got + [Atoi(Field(t, 0))];
    var j := k + FirstSlash(t) + 1;
    ReadPast(buf, k, got, t);
    ReadFirst(buf, j, more, Rest(t));
    var r := Crawl(buf, j, [], more);
    assert Crawl(buf, k, [], got) == r && |more| == |got| + 1;
  }

  lemma NormalOfToken(buf: seq<char>, t: seq<char>)
    requires HeldAt(buf, 0, t) && FirstSlash(t) < |t| && FirstSlash(Rest(t)) < |Rest(t)|
    ensures Crawl(buf, 0, [], [])[2] == Atoi(Field(Rest(Rest(t)), 0))
  {
    var g1 := [Atoi(Field(t, 0))];
    ReadPast(buf, 0, [], t);
    assert [] + g1 == g1;
    ReadSecond(buf, FirstSlash(t) + 1, g1, Rest(t));
  }

  /** A token the buffer holds, NUL-terminated, is read as its fields. */
  lemma CornerOfToken(buf: seq<char>, t: seq<char>)
    requires |t| < |buf| && buf[..|t|] == t && buf[|t|] == '\0' && '\0' !in t
    ensures CornerReads(CornerOf(buf), t)
  {
    forall i | 0 <= i < |t|
      ensures buf[0 + i] == t[i] && t[i] != '\0'
    {
      assert buf[..|t|][i] == t[i];
    }
    ReadFirst(buf, 0, [], t);
    if FirstSlash(t) < |t| {
      ReadSecond(buf, 0, [], t);
      FieldsOfRest(t);
      if FirstSlash(Rest(t)) < |Rest(t)| {
        NormalOfToken(buf, t);
        FieldsOfRest(Rest(t));
      } else {
        assert NumFields(Rest(t)) == 1;
      }
    } else {
      assert NumFields(t) == 1;
    }
  }

  // ---------------------------------------------------------------------
  // Attribute delimiting
  // ---------------------------------------------------------------------

  /** The attribute loop's state: the attribute buffer, attribWriter, the
      attribute count, and the corners read (face lines only). */
  datatype TokState = TokState(buf: seq<char>, writer: nat, count: nat, corners: seq<Corner>)

  predicate TokValid(s: TokState) {
    |s.buf| == AttribDigits && s.writer < AttribDigits
  }

  /** attrib = {} at the start of each decoded line. */
  function FreshTok(): (s: TokState)
    ensures TokValid(s)
  {
    TokState(seq(AttribDigits, _ => '\0'), 0, 0, [])
  }

  /** An attribute ends at a space, at NUL, or when it has filled all but
      the last slot of the buffer (the character written there is lost). */
  predicate Delimits(c: char, writer: nat) {
    c == ' ' || writer == AttribDigits - 1 || c == '\0'
  }

  /** One pass of the attribute loop on character c. */
  function TokStep(s: TokState, c: char, face: bool): (r: TokState)
    requires TokValid(s)
    ensures TokValid(r)
  {
    var buf := s.buf[s.writer := c];
    if Delimits(c, s.writer) then
      var ended := buf[s.writer := '\0'];
      TokState(ended, 0, s.count + 1, if face then s.corners + [CornerOf(ended)] else s.corners)
    else TokState(buf, s.writer + 1, s.count, s.corners)
  }

  /** The attribute loop over a sequence of characters. */
  function Tokenize(chars: seq<char>, face: bool): (s: TokState)
    ensures TokValid(s)
    decreases |chars|
  {
    if chars == [] then FreshTok()
    else TokStep(Tokenize(chars[..|chars| - 1], face), chars[|chars| - 1], face)
  }

  /** Reference: the attributes a character sequence splits into, without
      the buffer, and the attribute still being gathered. */
  datatype Split = Split(done: seq<seq<char>>, cur: seq<char>)

  function Tokens(chars: seq<char>): Split
    decreases |chars|
  {
    if chars == [] then Split([], [])
    else
      var p := Tokens(chars[..|chars| - 1]);
      var c := chars[|chars| - 1];
      if Delimits(c, |p.cur|) then Split(p.done + [p.cur], []) else Split(p.done, p.cur + [c])
  }

  /** An attribute holds no space and no NUL. */
  predicate Plain(t: seq<char>) {
    forall i :: 0 <= i < |t| ==> t[i] != ' ' && t[i] != '\0'
  }

  /** The attribute loop delimits exactly the reference's attributes; an
      attribute is at most 15 characters and holds no space or NUL; and on
      a face line every attribute yields exactly one corner, read from the
      attribute's own fields. */
  lemma {:induction false} TokenizeSplits(chars: seq<char>, face: bool)
    ensures var s := Tokenize(chars, face); var p := Tokens(chars);
      s.count == |p.done| && s.writer == |p.cur| && s.buf[..s.writer] == p.cur && Plain(p.cur)
      && (forall j :: 0 <= j < |p.done| ==> Plain(p.done[j]) && |p.done[j]| < AttribDigits)
      && (face ==> |s.corners| == s.count
                   && forall j :: 0 <= j < |s.corners| ==> CornerReads(s.corners[j], p.done[j]))
      && (!face ==> s.corners == [])
    decreases |chars|
  {
    if chars != [] {
      var init := chars[..|chars| - 1];
      TokenizeSplits(init, face);
      var s0 := Tokenize(init, face);
      var p0 := Tokens(init);
      var c := chars[|chars| - 1];
      var buf := s0.buf[s0.writer := c];
      if Delimits(c, s0.writer) {
        var ended := buf[s0.writer := '\0'];
        assert ended[..|p0.cur|] == p0.cur;
        assert '\0' !in p0.cur by {
          forall i | 0 <= i < |p0.cur| ensures p0.cur[i] != '\0' { }
        }
        CornerOfToken(ended, p0.cur);
      } else {
        assert buf[..s0.writer + 1] == p0.cur + [c];
      }
    }
  }
}
