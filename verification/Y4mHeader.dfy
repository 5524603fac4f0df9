/** The Y4M file header: the writer of y4menc.c and the tag parser of y4minput.c. */
module Y4mHeader {
  import opened Bytes
  import opened Wrappers

  const SPACE: Byte := 32
  const NEWLINE: Byte := 10
  const NUL: Byte := 0
  const INT_MAX: nat := 0x7fff_ffff
  const TAG_BUFFER: nat := 256

  // ----- Text

  /** Visible ASCII without spaces. */
  predicate Printable(s: string) {
    forall i :: 0 <= i < |s| ==> '!' <= s[i] <= '~'
  }

  function Text(s: string): (r: seq<Byte>)
    requires forall i :: 0 <= i < |s| ==> s[i] < 256 as char
    ensures |r| == |s| && forall i :: 0 <= i < |s| ==> r[i] == s[i] as int
  {
    seq(|s|, i requires 0 <= i < |s| => s[i] as int)
  }

  predicate IsDigit(b: Byte) { 48 <= b <= 57 }
  predicate IsSpace(b: Byte) { b == 32 || 9 <= b <= 13 }

  /** printf's %u. */
  function Decimal(n: nat): (r: seq<Byte>)
    ensures r != [] && forall i :: 0 <= i < |r| ==> IsDigit(r[i])
  {
    if n < 10 then [48 + n] else Decimal(n / 10) + [48 + n % 10]
  }

  /** scanf's digit run: the value of the leading digits of s, continuing from acc, and what follows them. */
  function ScanDigits(s: seq<Byte>, acc: nat): (nat, seq<Byte>) {
    if s == [] || !IsDigit(s[0]) then (acc, s) else ScanDigits(s[1..], 10 * acc + (s[0] - 48))
  }

  /** scanf's %d: blanks, an optional sign, at least one digit. */
  function ScanInt(s: seq<Byte>): Option<(int, seq<Byte>)> {
    if s != [] && IsSpace(s[0]) then ScanInt(s[1..])
    else
      var negative := s != [] && s[0] == '-' as int;
      var t := if s != [] && (s[0] == '-' as int || s[0] == '+' as int) then s[1..] else s;
      if t == [] || !IsDigit(t[0]) then None
      else
        var (n, rest) := ScanDigits(t, 0);
        var v: int := n;
        Some((if negative then -v else v, rest))
  }

  /** scanf's %d:%d into two variables: whether both conversions were made, and the variables' values. */
  function ScanPair(s: seq<Byte>, a0: int, b0: int): (bool, int, int) {
    match ScanInt(s)
    case Some((a, rest)) =>
      if rest != [] && rest[0] == ':' as int then
        (match ScanInt(rest[1..]) case Some((b, _)) => (true, a, b) case None => (false, a, b0))
      else (false, a, b0)
    case None => (false, a0, b0)
  }

  lemma {:induction false} ScanDecimal(n: nat, rest: seq<Byte>)
    requires rest == [] || !IsDigit(rest[0])
    ensures ScanDigits(Decimal(n) + rest, 0) == (n, rest)
    ensures ScanInt(Decimal(n) + rest) == Some((n, rest))
  {
    ScanDigitsDecimal(n, rest);
    var d := Decimal(n) + rest;
    assert IsDigit(d[0]);
    assert ScanDigits(rest, n) == (n, rest);
  }

  lemma {:induction false} ScanDigitsDecimal(n: nat, rest: seq<Byte>)
    ensures ScanDigits(Decimal(n) + rest, 0) == ScanDigits(rest, n)
  {
    if n < 10 {
      assert ([48 + n] + rest)[1..] == rest;
    } else {
      var d: Byte := 48 + n % 10;
      ScanDigitsDecimal(n / 10, [d] + rest);
      assert Decimal(n) + rest == Decimal(n / 10) + ([d] + rest);
      assert ([d] + rest)[1..] == rest;
    }
  }

  // ----- Tags

  /** The fields of a header; width, height and frame rate are -1 until their tags are seen. */
  datatype Header = Header(picW: int, picH: int, fpsN: int, fpsD: int, parN: int, parD: int, interlace: Byte,
      chroma: seq<Byte>)

  function Defaults(fpsD: int): Header {
    Header(-1, -1, -1, fpsD, 0, 0, '?' as int, Text("420"))
  }

  /** Whether parsing went well, and the fields as they are then; a malformed tag may have set some already. */
  datatype Tags = Tags(ok: bool, header: Header)

  /** The effect of the tag s[..q] at the front of the C string s. */
  function ParseTag(h: Header, s: seq<Byte>, q: nat): Tags
    requires 0 < q <= |s|
  {
    var c := s[0] as char;
    match c
    case 'W' => (match ScanInt(s[1..]) case Some((w, _)) => Tags(w > 0, h.(picW := w)) case None => Tags(false, h))
    case 'H' => (match ScanInt(s[1..]) case Some((v, _)) => Tags(v > 0, h.(picH := v)) case None => Tags(false, h))
    case 'F' => var (ok, n, d) := ScanPair(s[1..], h.fpsN, h.fpsD); Tags(ok, h.(fpsN := n, fpsD := d))
    case 'I' => Tags(true, h.(interlace := if |s| > 1 then s[1] else NUL))
    case 'A' => var (ok, n, d) := ScanPair(s[1..], h.parN, h.parD); Tags(ok, h.(parN := n, parD := d))
    case 'C' => if q > 16 then Tags(false, h) else Tags(true, h.(chroma := s[1..q]))
    case _ => Tags(true, h)
  }

  /** The first index from i on that holds a space, or the length. */
  function TagEnd(s: seq<Byte>, i: nat): (q: nat)
    requires i <= |s|
    ensures i <= q <= |s|
    decreases |s| - i
  {
    if i == |s| || s[i] == SPACE then i else TagEnd(s, i + 1)
  }

  /** All tags of a C string, from the left, up to a malformed one. */
  function ParseTagString(h: Header, s: seq<Byte>): Tags
    decreases |s|
  {
    if s == [] then Tags(true, h)
    else if s[0] == SPACE then ParseTagString(h, s[1..])
    else
      var q := TagEnd(s, 1);
      var t := ParseTag(h, s, q);
      if t.ok then ParseTagString(t.header, s[q..]) else t
  }

  /** What a C function sees of a buffer. */
  function CString(s: seq<Byte>): seq<Byte> {
    if s == [] || s[0] == NUL then [] else [s[0]] + CString(s[1..])
  }

  method Y4mParseTags(h: Header, s: seq<Byte>) returns (r: Tags)
    ensures r == ParseTagString(h, s)
  {
    hide ParseTag;
    var cur, p := h, 0;
    while true
      invariant 0 <= p <= |s| && ParseTagString(h, s) == ParseTagString(cur, s[p..])
      decreases |s| - p
    {
      ghost var start := p;
      while p < |s| && s[p] == SPACE
        invariant start <= p <= |s| && ParseTagString(h, s) == ParseTagString(cur, s[p..])
      {
        assert s[p..][1..] == s[p + 1..];
        p := p + 1;
      }
      if p == |s| {
        return Tags(true, cur);
      }
      var q := p + 1;
      while q < |s| && s[q] != SPACE
        invariant p < q <= |s| && TagEnd(s[p..], 1) == TagEnd(s[p..], q - p)
      {
        q := q + 1;
      }
      var next := ParseTag(cur, s[p..], q - p);
      assert s[p..][q - p..] == s[q..];
      if !next.ok {
        return next;
      }
      cur, p := next.header, q;
    }
  }

  // ----- Splitting the header into tags

  /** One tag, the character that ended it, and the input after that. */
  datatype Token = Token(tag: seq<Byte>, end: Byte, rest: seq<Byte>)

  predicate EndsTag(b: Byte) { b == SPACE || b == NEWLINE }

  /** The first index from i on that holds a space or newline; the length when there is none. */
  function TokenEnd(s: seq<Byte>, i: nat): (q: nat)
    requires i <= |s|
    ensures i <= q <= |s| && (q < |s| ==> EndsTag(s[q])) && forall j :: i <= j < q ==> !EndsTag(s[j])
    decreases |s| - i
  {
    if i == |s| || EndsTag(s[i]) then i else TokenEnd(s, i + 1)
  }

  function NextTag(s: seq<Byte>): (r: Option<Token>)
    ensures r.Some? ==> |r.value.rest| < |s|
  {
    if s == [] then None
    else if s[0] == SPACE then NextTag(s[1..])
    else if s[0] == NEWLINE then Some(Token([], NEWLINE, s[1..]))
    else
      var q := TokenEnd(s, 1);
      if q == |s| || q >= TAG_BUFFER then None else Some(Token(s[..q], s[q], s[q + 1..]))
  }

  /** What is left of the input when no tag could be copied: nothing at its end, or what follows a full buffer. */
  function AfterBadTag(s: seq<Byte>): seq<Byte> {
    if s != [] && s[0] == SPACE then AfterBadTag(s[1..])
    else if |s| < TAG_BUFFER then [] else s[TAG_BUFFER..]
  }

  /** The outcome for a whole header line: with the input behind the last tag looked at. */
  datatype Line = Line(ok: bool, header: Header, rest: seq<Byte>)

  /** All tags up to the end of the line, or up to a malformed one. */
  function ParseLine(h: Header, s: seq<Byte>): Line
    decreases |s|
  {
    match NextTag(s)
    case None => Line(false, h, AfterBadTag(s))
    case Some(t) =>
      var p := ParseTagString(h, CString(t.tag));
      if !p.ok || t.end == NEWLINE then Line(p.ok, p.header, t.rest) else ParseLine(p.header, t.rest)
  }

  /** The mandatory fields are there and the picture is small enough. */
  predicate Acceptable(h: Header) {
    h.picW != -1 && h.picH != -1 && h.fpsN != -1 && h.picW * h.picH <= INT_MAX / 6
  }

  function ParseTags(fpsD: int, s: seq<Byte>): Line {
    var l := ParseLine(Defaults(fpsD), s);
    l.(ok := l.ok && Acceptable(l.header))
  }

  // ----- The writer

  datatype ImageFormat = I420 | I422 | I444 | I440 | I42016 | I42216 | I44416 | I44016

  predicate WritableDepth(depth: nat) {
    depth == 8 || depth == 9 || depth == 10 || depth == 12 || depth == 14 || depth == 16
  }

  /** The depth as text. */
  function DepthText(depth: nat): (r: string)
    requires WritableDepth(depth)
    ensures 1 <= |r| <= 2 && Printable(r)
  {
    match depth
    case 8 => "8"
    case 9 => "9"
    case 10 => "10"
    case 12 => "12"
    case 14 => "14"
    case _ => "16"
  }

  /** Only the formats with 4:4:4 or 4:2:2 sampling of the right sample size are told from 4:2:0. */
  function Sampling(fmt: ImageFormat, depth: nat): (r: string)
    ensures |r| == 3 && Printable(r)
  {
    if fmt == (if depth == 8 then I444 else I44416) then "444"
    else if fmt == (if depth == 8 then I422 else I42216) then "422"
    else "420"
  }

  /** The chroma type named by the C tag, such as 420jpeg, 422 or 444p10. */
  function ChromaType(fmt: ImageFormat, depth: nat): (r: string)
    requires WritableDepth(depth)
    ensures |r| <= 7 && Printable(r)
  {
    if depth == 8 then (if Sampling(fmt, depth) == "420" then "420jpeg" else Sampling(fmt, depth))
    else Sampling(fmt, depth) + "p" + DepthText(depth)
  }

  /** The colour part of the header: the C tag, for high depths also an X tag such as XYSCSS=420P10. */
  function ColorTags(fmt: ImageFormat, depth: nat): seq<Byte>
    requires WritableDepth(depth)
  {
    var extension :=
      if depth == 8 then []
      else [SPACE] + Text("XYSCSS=") + Text(Sampling(fmt, depth)) + Text("P") + Text(DepthText(depth));
    Text("C") + Text(ChromaType(fmt, depth)) + extension + [NEWLINE]
  }

  function IntTag(c: char, n: nat): seq<Byte>
    requires c < 256 as char
  {
    [c as int] + Decimal(n)
  }

  function RateTag(num: nat, den: nat): seq<Byte> {
    ['F' as int] + Decimal(num) + [':' as int] + Decimal(den)
  }

  function HeaderTags(w: nat, h: nat, num: nat, den: nat, fmt: ImageFormat, depth: nat): seq<Byte>
    requires WritableDepth(depth)
  {
    IntTag('W', w) + [SPACE] + IntTag('H', h) + [SPACE] + RateTag(num, den) + [SPACE] + Text("Ip") + [SPACE]
        + ColorTags(fmt, depth)
  }

  function FileHeader(w: nat, h: nat, num: nat, den: nat, fmt: ImageFormat, depth: nat): seq<Byte>
    requires WritableDepth(depth)
  {
    Text("YUV4MPEG2") + [SPACE] + HeaderTags(w, h, num, den, fmt, depth)
  }

  const FRAME_HEADER := Text("FRAME") + [NEWLINE]

  // ----- Reading back what was written

  /** A well-behaved tag: no separators, no terminators, not too long. */
  ghost predicate PlainTag(t: seq<Byte>) {
    0 < |t| < TAG_BUFFER && forall i :: 0 <= i < |t| ==> !EndsTag(t[i]) && t[i] != NUL
  }

  lemma {:induction false} TokenEndAt(s: seq<Byte>, i: nat, q: nat)
    requires i <= q < |s| && EndsTag(s[q]) && forall j :: i <= j < q ==> !EndsTag(s[j])
    ensures TokenEnd(s, i) == q
    decreases q - i
  {
    if i < q {
      TokenEndAt(s, i + 1, q);
    }
  }

  lemma {:induction false} NextTagOf(t: seq<Byte>, end: Byte, rest: seq<Byte>)
    requires PlainTag(t) && EndsTag(end)
    ensures NextTag(t + [end] + rest) == Some(Token(t, end, rest))
  {
    var s := t + [end] + rest;
    assert s[0] == t[0] && !EndsTag(s[0]);
    forall j | 1 <= j < |t| ensures !EndsTag(s[j]) {
      assert s[j] == t[j];
    }
    TokenEndAt(s, 1, |t|);
    assert s[..|t|] == t && s[|t| + 1..] == rest;
  }

  lemma {:induction false} PlainCString(t: seq<Byte>)
    requires forall i :: 0 <= i < |t| ==> t[i] != NUL
    ensures CString(t) == t
  {
    if t != [] {
      PlainCString(t[1..]);
    }
  }

  lemma {:induction false} TagEndPlain(t: seq<Byte>, i: nat)
    requires i <= |t| && forall j :: 0 <= j < |t| ==> t[j] != SPACE
    ensures TagEnd(t, i) == |t|
    decreases |t| - i
  {
    if i < |t| {
      TagEndPlain(t, i + 1);
    }
  }

  lemma {:induction false} PlainTagString(h: Header, t: seq<Byte>)
    requires PlainTag(t)
    ensures ParseTagString(h, CString(t)) == ParseTag(h, t, |t|)
  {
    PlainCString(t);
    TagEndPlain(t, 1);
    assert t[|t|..] == [];
  }

  /** A line is parsed tag by tag. */
  lemma {:induction false} ParseLineStep(h: Header, t: seq<Byte>, end: Byte, rest: seq<Byte>)
    requires PlainTag(t) && EndsTag(end)
    ensures var p := ParseTag(h, t, |t|);
      ParseLine(h, t + [end] + rest) ==
      if !p.ok || end == NEWLINE then Line(p.ok, p.header, rest) else ParseLine(p.header, rest)
  {
    NextTagOf(t, end, rest);
    PlainTagString(h, t);
  }

  lemma {:induction false} DecimalShort(n: nat)
    requires n <= INT_MAX
    ensures |Decimal(n)| <= 10
  {
    DigitsShort(n, 10);
  }

  function Pow10(k: nat): nat { if k == 0 then 1 else 10 * Pow10(k - 1) }

  lemma {:induction false} DigitsShort(n: nat, k: nat)
    requires 0 < k && n < Pow10(k)
    ensures |Decimal(n)| <= k
  {
    if k > 1 && n >= 10 {
      DigitsShort(n / 10, k - 1);
    }
  }

  lemma {:induction false} IntTagParses(h: Header, n: nat)
    requires n <= INT_MAX
    ensures PlainTag(IntTag('W', n)) && PlainTag(IntTag('H', n))
    ensures ParseTag(h, IntTag('W', n), |IntTag('W', n)|) == Tags(n > 0, h.(picW := n))
    ensures ParseTag(h, IntTag('H', n), |IntTag('H', n)|) == Tags(n > 0, h.(picH := n))
  {
    hide Decimal, ScanInt;
    DecimalShort(n);
    ScanDecimal(n, []);
    assert Decimal(n) + [] == Decimal(n);
    assert IntTag('W', n)[1..] == Decimal(n) && IntTag('H', n)[1..] == Decimal(n);
    assert IntTag('W', n)[0] as char == 'W' && IntTag('H', n)[0] as char == 'H';
  }

  lemma {:induction false} RateTagParses(h: Header, num: nat, den: nat)
    requires num <= INT_MAX && den <= INT_MAX
    ensures PlainTag(RateTag(num, den))
    ensures ParseTag(h, RateTag(num, den), |RateTag(num, den)|) == Tags(true, h.(fpsN := num, fpsD := den))
  {
    hide Decimal, ScanInt;
    DecimalShort(num);
    DecimalShort(den);
    var t := RateTag(num, den);
    var second := [':' as int] + Decimal(den);
    assert t[1..] == Decimal(num) + second;
    assert second[1..] == Decimal(den) == Decimal(den) + [];
    ScanDecimal(num, second);
    ScanDecimal(den, []);
    assert t[0] as char == 'F';
  }

  lemma {:induction false} PlainText(s: string)
    requires 0 < |s| < 200 && Printable(s)
    ensures PlainTag(Text(s))
  {
  }

  lemma {:induction false} InterlaceTagParses(h: Header)
    ensures PlainTag(Text("Ip")) && ParseTag(h, Text("Ip"), 2) == Tags(true, h.(interlace := 'p' as int))
  {
    PlainText("Ip");
    assert Text("Ip")[0] as char == 'I' && Text("Ip")[1] == 'p' as int;
  }

  lemma {:induction false} ChromaTagParses(h: Header, t: string)
    requires Printable(t) && |t| <= 15
    ensures PlainTag(Text("C" + t)) && ParseTag(h, Text("C" + t), |t| + 1) == Tags(true, h.(chroma := Text(t)))
  {
    PlainText("C" + t);
    var c := Text("C" + t);
    assert c[1..|t| + 1] == Text(t);
    assert c[0] as char == 'C';
  }

  lemma {:induction false} ExtensionTagParses(h: Header, t: string)
    requires Printable(t) && |t| <= 15
    ensures PlainTag(Text("X" + t)) && ParseTag(h, Text("X" + t), |t| + 1) == Tags(true, h)
  {
    PlainText("X" + t);
    assert Text("X" + t)[0] as char == 'X';
  }

  /** The X tag without its first letter. */
  function Extension(fmt: ImageFormat, depth: nat): (r: string)
    requires WritableDepth(depth)
    ensures |r| <= 12 && Printable(r)
  {
    "YSCSS=" + Sampling(fmt, depth) + "P" + DepthText(depth)
  }

  lemma {:induction false} ColorTagsGrouped(fmt: ImageFormat, depth: nat)
    requires WritableDepth(depth)
    ensures ColorTags(fmt, depth) == Text("C" + ChromaType(fmt, depth))
      + (if depth == 8 then [] else [SPACE] + Text("X" + Extension(fmt, depth))) + [NEWLINE]
  {
    hide ChromaType, Text, Extension, Sampling, DepthText;
    TextAppend("C", ChromaType(fmt, depth));
    ExtensionText(fmt, depth);
  }

  lemma {:induction false} ExtensionText(fmt: ImageFormat, depth: nat)
    requires WritableDepth(depth)
    ensures Text("X" + Extension(fmt, depth))
      == Text("XYSCSS=") + Text(Sampling(fmt, depth)) + Text("P") + Text(DepthText(depth))
  {
    hide Sampling, DepthText, Text;
    var s, d := Sampling(fmt, depth), DepthText(depth);
    assert "X" + Extension(fmt, depth) == "XYSCSS=" + s + "P" + d;
    TextAppend("XYSCSS=" + s + "P", d);
    TextAppend("XYSCSS=" + s, "P");
    TextAppend("XYSCSS=", s);
  }

  lemma {:induction false} TextAppend(s: string, t: string)
    requires forall i :: 0 <= i < |s| ==> s[i] < 256 as char
    requires forall i :: 0 <= i < |t| ==> t[i] < 256 as char
    ensures Text(s + t) == Text(s) + Text(t)
  {
  }

  /** The color tags close the line. */
  lemma {:induction false} ColorTagsParse(h: Header, fmt: ImageFormat, depth: nat, rest: seq<Byte>)
    requires WritableDepth(depth)
    ensures ParseLine(h, ColorTags(fmt, depth) + rest) == Line(true, h.(chroma := Text(ChromaType(fmt, depth))), rest)
  {
    hide ChromaType, Extension, ParseLine, ParseTag, PlainTag, ColorTags, Text;
    var t := ChromaType(fmt, depth);
    var h1 := h.(chroma := Text(t));
    ColorTagsGrouped(fmt, depth);
    ChromaTagParses(h, t);
    var c := Text("C" + t);
    if depth == 8 {
      ParseLineStep(h, c, NEWLINE, rest);
      assert ColorTags(fmt, depth) + rest == c + [NEWLINE] + rest;
    } else {
      var u := Extension(fmt, depth);
      var x := Text("X" + u);
      ExtensionTagParses(h1, u);
      ParseLineStep(h1, x, NEWLINE, rest);
      ParseLineStep(h, c, SPACE, x + [NEWLINE] + rest);
      assert ColorTags(fmt, depth) + rest == c + [SPACE] + (x + [NEWLINE] + rest);
    }
  }

  /** The fields read back from written tags: all of them, unless an empty picture stops the parser early. */
  function HeaderBack(w: nat, h: nat, num: nat, den: nat, fmt: ImageFormat, depth: nat, fpsD: int): Header
    requires WritableDepth(depth)
  {
    if w == 0 then Defaults(fpsD).(picW := 0)
    else if h == 0 then Defaults(fpsD).(picW := w, picH := 0)
    else Header(w, h, num, den, 0, 0, 'p' as int, Text(ChromaType(fmt, depth)))
  }

  /** Reading the tags that were written: parsing succeeds exactly when the picture is non-empty and not too large.
      Every field of a non-empty picture comes back, even of one too large, and then the input stands at the first
      byte after the header. */
  lemma {:induction false} HeaderRoundTrip(
      w: nat, h: nat, num: nat, den: nat, fmt: ImageFormat, depth: nat, fpsD: int, rest: seq<Byte>)
    requires WritableDepth(depth) && w <= INT_MAX && h <= INT_MAX && num <= INT_MAX && den <= INT_MAX
    ensures var l := ParseTags(fpsD, HeaderTags(w, h, num, den, fmt, depth) + rest);
      && (l.ok <==> w > 0 && h > 0 && w * h <= INT_MAX / 6)
      && l.header == HeaderBack(w, h, num, den, fmt, depth, fpsD)
      && (w > 0 && h > 0 ==> l.rest == rest)
  {
    hide ParseLine, ParseTag, PlainTag, ColorTags, ChromaType, RateTag, IntTag, Text;
    var d := Defaults(fpsD);
    var d1 := d.(picW := w);
    var d2 := d1.(picH := h);
    var d3 := d2.(fpsN := num, fpsD := den);
    var d4 := d3.(interlace := 'p' as int);
    var r4 := ColorTags(fmt, depth) + rest;
    var r3 := Text("Ip") + [SPACE] + r4;
    var r2 := RateTag(num, den) + [SPACE] + r3;
    var r1 := IntTag('H', h) + [SPACE] + r2;
    TagsGrouped(w, h, num, den, fmt, depth, rest);
    IntTagParses(d, w);
    ParseLineStep(d, IntTag('W', w), SPACE, r1);
    if w > 0 {
      IntTagParses(d1, h);
      ParseLineStep(d1, IntTag('H', h), SPACE, r2);
      if h > 0 {
        RateTagParses(d2, num, den);
        ParseLineStep(d2, RateTag(num, den), SPACE, r3);
        InterlaceTagParses(d3);
        assert |Text("Ip")| == 2;
        ParseLineStep(d3, Text("Ip"), SPACE, r4);
        ColorTagsParse(d4, fmt, depth, rest);
      }
    }
  }

  lemma {:induction false} TagsGrouped(
      w: nat, h: nat, num: nat, den: nat, fmt: ImageFormat, depth: nat, rest: seq<Byte>)
    requires WritableDepth(depth)
    ensures HeaderTags(w, h, num, den, fmt, depth) + rest
      == IntTag('W', w) + [SPACE] + (IntTag('H', h) + [SPACE]
          + (RateTag(num, den) + [SPACE] + (Text("Ip") + [SPACE] + (ColorTags(fmt, depth) + rest))))
  {
    hide IntTag, RateTag, ColorTags, Text;
  }

  /** The pixel aspect ratio, which is not written, is read like a rate; unknown tags change nothing. */
  lemma {:induction false} OtherTagsParse(h: Header, n: nat, d: nat, t: seq<Byte>)
    requires n <= INT_MAX && d <= INT_MAX && t != [] && t[0] !in Text("WHFIAC")
    ensures var a := Text("A") + Decimal(n) + Text(":") + Decimal(d);
      ParseTag(h, a, |a|) == Tags(true, h.(parN := n, parD := d))
    ensures ParseTag(h, t, |t|) == Tags(true, h)
  {
    hide Decimal, ScanInt;
    var second := [':' as int] + Decimal(d);
    var a := Text("A") + Decimal(n) + Text(":") + Decimal(d);
    assert Text("A") == ['A' as int] && Text(":") == [':' as int];
    assert a[1..] == Decimal(n) + second && second[1..] == Decimal(d) == Decimal(d) + [];
    ScanDecimal(n, second);
    ScanDecimal(d, []);
    assert a[0] as char == 'A';
    var letters := Text("WHFIAC");
    assert letters[0] in letters && letters[1] in letters && letters[2] in letters;
    assert letters[3] in letters && letters[4] in letters && letters[5] in letters;
  }

  // ----- The header as text

  /** The colour tags after a space. */
  lemma {:induction false} ColorText(fmt: ImageFormat, depth: nat)
    requires WritableDepth(depth)
    ensures [SPACE] + ColorTags(fmt, depth)
      == Text(" C") + Text(ChromaType(fmt, depth))
        + (if depth == 8 then []
           else Text(" XYSCSS=") + Text(Sampling(fmt, depth)) + Text("P") + Text(DepthText(depth)))
        + Text("\n")
  {
    hide Text, ChromaType, Sampling, DepthText;
    ShortTexts();
  }

  /** The whole header line, with the numbers and the names of the format left open. */
  lemma {:induction false} HeaderText(w: nat, h: nat, num: nat, den: nat, fmt: ImageFormat, depth: nat)
    requires WritableDepth(depth)
    ensures FileHeader(w, h, num, den, fmt, depth)
      == Text("YUV4MPEG2") + Text(" W") + Decimal(w) + Text(" H") + Decimal(h) + Text(" F") + Decimal(num) + Text(":")
        + Decimal(den) + Text(" Ip") + ([SPACE] + ColorTags(fmt, depth))
    ensures FRAME_HEADER == Text("FRAME\n")
  {
    hide Decimal, Text, ColorTags;
    ShortTexts();
    TermsGrouped(Text("YUV4MPEG2"), Decimal(w), Decimal(h), Decimal(num), Decimal(den), Text("Ip"),
      ColorTags(fmt, depth));
  }

  lemma {:induction false} TermsGrouped(
      y: seq<Byte>, w: seq<Byte>, h: seq<Byte>, n: seq<Byte>, d: seq<Byte>, i: seq<Byte>, c: seq<Byte>)
    ensures var (sp, cw, ch, cf, cc) := ([SPACE], ['W' as int], ['H' as int], ['F' as int], [':' as int]);
      y + sp + (cw + w + sp + (ch + h) + sp + (cf + n + cc + d) + sp + i + sp + c)
      == y + (sp + cw) + w + (sp + ch) + h + (sp + cf) + n + cc + d + (sp + i) + (sp + c)
  {
  }

  lemma {:induction false} ShortTexts()
    ensures Text(" W") == [SPACE] + ['W' as int] && Text(" H") == [SPACE] + ['H' as int]
    ensures Text(" F") == [SPACE] + ['F' as int] && Text(":") == [':' as int] && Text("\n") == [NEWLINE]
    ensures Text(" Ip") == [SPACE] + Text("Ip") && Text(" C") == [SPACE] + Text("C")
    ensures Text(" XYSCSS=") == [SPACE] + Text("XYSCSS=") && Text("FRAME\n") == Text("FRAME") + [NEWLINE]
  {
  }

  /** The names of the formats that can be told apart. */
  lemma {:induction false} FormatNames()
    ensures ChromaType(I420, 8) == "420jpeg" && ChromaType(I422, 8) == "422" && ChromaType(I444, 8) == "444"
    ensures ChromaType(I42016, 10) == "420p10" && ChromaType(I42216, 12) == "422p12"
    ensures ChromaType(I44416, 16) == "444p16" && ChromaType(I44416, 9) == "444p9"
  {
  }
}
