/** The CEF formatter: escaping by successive replacement passes, and the reader that undoes it. */
module CefFormatter {
  import opened Text

  // ---- Escaping ---------------------------------------------------------------------------

  /** `s.replace(/c/g, put)` for one character. */
  function ReplaceAll(s: string, c: char, put: string): string {
    if s == [] then [] else (if s[0] == c then put else [s[0]]) + ReplaceAll(s[1..], c, put)
  }

  /** `s.replace(/\r?\n/g, put)`. */
  function ReplaceLineEnds(s: string, put: string): string {
    if s == [] then []
    else if |s| >= 2 && s[0] == '\r' && s[1] == '\n' then put + ReplaceLineEnds(s[2..], put)
    else (if s[0] == '\n' then put else [s[0]]) + ReplaceLineEnds(s[1..], put)
  }

  function EscapeHeader(s: string): string {
    ReplaceAll(ReplaceAll(s, '\\', "\\\\"), '|', "\\|")
  }

  function EscapeExt(s: string): string {
    ReplaceLineEnds(ReplaceAll(ReplaceAll(s, '\\', "\\\\"), '=', "\\="), "\\n")
  }

  /** What the line ends of a value come back as. */
  function LineFeeds(s: string): string {
    ReplaceLineEnds(s, "\n")
  }

  /** One pass over the text: every backslash and every `sep` is escaped, and every line feed written
      out when `lines` says so. */
  function Once(s: string, sep: char, lines: bool): string {
    if s == [] then []
    else
      (if s[0] == '\\' || s[0] == sep then ['\\', s[0]] else if lines && s[0] == '\n' then "\\n" else [s[0]])
      + Once(s[1..], sep, lines)
  }

  lemma {:induction false} ReplaceAllConcat(a: string, b: string, c: char, put: string)
    ensures ReplaceAll(a + b, c, put) == ReplaceAll(a, c, put) + ReplaceAll(b, c, put)
    decreases |a|
  {
    if a == [] {
      assert a + b == b;
    } else {
      assert (a + b)[1..] == a[1..] + b;
      ReplaceAllConcat(a[1..], b, c, put);
    }
  }

  /** The two header passes equal one single pass. */
  lemma {:induction false} HeaderPasses(s: string)
    ensures EscapeHeader(s) == Once(s, '|', false)
    decreases |s|
  {
    if s != [] {
      var head := if s[0] == '\\' then "\\\\" else [s[0]];
      ReplaceAllConcat(head, ReplaceAll(s[1..], '\\', "\\\\"), '|', "\\|");
      ShortPass(head, '|');
      HeaderPasses(s[1..]);
    }
  }

  lemma ShortPass(head: string, sep: char)
    requires sep != '\\' && (head == "\\\\" || |head| == 1)
    ensures ReplaceAll(head, sep, ['\\', sep]) == if head == [sep] then ['\\', sep] else head
  {
    if head == "\\\\" {
      assert head[1..] == "\\" && "\\"[1..] == "";
    } else {
      assert head[1..] == "";
    }
  }

  lemma {:induction false} LineEndsConcat(a: string, b: string, put: string)
    requires a == [] || b == [] || a[|a| - 1] != '\r' || b[0] != '\n'
    ensures ReplaceLineEnds(a + b, put) == ReplaceLineEnds(a, put) + ReplaceLineEnds(b, put)
    decreases |a|
  {
    if a == [] {
      assert a + b == b;
    } else if b == [] {
      assert a + b == a;
    } else if |a| >= 2 && a[0] == '\r' && a[1] == '\n' {
      assert (a + b)[2..] == a[2..] + b;
      LineEndsConcat(a[2..], b, put);
    } else {
      assert (a + b)[1..] == a[1..] + b;
      LineEndsConcat(a[1..], b, put);
    }
  }

  /** The three extension passes equal one single pass over the text with its line ends made uniform. */
  lemma {:induction false} ExtPasses(s: string)
    ensures EscapeExt(s) == Once(LineFeeds(s), '=', true)
    decreases |s|
  {
    hide EscapeExt, LineFeeds, TwoPasses, ReplaceLineEnds, Once;
    EscapeExtIs(s);
    if s == [] {
      EmptyPasses();
    } else if |s| >= 2 && s[0] == '\r' && s[1] == '\n' {
      EscapeExtIs(s[2..]);
      ExtPasses(s[2..]);
      ReturnPasses(s);
      LineFeedsReturn(s, "\n");
      OnceStep("\n", LineFeeds(s[2..]), '=', true);
    } else {
      EscapeExtIs(s[1..]);
      ExtPasses(s[1..]);
      CharPasses(s);
      LineFeedsChar(s, "\n");
      OnceStep(if s[0] == '\n' then "\n" else [s[0]], LineFeeds(s[1..]), '=', true);
    }
  }

  lemma EscapeExtIs(s: string)
    ensures EscapeExt(s) == ReplaceLineEnds(TwoPasses(s), "\\n")
    ensures LineFeeds(s) == ReplaceLineEnds(s, "\n")
  {
    hide ReplaceLineEnds, ReplaceAll;
  }

  lemma EmptyPasses()
    ensures ReplaceLineEnds(TwoPasses(""), "\\n") == "" && Once(ReplaceLineEnds("", "\n"), '=', true) == ""
  {
  }

  lemma LineFeedsReturn(s: string, put: string)
    requires |s| >= 2 && s[0] == '\r' && s[1] == '\n'
    ensures ReplaceLineEnds(s, put) == put + ReplaceLineEnds(s[2..], put)
  {
  }

  lemma LineFeedsChar(s: string, put: string)
    requires s != [] && !(|s| >= 2 && s[0] == '\r' && s[1] == '\n')
    ensures ReplaceLineEnds(s, put) == (if s[0] == '\n' then put else [s[0]]) + ReplaceLineEnds(s[1..], put)
  {
  }

  lemma ReturnPasses(s: string)
    requires |s| >= 2 && s[0] == '\r' && s[1] == '\n'
    ensures ReplaceLineEnds(TwoPasses(s), "\\n") == "\\n" + ReplaceLineEnds(TwoPasses(s[2..]), "\\n")
  {
    hide TwoPasses, ReplaceLineEnds;
    TwoPassesStep(s);
    TwoPassesStep(s[1..]);
    assert s[1..][1..] == s[2..];
    var t := TwoPasses(s[2..]);
    assert TwoPasses(s) == ['\r', '\n'] + t && (['\r', '\n'] + t)[2..] == t;
    LineFeedsReturn(TwoPasses(s), "\\n");
  }

  lemma CharPasses(s: string)
    requires s != [] && !(|s| >= 2 && s[0] == '\r' && s[1] == '\n')
    ensures
      ReplaceLineEnds(TwoPasses(s), "\\n")
      == (if s[0] == '\n' then "\\n" else HeadPass(s[0])) + ReplaceLineEnds(TwoPasses(s[1..]), "\\n")
  {
    hide TwoPasses, ReplaceLineEnds;
    var head, t := HeadPass(s[0]), TwoPasses(s[1..]);
    TwoPassesStep(s);
    if |s| > 1 { TwoPassesStep(s[1..]); } else { EmptyTwoPasses(); assert s[1..] == []; }
    LineEndsConcat(head, t, "\\n");
    HeadLineEnds(s[0]);
  }

  lemma EmptyTwoPasses()
    ensures TwoPasses([]) == []
  {
  }

  lemma HeadLineEnds(c: char)
    ensures ReplaceLineEnds(HeadPass(c), "\\n") == if c == '\n' then "\\n" else HeadPass(c)
  {
    assert [c][1..] == "";
    if |HeadPass(c)| == 2 {
      LineFeedsChar(HeadPass(c), "\\n");
      assert HeadPass(c)[1..] == [c];
    }
  }

  /** The backslash and the equals pass. */
  function TwoPasses(s: string): string {
    ReplaceAll(ReplaceAll(s, '\\', "\\\\"), '=', "\\=")
  }

  function HeadPass(c: char): string {
    if c == '\\' || c == '=' then ['\\', c] else [c]
  }

  lemma TwoPassesStep(s: string)
    requires s != []
    ensures TwoPasses(s) == HeadPass(s[0]) + TwoPasses(s[1..])
  {
    var head := if s[0] == '\\' then "\\\\" else [s[0]];
    ReplaceAllConcat(head, ReplaceAll(s[1..], '\\', "\\\\"), '=', "\\=");
    ShortPass(head, '=');
  }

  lemma OnceStep(head: string, rest: string, sep: char, lines: bool)
    requires |head| == 1
    ensures
      var c := head[0];
      Once(head + rest, sep, lines)
      == (if c == '\\' || c == sep then ['\\', c] else if lines && c == '\n' then "\\n" else [c])
         + Once(rest, sep, lines)
  {
    assert (head + rest)[1..] == rest;
  }

  // ---- Reading back ---------------------------------------------------------------------------

  /** A backslash takes the next character literally; when `lines` holds, `\n` is a line feed. */
  function Unescape(s: string, lines: bool): string {
    if |s| < 2 then s
    else if s[0] == '\\' then [if lines && s[1] == 'n' then '\n' else s[1]] + Unescape(s[2..], lines)
    else [s[0]] + Unescape(s[1..], lines)
  }

  /** Index of the first unescaped `sep`, or the length. */
  function Find(s: string, sep: char): (i: nat)
    ensures i <= |s|
    ensures i < |s| ==> s[i] == sep
  {
    if s == [] then 0
    else if s[0] == '\\' && |s| >= 2 then 2 + Find(s[2..], sep)
    else if s[0] == sep then 0
    else 1 + Find(s[1..], sep)
  }

  /** Text with no unescaped `sep` and no backslash left open at its end. */
  predicate Sealed(s: string, sep: char) {
    s == [] ||
    (if s[0] == '\\' then |s| >= 2 && Sealed(s[2..], sep) else s[0] != sep && Sealed(s[1..], sep))
  }

  predicate Plain(s: string, sep: char) {
    '\\' !in s && sep !in s
  }

  lemma {:induction false} PlainIsSealed(s: string, sep: char)
    requires Plain(s, sep)
    ensures Sealed(s, sep)
    decreases |s|
  {
    if s != [] { PlainIsSealed(s[1..], sep); }
  }

  lemma {:induction false} SealedConcat(a: string, b: string, sep: char)
    requires Sealed(a, sep) && Sealed(b, sep)
    ensures Sealed(a + b, sep)
    decreases |a|
  {
    if a == [] {
      assert a + b == b;
    } else {
      var n := if a[0] == '\\' then 2 else 1;
      assert (a + b)[n..] == a[n..] + b;
      SealedConcat(a[n..], b, sep);
    }
  }

  lemma {:induction false} FindAfterSealed(a: string, sep: char, rest: string)
    requires Sealed(a, sep) && sep != '\\'
    ensures Find(a + [sep] + rest, sep) == |a|
    ensures Find(a, sep) == |a|
    decreases |a|
  {
    if a != [] {
      var n := if a[0] == '\\' then 2 else 1;
      assert (a + [sep] + rest)[n..] == a[n..] + [sep] + rest;
      FindAfterSealed(a[n..], sep, rest);
    }
  }

  lemma {:induction false} OnceIsSealed(s: string, sep: char, lines: bool)
    requires sep != '\\' && sep != '\n' && sep != 'n'
    ensures Sealed(Once(s, sep, lines), sep)
    decreases |s|
  {
    if s != [] {
      OnceIsSealed(s[1..], sep, lines);
      var rest := Once(s[1..], sep, lines);
      assert ("\\n" + rest)[2..] == rest && (['\\', s[0]] + rest)[2..] == rest && ([s[0]] + rest)[1..] == rest;
    }
  }

  /** Unescaping undoes the single pass, so it undoes the successive passes. */
  lemma {:induction false} UnescapeOnce(s: string, sep: char, lines: bool)
    requires sep != '\\' && sep != 'n'
    ensures Unescape(Once(s, sep, lines), lines) == s
    decreases |s|
  {
    if s != [] {
      UnescapeOnce(s[1..], sep, lines);
      var rest := Once(s[1..], sep, lines);
      assert ("\\n" + rest)[2..] == rest && (['\\', s[0]] + rest)[2..] == rest && ([s[0]] + rest)[1..] == rest;
      assert s == [s[0]] + s[1..];
      if |s| == 1 { assert rest == ""; }
    }
  }

  // ---- The record -------------------------------------------------------------------------------

  function Join(parts: seq<string>, sep: string): string {
    if parts == [] then "" else if |parts| == 1 then parts[0] else parts[0] + sep + Join(parts[1..], sep)
  }

  datatype Field = Field(key: string, value: string)

  function Render(f: Field): string {
    f.key + "=" + EscapeExt(f.value)
  }

  function Rendered(fields: seq<Field>): (r: seq<string>)
    ensures |r| == |fields| && forall i :: 0 <= i < |r| ==> r[i] == Render(fields[i])
  {
    seq(|fields|, i requires 0 <= i < |fields| => Render(fields[i]))
  }

  function Escaped(header: seq<string>): (r: seq<string>)
    ensures |r| == |header| && forall i :: 0 <= i < |r| ==> r[i] == EscapeHeader(header[i])
  {
    seq(|header|, i requires 0 <= i < |header| => EscapeHeader(header[i]))
  }

  function Record(header: seq<string>, fields: seq<Field>): string {
    Join(Escaped(header) + [Join(Rendered(fields), " ")], "|")
  }

  /** Splits at the first `n` unescaped `sep`s. */
  function Split(s: string, sep: char, n: nat): seq<string> {
    var i := Find(s, sep);
    if n == 0 || i == |s| then [s] else [s[..i]] + Split(s[i + 1..], sep, n - 1)
  }

  function LastToken(s: string): string {
    s[LastIndexOf(s, ' ') + 1..]
  }

  /** What of a segment between two equals signs is the value: everything before its last token, the space
      in front of that left out; in the last segment, all of it. */
  function ValuePart(segment: string, last: bool): string {
    var k := LastIndexOf(segment, ' ');
    if last then segment else if k < 0 then "" else segment[..k]
  }

  /** Reads an extension at its unescaped equals signs: a key is the last space-delimited token before
      one, and a value ends at the space before the next key. */
  function Pairs(s: string): seq<Field> {
    Fields(Split(s, '=', |s|))
  }

  function Fields(segments: seq<string>): seq<Field> {
    seq(if segments == [] then 0 else |segments| - 1, i requires 0 <= i < |segments| - 1 =>
      Field(LastToken(segments[i]), Unescape(ValuePart(segments[i + 1], i + 2 == |segments|), true)))
  }

  datatype Parsed = Parsed(header: seq<string>, fields: seq<Field>)

  function Unescaped(parts: seq<string>): (r: seq<string>)
    ensures |r| == |parts| && forall i :: 0 <= i < |r| ==> r[i] == Unescape(parts[i], false)
  {
    seq(|parts|, i requires 0 <= i < |parts| => Unescape(parts[i], false))
  }

  /** What a reader of the format sees in a record. */
  function Read(s: string): Option<Parsed> {
    var parts := Split(s, '|', 7);
    if |parts| != 8 then None else Some(Parsed(Unescaped(parts[..7]), Pairs(parts[7])))
  }

  predicate GoodKey(key: string) {
    Plain(key, '=') && ' ' !in key && '\n' !in key
  }

  predicate GoodKeys(fields: seq<Field>) {
    forall f :: f in fields ==> GoodKey(f.key)
  }

  function Received(fields: seq<Field>): (r: seq<Field>)
    ensures |r| == |fields| && forall i :: 0 <= i < |r| ==> r[i] == Field(fields[i].key, LineFeeds(fields[i].value))
  {
    seq(|fields|, i requires 0 <= i < |fields| => Field(fields[i].key, LineFeeds(fields[i].value)))
  }

  /** Splitting at the first separators undoes the join, and so does splitting at all of them when the last
      part has none. */
  lemma {:induction false} SplitJoined(parts: seq<string>, last: string, sep: char, n: nat)
    requires sep != '\\' && forall i :: 0 <= i < |parts| ==> Sealed(parts[i], sep)
    requires n == |parts| || (n > |parts| && Sealed(last, sep))
    ensures Split(Join(parts + [last], [sep]), sep, n) == parts + [last]
    decreases |parts|
  {
    hide Find, Sealed, Join, Split;
    var all := parts + [last];
    if parts == [] {
      assert all == [last];
      SplitOnlyPart(last, sep, n);
    } else {
      var rest := parts[1..] + [last];
      assert all == [parts[0]] + rest;
      SplitJoined(parts[1..], last, sep, n - 1);
      JoinFirst(parts[0], rest, sep);
      FindAfterSealed(parts[0], sep, Join(rest, [sep]));
      SplitFirst(parts[0], sep, Join(rest, [sep]), n);
    }
  }

  lemma SplitOnlyPart(last: string, sep: char, n: nat)
    requires n == 0 || (Sealed(last, sep) && sep != '\\')
    ensures Split(Join([last], [sep]), sep, n) == [last]
  {
    hide Find;
    if n > 0 { FindAfterSealed(last, sep, ""); }
  }

  lemma JoinFirst(part: string, rest: seq<string>, sep: char)
    requires rest != []
    ensures Join([part] + rest, [sep]) == part + [sep] + Join(rest, [sep])
  {
    assert ([part] + rest)[1..] == rest;
  }

  lemma SplitFirst(part: string, sep: char, tail: string, n: nat)
    requires n > 0 && Find(part + [sep] + tail, sep) == |part|
    ensures Split(part + [sep] + tail, sep, n) == [part] + Split(tail, sep, n - 1)
  {
    hide Find;
    var s := part + [sep] + tail;
    assert s[..|part|] == part && s[|part| + 1..] == tail;
  }

  lemma ValueFacts(value: string)
    ensures Sealed(EscapeExt(value), '=')
    ensures Unescape(EscapeExt(value), true) == LineFeeds(value)
  {
    ExtPasses(value);
    OnceIsSealed(LineFeeds(value), '=', true);
    UnescapeOnce(LineFeeds(value), '=', true);
  }

  /** The pieces of an extension between its separating equals signs, after some text in front. */
  function Segments(lead: string, fields: seq<Field>): (r: seq<string>)
    requires fields != []
    ensures |r| == |fields| + 1
    decreases |fields|
  {
    var first, v := lead + fields[0].key, EscapeExt(fields[0].value);
    if |fields| == 1 then [first, v] else [first] + Segments(v + " ", fields[1..])
  }

  lemma {:induction false} SegmentsJoined(lead: string, fields: seq<Field>)
    requires fields != []
    ensures Join(Segments(lead, fields), "=") == lead + Join(Rendered(fields), " ")
    decreases |fields|
  {
    hide EscapeExt, Join, Rendered;
    var f, v := fields[0], EscapeExt(fields[0].value);
    JoinRendered(fields);
    if |fields| == 1 {
      JoinTwo(lead + f.key, v);
      assert lead + f.key + "=" + v == lead + (f.key + "=" + v);
    } else {
      SegmentsJoined(v + " ", fields[1..]);
      JoinFirst(lead + f.key, Segments(v + " ", fields[1..]), '=');
      var tail := Join(Rendered(fields[1..]), " ");
      assert lead + f.key + ['='] + (v + " " + tail) == lead + (f.key + "=" + v + " " + tail);
    }
  }

  lemma JoinTwo(a: string, b: string)
    ensures Join([a, b], "=") == a + "=" + b
  {
    assert [a, b][1..] == [b];
  }

  /** The text of an extension, field by field. */
  lemma JoinRendered(fields: seq<Field>)
    requires fields != []
    ensures
      var first := fields[0].key + "=" + EscapeExt(fields[0].value);
      Join(Rendered(fields), " ") == if |fields| == 1 then first else first + " " + Join(Rendered(fields[1..]), " ")
  {
    hide EscapeExt;
    if |fields| > 1 { assert Rendered(fields)[1..] == Rendered(fields[1..]); }
  }

  /** Each segment but the last ends with a key, and each but the first begins with a value. */
  lemma {:induction false} SegmentAt(lead: string, fields: seq<Field>, i: nat)
    requires fields != [] && i <= |fields|
    ensures
      var before := if i == 0 then lead else EscapeExt(fields[i - 1].value) + (if i == |fields| then "" else " ");
      Segments(lead, fields)[i] == before + (if i == |fields| then "" else fields[i].key)
    decreases |fields|
  {
    hide EscapeExt;
    if |fields| > 1 && i > 0 { SegmentAt(EscapeExt(fields[0].value) + " ", fields[1..], i - 1); }
  }

  /** A segment holding a value and the next key shows both to the reader. */
  lemma ValueThenKey(value: string, key: string)
    requires GoodKey(key)
    ensures
      var s := EscapeExt(value) + " " + key;
      Sealed(s, '=') && LastToken(s) == key && ValuePart(s, false) == EscapeExt(value)
  {
    hide Sealed, LastIndexOf, EscapeExt;
    var v := EscapeExt(value);
    ValueFacts(value);
    PlainIsSealed(" ", '=');
    PlainIsSealed(key, '=');
    SealedConcat(v, " ", '=');
    SealedConcat(v + " ", key, '=');
    LastIndexOfSplit(v, ' ', key);
    assert (v + [' '] + key)[|v| + 1..] == key && (v + [' '] + key)[..|v|] == v;
  }

  lemma KeyAlone(key: string)
    requires GoodKey(key)
    ensures Sealed(key, '=') && LastToken(key) == key
  {
    PlainIsSealed(key, '=');
  }

  /** What the reader makes of each segment. */
  lemma SegmentIsRead(fields: seq<Field>, i: nat)
    requires GoodKeys(fields) && fields != [] && i <= |fields|
    ensures
      var s := Segments("", fields)[i];
      && Sealed(s, '=')
      && (i < |fields| ==> LastToken(s) == fields[i].key)
      && (i > 0 ==> ValuePart(s, i == |fields|) == EscapeExt(fields[i - 1].value))
  {
    hide Sealed, LastToken, LastIndexOf, EscapeExt, Segments, GoodKey;
    SegmentAt("", fields, i);
    if i == 0 {
      KeyAlone(fields[0].key);
      assert "" + fields[0].key == fields[0].key;
    } else if i < |fields| {
      ValueThenKey(fields[i - 1].value, fields[i].key);
    } else {
      var v := EscapeExt(fields[i - 1].value);
      ValueFacts(fields[i - 1].value);
      assert v + "" + "" == v;
    }
  }

  lemma {:induction false} JoinLength(parts: seq<string>, sep: char)
    ensures |Join(parts, [sep])| + 1 >= |parts|
    decreases |parts|
  {
    if |parts| > 1 { JoinLength(parts[1..], sep); }
  }

  /** Parsing the rendered extension recovers every key and value, CRLF having become LF. */
  lemma PairsRendered(fields: seq<Field>)
    requires GoodKeys(fields)
    ensures Pairs(Join(Rendered(fields), " ")) == Received(fields)
  {
    hide Split, Join, Sealed, EscapeExt, Unescape, LineFeeds, LastToken, ValuePart, Segments;
    var s := Join(Rendered(fields), " ");
    if fields == [] {
      NothingRendered();
    } else {
      var segments := Segments("", fields);
      SegmentsJoined("", fields);
      assert "" + s == s;
      forall i | 0 <= i <= |fields| ensures Sealed(segments[i], '=') { SegmentIsRead(fields, i); }
      JoinLength(segments, '=');
      assert segments == segments[..|fields|] + [segments[|fields|]];
      SplitJoined(segments[..|fields|], segments[|fields|], '=', |s|);
      forall i | 0 <= i < |fields| ensures Pairs(s)[i] == Received(fields)[i] {
        SegmentIsRead(fields, i);
        SegmentIsRead(fields, i + 1);
        ValueFacts(fields[i].value);
      }
    }
  }

  lemma NothingRendered()
    ensures Pairs(Join(Rendered([]), " ")) == []
  {
    assert Split("", '=', 0) == [""];
  }

  /** Reading a record gives back its seven header fields and its extension fields, for every header
      text and every value, up to CRLF becoming LF in the values. */
  lemma RoundTrip(header: seq<string>, fields: seq<Field>)
    requires |header| == 7 && GoodKeys(fields)
    ensures Read(Record(header, fields)) == Some(Parsed(header, Received(fields)))
  {
    hide Find, Sealed, EscapeHeader, EscapeExt, Unescape, LineFeeds, Pairs;
    var parts, ext := Escaped(header), Join(Rendered(fields), " ");
    forall i | 0 <= i < 7 ensures Sealed(parts[i], '|') && Unescape(parts[i], false) == header[i] {
      HeaderPasses(header[i]);
      OnceIsSealed(header[i], '|', false);
      UnescapeOnce(header[i], '|', false);
    }
    SplitJoined(parts, ext, '|', 7);
    PairsRendered(fields);
    assert (parts + [ext])[..7] == parts;
    assert Unescaped(parts) == header;
  }

  // ---- The formatter --------------------------------------------------------------------------------

  /** The text of a printed number. */
  predicate IsNumberText(s: string) {
    s != [] && forall c :: c in s ==> c in "0123456789+-.eINafinty"
  }

  type NumberText = s: string | IsNumberText(s) witness "0"

  datatype Ioc = Ioc(
    id: string,
    kind: string,
    value: string,
    threatType: Option<string>,
    severity: Option<string>,
    confidence: Option<NumberText>,
    source: Option<string>)

  const VENDOR := "RinjaniAnalytics"
  const PRODUCT := "CTI"
  const VERSION := "1.0"

  function OrElse(o: Option<string>, default: string): string {
    if o.Some? && o.value != "" then o.value else default
  }

  function Severity(o: Option<string>): (text: string)
    ensures text in ["10", "8", "5", "3", "1"]
  {
    match if o.Some? then Lower(o.value) else ""
    case "critical" => "10"
    case "high" => "8"
    case "medium" => "5"
    case "low" => "3"
    case "informational" => "1"
    case "info" => "1"
    case _ => "5"
  }

  /** From the least to the most severe. */
  const SEVERITY_NAMES: seq<string> := ["informational", "low", "medium", "high", "critical"]

  /** The CEF severity, from 1 to 10, grows with the severity; "info" is short for informational, letter case does
      not matter, and anything else counts as medium. */
  lemma SeverityGrows(i: nat, j: nat, other: string)
    requires i < j < |SEVERITY_NAMES|
    ensures SeverityNumber(SEVERITY_NAMES[i]) < SeverityNumber(SEVERITY_NAMES[j])
    ensures SeverityNumber("informational") == SeverityNumber("info") == 1 && SeverityNumber("critical") == 10
    ensures Severity(Some(other)) == Severity(Some(Lower(other)))
    ensures Lower(other) !in SEVERITY_NAMES && Lower(other) != "info" ==> Severity(Some(other)) == Severity(None)
    ensures Severity(None) == Severity(Some("medium"))
  {
    LowerFacts(other);
    LowerFacts(Lower(other));
    Numbers();
    hide Lower, SeverityNumber;
    OtherSeverity(other);
  }

  lemma Numbers()
    ensures SeverityNumber("informational") == SeverityNumber("info") == 1 && SeverityNumber("low") == 3
    ensures SeverityNumber("medium") == 5 && SeverityNumber("high") == 8 && SeverityNumber("critical") == 10
    ensures Severity(Some("medium")) == "5"
  {
    LowerNames();
    assert Lower(SEVERITY_NAMES[0]) == "informational" && Lower(SEVERITY_NAMES[1]) == "low";
    assert Lower(SEVERITY_NAMES[2]) == "medium" && Lower(SEVERITY_NAMES[3]) == "high";
    assert Lower(SEVERITY_NAMES[4]) == "critical";
    hide Lower;
  }

  lemma OtherSeverity(other: string)
    requires Lower(Lower(other)) == Lower(other)
    ensures Severity(Some(other)) == Severity(Some(Lower(other)))
    ensures Lower(other) !in SEVERITY_NAMES && Lower(other) != "info" ==> Severity(Some(other)) == Severity(None) == "5"
    ensures Severity(None) == "5"
  {
    hide Lower;
  }

  lemma LowerNames()
    ensures forall k :: 0 <= k < |SEVERITY_NAMES| ==> Lower(SEVERITY_NAMES[k]) == SEVERITY_NAMES[k]
    ensures Lower("info") == "info"
  {
    LowerFacts("info");
    forall k | 0 <= k < |SEVERITY_NAMES| ensures Lower(SEVERITY_NAMES[k]) == SEVERITY_NAMES[k] {
      LowerFacts(SEVERITY_NAMES[k]);
    }
  }

  /** The number a severity text prints. */
  function SeverityNumber(name: string): nat {
    var text := Severity(Some(name));
    if text == "10" then 10 else text[0] as nat - '0' as nat
  }

  predicate InSignature(c: char) {
    'a' <= c <= 'z' || '0' <= c <= '9'
  }

  function Dashed(s: string): string {
    seq(|s|, i requires 0 <= i < |s| => if InSignature(s[i]) then s[i] else '-')
  }

  /** Never empty, and free of every character the header would have to escape. */
  function Signature(threatType: Option<string>): (sig: string)
    ensures sig != "" && forall c :: c in sig ==> InSignature(c) || c == '-'
  {
    if threatType.Some? && threatType.value != "" then Dashed(Lower(threatType.value)) else "ioc"
  }

  /** The signature keeps letters, lower-cased, and digits where they are, and has a dash for everything else. */
  lemma SignatureKeeps(threatType: string, i: nat)
    requires i < |threatType|
    ensures |Signature(Some(threatType))| == |threatType|
    ensures
      var c, d := threatType[i], Signature(Some(threatType))[i];
      if 'a' <= c <= 'z' || '0' <= c <= '9' then d == c
      else if 'A' <= c <= 'Z' then d == LowerChar(c)
      else d == '-'
  {
  }

  function CefField(kind: string): (key: string)
    ensures key in ["dst", "destinationDnsDomain", "request", "fileHash", "suser", "cs1"]
  {
    var t := Lower(kind);
    if t in ["ip", "ipv4", "ipv6"] then "dst"
    else if t in ["domain", "hostname"] then "destinationDnsDomain"
    else if t == "url" then "request"
    else if t in ["hash", "hash-md5", "hash-sha1", "hash-sha256", "md5", "sha1", "sha256"] then "fileHash"
    else if t == "email" then "suser"
    else "cs1"
  }

  /** The kinds of indicator with a CEF field of their own. */
  const KINDS: seq<set<string>> := [
    {"ip", "ipv4", "ipv6"}, {"domain", "hostname"}, {"url"},
    {"hash", "hash-md5", "hash-sha1", "hash-sha256", "md5", "sha1", "sha256"}, {"email"}]

  predicate OfKind(kind: string, k: nat)
    requires k < |KINDS|
  {
    Lower(kind) in KINDS[k]
  }

  /** Two types share a field exactly when they are of one kind, or of none. */
  lemma FieldByKind(a: string, b: string)
    ensures CefField(a) == CefField(b) <==>
              forall k: nat :: k < |KINDS| ==> (OfKind(a, k) <==> OfKind(b, k))
    ensures CefField(a) == "cs1" <==> forall k: nat :: k < |KINDS| ==> !OfKind(a, k)
  {
    FieldOf(a);
    FieldOf(b);
    hide CefField, OfKind;
    if CefField(a) == CefField(b) {
      forall k: nat | k < |KINDS| ensures OfKind(a, k) <==> OfKind(b, k) {
        assert k == 0 || k == 1 || k == 2 || k == 3 || k == 4;
      }
    }
  }

  lemma FieldOf(kind: string)
    ensures OfKind(kind, 0) <==> CefField(kind) == "dst"
    ensures OfKind(kind, 1) <==> CefField(kind) == "destinationDnsDomain"
    ensures OfKind(kind, 2) <==> CefField(kind) == "request"
    ensures OfKind(kind, 3) <==> CefField(kind) == "fileHash"
    ensures OfKind(kind, 4) <==> CefField(kind) == "suser"
  {
    hide Lower;
  }

  /** What a record says: its seven header texts. */
  function HeaderOf(ioc: Ioc): seq<string> {
    ["CEF:0", VENDOR, PRODUCT, VERSION, Signature(ioc.threatType), "IOC observed: " + ioc.kind, Severity(ioc.severity)]
  }

  function ValueFields(ioc: Ioc): seq<Field> {
    var value := Field(CefField(ioc.kind), ioc.value);
    if CefField(ioc.kind) == "cs1" then [value, Field("cs1Label", "iocValue")] else [value]
  }

  function CommonFields(ioc: Ioc): seq<Field> {
    [Field("externalId", ioc.id), Field("cat", OrElse(ioc.threatType, "threat-intelligence"))]
  }

  function SourceFields(ioc: Ioc): seq<Field> {
    if OrElse(ioc.source, "") == "" then []
    else [Field("deviceCustomString2", ioc.source.value), Field("cs2Label", "feedSource")]
  }

  function ConfidenceFields(ioc: Ioc): seq<Field> {
    if ioc.confidence.None? then [] else [Field("cn1", ioc.confidence.value), Field("cn1Label", "confidence")]
  }

  /** And its extension fields. */
  function FieldsOf(ioc: Ioc, rt: NumberText): seq<Field> {
    ValueFields(ioc) + CommonFields(ioc) + SourceFields(ioc) + ConfidenceFields(ioc) + [Field("rt", rt)]
  }

  lemma JoinTwoFirst(a: string, b: string, rest: seq<string>)
    requires rest != []
    ensures Join([a, b] + rest, "|") == a + "|" + b + "|" + Join(rest, "|")
  {
    hide Join;
    assert [a, b] + rest == [a] + ([b] + rest);
    JoinFirst(a, [b] + rest, '|');
    JoinFirst(b, rest, '|');
    var tail := Join(rest, "|");
    assert a + "|" + (b + "|" + tail) == a + "|" + b + "|" + tail;
  }

  lemma ConstantsNeedNoEscape()
    ensures EscapeHeader("CEF:0") == "CEF:0" && EscapeHeader(VENDOR) == VENDOR
    ensures EscapeHeader(PRODUCT) == PRODUCT && EscapeHeader(VERSION) == VERSION
  {
    hide EscapeHeader;
    PlainHeader("CEF:0");
    PlainHeader(VENDOR);
    PlainHeader(PRODUCT);
    PlainHeader(VERSION);
  }

  /** Every record begins with the version, the vendor, the product and its version. */
  lemma RecordBegins(ioc: Ioc, rt: NumberText)
    ensures "CEF:0|RinjaniAnalytics|CTI|1.0|" <= Record(HeaderOf(ioc), FieldsOf(ioc, rt))
  {
    hide FieldsOf, EscapeHeader, Join;
    var escaped := Escaped(HeaderOf(ioc));
    var parts := escaped + [Join(Rendered(FieldsOf(ioc, rt)), " ")];
    ConstantsNeedNoEscape();
    assert parts == [escaped[0], escaped[1]] + parts[2..] && parts[2..] == [escaped[2], escaped[3]] + parts[4..];
    JoinTwoFirst(escaped[0], escaped[1], parts[2..]);
    JoinTwoFirst(escaped[2], escaped[3], parts[4..]);
    BeginsSo(Join(parts[4..], "|"));
  }

  lemma BeginsSo(rest: string)
    ensures "CEF:0" + "|" + VENDOR + "|" + (PRODUCT + "|" + VERSION + "|" + rest)
         == "CEF:0|RinjaniAnalytics|CTI|1.0|" + rest
  {
    assert PRODUCT + "|" + VERSION + "|" == "CTI|1.0|";
    assert "CEF:0" + "|" + VENDOR + "|" == "CEF:0|RinjaniAnalytics|";
    assert "CEF:0|RinjaniAnalytics|" + "CTI|1.0|" == "CEF:0|RinjaniAnalytics|CTI|1.0|";
    assert "CEF:0|RinjaniAnalytics|" + ("CTI|1.0|" + rest) == "CEF:0|RinjaniAnalytics|" + "CTI|1.0|" + rest;
  }

  function Get(fields: seq<Field>, key: string): Option<string> {
    if fields == [] then None else if fields[0].key == key then Some(fields[0].value) else Get(fields[1..], key)
  }

  lemma {:induction false} GetConcat(a: seq<Field>, b: seq<Field>, key: string)
    ensures Get(a + b, key) == if Get(a, key).Some? then Get(a, key) else Get(b, key)
    decreases |a|
  {
    if a == [] {
      assert a + b == b;
    } else {
      assert (a + b)[1..] == a[1..] + b;
      GetConcat(a[1..], b, key);
    }
  }

  /** What a reader finds under each key: the value under its kind's field, the id, the threat type as category, the
      source and the confidence if there are any, each with its label, and the time. */
  lemma FieldsSay(ioc: Ioc, rt: NumberText)
    ensures
      var fs := FieldsOf(ioc, rt);
      && Get(fs, CefField(ioc.kind)) == Some(ioc.value) && Get(fs, "externalId") == Some(ioc.id)
      && Get(fs, "rt") == Some(rt)
      && Get(fs, "cat") == (if ioc.threatType.Some? && ioc.threatType.value != "" then ioc.threatType
                            else Some("threat-intelligence"))
      && Get(fs, "cs1Label") == (if CefField(ioc.kind) == "cs1" then Some("iocValue") else None)
      && (if ioc.source.Some? && ioc.source.value != "" then
            Get(fs, "deviceCustomString2") == ioc.source && Get(fs, "cs2Label") == Some("feedSource")
          else Get(fs, "deviceCustomString2") == Get(fs, "cs2Label") == None)
      && (if ioc.confidence.Some? then
            Get(fs, "cn1") == Some(ioc.confidence.value) && Get(fs, "cn1Label") == Some("confidence")
          else Get(fs, "cn1") == Get(fs, "cn1Label") == None)
  {
    hide CefField, FieldsOf, Get;
    var field := CefField(ioc.kind);
    KeysDiffer(ioc.kind);
    FieldsAt(ioc, rt, field);
    FieldsAt(ioc, rt, "externalId");
    FieldsAt(ioc, rt, "cat");
    FieldsAt(ioc, rt, "rt");
    FieldsAt(ioc, rt, "cs1Label");
    FieldsAt(ioc, rt, "deviceCustomString2");
    FieldsAt(ioc, rt, "cs2Label");
    FieldsAt(ioc, rt, "cn1");
    FieldsAt(ioc, rt, "cn1Label");
  }

  /** The other keys, in the order of the record. */
  const OTHER_KEYS: seq<string> :=
    ["cs1Label", "externalId", "cat", "deviceCustomString2", "cs2Label", "cn1", "cn1Label", "rt"]

  lemma KeysDiffer(kind: string)
    ensures forall i :: 0 <= i < |OTHER_KEYS| ==> OTHER_KEYS[i] != CefField(kind)
    ensures forall i, j :: 0 <= i < j < |OTHER_KEYS| ==> OTHER_KEYS[i] != OTHER_KEYS[j]
  {
    hide CefField;
    OtherKeysDiffer();
  }

  lemma OtherKeysDiffer()
    ensures forall i, j :: 0 <= i < j < |OTHER_KEYS| ==> OTHER_KEYS[i] != OTHER_KEYS[j]
  {
  }

  lemma GetTwo(f: Field, g: Field, key: string)
    ensures Get([f, g], key) == if f.key == key then Some(f.value) else if g.key == key then Some(g.value) else None
    ensures Get([f], key) == if f.key == key then Some(f.value) else None
    ensures Get([], key) == None
  {
    assert [f, g][1..] == [g] && [g][1..] == [] && [f][1..] == [];
    assert Get([g], key) == if g.key == key then Some(g.value) else Get([], key);
  }

  /** What each group of fields has under a key. */
  lemma GroupsSay(ioc: Ioc, key: string)
    ensures Get(ValueFields(ioc), key)
         == if key == CefField(ioc.kind) then Some(ioc.value)
            else if key == "cs1Label" && CefField(ioc.kind) == "cs1" then Some("iocValue") else None
    ensures Get(CommonFields(ioc), key)
         == if key == "externalId" then Some(ioc.id)
            else if key == "cat" then Some(OrElse(ioc.threatType, "threat-intelligence")) else None
    ensures Get(SourceFields(ioc), key)
         == if OrElse(ioc.source, "") == "" then None
            else if key == "deviceCustomString2" then ioc.source
            else if key == "cs2Label" then Some("feedSource") else None
    ensures Get(ConfidenceFields(ioc), key)
         == if ioc.confidence.None? then None
            else if key == "cn1" then Some(ioc.confidence.value)
            else if key == "cn1Label" then Some("confidence") else None
  {
    hide Get, CefField;
    var value := Field(CefField(ioc.kind), ioc.value);
    GetTwo(value, Field("cs1Label", "iocValue"), key);
    GetTwo(CommonFields(ioc)[0], CommonFields(ioc)[1], key);
    if SourceFields(ioc) != [] { GetTwo(SourceFields(ioc)[0], SourceFields(ioc)[1], key); }
    if ConfidenceFields(ioc) != [] { GetTwo(ConfidenceFields(ioc)[0], ConfidenceFields(ioc)[1], key); }
  }

  lemma FieldsAt(ioc: Ioc, rt: NumberText, key: string)
    ensures
      Get(FieldsOf(ioc, rt), key) ==
        if key == CefField(ioc.kind) then Some(ioc.value)
        else if key == "cs1Label" && CefField(ioc.kind) == "cs1" then Some("iocValue")
        else if key == "externalId" then Some(ioc.id)
        else if key == "cat" then Some(OrElse(ioc.threatType, "threat-intelligence"))
        else if key == "deviceCustomString2" && OrElse(ioc.source, "") != "" then ioc.source
        else if key == "cs2Label" && OrElse(ioc.source, "") != "" then Some("feedSource")
        else if key == "cn1" && ioc.confidence.Some? then Some(ioc.confidence.value)
        else if key == "cn1Label" && ioc.confidence.Some? then Some("confidence")
        else if key == "rt" then Some(rt) else None
  {
    GroupsSay(ioc, key);
    GetTwo(Field("rt", rt), Field("rt", rt), key);
    hide ValueFields, CommonFields, SourceFields, ConfidenceFields, Get, CefField;
    var a, b, c := ValueFields(ioc), CommonFields(ioc), SourceFields(ioc);
    var d, e := ConfidenceFields(ioc), [Field("rt", rt)];
    GetConcat(a, b, key);
    GetConcat(a + b, c, key);
    GetConcat(a + b + c, d, key);
    GetConcat(a + b + c + d, e, key);
  }

  lemma {:induction false} OncePlain(s: string, sep: char, lines: bool)
    requires Plain(s, sep) && (lines ==> '\n' !in s)
    ensures Once(s, sep, lines) == s
    decreases |s|
  {
    if s != [] { OncePlain(s[1..], sep, lines); }
  }

  lemma {:induction false} NoLineEnds(s: string)
    requires '\n' !in s
    ensures LineFeeds(s) == s
    decreases |s|
  {
    if s != [] { NoLineEnds(s[1..]); }
  }

  /** What uniform line ends are: every CRLF becomes one line feed, wherever it stands, and nothing else changes. */
  lemma CrlfBecomesLf(a: string, b: string)
    ensures LineFeeds(a + "\r\n" + b) == LineFeeds(a) + "\n" + LineFeeds(b)
  {
    hide ReplaceLineEnds;
    var end := "\r\n" + b;
    assert a + "\r\n" + b == a + end;
    LineEndsConcat(a, end, "\n");
    LineFeedsReturn(end, "\n");
    assert end[2..] == b;
    assert LineFeeds(a) + ("\n" + LineFeeds(b)) == LineFeeds(a) + "\n" + LineFeeds(b);
  }

  predicate CrlfAt(s: string, i: nat) {
    i + 1 < |s| && s[i] == '\r' && s[i + 1] == '\n'
  }

  lemma {:induction false} NothingElseChanges(s: string)
    requires forall i: nat :: !CrlfAt(s, i)
    ensures LineFeeds(s) == s
    decreases |s|
  {
    if s != [] {
      var rest := s[1..];
      assert !CrlfAt(s, 0);
      LineFeedsChar(s, "\n");
      assert s == [s[0]] + rest;
      forall i: nat ensures !CrlfAt(rest, i) { assert !CrlfAt(s, i + 1); }
      NothingElseChanges(rest);
    }
  }

  /** Text with nothing to escape is left alone. */
  lemma PlainValue(s: string)
    requires Plain(s, '=') && '\n' !in s
    ensures EscapeExt(s) == s
  {
    ExtPasses(s);
    NoLineEnds(s);
    OncePlain(s, '=', true);
  }

  lemma PlainHeader(s: string)
    requires Plain(s, '|')
    ensures EscapeHeader(s) == s
  {
    HeaderPasses(s);
    OncePlain(s, '|', false);
  }

  lemma DomainKeyIsGood()
    ensures GoodKey("destinationDnsDomain")
  {
  }

  lemma SourceKeyIsGood()
    ensures GoodKey("deviceCustomString2")
  {
  }

  lemma ShortKeysAreGood()
    ensures GoodKey("dst") && GoodKey("request") && GoodKey("fileHash") && GoodKey("suser") && GoodKey("cs1")
  {
  }

  lemma LabelKeysAreGood()
    ensures GoodKey("cs1Label") && GoodKey("cs2Label") && GoodKey("cn1Label")
  {
  }

  lemma OtherKeysAreGood()
    ensures GoodKey("externalId") && GoodKey("cat") && GoodKey("cn1") && GoodKey("rt")
  {
  }

  lemma FieldsHaveGoodKeys(ioc: Ioc, rt: NumberText)
    ensures GoodKeys(FieldsOf(ioc, rt))
  {
    hide CefField, GoodKey, GoodKeys;
    DomainKeyIsGood();
    SourceKeyIsGood();
    ShortKeysAreGood();
    LabelKeysAreGood();
    OtherKeysAreGood();
    FewGoodKeys([Field(CefField(ioc.kind), ioc.value)]);
    FewGoodKeys([Field("rt", rt)]);
    FewGoodKeys([Field(CefField(ioc.kind), ioc.value), Field("cs1Label", "iocValue")]);
    FewGoodKeys([Field("externalId", ioc.id), Field("cat", OrElse(ioc.threatType, "threat-intelligence"))]);
    var source := SourceFields(ioc);
    FewGoodKeys(source);
    var confidence := ConfidenceFields(ioc);
    FewGoodKeys(confidence);
    GoodKeysConcat(ValueFields(ioc), CommonFields(ioc));
    GoodKeysConcat(ValueFields(ioc) + CommonFields(ioc), source);
    GoodKeysConcat(ValueFields(ioc) + CommonFields(ioc) + source, confidence);
    GoodKeysConcat(ValueFields(ioc) + CommonFields(ioc) + source + confidence, [Field("rt", rt)]);
  }

  lemma FewGoodKeys(fields: seq<Field>)
    requires |fields| <= 2 && forall i :: 0 <= i < |fields| ==> GoodKey(fields[i].key)
    ensures GoodKeys(fields)
  {
    hide GoodKey;
  }

  lemma GoodKeysConcat(a: seq<Field>, b: seq<Field>)
    requires GoodKeys(a) && GoodKeys(b)
    ensures GoodKeys(a + b)
  {
    hide GoodKey;
  }

  lemma NumbersArePlain(n: NumberText)
    ensures EscapeExt(n) == n
  {
    PlainValue(n);
  }

  lemma Cs1LabelIsPlain()
    ensures "cs1Label" + "=" + EscapeExt("iocValue") == "cs1Label=iocValue"
  {
    hide EscapeExt;
    PlainValue("iocValue");
  }

  lemma Cs2LabelIsPlain()
    ensures "cs2Label" + "=" + EscapeExt("feedSource") == "cs2Label=feedSource"
  {
    hide EscapeExt;
    PlainValue("feedSource");
  }

  lemma Cn1LabelIsPlain()
    ensures "cn1Label" + "=" + EscapeExt("confidence") == "cn1Label=confidence"
  {
    hide EscapeExt;
    PlainValue("confidence");
  }

  lemma KeyTexts()
    ensures "externalId" + "=" == "externalId=" && "cat" + "=" == "cat=" && "rt" + "=" == "rt="
    ensures "deviceCustomString2" + "=" == "deviceCustomString2=" && "cn1" + "=" == "cn1="
  {
  }

  lemma HeaderNeedsNoEscape(ioc: Ioc)
    ensures EscapeHeader("CEF:0") == "CEF:0"
    ensures EscapeHeader(Severity(ioc.severity)) == Severity(ioc.severity)
  {
    hide EscapeHeader, Severity;
    PlainHeader("CEF:0");
    PlainHeader(Severity(ioc.severity));
  }

  lemma Push(fields: seq<Field>, more: seq<Field>)
    ensures Rendered(fields + more) == Rendered(fields) + Rendered(more)
  {
    hide EscapeExt;
  }

  lemma PushTwo(f: Field, g: Field)
    ensures Rendered([f]) == [f.key + "=" + EscapeExt(f.value)]
    ensures Rendered([f, g]) == [f.key + "=" + EscapeExt(f.value), g.key + "=" + EscapeExt(g.value)]
  {
    hide EscapeExt;
  }

  /** The record of an indicator; reading it gives back exactly what the indicator says. */
  method ToCef(ioc: Ioc, rt: NumberText) returns (record: string)
    ensures record == Record(HeaderOf(ioc), FieldsOf(ioc, rt))
    ensures Read(record) == Some(Parsed(HeaderOf(ioc), Received(FieldsOf(ioc, rt))))
  {
    hide EscapeExt, EscapeHeader, Join, Read, Received, Rendered, FieldsOf, GoodKeys;
    hide Lower, Signature, Severity, CefField;
    var sev := Severity(ioc.severity);
    var sig := Signature(ioc.threatType);
    var name := "IOC observed: " + ioc.kind;
    var ext := Extension(ioc, rt);
    record := Join(["CEF:0", EscapeHeader(VENDOR), EscapeHeader(PRODUCT), EscapeHeader(VERSION), EscapeHeader(sig),
                    EscapeHeader(name), sev, Join(ext, " ")], "|");
    HeaderNeedsNoEscape(ioc);
    assert Escaped(HeaderOf(ioc)) + [Join(ext, " ")]
        == ["CEF:0", EscapeHeader(VENDOR), EscapeHeader(PRODUCT), EscapeHeader(VERSION), EscapeHeader(sig),
            EscapeHeader(name), sev, Join(ext, " ")];
    FieldsHaveGoodKeys(ioc, rt);
    RoundTrip(HeaderOf(ioc), FieldsOf(ioc, rt));
  }

  /** The extension list, built by pushes. */
  method Extension(ioc: Ioc, rt: NumberText) returns (ext: seq<string>)
    ensures ext == Rendered(FieldsOf(ioc, rt))
  {
    hide EscapeExt, Rendered, Lower, CefField;
    Cs1LabelIsPlain();
    Cs2LabelIsPlain();
    Cn1LabelIsPlain();
    KeyTexts();
    var cefField := CefField(ioc.kind);
    ext := [cefField + "=" + EscapeExt(ioc.value)];
    if cefField == "cs1" {
      ext := ext + ["cs1Label=iocValue"];
    }
    PushTwo(Field(cefField, ioc.value), Field("cs1Label", "iocValue"));
    ghost var fields := ValueFields(ioc);
    assert ext == Rendered(fields);

    ext := ext + ["externalId=" + EscapeExt(ioc.id)];
    ext := ext + ["cat=" + EscapeExt(OrElse(ioc.threatType, "threat-intelligence"))];
    PushTwo(CommonFields(ioc)[0], CommonFields(ioc)[1]);
    Push(fields, CommonFields(ioc));
    fields := fields + CommonFields(ioc);
    assert ext == Rendered(fields);

    if ioc.source.Some? && ioc.source.value != "" {
      ext := ext + ["deviceCustomString2=" + EscapeExt(ioc.source.value), "cs2Label=feedSource"];
      PushTwo(SourceFields(ioc)[0], SourceFields(ioc)[1]);
    }
    Push(fields, SourceFields(ioc));
    fields := fields + SourceFields(ioc);
    assert ext == Rendered(fields);

    if ioc.confidence.Some? {
      ext := ext + ["cn1=" + ioc.confidence.value, "cn1Label=confidence"];
      NumbersArePlain(ioc.confidence.value);
      PushTwo(ConfidenceFields(ioc)[0], ConfidenceFields(ioc)[1]);
    }
    Push(fields, ConfidenceFields(ioc));
    fields := fields + ConfidenceFields(ioc);
    assert ext == Rendered(fields);

    ext := ext + ["rt=" + rt];
    NumbersArePlain(rt);
    PushTwo(Field("rt", rt), Field("rt", rt));
    Push(fields, [Field("rt", rt)]);
  }

  // ---- One record, one line -------------------------------------------------------------------------

  lemma {:induction false} OnceLineFeeds(s: string, sep: char, lines: bool)
    requires sep != '\n'
    ensures '\n' in Once(s, sep, lines) <==> !lines && '\n' in s
    decreases |s|
  {
    if s != [] {
      OnceLineFeeds(s[1..], sep, lines);
      assert s == [s[0]] + s[1..];
    }
  }

  predicate HasLineFeed(s: string) {
    '\n' in s
  }

  lemma {:induction false} JoinLineFeeds(parts: seq<string>, sep: string)
    requires !HasLineFeed(sep)
    ensures HasLineFeed(Join(parts, sep)) <==> exists p :: p in parts && HasLineFeed(p)
    decreases |parts|
  {
    if |parts| > 1 {
      JoinLineFeeds(parts[1..], sep);
      assert parts == [parts[0]] + parts[1..];
      if HasLineFeed(parts[0]) { assert parts[0] in parts; }
    } else if |parts| == 1 {
      assert parts == [parts[0]];
    }
  }

  lemma ExtensionIsOneLine(fields: seq<Field>)
    requires forall f :: f in fields ==> !HasLineFeed(f.key)
    ensures !HasLineFeed(Join(Rendered(fields), " "))
  {
    forall p | p in Rendered(fields) ensures !HasLineFeed(p) {
      var i :| 0 <= i < |fields| && Rendered(fields)[i] == p;
      ExtPasses(fields[i].value);
      OnceLineFeeds(LineFeeds(fields[i].value), '=', true);
    }
    JoinLineFeeds(Rendered(fields), " ");
  }

  /** A record is one line exactly when no header text has a line feed: extension values never put one
      in, however many line ends they hold. */
  lemma OneLineIff(header: seq<string>, fields: seq<Field>)
    requires GoodKeys(fields)
    ensures HasLineFeed(Record(header, fields)) <==> exists h :: h in header && HasLineFeed(h)
  {
    var ext := Join(Rendered(fields), " ");
    ExtensionIsOneLine(fields);
    JoinLineFeeds(Escaped(header) + [ext], "|");
    forall i | 0 <= i < |header| ensures HasLineFeed(Escaped(header)[i]) <==> HasLineFeed(header[i]) {
      HeaderPasses(header[i]);
      OnceLineFeeds(header[i], '|', false);
    }
    hide Join, Rendered, EscapeHeader, HasLineFeed;
    if h :| h in header && HasLineFeed(h) {
      var i :| 0 <= i < |header| && header[i] == h;
      assert Escaped(header)[i] in Escaped(header) + [ext];
    }
    if p :| p in Escaped(header) && HasLineFeed(p) {
      var i :| 0 <= i < |header| && Escaped(header)[i] == p;
      assert header[i] in header;
    }
  }

  /** For an indicator: only its type can break the line. */
  lemma RecordLineFeeds(ioc: Ioc, rt: NumberText)
    ensures HasLineFeed(Record(HeaderOf(ioc), FieldsOf(ioc, rt))) <==> HasLineFeed(ioc.kind)
  {
    hide Record, FieldsOf, Lower;
    FieldsHaveGoodKeys(ioc, rt);
    OneLineIff(HeaderOf(ioc), FieldsOf(ioc, rt));
    var header := HeaderOf(ioc);
    forall h | h in header && h != header[5] ensures !HasLineFeed(h) {
    }
    assert header[5] in header;
    assert HasLineFeed(header[5]) <==> HasLineFeed(ioc.kind);
  }

  /** `toCefBatch` on the records. */
  function Batch(records: seq<string>): string {
    Join(records, "\n") + (if records != [] then "\n" else "")
  }

  /** The lines of a text, each ended by a line feed. */
  function Lines(s: string): seq<string> {
    if s == [] then []
    else if s[0] == '\n' then [[]] + Lines(s[1..])
    else
      var rest := Lines(s[1..]);
      if rest == [] then [[s[0]]] else [[s[0]] + rest[0]] + rest[1..]
  }

  lemma {:induction false} FirstLine(line: string, rest: string)
    requires !HasLineFeed(line)
    ensures Lines(line + "\n" + rest) == [line] + Lines(rest)
    decreases |line|
  {
    if line == "" {
      assert line + "\n" + rest == "\n" + rest && ("\n" + rest)[1..] == rest;
    } else {
      assert (line + "\n" + rest)[1..] == line[1..] + "\n" + rest;
      FirstLine(line[1..], rest);
      assert [line[0]] + line[1..] == line;
    }
  }

  /** A batch of one-line records is read back line by line. */
  lemma {:induction false} BatchLines(records: seq<string>)
    requires forall r :: r in records ==> !HasLineFeed(r)
    ensures Lines(Batch(records)) == records
    decreases |records|
  {
    if |records| == 1 {
      assert Batch(records) == records[0] + "\n" + "";
      FirstLine(records[0], "");
    } else if |records| > 1 {
      BatchLines(records[1..]);
      assert Batch(records) == records[0] + "\n" + Batch(records[1..]);
      FirstLine(records[0], Batch(records[1..]));
      assert records == [records[0]] + records[1..];
    }
  }
}
