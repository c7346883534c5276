/** The dreaming cycle: the response format, its parser, and the update of the memory store. */
module Dreaming {
  import opened Wrappers
  import opened Text
  import opened Memory
  import Claude

  const START := "<<<MEMORY_UPDATE>>>"
  const END := "<<<END_MEMORY_UPDATE>>>"
  const FILE := "<<<FILE:"
  const NONE := "<<<NO_CHANGES>>>"

  type Files = map<string, string>

  datatype MemoryUpdate = MemoryUpdate(files: Files, changed: bool)

  datatype ParseError = EmptyResponse | MissingStart | MissingEnd | InvalidName(name: string) | NoFiles

  /** Slicing between the markers fails at run time when the end marker comes first: `Panics`. */
  datatype Parsed = Update(update: MemoryUpdate) | Refused(error: ParseError) | Panics

  // ----- the parser's meaning -----

  datatype Part = Skip | Bad(name: string) | File(name: string, content: string)

  function ParsePart(raw: string): Part {
    var part := TrimSpace(raw);
    var close := Index(part, ">>>");
    if part == "" || close == -1 then Skip
    else
      var name := TrimSuffix(TrimSpace(part[..close]), ".md");
      if ValidateName(name).Some? then Bad(name) else File(name, TrimSpace(part[close + 3..]))
  }

  function ParseParts(parts: seq<string>, files: Files): Result<Files, ParseError> {
    if parts == [] then Ok(files)
    else match ParsePart(parts[0])
      case Skip => ParseParts(parts[1..], files)
      case Bad(name) => Err(InvalidName(name))
      case File(name, content) => ParseParts(parts[1..], files[name := content])
  }

  function ParseBody(body: string): Parsed {
    match ParseParts(Split(TrimSpace(body), FILE), map[])
    case Err(e) => Refused(e)
    case Ok(files) => if files == map[] then Refused(NoFiles) else Update(MemoryUpdate(files, true))
  }

  function Parse(raw: string): Parsed {
    var response := TrimSpace(raw);
    if response == "" then Refused(EmptyResponse)
    else if Contains(response, NONE) then Update(MemoryUpdate(map[], false))
    else ParseMarked(response, Index(response, START), Index(response, END))
  }

  /** A response whose first markers are at these positions, or -1. */
  function ParseMarked(response: string, from: int, to: int): Parsed
    requires -1 <= from <= |response| && -1 <= to <= |response|
  {
    if from == -1 then Refused(MissingStart)
    else if to == -1 then Refused(MissingEnd)
    else if to < from + |START| then Panics
    else ParseBody(response[from + |START|..to])
  }

  method ParseDreamResponse(raw: string) returns (r: Parsed)
    ensures r == Parse(raw)
  {
    var response := TrimSpace(raw);
    if response == "" { return Refused(EmptyResponse); }
    if Contains(response, NONE) { return Update(MemoryUpdate(map[], false)); }
    var from := Index(response, START);
    if from == -1 { return Refused(MissingStart); }
    var to := Index(response, END);
    if to == -1 { return Refused(MissingEnd); }
    if to < from + |START| { return Panics; }
    r := CollectFiles(Split(TrimSpace(response[from + |START|..to]), FILE));
  }

  /** The parser's loop over the parts between file markers. */
  method CollectFiles(parts: seq<string>) returns (r: Parsed)
    ensures r == match ParseParts(parts, map[])
                 case Err(e) => Refused(e)
                 case Ok(files) => if files == map[] then Refused(NoFiles) else Update(MemoryUpdate(files, true))
  {
    var files: Files := map[];
    for i := 0 to |parts|
      invariant ParseParts(parts[i..], files) == ParseParts(parts, map[])
    {
      assert parts[i..][0] == parts[i] && parts[i..][1..] == parts[i + 1..];
      var part := TrimSpace(parts[i]);
      if part == "" { continue; }
      var close := Index(part, ">>>");
      if close == -1 { continue; }
      var filename := TrimSpace(part[..close]);
      var content := TrimSpace(part[close + 3..]);
      var name := TrimSuffix(filename, ".md");
      if ValidateName(name).Some? { return Refused(InvalidName(name)); }
      files := files[name := content];
    }
    if files == map[] { return Refused(NoFiles); }
    r := Update(MemoryUpdate(files, true));
  }

  // ----- what every response can and cannot do -----

  lemma {:induction false} PartsHaveValidNames(parts: seq<string>, files: Files)
    requires forall n :: n in files ==> ValidName(n)
    ensures var r := ParseParts(parts, files); r.Ok? ==> forall n :: n in r.value ==> ValidName(n)
    decreases |parts|
  {
    if parts != [] {
      match ParsePart(parts[0])
      case Skip => PartsHaveValidNames(parts[1..], files);
      case Bad(_) =>
      case File(name, content) => PartsHaveValidNames(parts[1..], files[name := content]);
    }
  }

  /** An update whose names pass the store's own check; `changed` means there are files. */
  ghost predicate Saveable(r: Parsed) {
    r.Update? ==> && (r.update.changed <==> r.update.files != map[])
                  && forall n :: n in r.update.files ==> ValidateName(n) == None
  }

  lemma BodyIsSaveable(body: string)
    ensures Saveable(ParseBody(body))
  {
    PartsHaveValidNames(Split(TrimSpace(body), FILE), map[]);
  }

  lemma MarkedIsSaveable(response: string, from: int, to: int)
    requires -1 <= from <= |response| && -1 <= to <= |response|
    ensures Saveable(ParseMarked(response, from, to))
  {
    if from != -1 && from + |START| <= to { BodyIsSaveable(response[from + |START|..to]); }
  }

  /** Every update can be saved, whatever the response. */
  lemma UpdatesAreSaveable(raw: string)
    ensures Saveable(Parse(raw))
  {
    var response := TrimSpace(raw);
    MarkedIsSaveable(response, Index(response, START), Index(response, END));
  }

  /**
   Responses that are not read at all: nothing in them, the no-change marker anywhere, or one of the
   two markers missing. A response cut off before its end marker is refused.
   */
  lemma ParseWithoutBody(raw: string)
    ensures var s := TrimSpace(raw);
            && (s == "" ==> Parse(raw) == Refused(EmptyResponse))
            && (Has(s, NONE) ==> Parse(raw) == Update(MemoryUpdate(map[], false)))
            && (s != "" && !Has(s, NONE) && !Has(s, START) ==> Parse(raw) == Refused(MissingStart))
            && (!Has(s, NONE) && Has(s, START) && !Has(s, END) ==> Parse(raw) == Refused(MissingEnd))
  {
    var s := TrimSpace(raw);
    HasFirstChar("", NONE);
    HasFirstChar("", START);
  }

  lemma {:induction false} AllSkipped(parts: seq<string>, files: Files)
    requires forall i :: 0 <= i < |parts| ==> !Has(parts[i], ">>>")
    ensures ParseParts(parts, files) == Ok(files)
    decreases |parts|
  {
    if parts != [] {
      PartWithoutBrackets(parts[0]);
      AllSkipped(parts[1..], files);
    }
  }

  /** A body without closing brackets holds no files, and is refused. */
  lemma NoBracketsNoFiles(body: string)
    requires !Has(body, ">>>")
    ensures ParseBody(body) == Refused(NoFiles)
  {
    var a, b := TrimSplit(body);
    if Has(TrimSpace(body), ">>>") { HasInside(a, TrimSpace(body), b, ">>>"); }
    PiecesInside(TrimSpace(body), FILE, ">>>");
    AllSkipped(Split(TrimSpace(body), FILE), map[]);
  }

  // ----- where markers can occur -----

  /** Three opening brackets, then neither a bracket of that kind nor a line break. */
  predicate Marker(p: string) {
    && |p| > 3 && p[..3] == "<<<"
    && forall k :: 3 <= k < |p| ==> p[k] != '<' && p[k] != '\n'
  }

  lemma MarkersAreMarkers()
    ensures Marker(START) && Marker(END) && Marker(FILE) && Marker(NONE)
    ensures START[3] == 'M' && END[3] == 'E' && FILE[3] == 'F' && NONE[3] == 'N'
  {}

  lemma NoLineBreak(p: string)
    requires Marker(p)
    ensures '\n' !in p
  {
    assert forall k :: 0 <= k < 3 ==> p[k] == p[..3][k];
  }

  /** No marker straddles the point where another marker begins. */
  lemma NoStraddle(a: string, q: string, p: string, i: int)
    requires Marker(p) && |q| >= 3 && q[..3] == "<<<"
    requires At(a + q, p, i)
    ensures At(a, p, i) || (|a| <= i && At(q, p, i - |a|))
  {
    AtConcat(a, q, p, i);
    var s, j := a + q, |a| - i;
    assert q[0] == q[..3][0] && q[1] == q[..3][1] && q[2] == q[..3][2];
    if 3 <= j < |p| {
      assert s[i + j] == q[0];
      NotAt(s, p, i, j);
    } else if 1 <= j < 3 {
      assert s[i + 3] == q[3 - j];
      NotAt(s, p, i, 3);
    }
  }

  lemma HasStraddle(a: string, q: string, p: string)
    requires Marker(p) && |q| >= 3 && q[..3] == "<<<"
    requires !Has(a, p) && !Has(q, p)
    ensures !Has(a + q, p)
  {
    forall i ensures !At(a + q, p, i) {
      if At(a + q, p, i) { NoStraddle(a, q, p, i); }
    }
  }

  /** A text that is one marker, or begins like one, holds no marker that differs from it at the fourth character. */
  lemma OneMarker(h: string, p: string)
    requires Marker(p) && |h| > 3 && (forall k :: 3 <= k < |h| ==> h[k] != '<') && h[3] != p[3]
    ensures !Has(h, p)
  {
    assert p[0] == p[..3][0] && p[1] == p[..3][1] && p[2] == p[..3][2];
    forall i ensures !At(h, p, i) {
      if i == 0 { NotAt(h, p, i, 3); }
      else if i == 1 { NotAt(h, p, i, 2); }
      else if i == 2 { NotAt(h, p, i, 1); }
      else { NotAt(h, p, i, 0); }
    }
  }

  /** The no-change marker does not straddle the end of the end marker. */
  lemma NoneAfterEnd(a: string, b: string)
    requires !Has(a + END, NONE) && !Has(b, NONE)
    ensures !Has(a + END + b, NONE)
  {
    var c := a + END;
    var n, m := |NONE|, |c|;
    assert c[m - 1] == END[|END| - 1] == '>' && c[m - 2] == END[|END| - 2] == '>' && c[m - 3] == END[|END| - 3] == '>';
    assert NONE[n - 4] == 'S' && forall k :: 0 <= k < n - 3 ==> NONE[k] != '>';
    forall i ensures !At(c + b, NONE, i) {
      var j := m - i;
      if 1 <= j <= n - 3 {
        NotAt(c + b, NONE, i, j - 1);
      } else if n - 3 < j < n {
        NotAt(c + b, NONE, i, n - 4);
      } else if At(c + b, NONE, i) {
        AtConcat(c, b, NONE, i);
      }
    }
  }

  lemma MarkersDiffer()
    ensures !Has(START, NONE) && !Has(START, END) && !Has(END, NONE)
  {
    MarkersAreMarkers();
    OneMarker(START, NONE);
    OneMarker(START, END);
    OneMarker(END, NONE);
  }

  /**
   The parser fails at run time exactly on a response that has both markers, no no-change marker,
   and its first end marker before its first start marker.
   */
  lemma PanicsExactlyWhenEndComesFirst(raw: string)
    ensures var s := TrimSpace(raw);
            Parse(raw) == Panics <==>
              !Has(s, NONE) && Has(s, START) && Has(s, END) && Index(s, END) < Index(s, START)
  {
    var s := TrimSpace(raw);
    if Has(s, START) && Has(s, END) {
      MarkersDoNotOverlap(s, Index(s, START), Index(s, END));
    }
  }

  /** The shortest such response. */
  lemma EndThenStartPanics()
    ensures Parse(END + START) == Panics
  {
    var s := END + START;
    assert s[0] == END[0] && s[|s| - 1] == START[|START| - 1];
    TrimTrimmed(s);
    MarkersAreMarkers();
    MarkersDiffer();
    HasStraddle(END, START, NONE);
    assert s[0..|END|] == END && s[|END|..|s|] == START;
    assert At(s, END, 0) && At(s, START, |END|);
    assert s[3] == END[3];
    NotAt(s, START, 0, 3);
    PanicsExactlyWhenEndComesFirst(s);
  }

  lemma MarkersDoNotOverlap(s: string, from: int, to: int)
    requires At(s, START, from) && At(s, END, to)
    ensures to < from || from + |START| <= to
  {
    MarkersAreMarkers();
    var j := to - from;
    if j == 0 {
      AtChar(s, START, from, 3);
      AtChar(s, END, to, 3);
    } else if 0 < j < 3 {
      AtChar(s, START, from, 3);
      AtChar(s, END, to, 3 - j);
    } else if 3 <= j < |START| {
      AtChar(s, START, from, j);
      AtChar(s, END, to, 0);
    }
  }

  // ----- the response format -----

  function Header(name: string): string {
    FILE + (name + ".md>>>")
  }

  /** The files as the prompt asks for them, one after the other. */
  function Segments(fs: seq<(string, string)>): string {
    if fs == [] then "" else Header(fs[0].0) + Middle(fs[0].1) + Segments(fs[1..])
  }

  function Middle(content: string): string {
    "\n" + content + "\n"
  }

  function Render(fs: seq<(string, string)>, before: string, after: string): string {
    before + START + "\n" + Segments(fs) + END + after
  }

  /** Contents the format can carry: trimmed, and without the markers that structure it. */
  ghost predicate Carriable(content: string) {
    Trimmed(content) && !Has(content, FILE) && !Has(content, END) && !Has(content, NONE)
  }

  /** Names the format can carry, valid or not: trimmed, and without angle brackets. */
  predicate PlainName(name: string) {
    Trimmed(name) && forall i :: 0 <= i < |name| ==> name[i] != '<' && name[i] != '>'
  }

  lemma ValidIsPlain(name: string)
    requires ValidName(name)
    ensures PlainName(name)
  {
    assert forall i :: 0 <= i < |name| ==> IsNameChar(name[i]);
  }

  ghost predicate CarriableFiles(fs: seq<(string, string)>) {
    forall i :: 0 <= i < |fs| ==> PlainName(fs[i].0) && Carriable(fs[i].1)
  }

  lemma HeaderHasNone(name: string, p: string)
    requires PlainName(name) && (p == END || p == NONE)
    ensures !Has(Header(name), p)
  {
    MarkersAreMarkers();
    var h := Header(name);
    assert h[3] == FILE[3];
    assert forall k :: 3 <= k < |h| ==> h[k] != '<';
    OneMarker(h, p);
  }

  lemma {:induction false} SegmentsHaveNone(fs: seq<(string, string)>, p: string)
    requires CarriableFiles(fs) && (p == END || p == NONE)
    ensures !Has(Segments(fs), p)
    decreases |fs|
  {
    MarkersAreMarkers();
    if fs != [] {
      var h, content, rest := Header(fs[0].0), fs[0].1, Segments(fs[1..]);
      NoLineBreak(p);
      HeaderHasNone(fs[0].0, p);
      SegmentsHaveNone(fs[1..], p);
      HasSeparated(content, '\n', rest, p);
      HasSeparated(h, '\n', content + "\n" + rest, p);
      Regroup(h, "\n", content, "\n", rest);
      Assoc(h + "\n", content, "\n" + rest);
      Assoc(content, "\n", rest);
      Assoc(h, Middle(content), rest);
    }
  }

  /** What is left of the segments once the last line breaks are trimmed. */
  function Body(fs: seq<(string, string)>): string
    requires fs != []
    decreases |fs|
  {
    if |fs| == 1 then Header(fs[0].0) + Ending(fs[0].1)
    else Header(fs[0].0) + Middle(fs[0].1) + Body(fs[1..])
  }

  function Ending(content: string): string {
    if content == "" then "" else "\n" + content
  }

  lemma EndingIsTrimmedMiddle(h: string, content: string) returns (b: string)
    requires h != "" && Trimmed(h) && Trimmed(content)
    ensures Middle(content) == Ending(content) + b && Blank(b) && b != "" && b[|b| - 1] == '\n'
    ensures Trimmed(h + Ending(content))
  {
    b := if content == "" then "\n\n" else "\n";
    var t := h + Ending(content);
    assert t[|t| - 1] == if content == "" then h[|h| - 1] else content[|content| - 1];
  }

  lemma HeaderTrimmed(name: string)
    ensures var h := Header(name); |h| > 3 && h[..3] == "<<<" && h[0] == '<' && Trimmed(h)
  {
    MarkersAreMarkers();
    var h := Header(name);
    assert h[..3] == FILE[..3];
    assert h[0] == h[..3][0] && h[|h| - 1] == '>';
  }

  lemma {:induction false} BodyIsTrimmedSegments(fs: seq<(string, string)>) returns (b: string)
    requires fs != [] && CarriableFiles(fs)
    ensures Segments(fs) == Body(fs) + b && Blank(b) && b != "" && b[|b| - 1] == '\n'
    ensures Trimmed(Body(fs)) && Body(fs) != ""
    decreases |fs|
  {
    var h, content := Header(fs[0].0), fs[0].1;
    HeaderTrimmed(fs[0].0);
    if |fs| == 1 {
      b := EndingIsTrimmedMiddle(h, content);
      assert Segments(fs[1..]) == "";
      Assoc(h, Ending(content), b);
      assert h + Middle(content) + "" == h + Middle(content);
    } else {
      b := BodyIsTrimmedSegments(fs[1..]);
      var t := Body(fs[1..]);
      Assoc(h + Middle(content), t, b);
      assert (h + Middle(content))[0] == h[0];
      TrimmedAround(h + Middle(content), t, "");
      assert h + Middle(content) + t + "" == h + Middle(content) + t;
    }
  }

  // ----- reading the segments back -----

  lemma TrimAfterTrimRight(w: string)
    ensures TrimSpace(TrimRight(w)) == TrimSpace(w)
  {
    var r := TrimRight(w);
    var b := TrimRightSplit(w);
    var a, b' := TrimSplit(r);
    Assoc(a + TrimSpace(r), b', b);
    TrimPad(a, TrimSpace(r), b' + b);
  }

  lemma {:induction false} TrimLeftTwice(w: string)
    ensures TrimLeft(TrimLeft(w)) == TrimLeft(w)
  {
    TrimLeftPad("", TrimLeft(w));
    assert "" + TrimLeft(w) == TrimLeft(w);
  }

  lemma ClosingBracket(head: string, w: string)
    requires '>' !in head
    ensures Index(head + ">>>" + w, ">>>") == |head|
  {
    var part, n := head + ">>>" + w, |head|;
    assert part[n..n + 3] == ">>>";
    forall i | 0 <= i < n ensures !At(part, ">>>", i) {
      assert part[i] == head[i];
      NotAt(part, ">>>", i, 0);
    }
    FirstAt(part, ">>>", n);
  }

  lemma PartPieces(head: string, w: string)
    ensures var part := head + ">>>" + w; part[..|head|] == head && part[|head| + 3..] == w
  {}

  /** The file that a name, as written, and a content stand for: the suffix may be there or not. */
  function Named(name: string, content: string): Part {
    var n := TrimSuffix(TrimSpace(name), ".md");
    if ValidName(n) then File(n, TrimSpace(content)) else Bad(n)
  }

  /** A part is read as what stands before its first closing brackets and what stands after them. */
  lemma PartIsNamed(head: string, w: string)
    requires '>' !in head
    ensures ParsePart(head + ">>>" + w) == Named(head, w)
  {
    var head', w' := TrimLeft(head), TrimRight(w);
    var a := TrimLeftSplit(head);
    assert head == a + head';
    assert Trimmed(">>>");
    TrimAround(head, ">>>", w);
    ClosingBracket(head', w');
    PartPieces(head', w');
    TrimLeftTwice(head);
    TrimAfterTrimRight(w);
  }

  /** A part without closing brackets is passed over. */
  lemma PartWithoutBrackets(raw: string)
    requires !Has(raw, ">>>")
    ensures ParsePart(raw) == Skip
  {
    var a, b := TrimSplit(raw);
    if Has(TrimSpace(raw), ">>>") { HasInside(a, TrimSpace(raw), b, ">>>"); }
  }

  lemma SuffixedName(name: string)
    requires PlainName(name)
    ensures TrimSuffix(TrimSpace(name + ".md"), ".md") == name && '>' !in name + ".md"
  {
    var f := name + ".md";
    assert f[|f| - 3..] == ".md" && f[..|f| - 3] == name;
    assert f[0] == if name == "" then '.' else name[0];
    TrimTrimmed(f);
  }

  /** A part that begins with a plain name and its closing bracket yields that file, if the name is valid. */
  lemma PartIsFile(name: string, w: string)
    requires PlainName(name)
    ensures ParsePart(name + ".md>>>" + w) == if ValidName(name) then File(name, TrimSpace(w)) else Bad(name)
  {
    NamedWithSuffix(name, w);
    assert name + ".md>>>" == name + ".md" + ">>>";
    PartIsNamed(name + ".md", w);
  }

  lemma NamedWithSuffix(name: string, w: string)
    requires PlainName(name)
    ensures '>' !in name + ".md"
    ensures Named(name + ".md", w) == if ValidName(name) then File(name, TrimSpace(w)) else Bad(name)
  {
    SuffixedName(name);
  }

  lemma NoFileMarkerInPart(name: string, content: string)
    requires PlainName(name) && Carriable(content)
    ensures !Has(name + ".md>>>" + Middle(content), FILE)
    ensures !Has(name + ".md>>>" + Ending(content), FILE)
  {
    var h := name + ".md>>>";
    NameHasNoFileMarker(name);
    NoLineBreak(FILE);
    HasFirstChar("", FILE);
    HasSeparated(content, '\n', "", FILE);
    HasSeparated(h, '\n', content + "\n", FILE);
    HasSeparated(h, '\n', content, FILE);
    PartText(h, content);
  }

  lemma NameHasNoFileMarker(name: string)
    requires PlainName(name)
    ensures !Has(name + ".md>>>", FILE) && Marker(FILE)
  {
    MarkersAreMarkers();
    HasFirstChar(name + ".md>>>", FILE);
  }

  lemma PartText(h: string, content: string)
    ensures content + "\n" + "" == content + "\n"
    ensures h + Middle(content) == h + "\n" + (content + "\n")
    ensures h + Ending(content) == if content == "" then h else h + "\n" + content
  {}

  lemma ContentSurvives(content: string)
    requires Trimmed(content)
    ensures TrimSpace(Middle(content)) == content
    ensures TrimSpace(Ending(content)) == content
  {
    TrimPad("\n", content, "\n");
    TrimPad("\n", content, "");
    assert "\n" + content + "" == "\n" + content;
  }

  function FilesOf(fs: seq<(string, string)>, files: Files): Files {
    if fs == [] then files else FilesOf(fs[1..], files[fs[0].0 := fs[0].1])
  }

  /** What reading the files one after the other gives: the first invalid name ends it. */
  function ReadBack(fs: seq<(string, string)>, files: Files): Result<Files, ParseError> {
    if fs == [] then Ok(files)
    else if !ValidName(fs[0].0) then Err(InvalidName(fs[0].0))
    else ReadBack(fs[1..], files[fs[0].0 := fs[0].1])
  }

  lemma {:induction false} ValidReadBack(fs: seq<(string, string)>, files: Files)
    requires forall i :: 0 <= i < |fs| ==> ValidName(fs[i].0)
    ensures ReadBack(fs, files) == Ok(FilesOf(fs, files))
    decreases |fs|
  {
    if fs != [] { ValidReadBack(fs[1..], files[fs[0].0 := fs[0].1]); }
  }

  lemma {:induction false} InvalidReadBack(fs: seq<(string, string)>, files: Files, k: nat)
    requires k < |fs| && !ValidName(fs[k].0) && forall i :: 0 <= i < k ==> ValidName(fs[i].0)
    ensures ReadBack(fs, files) == Err(InvalidName(fs[k].0))
    decreases |fs|
  {
    if k > 0 {
      assert fs[1..][k - 1] == fs[k] && forall i :: 0 <= i < k - 1 ==> fs[1..][i] == fs[i + 1];
      InvalidReadBack(fs[1..], files[fs[0].0 := fs[0].1], k - 1);
    }
  }

  /** Of several files with one name the last one counts. */
  lemma {:induction false} LastFileCounts(fs: seq<(string, string)>, files: Files, k: nat)
    requires k < |fs| && forall i :: k < i < |fs| ==> fs[i].0 != fs[k].0
    ensures fs[k].0 in FilesOf(fs, files) && FilesOf(fs, files)[fs[k].0] == fs[k].1
    decreases |fs|
  {
    var rest, files' := fs[1..], files[fs[0].0 := fs[0].1];
    if k > 0 {
      assert rest[k - 1] == fs[k] && forall i :: k - 1 < i < |rest| ==> rest[i] == fs[i + 1];
      LastFileCounts(rest, files', k - 1);
    } else {
      OthersKeepFile(rest, files', fs[0].0);
    }
  }

  lemma {:induction false} OthersKeepFile(fs: seq<(string, string)>, files: Files, name: string)
    requires name in files && forall i :: 0 <= i < |fs| ==> fs[i].0 != name
    ensures name in FilesOf(fs, files) && FilesOf(fs, files)[name] == files[name]
    decreases |fs|
  {
    if fs != [] {
      assert forall i :: 0 <= i < |fs[1..]| ==> fs[1..][i] == fs[i + 1];
      OthersKeepFile(fs[1..], files[fs[0].0 := fs[0].1], name);
    }
  }

  lemma ReadFile(name: string, w: string, rest: seq<string>, files: Files)
    requires PlainName(name)
    ensures ParseParts([name + ".md>>>" + w] + rest, files)
         == if ValidName(name) then ParseParts(rest, files[name := TrimSpace(w)]) else Err(InvalidName(name))
  {
    PartIsFile(name, w);
    var part := name + ".md>>>" + w;
    assert ([part] + rest)[0] == part && ([part] + rest)[1..] == rest;
  }

  lemma SplitAtFileMarker(x: string, rest: string)
    requires !Has(x, FILE)
    ensures Split(x + (FILE + rest), FILE) == [x] + Split(rest, FILE)
  {
    MarkersAreMarkers();
    var q := FILE + rest;
    assert q[..3] == FILE[..3];
    forall k | 0 <= k < |x| ensures !At(x + q, FILE, k) {
      if At(x + q, FILE, k) { NoStraddle(x, q, FILE, k); }
    }
    Assoc(x, FILE, rest);
    SplitFirst(x, FILE, rest);
  }

  lemma SplitAtHeader(x: string, name: string, rest: string)
    requires !Has(x, FILE)
    ensures Split(x + (Header(name) + rest), FILE) == [x] + Split(name + ".md>>>" + rest, FILE)
  {
    Assoc(FILE, name + ".md>>>", rest);
    SplitAtFileMarker(x, name + ".md>>>" + rest);
  }

  lemma SecondOn(x: string, parts: seq<string>)
    ensures ([x] + parts)[0] == x && ([x] + parts)[1..] == parts
  {}

  /** Splitting the body at the file markers and reading the parts recovers the files in order. */
  lemma {:induction false} PartsOfBody(x: string, fs: seq<(string, string)>, files: Files)
    requires fs != [] && CarriableFiles(fs) && !Has(x, FILE)
    ensures Split(x + Body(fs), FILE)[0] == x
    ensures ParseParts(Split(x + Body(fs), FILE)[1..], files) == ReadBack(fs, files)
    decreases |fs|
  {
    var name, content := fs[0].0, fs[0].1;
    var h := name + ".md>>>";
    NoFileMarkerInPart(name, content);
    ContentSurvives(content);
    if |fs| == 1 {
      SplitAtHeader(x, name, Ending(content));
      SplitNone(h + Ending(content), FILE);
      ReadFile(name, Ending(content), [], files);
      SecondOn(x, [h + Ending(content)]);
      assert [h + Ending(content)] + [] == [h + Ending(content)];
    } else {
      var part, rest := h + Middle(content), Body(fs[1..]);
      Assoc(Header(name), Middle(content), rest);
      Assoc(h, Middle(content), rest);
      SplitAtHeader(x, name, Middle(content) + rest);
      var parts := Split(part + rest, FILE);
      PartsOfBody(part, fs[1..], files[name := content]);
      ReadFile(name, Middle(content), parts[1..], files);
      SecondOn(x, parts);
      assert [part] + parts[1..] == parts;
    }
  }

  lemma ParseBodyOf(fs: seq<(string, string)>)
    requires fs != [] && CarriableFiles(fs)
    ensures ParseBody("\n" + Segments(fs))
         == match ReadBack(fs, map[])
            case Err(e) => Refused(e)
            case Ok(files) => if files == map[] then Refused(NoFiles) else Update(MemoryUpdate(files, true))
  {
    var b := BodyIsTrimmedSegments(fs);
    TrimPad("\n", Body(fs), b);
    Assoc("\n", Body(fs), b);
    MarkersAreMarkers();
    HasFirstChar("", FILE);
    PartsOfBody("", fs, map[]);
    assert "" + Body(fs) == Body(fs);
    var parts := Split(Body(fs), FILE);
    assert ParsePart(parts[0]) == Skip;
  }

  lemma {:induction false} FilesNotEmpty(fs: seq<(string, string)>, files: Files)
    ensures FilesOf(fs, files).Keys == files.Keys + (set i | 0 <= i < |fs| :: fs[i].0)
    decreases |fs|
  {
    if fs != [] {
      FilesNotEmpty(fs[1..], files[fs[0].0 := fs[0].1]);
      assert forall i :: 0 <= i < |fs| ==> fs[i] == if i == 0 then fs[0] else fs[1..][i - 1];
      assert forall i :: 0 <= i < |fs[1..]| ==> fs[1..][i] == fs[i + 1];
      assert (set i | 0 <= i < |fs| :: fs[i].0) == {fs[0].0} + (set i | 0 <= i < |fs[1..]| :: fs[1..][i].0);
    }
  }

  // ----- the round trip -----

  /** What the text around the markers must not contain for the first markers to be the format's own. */
  ghost predicate Chatter(before: string, after: string) {
    !Has(before, START) && !Has(before, END) && !Has(before, NONE) && !Has(after, NONE)
  }

  /** A response with its surroundings trimmed; `z` is the text between the markers without its last line break. */
  function Framed(before: string, z: string, after: string): string {
    before + START + "\n" + (z + "\n") + (END + after)
  }

  lemma FramedHasNoNone(before: string, z: string, after: string)
    requires Chatter(before, after) && !Has(z, NONE)
    ensures !Has(Framed(before, z, after), NONE)
  {
    MarkersAreMarkers();
    MarkersDiffer();
    NoLineBreak(NONE);
    HasStraddle(before, START, NONE);
    assert "" + END == END;
    NoneAfterEnd("", after);
    HasSeparated(z, '\n', END + after, NONE);
    HasSeparated(before + START, '\n', z + "\n" + (END + after), NONE);
    Assoc(before + START + "\n", z + "\n", END + after);
  }

  lemma FramedStart(before: string, z: string, after: string)
    requires !Has(before, START)
    ensures Index(Framed(before, z, after), START) == |before|
  {
    MarkersAreMarkers();
    var rest := "\n" + (z + "\n") + (END + after);
    var q, s := START + rest, Framed(before, z, after);
    assert s == before + q by {
      Assoc(before, START, rest);
      Assoc(before + START, "\n" + (z + "\n"), END + after);
      Assoc(before + START, "\n", z + "\n");
    }
    assert q[..3] == START[..3];
    forall k | 0 <= k < |before| ensures !At(before + q, START, k) {
      if At(before + q, START, k) { NoStraddle(before, q, START, k); }
    }
    assert At(q, START, 0);
    AtShift(before, q, START, 0);
    FirstAt(before + q, START, |before|);
  }

  lemma FramedEnd(before: string, z: string, after: string)
    requires !Has(before, END) && !Has(z, END)
    ensures Index(Framed(before, z, after), END) == |before| + |START| + 1 + |z| + 1
  {
    MarkersAreMarkers();
    MarkersDiffer();
    NoLineBreak(END);
    HasStraddle(before, START, END);
    HasFirstChar("", END);
    HasSeparated(z, '\n', "", END);
    assert z + "\n" + "" == z + "\n";
    HasSeparated(before + START, '\n', z + "\n", END);
    var x, q := before + START + "\n" + (z + "\n"), END + after;
    assert q[..3] == END[..3];
    forall k | 0 <= k < |x| ensures !At(x + q, END, k) {
      if At(x + q, END, k) { NoStraddle(x, q, END, k); }
    }
    assert At(q, END, 0);
    AtShift(x, q, END, 0);
    FirstAt(x + q, END, |x|);
  }

  lemma ChatterTrimmed(before: string, after: string)
    requires Chatter(before, after)
    ensures Chatter(TrimLeft(before), TrimRight(after))
  {
    var a := TrimLeftSplit(before);
    var b := TrimRightSplit(after);
    forall p | Has(TrimLeft(before), p) ensures Has(before, p) {
      HasInside(a, TrimLeft(before), "", p);
      assert a + TrimLeft(before) + "" == before;
    }
    forall p | Has(TrimRight(after), p) ensures Has(after, p) {
      HasInside("", TrimRight(after), b, p);
      assert "" + TrimRight(after) + b == after;
    }
  }

  /** Trimming a rendered response leaves the frame, with the surroundings trimmed on their outer sides. */
  lemma RenderTrims(before: string, z: string, after: string)
    ensures TrimSpace(before + START + "\n" + (z + "\n") + END + after) == Framed(TrimLeft(before), z, TrimRight(after))
  {
    var mid := "\n" + (z + "\n");
    var core := START + mid + END;
    assert core[0] == START[0] == '<' && core[|core| - 1] == END[|END| - 1] == '>';
    TrimAround(before, core, after);
    FrameCore(before, mid, after);
    FrameCore(TrimLeft(before), mid, TrimRight(after));
    Assoc(before + START, "\n", z + "\n");
    Assoc(TrimLeft(before) + START, "\n", z + "\n");
    Assoc(TrimLeft(before) + START + mid, END, TrimRight(after));
  }

  lemma FrameCore(before: string, mid: string, after: string)
    ensures before + (START + mid + END) + after == before + START + mid + END + after
  {
    Assoc(before, START + mid, END);
    Assoc(before, START, mid);
  }

  lemma ParseRendered(fs: seq<(string, string)>, before: string, after: string)
    requires fs != [] && CarriableFiles(fs) && Chatter(before, after)
    ensures Parse(Render(fs, before, after)) == ParseBody("\n" + Segments(fs))
  {
    var z := SegmentsEnd(fs);
    RenderTrims(before, z, after);
    ChatterTrimmed(before, after);
    ParseFramed(Render(fs, before, after), TrimLeft(before), z, TrimRight(after));
  }

  /**
   Rendering files in the prompted format, in any order and with marker-free text around them,
   and parsing the result gives back exactly those files.
   */
  lemma RoundTrip(fs: seq<(string, string)>, before: string, after: string)
    requires fs != [] && CarriableFiles(fs) && Chatter(before, after)
    requires forall i :: 0 <= i < |fs| ==> ValidName(fs[i].0)
    ensures Parse(Render(fs, before, after)) == Update(MemoryUpdate(FilesOf(fs, map[]), true))
  {
    ParseRendered(fs, before, after);
    ParseBodyOf(fs);
    ValidReadBack(fs, map[]);
    FilesNotEmpty(fs, map[]);
    assert fs[0].0 in FilesOf(fs, map[]);
  }

  /** One invalid name, and the whole response is refused, with the first such name, whatever else it holds. */
  lemma InvalidNameRefusesAll(fs: seq<(string, string)>, before: string, after: string, k: nat)
    requires CarriableFiles(fs) && Chatter(before, after)
    requires k < |fs| && !ValidName(fs[k].0) && forall i :: 0 <= i < k ==> ValidName(fs[i].0)
    ensures Parse(Render(fs, before, after)) == Refused(InvalidName(fs[k].0))
  {
    ParseRendered(fs, before, after);
    ParseBodyOf(fs);
    InvalidReadBack(fs, map[], k);
  }

  lemma ParseFramed(raw: string, before: string, z: string, after: string)
    requires TrimSpace(raw) == Framed(before, z, after)
    requires Chatter(before, after) && !Has(z, END) && !Has(z, NONE)
    ensures Parse(raw) == ParseBody("\n" + (z + "\n"))
  {
    FramedHasNoNone(before, z, after);
    FramedStart(before, z, after);
    FramedEnd(before, z, after);
    FramedBody(before, z, after);
  }

  lemma SegmentsEndInLineBreak(fs: seq<(string, string)>)
    requires fs != [] && CarriableFiles(fs)
    ensures var segs := Segments(fs); segs != "" && segs[|segs| - 1] == '\n'
  {
    var b := BodyIsTrimmedSegments(fs);
  }

  lemma SegmentsEnd(fs: seq<(string, string)>) returns (z: string)
    requires fs != [] && CarriableFiles(fs)
    ensures Segments(fs) == z + "\n" && !Has(z, END) && !Has(z, NONE)
  {
    SegmentsEndInLineBreak(fs);
    z := WithoutLast(Segments(fs));
    NoMarkerBeforeLineBreak(fs, z);
  }

  lemma WithoutLast(s: string) returns (z: string)
    requires s != "" && s[|s| - 1] == '\n'
    ensures s == z + "\n"
  {
    z := s[..|s| - 1];
  }

  lemma NoMarkerBeforeLineBreak(fs: seq<(string, string)>, z: string)
    requires CarriableFiles(fs) && Segments(fs) == z + "\n"
    ensures !Has(z, END) && !Has(z, NONE)
  {
    SegmentsHaveNone(fs, END);
    SegmentsHaveNone(fs, NONE);
    forall p | Has(z, p) ensures Has(Segments(fs), p) {
      HasInside("", z, "\n", p);
      assert "" + z + "\n" == z + "\n";
    }
  }

  lemma FramedBody(before: string, z: string, after: string)
    ensures var s, from := Framed(before, z, after), |before| + |START|;
            from + 1 + |z| + 1 <= |s| && s[from..from + 1 + |z| + 1] == "\n" + (z + "\n")
  {
    var s, from := Framed(before, z, after), |before| + |START|;
    Assoc(before + START, "\n", z + "\n");
    assert s == (before + START) + ("\n" + (z + "\n")) + (END + after);
  }

  /** The files of a map, written in a given order of their names. */
  function Written(files: Files, order: seq<string>): (fs: seq<(string, string)>)
    requires forall n :: n in order ==> n in files
    ensures |fs| == |order| && forall i :: 0 <= i < |fs| ==> fs[i].0 == order[i] && fs[i].1 == files[order[i]]
  {
    seq(|order|, i requires 0 <= i < |order| => assert order[i] in order; (order[i], files[order[i]]))
  }

  lemma WrittenIsTheMap(files: Files, order: seq<string>)
    requires forall n :: n in order <==> n in files
    ensures FilesOf(Written(files, order), map[]) == files
  {
    var fs := Written(files, order);
    FilesNotEmpty(fs, map[]);
    assert forall i :: 0 <= i < |fs| ==> order[i] in order;
    FilesAgree(fs, map[], files);
    forall n | n in files ensures n in FilesOf(fs, map[]) {
      var i :| 0 <= i < |order| && order[i] == n;
      assert fs[i].0 == n;
    }
  }

  /** The result is the rendered map, whatever order its files were written in. */
  lemma RoundTripAnyOrder(files: Files, order: seq<string>, before: string, after: string)
    requires files != map[] && Chatter(before, after)
    requires forall n :: n in files ==> ValidName(n) && Carriable(files[n])
    requires forall n :: n in order <==> n in files
    ensures Parse(Render(Written(files, order), before, after)) == Update(MemoryUpdate(files, true))
  {
    var fs := Written(files, order);
    var n :| n in files;
    assert n in order;
    forall i | 0 <= i < |fs| ensures ValidName(fs[i].0) && PlainName(fs[i].0) && Carriable(fs[i].1) {
      assert order[i] in order;
      ValidIsPlain(fs[i].0);
    }
    RoundTrip(fs, before, after);
    WrittenIsTheMap(files, order);
  }

  lemma {:induction false} FilesAgree(fs: seq<(string, string)>, files: Files, all: Files)
    requires forall i :: 0 <= i < |fs| ==> fs[i].0 in all && fs[i].1 == all[fs[i].0]
    requires forall n :: n in files ==> n in all && files[n] == all[n]
    ensures forall n :: n in FilesOf(fs, files) ==> n in all && FilesOf(fs, files)[n] == all[n]
    decreases |fs|
  {
    if fs != [] { FilesAgree(fs[1..], files[fs[0].0 := fs[0].1], all); }
  }

  // ----- the prompt's own example -----

  /** The response format as the prompt spells it out. */
  const PROMPTED: string :=
    "<<<MEMORY_UPDATE>>>\n" + "<<<FILE:user.md>>>\n" + "<updated contents>\n"
    + "<<<FILE:projects.md>>>\n" + "<updated contents>\n" + "<<<END_MEMORY_UPDATE>>>"

  /** The example is a rendering, so a session that repeats it word for word is understood. */
  lemma PromptedFormatIsRendering()
    ensures PROMPTED == Render([("user", "<updated contents>"), ("projects", "<updated contents>")], "", "")
  {
    var c := "<updated contents>";
    var a, b := Header("user") + Middle(c), Header("projects") + Middle(c);
    SegmentsOfTwo("user", c, "projects", c);
    PromptedLines();
    assert a + (b + "") == a + b;
    assert "" + START + "\n" == "<<<MEMORY_UPDATE>>>\n";
    Assoc("<<<MEMORY_UPDATE>>>\n", a, b);
    assert "<<<MEMORY_UPDATE>>>\n" + a + b + END + "" == "<<<MEMORY_UPDATE>>>\n" + a + b + END;
    Assoc("<<<MEMORY_UPDATE>>>\n", "<<<FILE:user.md>>>\n", "<updated contents>\n");
    Assoc("<<<MEMORY_UPDATE>>>\n" + a, "<<<FILE:projects.md>>>\n", "<updated contents>\n");
  }

  lemma SegmentsOfTwo(n1: string, c1: string, n2: string, c2: string)
    ensures Segments([(n1, c1), (n2, c2)]) == (Header(n1) + Middle(c1)) + (Header(n2) + Middle(c2) + "")
  {
    var fs := [(n1, c1), (n2, c2)];
    assert fs[1..] == [(n2, c2)] && [(n2, c2)][1..] == [];
    assert Segments([]) == "" && Segments([(n2, c2)]) == Header(n2) + Middle(c2) + "";
  }

  lemma PromptedLines()
    ensures Header("user") + Middle("<updated contents>") == "<<<FILE:user.md>>>\n" + "<updated contents>\n"
    ensures Header("projects") + Middle("<updated contents>") == "<<<FILE:projects.md>>>\n" + "<updated contents>\n"
  {}

  // ----- the cycle -----

  datatype DreamError =
    | ContextDone | LoadFailed | SendFailed | SessionFailed | EmptyResult
    | Unparsable(why: ParseError)

  datatype Dreamt = Done | NoChange | Failed(error: DreamError) | Panicked

  /** What one session answers: a failed send, or the events of its channel. */
  datatype Answer = SendError | Events(events: seq<Claude.Event>)

  /** The reply a dream acts on: the first error result ends it, otherwise the last result counts. */
  function Reply(events: seq<Claude.Event>, sofar: string): Result<string, DreamError> {
    if events == [] then (if sofar == "" then Err(EmptyResult) else Ok(sofar))
    else if !Claude.IsResult(events[0]) then Reply(events[1..], sofar)
    else if Claude.IsErrorResult(events[0]) then Err(SessionFailed)
    else Reply(events[1..], events[0].result)
  }

  /** The files a dream writes, if it gets that far. */
  function Intended(cancelled: bool, loads: bool, answer: Answer): Files {
    if cancelled || !loads || answer.SendError? then map[]
    else match Reply(answer.events, "")
      case Err(_) => map[]
      case Ok(text) =>
        var p := Parse(text);
        if p.Update? then p.update.files else map[]
  }

  predicate AnyError(events: seq<Claude.Event>) {
    exists e :: e in events && Claude.IsErrorResult(e)
  }

  predicate IsLastResult(events: seq<Claude.Event>, k: nat) {
    k < |events| && Claude.IsResult(events[k]) && forall j :: k < j < |events| ==> !Claude.IsResult(events[j])
  }

  function Accepted(text: string): Result<string, DreamError> {
    if text == "" then Err(EmptyResult) else Ok(text)
  }

  predicate NoResult(events: seq<Claude.Event>) {
    forall e :: e in events ==> !Claude.IsResult(e)
  }

  lemma AnyErrorSplits(events: seq<Claude.Event>)
    requires events != []
    ensures AnyError(events) <==> Claude.IsErrorResult(events[0]) || AnyError(events[1..])
    ensures NoResult(events) <==> !Claude.IsResult(events[0]) && NoResult(events[1..])
  {
    assert events == [events[0]] + events[1..];
  }

  lemma LastResultShifts(events: seq<Claude.Event>, k: nat)
    requires IsLastResult(events, k)
    ensures if k == 0 then NoResult(events[1..]) else IsLastResult(events[1..], k - 1)
  {}

  /** An error result anywhere fails the dream; otherwise the last result counts, and an empty one, or none, fails. */
  lemma {:induction false} ReplyIs(events: seq<Claude.Event>, sofar: string)
    ensures AnyError(events) ==> Reply(events, sofar) == Err(SessionFailed)
    ensures !AnyError(events) ==>
              forall k: nat :: IsLastResult(events, k) ==> Reply(events, sofar) == Accepted(events[k].result)
    ensures NoResult(events) ==> Reply(events, sofar) == Accepted(sofar)
    decreases |events|
  {
    if events != [] {
      var rest := events[1..];
      ReplyIs(rest, if Claude.IsResult(events[0]) then events[0].result else sofar);
      AnyErrorSplits(events);
      forall k: nat | IsLastResult(events, k) && !AnyError(events)
        ensures Reply(events, sofar) == Accepted(events[k].result)
      {
        LastResultShifts(events, k);
        if k > 0 { assert rest[k - 1] == events[k]; }
      }
    }
  }

  method ReadReply(events: seq<Claude.Event>) returns (r: Result<string, DreamError>)
    ensures r == Reply(events, "")
    ensures r == Err(SessionFailed) <==> AnyError(events)
    ensures r.Err? ==> r.error == SessionFailed || r.error == EmptyResult
    ensures !AnyError(events) ==> forall k: nat :: IsLastResult(events, k) ==> r == Accepted(events[k].result)
    ensures NoResult(events) ==> r == Err(EmptyResult)
  {
    ReplyIs(events, "");
    var result := "";
    for i := 0 to |events|
      invariant Reply(events[i..], result) == Reply(events, "")
    {
      assert events[i..][0] == events[i] && events[i..][1..] == events[i + 1..];
      if Claude.IsResult(events[i]) {
        if events[i].subtype == Claude.Error { return Err(SessionFailed); }
        result := events[i].result;
      }
    }
    if result == "" { return Err(EmptyResult); }
    r := Ok(result);
  }

  class Dreamer {
    const store: Store

    constructor (store: Store)
      ensures this.store == store
    {
      this.store := store;
    }

    /**
     One cycle. `loads` is whether the memory directory could be read, `broken` the names whose
     write fails. Only a successful cycle touches the store, and it overrides exactly the files of
     the reply that could be written: the loop takes them in arbitrary order, as a Go map does.
     */
    method Dream(cancelled: bool, loads: bool, answer: Answer, broken: set<string>) returns (r: Dreamt)
      modifies store
      ensures store.files == old(store.files) + (Intended(cancelled, loads, answer) - broken)
      ensures r != Done ==> store.files == old(store.files)
      ensures r == Done <==> Intended(cancelled, loads, answer) != map[]
      ensures r == Failed(ContextDone) <==> cancelled
      ensures r == Failed(LoadFailed) <==> !cancelled && !loads
      ensures r == Failed(SendFailed) <==> !cancelled && loads && answer.SendError?
      ensures !cancelled && loads && answer.Events? ==>
                match Reply(answer.events, "")
                case Err(e) => r == Failed(e)
                case Ok(text) =>
                  match Parse(text)
                  case Panics => r == Panicked
                  case Refused(e) => r == Failed(Unparsable(e))
                  case Update(u) => r == if u.changed then Done else NoChange
    {
      if cancelled { return Failed(ContextDone); }
      if !loads { return Failed(LoadFailed); }
      if answer.SendError? { return Failed(SendFailed); }
      var reply := ReadReply(answer.events);
      if reply.Err? { return Failed(reply.error); }
      var parsed := ParseDreamResponse(reply.value);
      UpdatesAreSaveable(reply.value);
      match parsed {
        case Panics => return Panicked;
        case Refused(e) => return Failed(Unparsable(e));
        case Update(u) =>
          if !u.changed { return NoChange; }
          SaveAll(u.files, broken);
          return Done;
      }
    }

    method SaveAll(files: Files, broken: set<string>)
      requires forall n :: n in files ==> ValidName(n)
      modifies store
      ensures store.files == old(store.files) + (files - broken)
    {
      var todo := files.Keys;
      while todo != {}
        invariant todo <= files.Keys
        invariant store.files == old(store.files) + (files - todo - broken)
        decreases |todo|
      {
        var name :| name in todo;
        var _ := store.Save(name, files[name], name !in broken);
        SaveStep(files, todo, broken, name);
        todo := todo - {name};
      }
    }
  }

  lemma SaveStep(files: Files, todo: set<string>, broken: set<string>, name: string)
    requires name in todo && todo <= files.Keys
    ensures files - (todo - {name}) - broken
         == if name in broken then files - todo - broken else (files - todo - broken)[name := files[name]]
  {
    var l := files - (todo - {name}) - broken;
    var r := if name in broken then files - todo - broken else (files - todo - broken)[name := files[name]];
    assert forall n :: n in l <==> n in r;
  }

  /** A session whose last result is the rendering of some files makes the dream write exactly those files. */
  lemma DreamOfRendering(files: Files, order: seq<string>, before: string, after: string,
                         events: seq<Claude.Event>, last: nat)
    requires files != map[] && Chatter(before, after)
    requires forall n :: n in files ==> ValidName(n) && Carriable(files[n])
    requires forall n :: n in order <==> n in files
    requires !AnyError(events) && IsLastResult(events, last)
    requires events[last].result == Render(Written(files, order), before, after)
    ensures Intended(false, true, Events(events)) == files
  {
    RoundTripAnyOrder(files, order, before, after);
    assert events[last].result != "";
    ReplyIs(events, "");
  }
}
